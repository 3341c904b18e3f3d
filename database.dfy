/** The hosted database, held in memory: one sequence per table, in insertion order, and
    the counter from which new row ids are drawn. */
module Database {
  import opened Text
  import opened Records

  /** The id the database gives to the `n`-th row it creates. */
  function IdFor(n: nat): (id: Id)
    ensures id != [] && AllDigits(id)
  {
    NatToString(n)
  }

  /** Every id was issued before `next`. */
  ghost predicate Issued(ids: seq<Id>, next: nat)
  {
    forall i :: 0 <= i < |ids| ==> AllDigits(ids[i]) && ParseNat(ids[i]) < next
  }

  /** Every id was issued before `next`, and no two rows share one. */
  ghost predicate IssuedIds(ids: seq<Id>, next: nat)
  {
    Issued(ids, next) && (forall i, j :: 0 <= i < j < |ids| ==> ids[i] != ids[j])
  }

  /** Appending the id issued at `next` keeps the ids issued and distinct. */
  lemma IssueFresh(ids: seq<Id>, next: nat)
    requires IssuedIds(ids, next)
    ensures IdFor(next) !in ids
    ensures IssuedIds(ids + [IdFor(next)], next + 1)
  {
    ParseNatToString(next);
  }

  /** `ids` without the entries equal to `id`, in their order. */
  function DropId(ids: seq<Id>, id: Id): (r: seq<Id>)
    ensures forall x :: x in r <==> x in ids && x != id
  {
    if ids == [] then []
    else (if ids[0] == id then [] else [ids[0]]) + DropId(ids[1..], id)
  }

  /** Deleting rows keeps the remaining ids issued and distinct. */
  lemma {:induction false} DropIdKeepsIssued(ids: seq<Id>, id: Id, next: nat)
    requires IssuedIds(ids, next)
    ensures IssuedIds(DropId(ids, id), next)
  {
    if ids != [] {
      var rest := ids[1..];
      assert IssuedIds(rest, next) by {
        assert forall i :: 0 <= i < |rest| ==> rest[i] == ids[i + 1];
      }
      DropIdKeepsIssued(rest, id, next);
      var r := DropId(ids, id);
      var tail := DropId(rest, id);
      if ids[0] != id {
        assert r == [ids[0]] + tail;
        forall j | 0 < j < |r| ensures r[j] != ids[0] {
          assert r[j] == tail[j - 1] && tail[j - 1] in tail;
          var k :| 0 <= k < |rest| && rest[k] == tail[j - 1];
          assert rest[k] == ids[k + 1];
        }
      }
    }
  }

  /** The table's association owners: the professional of every `professional_services` row. */
  function OwnerIds(rows: seq<ProfessionalService>): (ids: seq<Id>)
    ensures |ids| == |rows| && forall i :: 0 <= i < |rows| ==> ids[i] == rows[i].professionalId
  {
    seq(|rows|, i requires 0 <= i < |rows| => rows[i].professionalId)
  }

  function AppointmentIds(rows: seq<Appointment>): (ids: seq<Id>)
    ensures |ids| == |rows| && forall i :: 0 <= i < |rows| ==> ids[i] == rows[i].id
  {
    seq(|rows|, i requires 0 <= i < |rows| => rows[i].id)
  }

  function ProfessionalIds(rows: seq<Professional>): (ids: seq<Id>)
    ensures |ids| == |rows| && forall i :: 0 <= i < |rows| ==> ids[i] == rows[i].id
  {
    seq(|rows|, i requires 0 <= i < |rows| => rows[i].id)
  }

  function AdminIds(rows: seq<Admin>): (ids: seq<Id>)
    ensures |ids| == |rows| && forall i :: 0 <= i < |rows| ==> ids[i] == rows[i].id
  {
    seq(|rows|, i requires 0 <= i < |rows| => rows[i].id)
  }

  lemma AppointmentIdsAppend(a: seq<Appointment>, b: seq<Appointment>)
    ensures AppointmentIds(a + b) == AppointmentIds(a) + AppointmentIds(b)
  {
    var l, r := AppointmentIds(a + b), AppointmentIds(a) + AppointmentIds(b);
    forall i | 0 <= i < |l| ensures l[i] == r[i] {
      if i < |a| {
        assert (a + b)[i] == a[i];
      } else {
        assert (a + b)[i] == b[i - |a|];
      }
    }
  }

  lemma {:induction false} AppointmentIdsWithout(rows: seq<Appointment>, id: Id)
    ensures AppointmentIds(WithoutId(rows, id)) == DropId(AppointmentIds(rows), id)
  {
    if rows != [] {
      var ids := AppointmentIds(rows);
      var head: seq<Appointment> := if rows[0].id == id then [] else [rows[0]];
      AppointmentIdsWithout(rows[1..], id);
      assert ids[0] == rows[0].id && ids[1..] == AppointmentIds(rows[1..]);
      assert AppointmentIds(head) == if ids[0] == id then [] else [ids[0]];
      AppointmentIdsAppend(head, WithoutId(rows[1..], id));
    }
  }

  lemma ProfessionalIdsAppend(a: seq<Professional>, b: seq<Professional>)
    ensures ProfessionalIds(a + b) == ProfessionalIds(a) + ProfessionalIds(b)
  {
    var l, r := ProfessionalIds(a + b), ProfessionalIds(a) + ProfessionalIds(b);
    forall i | 0 <= i < |l| ensures l[i] == r[i] {
      if i < |a| {
        assert (a + b)[i] == a[i];
      } else {
        assert (a + b)[i] == b[i - |a|];
      }
    }
  }

  lemma {:induction false} ProfessionalIdsWithout(rows: seq<Professional>, id: Id)
    ensures ProfessionalIds(WithoutProfessional(rows, id)) == DropId(ProfessionalIds(rows), id)
  {
    if rows != [] {
      var ids := ProfessionalIds(rows);
      var head: seq<Professional> := if rows[0].id == id then [] else [rows[0]];
      ProfessionalIdsWithout(rows[1..], id);
      assert ids[0] == rows[0].id && ids[1..] == ProfessionalIds(rows[1..]);
      assert ProfessionalIds(head) == if ids[0] == id then [] else [ids[0]];
      ProfessionalIdsAppend(head, WithoutProfessional(rows[1..], id));
    }
  }

  lemma AdminIdsAppend(a: seq<Admin>, b: seq<Admin>)
    ensures AdminIds(a + b) == AdminIds(a) + AdminIds(b)
  {
    var l, r := AdminIds(a + b), AdminIds(a) + AdminIds(b);
    forall i | 0 <= i < |l| ensures l[i] == r[i] {
      if i < |a| {
        assert (a + b)[i] == a[i];
      } else {
        assert (a + b)[i] == b[i - |a|];
      }
    }
  }

  lemma {:induction false} AdminIdsWithout(rows: seq<Admin>, id: Id)
    ensures AdminIds(WithoutAdmin(rows, id)) == DropId(AdminIds(rows), id)
  {
    if rows != [] {
      var ids := AdminIds(rows);
      var head: seq<Admin> := if rows[0].id == id then [] else [rows[0]];
      AdminIdsWithout(rows[1..], id);
      assert ids[0] == rows[0].id && ids[1..] == AdminIds(rows[1..]);
      assert AdminIds(head) == if ids[0] == id then [] else [ids[0]];
      AdminIdsAppend(head, WithoutAdmin(rows[1..], id));
    }
  }

  class Db {
    var appointments: seq<Appointment>
    var services: seq<Service>
    var professionals: seq<Professional>
    var professionalServices: seq<ProfessionalService>
    var admins: seq<Admin>
    var nextId: nat

    /** Primary keys: the ids of the rows the handlers create are issued and distinct. */
    ghost predicate Valid()
      reads this
    {
      IssuedIds(AppointmentIds(appointments), nextId)
      && IssuedIds(ProfessionalIds(professionals), nextId)
      && IssuedIds(AdminIds(admins), nextId)
      && Issued(OwnerIds(professionalServices), nextId)
    }

    constructor (services: seq<Service>)
      ensures Valid()
      ensures this.services == services
      ensures appointments == [] && professionals == [] && professionalServices == [] && admins == []
    {
      this.services := services;
      appointments, professionals, professionalServices, admins := [], [], [], [];
      nextId := 0;
    }

    /** Issues a fresh id (the database's default for the `id` column). */
    method NewId() returns (id: Id)
      requires Valid()
      modifies this`nextId
      ensures id == IdFor(old(nextId)) && nextId == old(nextId) + 1
      ensures AllDigits(id) && ParseNat(id) < nextId
      ensures id !in AppointmentIds(appointments) && id !in ProfessionalIds(professionals)
      ensures id !in AdminIds(admins)
      ensures IssuedIds(AppointmentIds(appointments) + [id], nextId)
      ensures IssuedIds(ProfessionalIds(professionals) + [id], nextId)
      ensures IssuedIds(AdminIds(admins) + [id], nextId)
      ensures id !in OwnerIds(professionalServices)
      ensures Valid()
    {
      IssueFresh(AppointmentIds(appointments), nextId);
      IssueFresh(ProfessionalIds(professionals), nextId);
      IssueFresh(AdminIds(admins), nextId);
      ParseNatToString(nextId);
      id := IdFor(nextId);
      nextId := nextId + 1;
    }
  }
}
