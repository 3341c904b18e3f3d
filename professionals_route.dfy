/** `/api/professionals`: POST (create a professional and its service associations), PUT
    (update it and replace its associations) and DELETE (remove it unless it has
    appointments), run one after another on the in-memory tables. */
module ProfessionalsRoute {
  import opened Text
  import opened Records
  import opened Database

  const NameRequired := "Nome é obrigatório"
  const EmailInUse := "Email já está em uso"
  const IdAndNameRequired := "ID e nome são obrigatórios"
  const ProfessionalIdRequired := "ID do profissional não fornecido"
  const HasAppointments := "Não é possível excluir profissional com agendamentos"

  /** The `serviceIds` field of a body: left out, `null`, or a list of service ids. PUT tells
      the first two apart (`serviceIds !== undefined`); POST does not (`serviceIds && ...`). */
  datatype ServiceIdsField = Absent | Null | Ids(ids: seq<Id>)

  /** The JSON body of POST and PUT. A missing or empty string is `""`; `specialties` is
      `None` when the body leaves it out or sends `null`. */
  datatype ProfessionalRequest = ProfessionalRequest(id: string, name: string, email: string, phone: string,
                                                     specialties: Option<seq<string>>,
                                                     serviceIds: ServiceIdsField)

  /** `value || null` for a string field. */
  function OrNull(value: string): (r: Option<string>)
    ensures r.None? <==> value == ""
    ensures r.Some? ==> r.value == value
  {
    if value == "" then None else Some(value)
  }

  /** `specialties || []`. */
  function SpecialtiesOrEmpty(specialties: Option<seq<string>>): (r: seq<string>)
    ensures specialties.Some? ==> r == specialties.value
    ensures specialties.None? ==> r == []
  {
    if specialties.Some? then specialties.value else []
  }

  /** The row POST inserts under id `id`. */
  function NewProfessional(id: Id, req: ProfessionalRequest): Professional
  {
    Professional(id, req.name, OrNull(req.email), OrNull(req.phone), SpecialtiesOrEmpty(req.specialties), true)
  }

  /** What PUT's update writes into an existing row; `active` is left as it was. */
  function Updated(p: Professional, req: ProfessionalRequest): Professional
  {
    p.(name := req.name, email := OrNull(req.email), phone := OrNull(req.phone),
       specialties := SpecialtiesOrEmpty(req.specialties))
  }

  /** `update(...).eq("id", id)` on the professionals table. */
  function UpdateWhere(rows: seq<Professional>, id: Id, req: ProfessionalRequest): (r: seq<Professional>)
    ensures |r| == |rows|
    ensures forall i :: 0 <= i < |rows| ==> r[i] == if rows[i].id == id then Updated(rows[i], req) else rows[i]
  {
    seq(|rows|, i requires 0 <= i < |rows| => if rows[i].id == id then Updated(rows[i], req) else rows[i])
  }

  /** The association rows `serviceIds.map(...)` builds for professional `pid`, in order. */
  function Relations(pid: Id, serviceIds: seq<Id>): (r: seq<ProfessionalService>)
    ensures |r| == |serviceIds|
    ensures forall i :: 0 <= i < |r| ==> r[i] == ProfessionalService(pid, serviceIds[i])
  {
    seq(|serviceIds|, i requires 0 <= i < |serviceIds| => ProfessionalService(pid, serviceIds[i]))
  }

  /** `delete().eq("professional_id", pid)` on the associations table. */
  function WithoutOwner(rows: seq<ProfessionalService>, pid: Id): (r: seq<ProfessionalService>)
    ensures forall x :: x in r <==> x in rows && x.professionalId != pid
  {
    if rows == [] then []
    else (if rows[0].professionalId == pid then [] else [rows[0]]) + WithoutOwner(rows[1..], pid)
  }

  /** The services associated with professional `pid`, in table order. */
  function Associations(rows: seq<ProfessionalService>, pid: Id): seq<Id>
  {
    if rows == [] then []
    else (if rows[0].professionalId == pid then [rows[0].serviceId] else []) + Associations(rows[1..], pid)
  }

  /** Whether some appointment refers to professional `pid` (the guard's `limit(1)` query). */
  predicate Referenced(appointments: seq<Appointment>, pid: Id)
  {
    exists i :: 0 <= i < |appointments| && appointments[i].professionalId == pid
  }

  /** POST. `fault` is the error code of a failed insert; `relationsFail` says whether the
      association insert fails, which is only logged. */
  method Post(db: Db, req: ProfessionalRequest, fault: Option<string>, relationsFail: bool)
    returns (resp: Response)
    requires db.Valid()
    modifies db`professionals, db`professionalServices, db`nextId
    ensures db.Valid()
    ensures req.name == "" || fault.Some? ==>
      db.professionals == old(db.professionals) && db.professionalServices == old(db.professionalServices)
    ensures req.name == "" ==> resp == Response(400, ErrorBody(NameRequired))
    ensures req.name != "" && fault.Some? ==>
      resp == if fault.value == UniqueViolationCode then Response(400, ErrorBody(EmailInUse)) else InternalError
    ensures req.name != "" && fault.None? ==>
      var p := NewProfessional(IdFor(old(db.nextId)), req);
      resp == Response(201, ProfessionalBody(p))
      && db.professionals == old(db.professionals) + [p]
      && db.professionalServices == old(db.professionalServices)
           + (if relationsFail || !req.serviceIds.Ids? then [] else Relations(p.id, req.serviceIds.ids))
      && p.id !in ProfessionalIds(old(db.professionals)) && p.id !in OwnerIds(old(db.professionalServices))
  {
    if req.name == "" {
      return Response(400, ErrorBody(NameRequired));
    }
    if fault.Some? {
      if fault.value == UniqueViolationCode {
        return Response(400, ErrorBody(EmailInUse));
      }
      return InternalError;
    }
    var id := db.NewId();
    var professional := NewProfessional(id, req);
    db.professionals := db.professionals + [professional];
    assert ProfessionalIds(db.professionals) == ProfessionalIds(old(db.professionals)) + [id];
    if req.serviceIds.Ids? && |req.serviceIds.ids| > 0 && !relationsFail {
      AddOwned(db.professionalServices, id, req.serviceIds.ids, db.nextId);
      db.professionalServices := db.professionalServices + Relations(id, req.serviceIds.ids);
    }
    resp := Response(201, ProfessionalBody(professional));
  }

  /** Association rows for an issued professional keep every owner issued. */
  lemma AddOwned(rows: seq<ProfessionalService>, pid: Id, serviceIds: seq<Id>, next: nat)
    requires Issued(OwnerIds(rows), next) && AllDigits(pid) && ParseNat(pid) < next
    ensures Issued(OwnerIds(rows + Relations(pid, serviceIds)), next)
  {
    var all := rows + Relations(pid, serviceIds);
    forall i | 0 <= i < |all| ensures AllDigits(OwnerIds(all)[i]) && ParseNat(OwnerIds(all)[i]) < next {
      if i >= |rows| {
        assert all[i] == Relations(pid, serviceIds)[i - |rows|];
      } else {
        assert all[i] == rows[i];
      }
    }
  }

  /** PUT. `updateFails` says whether the update itself fails, `deleteFails` whether the
      removal of the old associations fails (its result is not looked at), and
      `relationsFail` whether the insert of the new ones fails (only logged). A `null` list
      passes the `!== undefined` test: the old associations are removed, then reading its
      `length` throws, so the answer is 500 after the update and the delete took effect. */
  method Put(db: Db, req: ProfessionalRequest, updateFails: bool, deleteFails: bool, relationsFail: bool)
    returns (resp: Response)
    requires db.Valid()
    modifies db`professionals, db`professionalServices
    ensures db.Valid()
    ensures req.id == "" || req.name == "" ==>
      resp == Response(400, ErrorBody(IdAndNameRequired))
      && db.professionals == old(db.professionals) && db.professionalServices == old(db.professionalServices)
    ensures req.id != "" && req.name != "" && (updateFails || req.id !in ProfessionalIds(old(db.professionals))) ==>
      resp == InternalError
      && db.professionals == old(db.professionals) && db.professionalServices == old(db.professionalServices)
    ensures req.id != "" && req.name != "" && !updateFails && req.id in ProfessionalIds(old(db.professionals)) ==>
      db.professionals == UpdateWhere(old(db.professionals), req.id, req)
      && (req.serviceIds.Null? ==> resp == InternalError)
      && (!req.serviceIds.Null? ==>
            resp.status == 200 && resp.body.ProfessionalBody?
            && resp.body.professional in db.professionals && resp.body.professional.id == req.id)
      && db.professionalServices ==
           match req.serviceIds
           case Absent => old(db.professionalServices)
           case Null =>
             if deleteFails then old(db.professionalServices) else WithoutOwner(old(db.professionalServices), req.id)
           case Ids(ids) =>
             (if deleteFails then old(db.professionalServices) else WithoutOwner(old(db.professionalServices), req.id))
             + (if relationsFail then [] else Relations(req.id, ids))
  {
    if req.id == "" || req.name == "" {
      return Response(400, ErrorBody(IdAndNameRequired));
    }
    if updateFails || req.id !in ProfessionalIds(db.professionals) {
      // The update fails, or `.single()` finds no row to return.
      return InternalError;
    }
    var before := db.professionals;
    db.professionals := UpdateWhere(db.professionals, req.id, req);
    assert ProfessionalIds(db.professionals) == ProfessionalIds(before);
    var k :| 0 <= k < |before| && ProfessionalIds(before)[k] == req.id;
    var professional := db.professionals[k];
    var owner := ProfessionalIds(before)[k];
    assert AllDigits(owner) && ParseNat(owner) < db.nextId;
    if !req.serviceIds.Absent? {
      if !deleteFails {
        WithoutOwnerKeepsIssued(db.professionalServices, req.id, db.nextId);
        db.professionalServices := WithoutOwner(db.professionalServices, req.id);
      }
      if req.serviceIds.Null? {
        // `serviceIds.length` on null throws into the catch block.
        return InternalError;
      }
      if |req.serviceIds.ids| > 0 && !relationsFail {
        AddOwned(db.professionalServices, req.id, req.serviceIds.ids, db.nextId);
        db.professionalServices := db.professionalServices + Relations(req.id, req.serviceIds.ids);
      }
    }
    resp := Response(200, ProfessionalBody(professional));
  }

  lemma {:induction false} WithoutOwnerKeepsIssued(rows: seq<ProfessionalService>, pid: Id, next: nat)
    requires Issued(OwnerIds(rows), next)
    ensures Issued(OwnerIds(WithoutOwner(rows, pid)), next)
  {
    var r := WithoutOwner(rows, pid);
    forall i | 0 <= i < |r| ensures AllDigits(OwnerIds(r)[i]) && ParseNat(OwnerIds(r)[i]) < next {
      assert r[i] in r;
      var k :| 0 <= k < |rows| && rows[k] == r[i];
      assert OwnerIds(rows)[k] == r[i].professionalId;
    }
  }

  /** DELETE. `guardFails` says whether the query for the professional's appointments fails;
      its error is not looked at, so the guard is then passed. `deleteFails` says whether the
      delete fails. */
  method Delete(db: Db, professionalId: string, guardFails: bool, deleteFails: bool) returns (resp: Response)
    requires db.Valid()
    modifies db`professionals
    ensures db.Valid()
    ensures professionalId == "" ==>
      resp == Response(400, ErrorBody(ProfessionalIdRequired)) && db.professionals == old(db.professionals)
    ensures professionalId != "" && !guardFails && Referenced(db.appointments, professionalId) ==>
      resp == Response(400, ErrorBody(HasAppointments)) && db.professionals == old(db.professionals)
    ensures professionalId != "" && (guardFails || !Referenced(db.appointments, professionalId)) && deleteFails ==>
      resp == InternalError && db.professionals == old(db.professionals)
    ensures professionalId != "" && (guardFails || !Referenced(db.appointments, professionalId)) && !deleteFails ==>
      resp == Response(200, SuccessBody)
      && db.professionals == WithoutProfessional(old(db.professionals), professionalId)
  {
    if professionalId == "" {
      return Response(400, ErrorBody(ProfessionalIdRequired));
    }
    if !guardFails {
      var i := 0;
      while i < |db.appointments|
        invariant 0 <= i <= |db.appointments|
        invariant forall k :: 0 <= k < i ==> db.appointments[k].professionalId != professionalId
      {
        if db.appointments[i].professionalId == professionalId {
          return Response(400, ErrorBody(HasAppointments));
        }
        i := i + 1;
      }
    }
    if deleteFails {
      return InternalError;
    }
    ProfessionalIdsWithout(db.professionals, professionalId);
    DropIdKeepsIssued(ProfessionalIds(db.professionals), professionalId, db.nextId);
    db.professionals := WithoutProfessional(db.professionals, professionalId);
    resp := Response(200, SuccessBody);
  }

  /** The associations of a professional are the concatenation over the table's parts. */
  lemma {:induction false} AssociationsAppend(a: seq<ProfessionalService>, b: seq<ProfessionalService>, pid: Id)
    ensures Associations(a + b, pid) == Associations(a, pid) + Associations(b, pid)
  {
    if a == [] {
      assert a + b == b;
    } else {
      AssociationsAppend(a[1..], b, pid);
      assert (a + b)[0] == a[0] && (a + b)[1..] == a[1..] + b;
    }
  }

  /** The rows built for `pid` associate it with exactly the listed services, and nobody else
      with anything. */
  lemma {:induction false} AssociationsOfRelations(pid: Id, serviceIds: seq<Id>, q: Id)
    ensures Associations(Relations(pid, serviceIds), q) == if q == pid then serviceIds else []
  {
    if serviceIds != [] {
      AssociationsOfRelations(pid, serviceIds[1..], q);
      assert Relations(pid, serviceIds)[1..] == Relations(pid, serviceIds[1..]);
    }
  }

  /** Removing `pid`'s rows leaves it with no services and every other professional with its own. */
  lemma {:induction false} AssociationsWithoutOwner(rows: seq<ProfessionalService>, pid: Id, q: Id)
    ensures Associations(WithoutOwner(rows, pid), q) == if q == pid then [] else Associations(rows, q)
  {
    if rows != [] {
      AssociationsWithoutOwner(rows[1..], pid, q);
      var head: seq<ProfessionalService> := if rows[0].professionalId == pid then [] else [rows[0]];
      AssociationsAppend(head, WithoutOwner(rows[1..], pid), q);
    }
  }

  /** A professional nobody's rows point at has no services. */
  lemma {:induction false} AssociationsOfAbsent(rows: seq<ProfessionalService>, pid: Id)
    requires pid !in OwnerIds(rows)
    ensures Associations(rows, pid) == []
  {
    if rows != [] {
      assert OwnerIds(rows)[0] == rows[0].professionalId;
      assert forall i :: 0 <= i < |rows| - 1 ==> OwnerIds(rows[1..])[i] == OwnerIds(rows)[i + 1];
      AssociationsOfAbsent(rows[1..], pid);
    }
  }

  /** After a PUT whose deletes and inserts succeed, the professional's services are exactly the
      list sent, and every other professional keeps its own. */
  lemma PutReplacesAssociations(rows: seq<ProfessionalService>, pid: Id, serviceIds: seq<Id>, q: Id)
    ensures Associations(WithoutOwner(rows, pid) + Relations(pid, serviceIds), q)
            == if q == pid then serviceIds else Associations(rows, q)
  {
    AssociationsAppend(WithoutOwner(rows, pid), Relations(pid, serviceIds), q);
    AssociationsWithoutOwner(rows, pid, q);
    AssociationsOfRelations(pid, serviceIds, q);
  }

  /** If the insert of the new list fails after the delete succeeded, the professional is left
      with no services at all. */
  lemma PutFailedInsertLeavesNone(rows: seq<ProfessionalService>, pid: Id)
    ensures Associations(WithoutOwner(rows, pid) + [], pid) == []
  {
    assert WithoutOwner(rows, pid) + [] == WithoutOwner(rows, pid);
    AssociationsWithoutOwner(rows, pid, pid);
  }

  /** A professional created by POST is associated with exactly the services sent, and the
      other professionals' associations are untouched. */
  lemma PostAssociations(rows: seq<ProfessionalService>, pid: Id, serviceIds: seq<Id>, q: Id)
    requires pid !in OwnerIds(rows)
    ensures Associations(rows + Relations(pid, serviceIds), q)
            == if q == pid then serviceIds else Associations(rows, q)
  {
    AssociationsAppend(rows, Relations(pid, serviceIds), q);
    AssociationsOfRelations(pid, serviceIds, q);
    if q == pid {
      AssociationsOfAbsent(rows, pid);
    }
  }

  /** Every appointment names a professional that exists. */
  ghost predicate ProfessionalsExist(appointments: seq<Appointment>, professionals: seq<Professional>)
  {
    forall i :: 0 <= i < |appointments| ==> appointments[i].professionalId in ProfessionalIds(professionals)
  }

  /** The guard keeps appointments from losing their professional: deleting one nobody refers
      to keeps every appointment's professional in the table. */
  lemma DeleteKeepsProfessionalsExist(appointments: seq<Appointment>, professionals: seq<Professional>, pid: Id)
    requires ProfessionalsExist(appointments, professionals) && !Referenced(appointments, pid)
    ensures ProfessionalsExist(appointments, WithoutProfessional(professionals, pid))
  {
    ProfessionalIdsWithout(professionals, pid);
    forall i | 0 <= i < |appointments|
      ensures appointments[i].professionalId in ProfessionalIds(WithoutProfessional(professionals, pid))
    {
      assert appointments[i].professionalId != pid;
    }
  }

  /** When the guard's query fails, a professional with appointments is deleted anyway and
      its appointments are left pointing at nobody. */
  lemma FailedGuardOrphansAppointments()
    ensures exists appointments: seq<Appointment>, professionals: seq<Professional>, pid: Id ::
      ProfessionalsExist(appointments, professionals) && Referenced(appointments, pid)
      && !ProfessionalsExist(appointments, WithoutProfessional(professionals, pid))
  {
    var p := Professional("1", "Ana", None, None, [], true);
    var a := Appointment("2", "", Date(2025, 3, 14), Time(10, 0), "Bia", "11988880000", "s", "1", Scheduled);
    assert ProfessionalIds([p]) == ["1"];
    assert WithoutProfessional([p], "1") == [];
    assert [a][0].professionalId == "1";
    assert ProfessionalsExist([a], [p]) && Referenced([a], "1");
    assert !ProfessionalsExist([a], WithoutProfessional([p], "1"));
  }
}
