/** The home page: the sweep that marks past appointments as completed when the page loads,
    and the list of services it offers. */
module HomePage {
  import opened Records
  import opened Database
  import opened Sorting
  import opened AppointmentsRoute

  /** A row is due for the sweep when it is still scheduled and its date is before today. */
  predicate Due(a: Appointment, today: Date)
  {
    a.status == Scheduled && DateBefore(a.date, today)
  }

  /** What the sweep makes of one row. */
  function SweepRow(a: Appointment, today: Date): (r: Appointment)
    ensures r == a <==> !Due(a, today)
    ensures r == a.(status := r.status)
  {
    if Due(a, today) then a.(status := Completed) else a
  }

  /** The table after `update({ status: "completed" }).eq("status", "scheduled")
      .lt("appointment_date", today)`. */
  function Swept(rows: seq<Appointment>, today: Date): (r: seq<Appointment>)
    ensures |r| == |rows| && forall i :: 0 <= i < |rows| ==> r[i] == SweepRow(rows[i], today)
  {
    seq(|rows|, i requires 0 <= i < |rows| => SweepRow(rows[i], today))
  }

  /** `autoCompletePastAppointments`: the update runs row by row over the table; a failed
      update is only logged and leaves the table as it was. */
  method AutoCompletePastAppointments(db: Db, today: Date, fails: bool)
    requires db.Valid()
    modifies db`appointments
    ensures db.Valid()
    ensures db.appointments == if fails then old(db.appointments) else Swept(old(db.appointments), today)
  {
    if fails {
      return;
    }
    ghost var before := db.appointments;
    var i := 0;
    while i < |db.appointments|
      invariant 0 <= i <= |db.appointments| == |before|
      invariant forall k :: 0 <= k < i ==> db.appointments[k] == SweepRow(before[k], today)
      invariant forall k :: i <= k < |before| ==> db.appointments[k] == before[k]
      invariant AppointmentIds(db.appointments) == AppointmentIds(before)
    {
      var a := db.appointments[i];
      if a.status == Scheduled && DateBefore(a.date, today) {
        db.appointments := db.appointments[i := a.(status := Completed)];
      }
      i := i + 1;
    }
  }

  /** After the sweep no scheduled appointment lies before today, and a row changes exactly
      when it was due, and then only in its status. */
  lemma SweptLeavesNothingDue(rows: seq<Appointment>, today: Date)
    ensures forall i :: 0 <= i < |rows| ==> !Due(Swept(rows, today)[i], today)
    ensures forall i :: 0 <= i < |rows| ==> (Swept(rows, today)[i] != rows[i] <==> Due(rows[i], today))
    ensures forall i :: 0 <= i < |rows| && Due(rows[i], today) ==>
      Swept(rows, today)[i] == rows[i].(status := Completed)
  {
  }

  /** Running the sweep twice on the same day changes nothing more. */
  lemma SweptIdempotent(rows: seq<Appointment>, today: Date)
    ensures Swept(Swept(rows, today), today) == Swept(rows, today)
  {
    SweptLeavesNothingDue(rows, today);
  }

  /** The sweep only moves rows out of scheduled, so it keeps the double-booking rule. */
  lemma SweptKeepsNoDoubleBooking(rows: seq<Appointment>, today: Date)
    requires NoDoubleBooking(rows)
    ensures NoDoubleBooking(Swept(rows, today))
  {
    var r := Swept(rows, today);
    forall i, j | 0 <= i < j < |r| && r[i].status == Scheduled
      ensures !Occupies(r[j], r[i].professionalId, r[i].date, r[i].time)
    {
      assert r[i] == rows[i];
      if r[j].status == Scheduled {
        assert r[j] == rows[j];
      }
    }
  }

  /** A service comes before another when its name sorts first. */
  predicate NameBefore(a: Service, b: Service)
  {
    StringBefore(a.name, b.name)
  }

  function ActiveOnly(services: seq<Service>): (r: seq<Service>)
    ensures forall s :: s in r <==> s in services && s.active
  {
    if services == [] then []
    else (if services[0].active then [services[0]] else []) + ActiveOnly(services[1..])
  }

  /** `fetchServices`: `eq("active", true).order("name")`: the active services and no others,
      with their names in ascending order. */
  function ActiveServices(services: seq<Service>): (r: seq<Service>)
    ensures multiset(r) == multiset(ActiveOnly(services))
    ensures forall s :: s in r <==> s in services && s.active
    ensures forall i, j :: 0 <= i < j < |r| ==> !StringBefore(r[j].name, r[i].name)
  {
    var active := ActiveOnly(services);
    StringBeforeIsStrictOrder();
    assert StrictOrder(NameBefore);
    SortBySorted(active, NameBefore);
    var r := SortBy(active, NameBefore);
    assert forall s :: s in r <==> s in multiset(active);
    r
  }
}
