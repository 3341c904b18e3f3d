/** `/api/appointments`: GET (a client's appointments by phone), POST (validate, check the
    slot, insert) and PATCH (set a status), run one after another on the in-memory table. */
module AppointmentsRoute {
  import opened Text
  import opened Records
  import opened Database
  import opened Sorting

  /** The JSON body of POST; an absent or empty field is `""` or `None`. */
  datatype CreateRequest = CreateRequest(serviceId: string, professionalId: string,
                                         clientName: string, clientPhone: string,
                                         date: Option<Date>, time: Option<Time>)

  const FieldsRequired := "Todos os campos são obrigatórios"
  const SlotTaken := "Este horário já está ocupado"
  const IdAndStatusRequired := "ID do agendamento e status são obrigatórios"
  const PhoneRequired := "Telefone é obrigatório"

  /** One of the six fields is missing or empty (JavaScript falsiness). */
  predicate MissingField(b: CreateRequest)
  {
    b.serviceId == "" || b.professionalId == "" || b.clientName == "" || b.clientPhone == ""
    || b.date.None? || b.time.None?
  }

  /** `a` is a scheduled appointment of `professionalId` at `date`, `time`. */
  predicate Occupies(a: Appointment, professionalId: Id, date: Date, time: Time)
  {
    a.status == Scheduled && a.professionalId == professionalId && a.date == date && a.time == time
  }

  /** The rows the slot lookup selects: same professional, date and time, status scheduled. */
  function Occupants(rows: seq<Appointment>, professionalId: Id, date: Date, time: Time): (r: seq<Appointment>)
    ensures |r| <= |rows|
    ensures forall a :: a in r <==> a in rows && Occupies(a, professionalId, date, time)
  {
    if rows == [] then []
    else (if Occupies(rows[0], professionalId, date, time) then [rows[0]] else [])
         + Occupants(rows[1..], professionalId, date, time)
  }

  /** The integrity rule: no two scheduled appointments share professional, date and time. */
  ghost predicate NoDoubleBooking(rows: seq<Appointment>)
  {
    forall i, j :: 0 <= i < j < |rows| && rows[i].status == Scheduled ==>
      !Occupies(rows[j], rows[i].professionalId, rows[i].date, rows[i].time)
  }

  /** What `.single()` makes of a lookup: the row when there is exactly one, otherwise the
      "not exactly one row" error (for zero rows and for several alike). */
  datatype Lookup = Found(row: Appointment) | LookupError(code: string)

  function Single(matches: seq<Appointment>): Lookup
  {
    if |matches| == 1 then Found(matches[0]) else LookupError(NoSingleRowCode)
  }

  /** The row POST inserts: status scheduled, name and phone trimmed, the rest copied. */
  function NewAppointment(id: Id, createdAt: string, b: CreateRequest): (a: Appointment)
    requires !MissingField(b)
  {
    Appointment(id, createdAt, b.date.value, b.time.value, Trim(b.clientName), Trim(b.clientPhone),
                b.serviceId, b.professionalId, Scheduled)
  }

  datatype PostDecision = Reject(response: Response) | Insert

  /** The checks POST makes before inserting, given whether the lookup itself fails. */
  function DecidePost(rows: seq<Appointment>, b: CreateRequest, lookupFails: bool): PostDecision
  {
    if MissingField(b) then Reject(Response(400, ErrorBody(FieldsRequired)))
    else
      var lookup := if lookupFails then LookupError("lookup failed")
                    else Single(Occupants(rows, b.professionalId, b.date.value, b.time.value));
      if lookup.LookupError? && lookup.code != NoSingleRowCode then Reject(InternalError)
      else if lookup.Found? then Reject(Response(400, ErrorBody(SlotTaken)))
      else Insert
  }

  /** One POST as the table sees it. */
  datatype PostCall = PostCall(body: CreateRequest, now: string, lookupFails: bool, insertFails: bool)

  /** The table after `call`, the new row (if any) getting id `id`. */
  function PostTable(rows: seq<Appointment>, call: PostCall, id: Id): seq<Appointment>
  {
    if DecidePost(rows, call.body, call.lookupFails) == Insert && !call.insertFails
    then rows + [NewAppointment(id, call.now, call.body)]
    else rows
  }

  method Post(db: Db, b: CreateRequest, now: string, lookupFails: bool, insertFails: bool)
    returns (resp: Response)
    requires db.Valid()
    modifies db`appointments, db`nextId
    ensures db.Valid()
    ensures db.appointments == PostTable(old(db.appointments), PostCall(b, now, lookupFails, insertFails), IdFor(old(db.nextId)))
    ensures DecidePost(old(db.appointments), b, lookupFails).Reject? ==>
      resp == DecidePost(old(db.appointments), b, lookupFails).response
    ensures DecidePost(old(db.appointments), b, lookupFails) == Insert && insertFails ==> resp == InternalError
    ensures DecidePost(old(db.appointments), b, lookupFails) == Insert && !insertFails ==>
      resp == Response(201, AppointmentBody(NewAppointment(IdFor(old(db.nextId)), now, b)))
  {
    if MissingField(b) {
      return Response(400, ErrorBody(FieldsRequired));
    }
    var lookup: Lookup;
    if lookupFails {
      lookup := LookupError("lookup failed");
    } else {
      var matches := Occupants(db.appointments, b.professionalId, b.date.value, b.time.value);
      lookup := Single(matches);
    }
    if lookup.LookupError? && lookup.code != NoSingleRowCode {
      return InternalError;
    }
    if lookup.Found? {
      return Response(400, ErrorBody(SlotTaken));
    }
    if insertFails {
      return InternalError;
    }
    var id := db.NewId();
    var row := NewAppointment(id, now, b);
    db.appointments := db.appointments + [row];
    assert AppointmentIds(db.appointments) == AppointmentIds(old(db.appointments)) + [id];
    resp := Response(201, AppointmentBody(row));
  }

  /** No occupant is selected exactly when no row occupies the slot. */
  lemma {:induction false} NoOccupantsIff(rows: seq<Appointment>, p: Id, d: Date, t: Time)
    ensures |Occupants(rows, p, d, t)| == 0 <==> forall k :: 0 <= k < |rows| ==> !Occupies(rows[k], p, d, t)
  {
    if rows != [] {
      NoOccupantsIff(rows[1..], p, d, t);
      assert forall k :: 1 <= k < |rows| ==> rows[k] == rows[1..][k - 1];
    }
  }

  lemma RestOfNoDoubleBooking(rows: seq<Appointment>)
    requires rows != [] && NoDoubleBooking(rows)
    ensures NoDoubleBooking(rows[1..])
  {
    forall i, j | 0 <= i < j < |rows[1..]| && rows[1..][i].status == Scheduled
      ensures !Occupies(rows[1..][j], rows[1..][i].professionalId, rows[1..][i].date, rows[1..][i].time)
    {
      assert rows[1..][i] == rows[i + 1] && rows[1..][j] == rows[j + 1];
    }
  }

  /** Under the rule, a slot holds at most one occupant. */
  lemma {:induction false} AtMostOneOccupant(rows: seq<Appointment>, p: Id, d: Date, t: Time)
    requires NoDoubleBooking(rows)
    ensures |Occupants(rows, p, d, t)| <= 1
  {
    if rows != [] {
      RestOfNoDoubleBooking(rows);
      AtMostOneOccupant(rows[1..], p, d, t);
      if Occupies(rows[0], p, d, t) {
        assert forall k :: 0 <= k < |rows[1..]| ==> rows[1..][k] == rows[k + 1];
        NoOccupantsIff(rows[1..], p, d, t);
      }
    }
  }

  /** A taken slot is refused: with a scheduled appointment already at the professional's
      date and time, POST answers 400 "Este horário já está ocupado" and inserts nothing. */
  lemma PostRefusesTakenSlot(rows: seq<Appointment>, b: CreateRequest, k: nat)
    requires NoDoubleBooking(rows)
    requires !MissingField(b)
    requires k < |rows| && Occupies(rows[k], b.professionalId, b.date.value, b.time.value)
    ensures DecidePost(rows, b, false) == Reject(Response(400, ErrorBody(SlotTaken)))
    ensures forall call: PostCall, id :: call.body == b && !call.lookupFails ==> PostTable(rows, call, id) == rows
  {
    AtMostOneOccupant(rows, b.professionalId, b.date.value, b.time.value);
    NoOccupantsIff(rows, b.professionalId, b.date.value, b.time.value);
  }

  predicate SameSlot(a: Appointment, b: CreateRequest)
    requires !MissingField(b)
  {
    a.professionalId == b.professionalId && a.date == b.date.value && a.time == b.time.value
  }

  /** Only scheduled rows block a slot: cancelled or completed ones at the same professional,
      date and time leave it free, and a valid request is then inserted. */
  lemma PostIgnoresUnscheduled(rows: seq<Appointment>, b: CreateRequest)
    requires !MissingField(b)
    requires forall k :: 0 <= k < |rows| && SameSlot(rows[k], b) ==> rows[k].status != Scheduled
    ensures DecidePost(rows, b, false) == Insert
  {
    NoOccupantsIff(rows, b.professionalId, b.date.value, b.time.value);
  }

  /** A lookup failure other than "no single row" aborts with 500 and inserts nothing. */
  lemma PostAbortsOnLookupFailure(rows: seq<Appointment>, b: CreateRequest, call: PostCall, id: Id)
    requires !MissingField(b)
    requires call.body == b && call.lookupFails
    ensures DecidePost(rows, b, true) == Reject(InternalError)
    ensures PostTable(rows, call, id) == rows
  {
  }

  /** A POST keeps the rule: whatever it inserts lands in a free slot. */
  lemma PostKeepsNoDoubleBooking(rows: seq<Appointment>, call: PostCall, id: Id)
    requires NoDoubleBooking(rows)
    ensures NoDoubleBooking(PostTable(rows, call, id))
  {
    var b := call.body;
    if DecidePost(rows, b, call.lookupFails) == Insert && !call.insertFails {
      var row := NewAppointment(id, call.now, b);
      var rows' := rows + [row];
      AtMostOneOccupant(rows, b.professionalId, b.date.value, b.time.value);
      NoOccupantsIff(rows, b.professionalId, b.date.value, b.time.value);
      forall i, j | 0 <= i < j < |rows'| && rows'[i].status == Scheduled
        ensures !Occupies(rows'[j], rows'[i].professionalId, rows'[i].date, rows'[i].time)
      {
        if j == |rows| {
          assert !Occupies(rows[i], b.professionalId, b.date.value, b.time.value);
        }
      }
    }
  }

  /** The table after a series of POSTs, the database issuing ids from `next` on. */
  function AfterPosts(rows: seq<Appointment>, calls: seq<PostCall>, next: nat): seq<Appointment>
    decreases |calls|
  {
    if calls == [] then rows
    else AfterPosts(PostTable(rows, calls[0], IdFor(next)), calls[1..], next + 1)
  }

  /** Taken one after another, POSTs alone never create a double booking. */
  lemma {:induction false} PostsKeepNoDoubleBooking(rows: seq<Appointment>, calls: seq<PostCall>, next: nat)
    requires NoDoubleBooking(rows)
    ensures NoDoubleBooking(AfterPosts(rows, calls, next))
    decreases |calls|
  {
    if calls != [] {
      PostKeepsNoDoubleBooking(rows, calls[0], IdFor(next));
      PostsKeepNoDoubleBooking(PostTable(rows, calls[0], IdFor(next)), calls[1..], next + 1);
    }
  }

  /** `.single()` reports the same code for several rows as for none, so a slot that already
      holds two scheduled appointments (which POST alone never produces) is not seen as taken. */
  lemma PostOverlooksDoubleBookedSlot(rows: seq<Appointment>, b: CreateRequest)
    requires !MissingField(b)
    requires |Occupants(rows, b.professionalId, b.date.value, b.time.value)| >= 2
    ensures DecidePost(rows, b, false) == Insert
  {
  }

  /** PATCH: both fields required; the status is written with no check of the current one. */
  method Patch(db: Db, appointmentId: string, status: string, updateFails: bool) returns (resp: Response)
    requires db.Valid()
    modifies db`appointments
    ensures db.Valid()
    ensures appointmentId == "" || status == "" ==>
      resp == Response(400, ErrorBody(IdAndStatusRequired)) && db.appointments == old(db.appointments)
    ensures appointmentId != "" && status != "" && updateFails ==>
      resp == InternalError && db.appointments == old(db.appointments)
    ensures appointmentId != "" && status != "" && !updateFails ==>
      db.appointments == WithStatus(old(db.appointments), appointmentId, status)
      && (resp.status == 200 <==> appointmentId in AppointmentIds(old(db.appointments)))
      && (resp.status != 200 ==> resp == InternalError)
    ensures resp.status == 200 ==>
      resp.body.AppointmentBody? && resp.body.appointment in db.appointments
      && resp.body.appointment.id == appointmentId && resp.body.appointment.status == status
  {
    if appointmentId == "" || status == "" {
      return Response(400, ErrorBody(IdAndStatusRequired));
    }
    if updateFails {
      return InternalError;
    }
    var before := db.appointments;
    db.appointments := WithStatus(db.appointments, appointmentId, status);
    assert AppointmentIds(db.appointments) == AppointmentIds(before);
    var updated := RowsWithId(db.appointments, appointmentId);
    SingleRowWithId(db.appointments, appointmentId);
    if |updated| == 1 {
      assert updated[0] in updated;
      resp := Response(200, AppointmentBody(updated[0]));
    } else {
      resp := InternalError;
    }
  }

  /** With distinct ids, exactly one row carries `id` when some row does, and none otherwise. */
  lemma {:induction false} SingleRowWithId(rows: seq<Appointment>, id: Id)
    requires forall i, j :: 0 <= i < j < |rows| ==> rows[i].id != rows[j].id
    ensures |RowsWithId(rows, id)| == if id in AppointmentIds(rows) then 1 else 0
  {
    if rows != [] {
      SingleRowWithId(rows[1..], id);
      assert AppointmentIds(rows) == [rows[0].id] + AppointmentIds(rows[1..]);
      if rows[0].id == id {
        assert forall k :: 0 <= k < |rows[1..]| ==> rows[1..][k] == rows[k + 1];
      }
    }
  }

  /** Writing any status other than scheduled keeps the rule. */
  lemma WithStatusKeepsNoDoubleBooking(rows: seq<Appointment>, id: Id, status: string)
    requires NoDoubleBooking(rows)
    requires status != Scheduled
    ensures NoDoubleBooking(WithStatus(rows, id, status))
  {
    var r := WithStatus(rows, id, status);
    forall i, j | 0 <= i < j < |r| && r[i].status == Scheduled
      ensures !Occupies(r[j], r[i].professionalId, r[i].date, r[i].time)
    {
      assert r[i] == rows[i];
      if r[j].status == Scheduled { assert r[j] == rows[j]; }
    }
  }

  /** PATCH does not keep the rule: moving a cancelled appointment back to scheduled next to
      the one that took its slot gives two scheduled rows at one slot. */
  lemma PatchCanDoubleBook()
    ensures exists rows: seq<Appointment>, id: Id ::
      NoDoubleBooking(rows) && !NoDoubleBooking(WithStatus(rows, id, Scheduled))
  {
    var d, t := Date(2025, 1, 10), Time(9, 0);
    var first := Appointment("1", "", d, t, "Ana", "11999990000", "s", "p", Cancelled);
    var second := Appointment("2", "", d, t, "Bia", "11988880000", "s", "p", Scheduled);
    var rows := [first, second];
    var after := WithStatus(rows, "1", Scheduled);
    assert after[0].status == Scheduled && Occupies(after[1], "p", d, t);
    assert !NoDoubleBooking(after);
  }

  /** Rows ordered by date, then time. */
  predicate EarlierSlot(a: Appointment, b: Appointment)
  {
    DateBefore(a.date, b.date) || (a.date == b.date && TimeBefore(a.time, b.time))
  }

  lemma EarlierSlotIsStrictOrder()
    ensures StrictOrder(EarlierSlot)
  {
  }

  function WithPhone(rows: seq<Appointment>, phone: string): (r: seq<Appointment>)
    ensures forall a :: a in r <==> a in rows && a.clientPhone == phone
  {
    if rows == [] then []
    else (if rows[0].clientPhone == phone then [rows[0]] else []) + WithPhone(rows[1..], phone)
  }

  /** The query `eq("client_phone", phone)` ordered by date and then time: exactly the rows
      with that phone, each as often as in the table, in slot order. */
  function ByPhone(rows: seq<Appointment>, phone: string): (r: seq<Appointment>)
    ensures multiset(r) == multiset(WithPhone(rows, phone))
    ensures forall a :: a in r <==> a in rows && a.clientPhone == phone
    ensures forall i, j :: 0 <= i < j < |r| ==> !EarlierSlot(r[j], r[i])
  {
    var matching := WithPhone(rows, phone);
    EarlierSlotIsStrictOrder();
    SortBySorted(matching, EarlierSlot);
    var r := SortBy(matching, EarlierSlot);
    assert forall a :: a in r <==> a in multiset(matching);
    r
  }

  /** GET: the phone is required; the answer is exactly the rows whose phone equals the trimmed
      parameter, ordered by date and then time. */
  method Get(db: Db, phone: string, queryFails: bool) returns (resp: Response)
    ensures phone == "" ==> resp == Response(400, ErrorBody(PhoneRequired))
    ensures phone != "" && queryFails ==> resp == InternalError
    ensures phone != "" && !queryFails ==> resp == Response(200, AppointmentsBody(ByPhone(db.appointments, Trim(phone))))
  {
    if phone == "" {
      return Response(400, ErrorBody(PhoneRequired));
    }
    if queryFails {
      return InternalError;
    }
    resp := Response(200, AppointmentsBody(ByPhone(db.appointments, Trim(phone))));
  }
}
