/** The confirmation page: it reads the chosen slot from session storage, takes the client's
    name and phone, and inserts the appointment straight into the table. */
module ConfirmPage {
  import opened Text
  import opened Records
  import opened Database
  import opened Session
  import opened AppointmentsRoute

  const FillAllFields := "Por favor, preencha todos os campos."
  const ConfirmFailed := "Erro ao confirmar agendamento. Tente novamente."
  const HomePath := "/"
  const ConfirmedPath := "/agendamento-confirmado"

  /** The row the page inserts: the stored slot, the trimmed name and phone, status scheduled. */
  function ConfirmRow(id: Id, createdAt: string, data: AppointmentData, name: string, phone: string): Appointment
  {
    Appointment(id, createdAt, data.date, data.time, Trim(name), Trim(phone),
                data.serviceId, data.professionalId, Scheduled)
  }

  /** `handleSubmit` goes ahead only with a stored slot and a name and phone that are not blank. */
  predicate CanSubmit(data: Option<AppointmentData>, name: string, phone: string)
  {
    data.Some? && !IsBlank(name) && !IsBlank(phone)
  }

  /** The session after a confirmed booking: the slot is consumed and the trimmed phone is kept
      for the search page. */
  function ConfirmedSession(items: map<string, Stored>, phone: string): map<string, Stored>
  {
    (items - {AppointmentDataKey})[SearchPhoneKey := Text(Trim(phone))][LastAppointmentPhoneKey := Text(Trim(phone))]
  }

  class ConfirmPage {
    var appointmentData: Option<AppointmentData>
    var clientName: string
    var clientPhone: string
    /** The path passed to `router.push`, if any. */
    var redirect: Option<string>

    constructor ()
      ensures appointmentData == None && clientName == "" && clientPhone == "" && redirect == None
    {
      appointmentData, clientName, clientPhone, redirect := None, "", "", None;
    }

    /** The mount effect: take the stored slot, or go back to the home page without one. */
    method Mount(session: SessionStorage)
      requires session.Valid()
      modifies this`appointmentData, this`redirect
      ensures AppointmentDataKey in session.items ==>
        appointmentData == Some(session.items[AppointmentDataKey].data) && redirect == old(redirect)
      ensures AppointmentDataKey !in session.items ==>
        redirect == Some(HomePath) && appointmentData == old(appointmentData)
    {
      var data := session.GetItem(AppointmentDataKey);
      if Truthy(data) {
        appointmentData := Some(data.value.data);
      } else {
        redirect := Some(HomePath);
      }
    }

    /** `handleSubmit`: refuse incomplete input; otherwise insert with no check of the slot, and
        on success update the session and go to the confirmation page. */
    method HandleSubmit(db: Db, session: SessionStorage, now: string, insertFails: bool)
      returns (alert: Option<string>)
      requires db.Valid() && session.Valid()
      modifies db`appointments, db`nextId, session, this`redirect
      ensures db.Valid() && session.Valid()
      ensures !CanSubmit(appointmentData, clientName, clientPhone) ==>
        alert == Some(FillAllFields) && db.appointments == old(db.appointments)
        && session.items == old(session.items) && redirect == old(redirect)
      ensures CanSubmit(appointmentData, clientName, clientPhone) && insertFails ==>
        alert == Some(ConfirmFailed) && db.appointments == old(db.appointments)
        && session.items == old(session.items) && redirect == old(redirect)
      ensures CanSubmit(appointmentData, clientName, clientPhone) && !insertFails ==>
        alert == None
        && db.appointments == old(db.appointments)
             + [ConfirmRow(IdFor(old(db.nextId)), now, appointmentData.value, clientName, clientPhone)]
        && session.items == ConfirmedSession(old(session.items), clientPhone)
        && redirect == Some(ConfirmedPath)
    {
      if appointmentData.None? || IsBlank(clientName) || IsBlank(clientPhone) {
        return Some(FillAllFields);
      }
      if insertFails {
        return Some(ConfirmFailed);
      }
      var id := db.NewId();
      db.appointments := db.appointments + [ConfirmRow(id, now, appointmentData.value, clientName, clientPhone)];
      assert AppointmentIds(db.appointments) == AppointmentIds(old(db.appointments)) + [id];
      session.RemoveItem(AppointmentDataKey);
      session.SetItem(SearchPhoneKey, Text(Trim(clientPhone)));
      session.SetItem(LastAppointmentPhoneKey, Text(Trim(clientPhone)));
      redirect := Some(ConfirmedPath);
      alert := None;
    }
  }

  /** The page writes the same row POST would insert for the same fields; only the slot check
      is missing. */
  lemma ConfirmRowIsPostRow(id: Id, now: string, data: AppointmentData, name: string, phone: string)
    requires data.serviceId != "" && data.professionalId != ""
    requires CanSubmit(Some(data), name, phone)
    ensures !MissingField(RequestFor(data, name, phone))
    ensures ConfirmRow(id, now, data, name, phone) == NewAppointment(id, now, RequestFor(data, name, phone))
  {
  }

  /** The POST body carrying the same slot, name and phone. */
  function RequestFor(data: AppointmentData, name: string, phone: string): CreateRequest
  {
    CreateRequest(data.serviceId, data.professionalId, name, phone, Some(data.date), Some(data.time))
  }

  /** Confirming into a slot that already holds a scheduled appointment breaks the
      double-booking rule. */
  lemma ConfirmIntoTakenSlotDoubleBooks(rows: seq<Appointment>, k: nat, id: Id, now: string,
                                        data: AppointmentData, name: string, phone: string)
    requires k < |rows| && Occupies(rows[k], data.professionalId, data.date, data.time)
    ensures !NoDoubleBooking(rows + [ConfirmRow(id, now, data, name, phone)])
  {
    var after := rows + [ConfirmRow(id, now, data, name, phone)];
    assert after[k] == rows[k] && after[|rows|] == ConfirmRow(id, now, data, name, phone);
    assert after[k].status == Scheduled
      && Occupies(after[|rows|], after[k].professionalId, after[k].date, after[k].time);
  }

  /** The confirmation path does not keep the rule POST keeps: from a table that satisfies it,
      a submission the API would refuse as a taken slot is inserted and breaks it. */
  lemma ConfirmCanDoubleBook()
    ensures exists rows: seq<Appointment>, data: AppointmentData, name: string, phone: string ::
      NoDoubleBooking(rows) && CanSubmit(Some(data), name, phone)
      && DecidePost(rows, RequestFor(data, name, phone), false) == Reject(Response(400, ErrorBody(SlotTaken)))
      && !NoDoubleBooking(rows + [ConfirmRow("2", "", data, name, phone)])
  {
    var d, t := Date(2025, 3, 14), Time(10, 30);
    var data := AppointmentData("s", "p", d, t);
    var rows := [Appointment("1", "", d, t, "Ana", "11999990000", "s", "p", Scheduled)];
    var name, phone := "Bia", "11988880000";
    TrimOfTrimmed(name);
    TrimOfTrimmed(phone);
    assert NoDoubleBooking(rows);
    PostRefusesTakenSlot(rows, RequestFor(data, name, phone), 0);
    ConfirmIntoTakenSlotDoubleBooks(rows, 0, "2", "", data, name, phone);
  }
}
