/** The "my appointments" page: a client looks up their appointments by phone and may cancel
    the ones still scheduled. */
module MyAppointmentsPage {
  import opened Text
  import opened Records
  import opened Database
  import opened Session
  import opened PhoneMask
  import opened AppointmentsRoute

  const TypePhone := "Por favor, digite seu telefone."
  const InvalidPhone := "Por favor, digite um telefone válido."
  const SearchFailed := "Erro ao buscar agendamentos. Tente novamente."
  const CancelDone := "Agendamento cancelado com sucesso!"
  const CancelFailed := "Erro ao cancelar agendamento. Tente novamente."

  /** The search button runs a query only for a phone of at least ten digits. */
  predicate SearchAllowed(rawValue: string)
  {
    rawValue != "" && |rawValue| >= 10
  }

  /** The Cancel button is shown only for appointments that are still scheduled. */
  predicate CanCancel(a: Appointment)
  {
    a.status == Scheduled
  }

  class MyAppointmentsPage {
    var phoneInput: PhoneInput
    var appointments: seq<Appointment>
    var searched: bool
    var newAppointmentId: Option<string>

    ghost predicate Valid()
      reads this, phoneInput
    {
      phoneInput.Valid()
    }

    constructor ()
      ensures Valid() && fresh(phoneInput)
      ensures phoneInput.rawValue == "" && appointments == [] && !searched && newAppointmentId == None
    {
      phoneInput := new PhoneInput();
      appointments, searched, newAppointmentId := [], false, None;
    }

    /** `isNewAppointment`. */
    function IsNewAppointment(appointmentId: string): (b: bool)
      reads this
      ensures b <==> newAppointmentId == Some(appointmentId)
    {
      newAppointmentId.Some? && newAppointmentId.value == appointmentId
    }

    /** `handleAutoSearch`: the query uses the phone exactly as given; on failure the list is
        kept. */
    method AutoSearch(db: Db, phone: string, queryFails: bool)
      modifies this`appointments, this`searched
      ensures searched
      ensures appointments == if queryFails then old(appointments) else ByPhone(db.appointments, phone)
    {
      searched := true;
      if !queryFails {
        appointments := ByPhone(db.appointments, phone);
      }
    }

    /** The mount effect: a stored `searchPhone` is copied into the phone field, removed, and
        searched for; `newAppointmentId` is consumed only together with it. */
    method Mount(db: Db, session: SessionStorage, queryFails: bool)
      requires Valid() && session.Valid()
      modifies this`appointments, this`searched, this`newAppointmentId, phoneInput, session
      ensures Valid() && session.Valid()
      ensures !Truthy(old(session.GetItem(SearchPhoneKey))) ==>
        session.items == old(session.items) && appointments == old(appointments)
        && searched == old(searched) && newAppointmentId == old(newAppointmentId)
        && phoneInput.value == old(phoneInput.value) && phoneInput.rawValue == old(phoneInput.rawValue)
      ensures Truthy(old(session.GetItem(SearchPhoneKey))) ==>
        var phone := old(session.items[SearchPhoneKey].text);
        var consumed := Truthy(old(session.GetItem(NewAppointmentIdKey)));
        phoneInput.rawValue == Digits(phone) && phoneInput.value == FormatPhone(Digits(phone))
        && session.items == old(session.items) - {SearchPhoneKey} - (if consumed then {NewAppointmentIdKey} else {})
        && newAppointmentId == (if consumed then Some(old(session.items[NewAppointmentIdKey].text))
                                else old(newAppointmentId))
        && searched
        && appointments == (if queryFails then old(appointments) else ByPhone(db.appointments, phone))
    {
      var searchPhone := session.GetItem(SearchPhoneKey);
      var appointmentId := session.GetItem(NewAppointmentIdKey);
      if Truthy(searchPhone) {
        var phone := searchPhone.value.text;
        phoneInput.SetValue(phone);
        session.RemoveItem(SearchPhoneKey);
        if Truthy(appointmentId) {
          newAppointmentId := Some(appointmentId.value.text);
          session.RemoveItem(NewAppointmentIdKey);
        }
        AutoSearch(db, phone, queryFails);
      }
    }

    /** `handleSearch`: an empty or short phone is refused with no query; otherwise the list
        becomes the appointments whose phone is the typed digits. */
    method HandleSearch(db: Db, queryFails: bool) returns (alert: Option<string>)
      requires Valid()
      modifies this`appointments, this`searched
      ensures phoneInput.rawValue == "" ==>
        alert == Some(TypePhone) && appointments == old(appointments) && searched == old(searched)
      ensures phoneInput.rawValue != "" && |phoneInput.rawValue| < 10 ==>
        alert == Some(InvalidPhone) && appointments == old(appointments) && searched == old(searched)
      ensures SearchAllowed(phoneInput.rawValue) ==> searched
      ensures SearchAllowed(phoneInput.rawValue) && queryFails ==>
        alert == Some(SearchFailed) && appointments == old(appointments)
      ensures SearchAllowed(phoneInput.rawValue) && !queryFails ==>
        alert == None && appointments == ByPhone(db.appointments, phoneInput.rawValue)
    {
      if phoneInput.rawValue == "" {
        return Some(TypePhone);
      }
      if |phoneInput.rawValue| < 10 {
        return Some(InvalidPhone);
      }
      searched := true;
      if queryFails {
        return Some(SearchFailed);
      }
      appointments := ByPhone(db.appointments, phoneInput.rawValue);
      alert := None;
    }

    /** `handleCancelAppointment`: after the user confirms, the row's status becomes cancelled
        in the table and in the list, whatever it was before. */
    method HandleCancel(db: Db, appointmentId: Id, confirmed: bool, updateFails: bool)
      returns (alert: Option<string>)
      requires db.Valid()
      modifies db`appointments, this`appointments
      ensures db.Valid()
      ensures !confirmed ==>
        alert == None && db.appointments == old(db.appointments) && appointments == old(appointments)
      ensures confirmed && updateFails ==>
        alert == Some(CancelFailed) && db.appointments == old(db.appointments) && appointments == old(appointments)
      ensures confirmed && !updateFails ==>
        alert == Some(CancelDone)
        && db.appointments == WithStatus(old(db.appointments), appointmentId, Cancelled)
        && appointments == WithStatus(old(appointments), appointmentId, Cancelled)
    {
      if !confirmed {
        return None;
      }
      if updateFails {
        return Some(CancelFailed);
      }
      var before := db.appointments;
      db.appointments := WithStatus(db.appointments, appointmentId, Cancelled);
      assert AppointmentIds(db.appointments) == AppointmentIds(before);
      appointments := WithStatus(appointments, appointmentId, Cancelled);
      alert := Some(CancelDone);
    }
  }

  /** A search that is let through uses a phone the mask shows as a complete number: ten or
      eleven digits, when the field was typed into. */
  lemma SearchAllowedMeansCompleteNumber(rawValue: string)
    requires AllDigits(rawValue) && |rawValue| <= MaxDigits
    ensures SearchAllowed(rawValue) <==> |Digits(FormatPhone(rawValue))| >= 10
  {
    FormatPhoneRoundTrip(rawValue);
  }

  /** Cancelling keeps the double-booking rule, and the cancelled row is no longer offered a
      Cancel button while every other row keeps its own. */
  lemma CancelKeepsNoDoubleBooking(rows: seq<Appointment>, appointmentId: Id)
    requires NoDoubleBooking(rows)
    ensures NoDoubleBooking(WithStatus(rows, appointmentId, Cancelled))
    ensures forall i :: 0 <= i < |rows| ==>
      (CanCancel(WithStatus(rows, appointmentId, Cancelled)[i]) <==> rows[i].id != appointmentId && CanCancel(rows[i]))
  {
    WithStatusKeepsNoDoubleBooking(rows, appointmentId, Cancelled);
  }
}
