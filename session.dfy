/** The browser's session storage, shared by the booking pages: a map from keys to stored
    values, changed in place by `setItem` and `removeItem`. */
module Session {
  import opened Records

  /** The slot the booking page chose, stored as JSON under `appointmentData`. */
  datatype AppointmentData = AppointmentData(serviceId: Id, professionalId: Id, date: Date, time: Time)

  /** A stored value: plain text, or the JSON of a chosen slot. */
  datatype Stored = Text(text: string) | Booking(data: AppointmentData)

  const AppointmentDataKey := "appointmentData"
  const SearchPhoneKey := "searchPhone"
  const LastAppointmentPhoneKey := "lastAppointmentPhone"
  const NewAppointmentIdKey := "newAppointmentId"

  /** JavaScript truthiness of `getItem(key)`: present and not the empty string. */
  predicate Truthy(v: Option<Stored>)
  {
    v.Some? && v.value != Text("")
  }

  class SessionStorage {
    var items: map<string, Stored>

    /** The pages store a chosen slot under `appointmentData` and text under every other key. */
    ghost predicate Valid()
      reads this
    {
      forall k :: k in items ==> (items[k].Booking? <==> k == AppointmentDataKey)
    }

    constructor (items: map<string, Stored>)
      ensures this.items == items
    {
      this.items := items;
    }

    /** `getItem`. */
    function GetItem(key: string): (v: Option<Stored>)
      reads this
      ensures v.Some? <==> key in items
      ensures v.Some? ==> v.value == items[key]
    {
      if key in items then Some(items[key]) else None
    }

    /** `setItem`: the key now holds `value`; every other key is unchanged. */
    method SetItem(key: string, value: Stored)
      modifies this
      ensures items == old(items)[key := value]
    {
      items := items[key := value];
    }

    /** `removeItem`: the key is gone; every other key is unchanged. */
    method RemoveItem(key: string)
      modifies this
      ensures items == old(items) - {key}
    {
      items := items - {key};
    }
  }
}
