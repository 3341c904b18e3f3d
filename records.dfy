/** The rows of the database tables (`Service`, `Professional`, `Appointment` and the
    `professional_services` and `admins` tables), the HTTP responses of the routes, and the
    table-level operations several handlers share. */
module Records {
  import opened Text

  datatype Option<T> = None | Some(value: T)

  /** Row ids are the strings the database assigns. */
  type Id = string

  /** A calendar date (a Postgres `date`), ordered by year, month, day. */
  datatype Date = Date(year: int, month: int, day: int)

  /** A time of day (a Postgres `time`), ordered by hour, minute. */
  datatype Time = Time(hour: int, minute: int)

  predicate DateBefore(a: Date, b: Date)
  {
    a.year < b.year || (a.year == b.year && (a.month < b.month || (a.month == b.month && a.day < b.day)))
  }

  predicate TimeBefore(a: Time, b: Time)
  {
    a.hour < b.hour || (a.hour == b.hour && a.minute < b.minute)
  }

  /** Prices are kept in cents; the column is nullable. */
  datatype Service = Service(id: Id, name: string, durationMinutes: int, price: Option<int>,
                             category: string, active: bool)

  datatype Professional = Professional(id: Id, name: string, email: Option<string>,
                                       phone: Option<string>, specialties: seq<string>, active: bool)

  /** `status` is free text: the database stores whatever the handlers write. */
  datatype Appointment = Appointment(id: Id, createdAt: string, date: Date, time: Time,
                                     clientName: string, clientPhone: string,
                                     serviceId: Id, professionalId: Id, status: string)

  /** A row of `professional_services`: the professional offers the service. */
  datatype ProfessionalService = ProfessionalService(professionalId: Id, serviceId: Id)

  datatype Admin = Admin(id: Id, email: string, passwordHash: string, name: string,
                         role: string, professionalId: Option<Id>)

  const Scheduled := "scheduled"
  const Cancelled := "cancelled"
  const Completed := "completed"

  const SuperAdminRole := "super_admin"
  const AdminRole := "admin"

  /** The JSON payload of a route's response. */
  datatype Body =
    | ErrorBody(message: string)
    | AppointmentBody(appointment: Appointment)
    | AppointmentsBody(appointments: seq<Appointment>)
    | ProfessionalBody(professional: Professional)
    | AdminBody(admin: Admin)
    | SuccessBody

  datatype Response = Response(status: int, body: Body)

  const InternalError := Response(500, ErrorBody("Erro interno"))

  /** The error code the database client reports when a single-row request does not get
      exactly one row. */
  const NoSingleRowCode := "PGRST116"

  /** The error code of a unique-constraint violation. */
  const UniqueViolationCode := "23505"

  /** `update({ status }).eq("id", id)` on a list of rows, and the same `map` the pages run
      over their local copies. */
  function WithStatus(rows: seq<Appointment>, id: Id, status: string): (r: seq<Appointment>)
    ensures |r| == |rows|
    ensures forall i :: 0 <= i < |rows| ==>
      r[i] == if rows[i].id == id then rows[i].(status := status) else rows[i]
  {
    if rows == [] then []
    else [if rows[0].id == id then rows[0].(status := status) else rows[0]]
         + WithStatus(rows[1..], id, status)
  }

  /** `delete().eq("id", id)` on a list of rows, and the `filter` the admin page runs locally. */
  function WithoutId(rows: seq<Appointment>, id: Id): (r: seq<Appointment>)
    ensures |r| <= |rows|
  {
    if rows == [] then []
    else (if rows[0].id == id then [] else [rows[0]]) + WithoutId(rows[1..], id)
  }

  /** Deleting by id keeps exactly the rows with another id. */
  lemma {:induction false} WithoutIdMembers(rows: seq<Appointment>, id: Id)
    ensures forall a :: a in WithoutId(rows, id) <==> a in rows && a.id != id
  {
    if rows != [] {
      WithoutIdMembers(rows[1..], id);
      assert rows == [rows[0]] + rows[1..];
    }
  }

  /** `delete().eq("id", id)` on the professionals table. */
  function WithoutProfessional(rows: seq<Professional>, id: Id): (r: seq<Professional>)
    ensures |r| <= |rows|
    ensures forall p :: p in r <==> p in rows && p.id != id
  {
    if rows == [] then []
    else (if rows[0].id == id then [] else [rows[0]]) + WithoutProfessional(rows[1..], id)
  }

  /** `delete().eq("id", id)` on the admins table. */
  function WithoutAdmin(rows: seq<Admin>, id: Id): (r: seq<Admin>)
    ensures |r| <= |rows|
    ensures forall a :: a in r <==> a in rows && a.id != id
  {
    if rows == [] then []
    else (if rows[0].id == id then [] else [rows[0]]) + WithoutAdmin(rows[1..], id)
  }

  /** The rows with id `id`. */
  function RowsWithId(rows: seq<Appointment>, id: Id): (r: seq<Appointment>)
    ensures forall a :: a in r <==> a in rows && a.id == id
  {
    if rows == [] then []
    else (if rows[0].id == id then [rows[0]] else []) + RowsWithId(rows[1..], id)
  }

  /** Deleting by id keeps the other rows in their order and drops exactly the matching ones. */
  lemma {:induction false} WithoutIdSplits(rows: seq<Appointment>, id: Id)
    ensures |WithoutId(rows, id)| + |RowsWithId(rows, id)| == |rows|
  {
    if rows != [] {
      WithoutIdSplits(rows[1..], id);
    }
  }
}
