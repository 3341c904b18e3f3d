/** The admin panel: which appointments an admin sees, the menu it is offered, the specialties
    field of the professional form, and the work the panel does with what its queries return
    (the month list, the monthly report, the service detail, and the local copies it updates
    after a status change or a delete). */
module AdminPage {
  import opened Text
  import opened Records
  import opened Database
  import opened Sorting
  import opened AdminReport
  import opened AppointmentsRoute
  import opened ManageAdminsRoute

  const StatusUpdateFailed := "Erro ao atualizar status. Tente novamente."
  const DeleteFailed := "Erro ao excluir agendamento"
  const DeleteDone := "Agendamento excluído com sucesso!"

  // ---------------------------------------------------------------------------------------
  // Who sees what

  /** The professional a plain admin is limited to: only an admin whose role is `"admin"` and
      whose professional id is set is restricted. Super admins, plain admins linked to no
      professional, and a missing admin see every row. */
  function Restriction(admin: Option<Admin>): Option<Id>
  {
    if admin.Some? && admin.value.role == AdminRole && admin.value.professionalId.Some?
       && admin.value.professionalId.value != ""
    then admin.value.professionalId
    else None
  }

  predicate Sees(admin: Option<Admin>, a: Appointment)
  {
    Restriction(admin).None? || a.professionalId == Restriction(admin).value
  }

  /** A query on the appointments with `eq("professional_id", …)` added for a restricted
      admin: the rows it may see, in table order. */
  function VisibleTo(admin: Option<Admin>, rows: seq<Appointment>): (r: seq<Appointment>)
    ensures |r| <= |rows|
    ensures forall a :: a in r <==> a in rows && Sees(admin, a)
  {
    if rows == [] then []
    else (if Sees(admin, rows[0]) then [rows[0]] else []) + VisibleTo(admin, rows[1..])
  }

  /** An admin with no restriction gets the whole table, in its order. */
  lemma {:induction false} UnrestrictedSeesAll(admin: Option<Admin>, rows: seq<Appointment>)
    requires Restriction(admin).None?
    ensures VisibleTo(admin, rows) == rows
  {
    if rows != [] {
      UnrestrictedSeesAll(admin, rows[1..]);
      assert [rows[0]] + rows[1..] == rows;
    }
  }

  /** An admin created with no role is stored as a plain admin linked to no professional; the
      panel then shows it the appointments of every professional. */
  lemma RoleLessAdminSeesEverything(id: Id, req: AdminRequest, passwordHash: string, rows: seq<Appointment>)
    requires req.role == "" && req.professionalId == ""
    ensures VisibleTo(Some(NewAdmin(id, req, passwordHash, req.professionalId)), rows) == rows
  {
    MissingRoleLeavesAdminUnlinked(id, req, passwordHash);
    UnrestrictedSeesAll(Some(NewAdmin(id, req, passwordHash, req.professionalId)), rows);
  }

  /** A plain admin created together with its own professional sees exactly that
      professional's appointments. */
  lemma AutoLinkedAdminSeesOwnRows(pid: Id, id: Id, req: AdminRequest, passwordHash: string, rows: seq<Appointment>)
    requires CreatesProfessional(req) && pid != ""
    ensures forall a :: a in VisibleTo(Some(NewAdmin(id, req, passwordHash, pid)), rows) <==>
      a in rows && a.professionalId == pid
  {
    AutoCreatedProfessionalIsLinked(pid, id, req, passwordHash);
  }

  // ---------------------------------------------------------------------------------------
  // Menu

  datatype Tab = Tab(id: string, caption: string)

  const AppointmentsTab := Tab("appointments", "Agendamentos")
  const ReportsTab := Tab("reports", "Relatórios")
  const AdminsTab := Tab("admins", "Administradores")
  const ProfessionalsTab := Tab("professionals", "Profissionais")
  const ServicesTab := Tab("services", "Serviços")

  predicate IsSuperAdmin(admin: Option<Admin>)
  {
    admin.Some? && admin.value.role == SuperAdminRole
  }

  /** `menuItems`: the admins and professionals tabs are for super admins only; everyone gets
      the appointments, reports and services tabs, in that order around them. */
  function MenuItems(admin: Option<Admin>): (tabs: seq<Tab>)
    ensures AdminsTab in tabs <==> IsSuperAdmin(admin)
    ensures ProfessionalsTab in tabs <==> IsSuperAdmin(admin)
    ensures AppointmentsTab in tabs && ReportsTab in tabs && ServicesTab in tabs
    ensures |tabs| >= 3 && tabs[0] == AppointmentsTab && tabs[1] == ReportsTab && tabs[|tabs| - 1] == ServicesTab
    ensures forall i, j :: 0 <= i < j < |tabs| ==> tabs[i].id != tabs[j].id
  {
    if IsSuperAdmin(admin)
    then [AppointmentsTab, ReportsTab, AdminsTab, ProfessionalsTab, ServicesTab]
    else [AppointmentsTab, ReportsTab, ServicesTab]
  }

  // ---------------------------------------------------------------------------------------
  // The specialties field

  /** `.map((s) => s.trim()).filter((s) => s)`. */
  function TrimmedNonEmpty(parts: seq<string>): (r: seq<string>)
    ensures |r| <= |parts|
    ensures forall s :: s in r ==> s != [] && IsTrimmed(s)
  {
    if parts == [] then []
    else (if Trim(parts[0]) == [] then [] else [Trim(parts[0])]) + TrimmedNonEmpty(parts[1..])
  }

  lemma {:induction false} TrimmedNonEmptyAvoids(parts: seq<string>, c: char)
    requires forall k :: 0 <= k < |parts| ==> c !in parts[k]
    ensures forall s :: s in TrimmedNonEmpty(parts) ==> c !in s
  {
    if parts != [] {
      TrimWithin(parts[0], c);
      TrimmedNonEmptyAvoids(parts[1..], c);
    }
  }

  /** The comma-separated specialties typed in the professional form, as the list sent to the
      API: every entry is non-empty, trimmed and free of commas. */
  function ParseSpecialties(text: string): (r: seq<string>)
    ensures forall s :: s in r ==> s != [] && IsTrimmed(s) && ',' !in s
  {
    TrimmedNonEmptyAvoids(Split(text, ','), ',');
    TrimmedNonEmpty(Split(text, ','))
  }

  /** `specialties?.join(", ") || ""`: the field's text when a professional is opened for
      editing. */
  function SpecialtiesText(specialties: seq<string>): string
  {
    Join(specialties, ", ")
  }

  /** Every entry with a space in front. */
  function Spaced(xs: seq<string>): (r: seq<string>)
    ensures |r| == |xs| && forall i :: 0 <= i < |xs| ==> r[i] == " " + xs[i]
  {
    seq(|xs|, i requires 0 <= i < |xs| => " " + xs[i])
  }

  lemma JoinPrefixFirst(c: string, a: string, rest: seq<string>, sep: string)
    ensures Join([c + a] + rest, sep) == c + Join([a] + rest, sep)
  {
    assert ([c + a] + rest)[1..] == rest;
    assert ([a] + rest)[1..] == rest;
  }

  /** Joining with `", "` is joining with `","` after putting a space in front of every entry
      but the first. */
  lemma {:induction false} JoinSpaced(xs: seq<string>)
    requires xs != []
    ensures Join(xs, ", ") == Join([xs[0]] + Spaced(xs[1..]), ",")
  {
    if |xs| > 1 {
      var rest := xs[1..];
      JoinSpaced(rest);
      assert Spaced(rest) == [" " + rest[0]] + Spaced(rest[1..]);
      JoinPrefixFirst(" ", rest[0], Spaced(rest[1..]), ",");
      var parts := [xs[0]] + Spaced(rest);
      assert parts[1..] == Spaced(rest);
      assert Join(parts, ",") == xs[0] + "," + Join(Spaced(rest), ",");
      assert Join(xs, ", ") == xs[0] + ", " + Join(rest, ", ");
    } else {
      assert Spaced(xs[1..]) == [];
    }
  }

  lemma {:induction false} TrimmedSpaced(xs: seq<string>)
    requires forall x :: x in xs ==> x != [] && IsTrimmed(x)
    ensures TrimmedNonEmpty(Spaced(xs)) == xs
  {
    if xs != [] {
      assert xs[0] in xs;
      TrimAfterSpace(xs[0]);
      assert forall x :: x in xs[1..] ==> x in xs;
      TrimmedSpaced(xs[1..]);
      assert Spaced(xs)[1..] == Spaced(xs[1..]);
      assert [xs[0]] + xs[1..] == xs;
    }
  }

  /** Opening a professional for editing and saving the form unchanged sends back the same
      specialties, provided each is non-empty, trimmed and free of commas. */
  lemma SpecialtiesRoundTrip(xs: seq<string>)
    requires forall x :: x in xs ==> x != [] && IsTrimmed(x) && ',' !in x
    ensures ParseSpecialties(SpecialtiesText(xs)) == xs
  {
    if xs == [] {
      assert Split([], ',') == [[]];
      assert Trim([]) == [];
    } else {
      JoinSpaced(xs);
      var parts := [xs[0]] + Spaced(xs[1..]);
      forall k | 0 <= k < |parts| ensures ',' !in parts[k] {
        if k > 0 {
          assert parts[k] == " " + xs[k];
          assert xs[k] in xs;
        }
      }
      SplitJoin(parts, ',');
      assert parts[1..] == Spaced(xs[1..]);
      TrimOfTrimmed(xs[0]);
      TrimmedSpaced(xs[1..]);
      assert [xs[0]] + xs[1..] == xs;
    }
  }

  /** Whatever was typed, saving the form a second time without touching the field sends the
      same specialties as the first time. */
  lemma SpecialtiesStable(text: string)
    ensures ParseSpecialties(SpecialtiesText(ParseSpecialties(text))) == ParseSpecialties(text)
  {
    SpecialtiesRoundTrip(ParseSpecialties(text));
  }

  // ---------------------------------------------------------------------------------------
  // The rows behind the report

  /** The `service:services(name, price)` join of a row. */
  function ServiceOf(services: seq<Service>, id: Id): (r: Option<ServiceRef>)
    ensures r.None? <==> forall s :: s in services ==> s.id != id
    ensures r.Some? ==> exists s :: s in services && s.id == id && r.value == ServiceRef(s.name, s.price)
  {
    if services == [] then None
    else if services[0].id == id then Some(ServiceRef(services[0].name, services[0].price))
    else ServiceOf(services[1..], id)
  }

  /** The `professional:professionals(name)` join of a row. */
  function ProfessionalNameOf(professionals: seq<Professional>, id: Id): (r: Option<string>)
    ensures r.None? <==> forall p :: p in professionals ==> p.id != id
    ensures r.Some? ==> exists p :: p in professionals && p.id == id && r.value == p.name
  {
    if professionals == [] then None
    else if professionals[0].id == id then Some(professionals[0].name)
    else ProfessionalNameOf(professionals[1..], id)
  }

  /** The date range of a month, from its first to its last day. */
  predicate InMonth(a: Appointment, year: int, month: int)
  {
    a.date.year == year && a.date.month == month
  }

  function InMonthRows(rows: seq<Appointment>, year: int, month: int): (r: seq<Appointment>)
    ensures forall a :: a in r <==> a in rows && InMonth(a, year, month)
  {
    if rows == [] then []
    else (if InMonth(rows[0], year, month) then [rows[0]] else []) + InMonthRows(rows[1..], year, month)
  }

  /** What the report query returns for a month: the rows of the month the admin may see,
      each with its service's name and price and its professional's name. */
  function MonthRows(admin: Option<Admin>, appointments: seq<Appointment>, services: seq<Service>,
                     professionals: seq<Professional>, year: int, month: int): (r: seq<ReportRow>)
  {
    var rows := InMonthRows(VisibleTo(admin, appointments), year, month);
    seq(|rows|, i requires 0 <= i < |rows| =>
      ReportRow(rows[i].status, ServiceOf(services, rows[i].serviceId),
                ProfessionalNameOf(professionals, rows[i].professionalId)))
  }

  function DatesOf(rows: seq<Appointment>): (ds: seq<Date>)
    ensures |ds| == |rows| && forall i :: 0 <= i < |rows| ==> ds[i] == rows[i].date
  {
    seq(|rows|, i requires 0 <= i < |rows| => rows[i].date)
  }

  predicate ValidDate(d: Date)
  {
    d.year >= 0 && 1 <= d.month <= 12
  }

  /** The report's date range for the month of `d` picks exactly the rows whose month key is
      that of `d`. */
  lemma MonthRangeMatchesKey(a: Appointment, d: Date)
    requires ValidDate(a.date) && ValidDate(d)
    ensures ParseMonthKey(MonthKey(d)) == Some((d.year, d.month))
    ensures InMonth(a, d.year, d.month) <==> MonthKey(a.date) == MonthKey(d)
  {
    MonthKeyRoundTrip(d);
    MonthKeyRoundTrip(a.date);
  }

  /** Every month the panel offers reads back as a year and a month, and its report covers at
      least one appointment. */
  lemma OfferedMonthIsNotEmpty(admin: Option<Admin>, rows: seq<Appointment>, k: string)
    requires forall a :: a in rows ==> ValidDate(a.date)
    requires k in MonthsOf(DatesOf(VisibleTo(admin, rows)))
    ensures ParseMonthKey(k).Some?
    ensures InMonthRows(VisibleTo(admin, rows), ParseMonthKey(k).value.0, ParseMonthKey(k).value.1) != []
  {
    var visible := VisibleTo(admin, rows);
    MonthsOfDescending(DatesOf(visible));
    var i :| 0 <= i < |visible| && MonthKeys(DatesOf(visible))[i] == k;
    var a := visible[i];
    assert a in visible;
    MonthRangeMatchesKey(a, a.date);
    assert a in InMonthRows(visible, a.date.year, a.date.month);
  }

  /** The report as `fetchMonthlyReport` fills it from the rows of the month. */
  predicate Describes(report: Report, rows: seq<ReportRow>)
  {
    report.cancelled == CountStatus(rows, Cancelled)
    && report.completed == CountStatus(rows, Completed)
    && report.total == CompletedRevenue(rows)
    && report.mostUsed == MostUsed(Ranked(TallyOf(ServiceContributions(rows))))
    && report.leastUsed == LeastUsed(Ranked(TallyOf(ServiceContributions(rows))))
  }

  datatype ServiceDetailView = ServiceDetailView(serviceName: string, professionals: seq<Entry>)

  // ---------------------------------------------------------------------------------------
  // The appointment list

  /** `.order("appointment_date").order("appointment_time")`: the same rows, by date and then
      time. */
  function InSlotOrder(rows: seq<Appointment>): (r: seq<Appointment>)
    ensures multiset(r) == multiset(rows)
    ensures forall i, j :: 0 <= i < j < |r| ==> !EarlierSlot(r[j], r[i])
  {
    EarlierSlotIsStrictOrder();
    SortBySorted(rows, EarlierSlot);
    SortBy(rows, EarlierSlot)
  }

  /** The row `WithStatus` makes of `a`. */
  function Restatus(a: Appointment, id: Id, status: string): Appointment
  {
    if a.id == id then a.(status := status) else a
  }

  lemma WithStatusAppend(a: seq<Appointment>, b: seq<Appointment>, id: Id, status: string)
    ensures WithStatus(a + b, id, status) == WithStatus(a, id, status) + WithStatus(b, id, status)
  {
    var l, r := WithStatus(a + b, id, status), WithStatus(a, id, status) + WithStatus(b, id, status);
    forall i | 0 <= i < |l| ensures l[i] == r[i] {
      if i < |a| {
        assert (a + b)[i] == a[i];
      } else {
        assert (a + b)[i] == b[i - |a|];
      }
    }
  }

  lemma {:induction false} InsertWithStatus(x: Appointment, s: seq<Appointment>, id: Id, status: string)
    ensures Sorting.Insert(Restatus(x, id, status), WithStatus(s, id, status), EarlierSlot)
         == WithStatus(Sorting.Insert(x, s, EarlierSlot), id, status)
  {
    if s != [] {
      var u, ws := Restatus(x, id, status), WithStatus(s, id, status);
      assert ws[0] == Restatus(s[0], id, status);
      assert EarlierSlot(u, ws[0]) == EarlierSlot(x, s[0]);
      assert WithStatus([x], id, status) == [u];
      if EarlierSlot(x, s[0]) {
        calc {
          Sorting.Insert(u, ws, EarlierSlot);
          [u] + ws;
          { WithStatusAppend([x], s, id, status); }
          WithStatus([x] + s, id, status);
          WithStatus(Sorting.Insert(x, s, EarlierSlot), id, status);
        }
      } else {
        var tail := Sorting.Insert(x, s[1..], EarlierSlot);
        assert WithStatus([s[0]], id, status) == [ws[0]];
        calc {
          Sorting.Insert(u, ws, EarlierSlot);
          [ws[0]] + Sorting.Insert(u, ws[1..], EarlierSlot);
          { assert ws[1..] == WithStatus(s[1..], id, status); }
          [ws[0]] + Sorting.Insert(u, WithStatus(s[1..], id, status), EarlierSlot);
          { InsertWithStatus(x, s[1..], id, status); }
          [ws[0]] + WithStatus(tail, id, status);
          { WithStatusAppend([s[0]], tail, id, status); }
          WithStatus([s[0]] + tail, id, status);
        }
      }
    }
  }

  lemma {:induction false} SortWithStatus(s: seq<Appointment>, id: Id, status: string)
    ensures SortBy(WithStatus(s, id, status), EarlierSlot) == WithStatus(SortBy(s, EarlierSlot), id, status)
  {
    if s != [] {
      var init, x := s[..|s| - 1], s[|s| - 1];
      SortWithStatus(init, id, status);
      var ws := WithStatus(s, id, status);
      assert ws[..|ws| - 1] == WithStatus(init, id, status);
      InsertWithStatus(x, SortBy(init, EarlierSlot), id, status);
    }
  }

  lemma {:induction false} VisibleWithStatus(admin: Option<Admin>, rows: seq<Appointment>, id: Id, status: string)
    ensures VisibleTo(admin, WithStatus(rows, id, status)) == WithStatus(VisibleTo(admin, rows), id, status)
  {
    if rows != [] {
      VisibleWithStatus(admin, rows[1..], id, status);
      var ws := WithStatus(rows, id, status);
      assert ws[1..] == WithStatus(rows[1..], id, status);
      var head := if Sees(admin, rows[0]) then [rows[0]] else [];
      WithStatusAppend(head, VisibleTo(admin, rows[1..]), id, status);
    }
  }

  /** Changing a status in the table and then querying gives the panel's list with the same
      change made locally: the local `map` keeps the list as a fresh query would return it. */
  lemma StatusUpdateKeepsListInSync(admin: Option<Admin>, rows: seq<Appointment>, id: Id, status: string)
    ensures InSlotOrder(VisibleTo(admin, WithStatus(rows, id, status)))
         == WithStatus(InSlotOrder(VisibleTo(admin, rows)), id, status)
  {
    VisibleWithStatus(admin, rows, id, status);
    SortWithStatus(VisibleTo(admin, rows), id, status);
  }

  lemma {:induction false} WithoutIdAppend(a: seq<Appointment>, b: seq<Appointment>, id: Id)
    ensures WithoutId(a + b, id) == WithoutId(a, id) + WithoutId(b, id)
  {
    if a == [] {
      assert a + b == b;
    } else {
      var head := if a[0].id == id then [] else [a[0]];
      calc {
        WithoutId(a + b, id);
        { assert (a + b)[0] == a[0]; }
        head + WithoutId((a + b)[1..], id);
        { assert (a + b)[1..] == a[1..] + b; }
        head + WithoutId(a[1..] + b, id);
        { WithoutIdAppend(a[1..], b, id); }
        head + (WithoutId(a[1..], id) + WithoutId(b, id));
        (head + WithoutId(a[1..], id)) + WithoutId(b, id);
      }
    }
  }

  lemma {:induction false} VisibleAppend(admin: Option<Admin>, a: seq<Appointment>, b: seq<Appointment>)
    ensures VisibleTo(admin, a + b) == VisibleTo(admin, a) + VisibleTo(admin, b)
  {
    if a != [] {
      VisibleAppend(admin, a[1..], b);
      assert (a + b)[1..] == a[1..] + b;
    } else {
      assert a + b == b;
    }
  }

  lemma {:induction false} VisibleWithoutId(admin: Option<Admin>, rows: seq<Appointment>, id: Id)
    ensures VisibleTo(admin, WithoutId(rows, id)) == WithoutId(VisibleTo(admin, rows), id)
  {
    if rows != [] {
      VisibleWithoutId(admin, rows[1..], id);
      var kept := if rows[0].id == id then [] else [rows[0]];
      var seen := if Sees(admin, rows[0]) then [rows[0]] else [];
      VisibleAppend(admin, kept, WithoutId(rows[1..], id));
      WithoutIdAppend(seen, VisibleTo(admin, rows[1..]), id);
    }
  }

  /** Slot order is a strict weak order: what precedes one row precedes or follows any other. */
  lemma EarlierSlotNegativelyTransitive(a: Appointment, b: Appointment, c: Appointment)
    requires EarlierSlot(a, b)
    ensures EarlierSlot(a, c) || EarlierSlot(c, b)
  {
  }

  lemma WithoutIdSingle(x: Appointment, id: Id)
    ensures WithoutId([x], id) == if x.id == id then [] else [x]
  {
    assert [x][1..] == [];
  }

  /** Inserting a row that is then deleted changes nothing. */
  lemma {:induction false} InsertDeleted(x: Appointment, s: seq<Appointment>, id: Id)
    requires x.id == id
    ensures WithoutId(Sorting.Insert(x, s, EarlierSlot), id) == WithoutId(s, id)
  {
    WithoutIdSingle(x, id);
    if s == [] {
      assert Sorting.Insert(x, s, EarlierSlot) == [x];
    } else if EarlierSlot(x, s[0]) {
      assert Sorting.Insert(x, s, EarlierSlot) == [x] + s;
      WithoutIdAppend([x], s, id);
    } else {
      var tail := Sorting.Insert(x, s[1..], EarlierSlot);
      assert Sorting.Insert(x, s, EarlierSlot) == [s[0]] + tail;
      InsertDeleted(x, s[1..], id);
      WithoutIdAppend([s[0]], tail, id);
      assert [s[0]] + s[1..] == s;
      WithoutIdAppend([s[0]], s[1..], id);
    }
  }

  /** A row that precedes the head of a sorted list precedes every row left after a delete. */
  lemma InsertAtFront(x: Appointment, s: seq<Appointment>, id: Id)
    requires SortedBy(s, EarlierSlot) && s != [] && EarlierSlot(x, s[0])
    ensures Sorting.Insert(x, WithoutId(s, id), EarlierSlot) == [x] + WithoutId(s, id)
  {
    var w := WithoutId(s, id);
    if w != [] {
      WithoutIdMembers(s, id);
      assert w[0] in s;
      var k :| 0 <= k < |s| && s[k] == w[0];
      if k > 0 {
        assert !EarlierSlot(s[k], s[0]);
      }
      EarlierSlotNegativelyTransitive(x, s[0], w[0]);
    }
  }

  lemma SortedTail(s: seq<Appointment>)
    requires SortedBy(s, EarlierSlot) && s != []
    ensures SortedBy(s[1..], EarlierSlot)
  {
    forall i, j | 0 <= i < j < |s[1..]| ensures !EarlierSlot(s[1..][j], s[1..][i]) {
      assert s[1..][j] == s[j + 1] && s[1..][i] == s[i + 1];
    }
  }

  /** Deleting after inserting a row that stays is inserting it after the delete. */
  lemma {:induction false} InsertKept(x: Appointment, s: seq<Appointment>, id: Id)
    requires SortedBy(s, EarlierSlot) && x.id != id
    ensures WithoutId(Sorting.Insert(x, s, EarlierSlot), id) == Sorting.Insert(x, WithoutId(s, id), EarlierSlot)
  {
    if s == [] {
      WithoutIdSingle(x, id);
      assert Sorting.Insert(x, s, EarlierSlot) == [x];
    } else if EarlierSlot(x, s[0]) {
      WithoutIdSingle(x, id);
      assert Sorting.Insert(x, s, EarlierSlot) == [x] + s;
      WithoutIdAppend([x], s, id);
      InsertAtFront(x, s, id);
    } else {
      SortedTail(s);
      InsertKept(x, s[1..], id);
      InsertAfterHead(x, s, id);
    }
  }

  /** The step of `InsertKept` where the row goes after the head. */
  lemma InsertAfterHead(x: Appointment, s: seq<Appointment>, id: Id)
    requires s != [] && !EarlierSlot(x, s[0])
    requires WithoutId(Sorting.Insert(x, s[1..], EarlierSlot), id) == Sorting.Insert(x, WithoutId(s[1..], id), EarlierSlot)
    ensures WithoutId(Sorting.Insert(x, s, EarlierSlot), id) == Sorting.Insert(x, WithoutId(s, id), EarlierSlot)
  {
    var tail := Sorting.Insert(x, s[1..], EarlierSlot);
    var rest := WithoutId(s[1..], id);
    assert Sorting.Insert(x, s, EarlierSlot) == [s[0]] + tail;
    WithoutIdAppend([s[0]], tail, id);
    WithoutIdSingle(s[0], id);
    assert WithoutId(Sorting.Insert(x, s, EarlierSlot), id) == WithoutId([s[0]], id) + Sorting.Insert(x, rest, EarlierSlot);
    assert [s[0]] + s[1..] == s;
    WithoutIdAppend([s[0]], s[1..], id);
    assert WithoutId(s, id) == WithoutId([s[0]], id) + rest;
    if s[0].id != id {
      var r := [s[0]] + rest;
      assert r[0] == s[0];
      assert r[1..] == rest;
      assert Sorting.Insert(x, r, EarlierSlot) == [s[0]] + Sorting.Insert(x, rest, EarlierSlot);
    } else {
      assert WithoutId(s, id) == rest;
    }
  }

  lemma SlotSorted(s: seq<Appointment>)
    ensures SortedBy(SortBy(s, EarlierSlot), EarlierSlot)
  {
    EarlierSlotIsStrictOrder();
    SortBySorted(s, EarlierSlot);
  }

  lemma {:induction false} SortWithoutId(s: seq<Appointment>, id: Id)
    ensures SortBy(WithoutId(s, id), EarlierSlot) == WithoutId(SortBy(s, EarlierSlot), id)
  {
    if s != [] {
      SortWithoutId(s[..|s| - 1], id);
      SortWithoutIdStep(s, id);
    }
  }

  /** The step of `SortWithoutId`: from the rows but the last to all of them. */
  lemma SortWithoutIdStep(s: seq<Appointment>, id: Id)
    requires s != []
    requires SortBy(WithoutId(s[..|s| - 1], id), EarlierSlot) == WithoutId(SortBy(s[..|s| - 1], EarlierSlot), id)
    ensures SortBy(WithoutId(s, id), EarlierSlot) == WithoutId(SortBy(s, EarlierSlot), id)
  {
    var init, x := s[..|s| - 1], s[|s| - 1];
    SplitLast(s);
    var sorted := SortBy(init, EarlierSlot);
    assert SortBy(s, EarlierSlot) == Sorting.Insert(x, sorted, EarlierSlot);
    WithoutIdAppend(init, [x], id);
    WithoutIdSingle(x, id);
    SlotSorted(init);
    if x.id == id {
      assert WithoutId(s, id) == WithoutId(init, id);
      InsertDeleted(x, sorted, id);
    } else {
      var w := WithoutId(init, id) + [x];
      assert WithoutId(s, id) == w;
      assert w[..|w| - 1] == WithoutId(init, id) && w[|w| - 1] == x;
      assert SortBy(w, EarlierSlot) == Sorting.Insert(x, SortBy(WithoutId(init, id), EarlierSlot), EarlierSlot);
      InsertKept(x, sorted, id);
    }
  }

  lemma SplitLast(s: seq<Appointment>)
    requires s != []
    ensures s == s[..|s| - 1] + [s[|s| - 1]]
  {
  }

  /** Deleting a row in the table and then querying gives the panel's list with the local
      `filter` applied: the local delete keeps the list as a fresh query would return it. */
  lemma DeleteKeepsListInSync(admin: Option<Admin>, rows: seq<Appointment>, id: Id)
    ensures InSlotOrder(VisibleTo(admin, WithoutId(rows, id)))
         == WithoutId(InSlotOrder(VisibleTo(admin, rows)), id)
  {
    VisibleWithoutId(admin, rows, id);
    SortWithoutId(VisibleTo(admin, rows), id);
  }

  /** `data.error || fallback` on a failed response. */
  function ErrorText(body: Body, fallback: string): string
  {
    if body.ErrorBody? && body.message != "" then body.message else fallback
  }

  // ---------------------------------------------------------------------------------------
  // The page

  class AdminPage {
    var currentAdmin: Option<Admin>
    var selectedMonth: string
    var appointments: seq<Appointment>
    var availableMonths: seq<string>
    var monthlyReport: Option<Report>
    var serviceDetail: Option<ServiceDetailView>

    /** The page before the mount effect, with the current month selected. */
    constructor (month: string)
      ensures currentAdmin == None && selectedMonth == month
      ensures appointments == [] && availableMonths == [] && monthlyReport == None && serviceDetail == None
    {
      currentAdmin, selectedMonth := None, month;
      appointments, availableMonths, monthlyReport, serviceDetail := [], [], None, None;
    }

    /** The list shows what a fresh query for the current admin would return. */
    ghost predicate InSync(db: Db)
      reads this, db
    {
      appointments == InSlotOrder(VisibleTo(currentAdmin, db.appointments))
    }

    /** `fetchAppointments`: the rows the admin may see, by date and then time; on failure the
        list is kept. */
    method FetchAppointments(db: Db, admin: Admin, fails: bool)
      modifies this`appointments
      ensures appointments == if fails then old(appointments) else InSlotOrder(VisibleTo(Some(admin), db.appointments))
    {
      if !fails {
        appointments := InSlotOrder(VisibleTo(Some(admin), db.appointments));
      }
    }

    /** `fetchAvailableMonths`: the month keys of the rows the admin may see, newest first. */
    method FetchAvailableMonths(db: Db, admin: Admin, fails: bool)
      modifies this`availableMonths
      ensures availableMonths == if fails then old(availableMonths)
                                 else MonthsOf(DatesOf(VisibleTo(Some(admin), db.appointments)))
    {
      if !fails {
        availableMonths := AvailableMonths(DatesOf(VisibleTo(Some(admin), db.appointments)));
      }
    }

    /** `fetchMonthlyReport`: a key that does not read as a year and a month makes the date
        range throw, and the report is kept, as it is when the query fails. */
    method FetchMonthlyReport(db: Db, admin: Admin, monthKey: string, fails: bool)
      modifies this`monthlyReport
      ensures fails || ParseMonthKey(monthKey).None? ==> monthlyReport == old(monthlyReport)
      ensures !fails && ParseMonthKey(monthKey).Some? ==>
        var ym := ParseMonthKey(monthKey).value;
        monthlyReport.Some?
        && Describes(monthlyReport.value,
                     MonthRows(Some(admin), db.appointments, db.services, db.professionals, ym.0, ym.1))
    {
      var ym := ParseMonthKey(monthKey);
      if ym.None? || fails {
        return;
      }
      var rows := MonthRows(Some(admin), db.appointments, db.services, db.professionals, ym.value.0, ym.value.1);
      var report := MonthlyReport(rows);
      monthlyReport := Some(report);
    }

    /** `fetchServiceProfessionalDetail`: restricted by the current admin, not by a parameter. */
    method FetchServiceProfessionalDetail(db: Db, serviceName: string, monthKey: string, fails: bool)
      modifies this`serviceDetail
      ensures fails || ParseMonthKey(monthKey).None? ==> serviceDetail == old(serviceDetail)
      ensures !fails && ParseMonthKey(monthKey).Some? ==>
        var ym := ParseMonthKey(monthKey).value;
        var rows := MonthRows(currentAdmin, db.appointments, db.services, db.professionals, ym.0, ym.1);
        serviceDetail == Some(ServiceDetailView(serviceName, Ranked(TallyOf(DetailContributions(rows, serviceName)))))
    {
      var ym := ParseMonthKey(monthKey);
      if ym.None? || fails {
        return;
      }
      var rows := MonthRows(currentAdmin, db.appointments, db.services, db.professionals, ym.value.0, ym.value.1);
      var professionals := ServiceDetail(rows, serviceName);
      serviceDetail := Some(ServiceDetailView(serviceName, professionals));
    }

    /** The mount effect: with an admin stored in the session, remember it and load the list,
        the months and the report of the selected month. */
    method Mount(db: Db, stored: Option<Admin>, listFails: bool, monthsFail: bool, reportFails: bool)
      modifies this`currentAdmin, this`appointments, this`availableMonths, this`monthlyReport
      ensures stored.None? ==>
        currentAdmin == old(currentAdmin) && appointments == old(appointments)
        && availableMonths == old(availableMonths) && monthlyReport == old(monthlyReport)
      ensures stored.Some? ==> currentAdmin == stored
      ensures stored.Some? && !listFails ==> InSync(db)
      ensures stored.Some? && listFails ==> appointments == old(appointments)
      ensures stored.Some? && !monthsFail ==>
        availableMonths == MonthsOf(DatesOf(VisibleTo(stored, db.appointments)))
      ensures stored.Some? && monthsFail ==> availableMonths == old(availableMonths)
      ensures stored.Some? && (reportFails || ParseMonthKey(selectedMonth).None?) ==>
        monthlyReport == old(monthlyReport)
      ensures stored.Some? && !reportFails && ParseMonthKey(selectedMonth).Some? ==>
        var ym := ParseMonthKey(selectedMonth).value;
        monthlyReport.Some?
        && Describes(monthlyReport.value, MonthRows(stored, db.appointments, db.services, db.professionals, ym.0, ym.1))
    {
      if stored.Some? {
        currentAdmin := stored;
        FetchAppointments(db, stored.value, listFails);
        FetchAvailableMonths(db, stored.value, monthsFail);
        FetchMonthlyReport(db, stored.value, selectedMonth, reportFails);
      }
    }

    /** Choosing a month in the selector. The report effect depends on `selectedMonth`, so it
        runs only when the month chosen differs from the one selected; choosing the same month
        again keeps the report as it was, even if the table has changed since. */
    method SelectMonth(db: Db, month: string, reportFails: bool)
      modifies this`selectedMonth, this`monthlyReport
      ensures selectedMonth == month
      ensures month == old(selectedMonth) ==> monthlyReport == old(monthlyReport)
      ensures month != old(selectedMonth) && (currentAdmin.None? || reportFails || ParseMonthKey(month).None?) ==>
        monthlyReport == old(monthlyReport)
      ensures month != old(selectedMonth) && currentAdmin.Some? && !reportFails && ParseMonthKey(month).Some? ==>
        var ym := ParseMonthKey(month).value;
        monthlyReport.Some?
        && Describes(monthlyReport.value, MonthRows(currentAdmin, db.appointments, db.services, db.professionals, ym.0, ym.1))
    {
      if month == selectedMonth {
        return;
      }
      selectedMonth := month;
      if currentAdmin.Some? {
        FetchMonthlyReport(db, currentAdmin.value, month, reportFails);
      }
    }

    /** `updateAppointmentStatus`: the row changes in the table and in the list, and the report
        is reloaded; a list in step with the table stays in step. */
    method UpdateAppointmentStatus(db: Db, appointmentId: Id, newStatus: string, fails: bool, reportFails: bool)
      returns (alert: Option<string>)
      requires db.Valid()
      modifies db`appointments, this`appointments, this`monthlyReport
      ensures db.Valid()
      ensures fails ==>
        alert == Some(StatusUpdateFailed) && db.appointments == old(db.appointments)
        && appointments == old(appointments) && monthlyReport == old(monthlyReport)
      ensures !fails ==>
        alert == None
        && db.appointments == WithStatus(old(db.appointments), appointmentId, newStatus)
        && appointments == WithStatus(old(appointments), appointmentId, newStatus)
      ensures !fails && old(InSync(db)) ==> InSync(db)
      ensures !fails && (currentAdmin.None? || reportFails || ParseMonthKey(selectedMonth).None?) ==>
        monthlyReport == old(monthlyReport)
      ensures !fails && currentAdmin.Some? && !reportFails && ParseMonthKey(selectedMonth).Some? ==>
        var ym := ParseMonthKey(selectedMonth).value;
        monthlyReport.Some?
        && Describes(monthlyReport.value, MonthRows(currentAdmin, db.appointments, db.services, db.professionals, ym.0, ym.1))
    {
      if fails {
        return Some(StatusUpdateFailed);
      }
      SetStatus(db, appointmentId, newStatus);
      if currentAdmin.Some? {
        FetchMonthlyReport(db, currentAdmin.value, selectedMonth, reportFails);
      }
      alert := None;
    }

    /** The row's new status, in the table and in the list. */
    method SetStatus(db: Db, appointmentId: Id, newStatus: string)
      requires db.Valid()
      modifies db`appointments, this`appointments
      ensures db.Valid()
      ensures db.appointments == WithStatus(old(db.appointments), appointmentId, newStatus)
      ensures appointments == WithStatus(old(appointments), appointmentId, newStatus)
      ensures old(InSync(db)) ==> InSync(db)
    {
      var before := db.appointments;
      db.appointments := WithStatus(db.appointments, appointmentId, newStatus);
      assert AppointmentIds(db.appointments) == AppointmentIds(before);
      StatusUpdateKeepsListInSync(currentAdmin, before, appointmentId, newStatus);
      appointments := WithStatus(appointments, appointmentId, newStatus);
    }

    /** `deleteAppointment`: after the user confirms, PATCH the manage-admins route with the
        delete action; on success drop the row from the list, otherwise show the route's error
        message. */
    method DeleteAppointment(db: Db, appointmentId: string, confirmed: bool, fails: bool)
      returns (alert: Option<string>)
      requires db.Valid()
      modifies db`appointments, this`appointments
      ensures db.Valid()
      ensures !confirmed ==>
        alert == None && db.appointments == old(db.appointments) && appointments == old(appointments)
      ensures confirmed && appointmentId == "" ==>
        alert == Some(IdAndActionRequired) && db.appointments == old(db.appointments) && appointments == old(appointments)
      ensures confirmed && appointmentId != "" && fails ==>
        alert == Some(ErrorText(InternalError.body, DeleteFailed))
        && db.appointments == old(db.appointments) && appointments == old(appointments)
      ensures confirmed && appointmentId != "" && !fails ==>
        alert == Some(DeleteDone)
        && db.appointments == WithoutId(old(db.appointments), appointmentId)
        && appointments == WithoutId(old(appointments), appointmentId)
      ensures confirmed && old(InSync(db)) ==> InSync(db)
    {
      if !confirmed {
        return None;
      }
      var before := db.appointments;
      var resp := ManageAdminsRoute.Patch(db, appointmentId, DeleteAction, fails);
      if resp.status < 200 || resp.status > 299 {
        return Some(ErrorText(resp.body, DeleteFailed));
      }
      DeleteKeepsListInSync(currentAdmin, before, appointmentId);
      appointments := WithoutId(appointments, appointmentId);
      alert := Some(DeleteDone);
    }
  }
}
