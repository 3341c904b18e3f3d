/** The admin page's reports, computed in memory from the rows a query returns: the month's
    counts and revenue, the services ranked by use, the professionals behind one service, and
    the months that have appointments. */
module AdminReport {
  import opened Text
  import opened Records
  import opened Sorting

  /** The joined `service:services(name, price)` of a report row. */
  datatype ServiceRef = ServiceRef(name: string, price: Option<int>)

  /** A row of the report query: the appointment's status, its service and its professional's
      name, each absent when the join finds nothing. */
  datatype ReportRow = ReportRow(status: string, service: Option<ServiceRef>, professional: Option<string>)

  /** `apt.service?.price || 0`. */
  function PriceOf(r: ReportRow): int
  {
    if r.service.Some? && r.service.value.price.Some? then r.service.value.price.value else 0
  }

  /** `filter((apt) => apt.status === status).length`. */
  function CountStatus(rows: seq<ReportRow>, status: string): (n: nat)
    ensures n <= |rows|
  {
    if rows == [] then 0
    else CountStatus(rows[..|rows| - 1], status) + (if rows[|rows| - 1].status == status then 1 else 0)
  }

  /** `valorTotal`: the prices of the completed rows added up, a missing price counting 0. */
  function CompletedRevenue(rows: seq<ReportRow>): int
  {
    if rows == [] then 0
    else CompletedRevenue(rows[..|rows| - 1])
         + (if rows[|rows| - 1].status == Completed then PriceOf(rows[|rows| - 1]) else 0)
  }

  /** Cancelled and completed rows are told apart: together they are at most all the rows. */
  lemma {:induction false} StatusCountsBounded(rows: seq<ReportRow>, s: string, t: string)
    requires s != t
    ensures CountStatus(rows, s) + CountStatus(rows, t) <= |rows|
  {
    if rows != [] {
      StatusCountsBounded(rows[..|rows| - 1], s, t);
    }
  }

  /** One row's share in a tally: its group key (`""` when the row is skipped), whether it is
      completed, and its price. */
  datatype Contribution = Contribution(key: string, completed: bool, price: int)

  /** A tallied group: `{ name, count, value }`. */
  datatype Entry = Entry(name: string, count: int, value: int)

  /** What a contribution adds to its group's `count` (`byValue` false) or `value` (true). */
  function Amount(c: Contribution, byValue: bool): int
  {
    if !byValue then 1 else if c.completed then c.price else 0
  }

  /** A group's `count` or `value` after the whole tally. */
  function Total(cs: seq<Contribution>, key: string, byValue: bool): int
  {
    if cs == [] then 0
    else Total(cs[..|cs| - 1], key, byValue)
         + (if cs[|cs| - 1].key == key then Amount(cs[|cs| - 1], byValue) else 0)
  }

  /** The sum of `count` or `value` over every contribution that has a group. */
  function GroupedTotal(cs: seq<Contribution>, byValue: bool): int
  {
    if cs == [] then 0
    else GroupedTotal(cs[..|cs| - 1], byValue)
         + (if cs[|cs| - 1].key != "" then Amount(cs[|cs| - 1], byValue) else 0)
  }

  function KeyList(cs: seq<Contribution>): (ks: seq<string>)
    ensures |ks| == |cs| && forall i :: 0 <= i < |cs| ==> ks[i] == cs[i].key
  {
    seq(|cs|, i requires 0 <= i < |cs| => cs[i].key)
  }

  /** The keys of a JavaScript object filled in this order: each non-empty key once, where it
      first appears. */
  function FirstSeen(ks: seq<string>): (r: seq<string>)
  {
    if ks == [] then []
    else
      var p := FirstSeen(ks[..|ks| - 1]);
      var k := ks[|ks| - 1];
      assert ks == ks[..|ks| - 1] + [k];
      if k == "" || k in p then p else p + [k]
  }

  /** Each non-empty key once, and no other. */
  lemma {:induction false} FirstSeenMembers(ks: seq<string>)
    ensures Distinct(FirstSeen(ks))
    ensures forall k :: k in FirstSeen(ks) <==> k != "" && k in ks
  {
    if ks != [] {
      var init, k := ks[..|ks| - 1], ks[|ks| - 1];
      FirstSeenMembers(init);
      assert ks == init + [k];
    }
  }

  /** The groups of a tally in `Object.entries` order, each with its count and value. */
  function TallyOf(cs: seq<Contribution>): (entries: seq<Entry>)
  {
    var keys := FirstSeen(KeyList(cs));
    seq(|keys|, j requires 0 <= j < |keys| => Entry(keys[j], Total(cs, keys[j], false), Total(cs, keys[j], true)))
  }

  /** The tally object after the contributions in order: a new key starts at zero, every
      contribution adds one to its count, and a completed one adds its price to the value. */
  function StatsOf(cs: seq<Contribution>): map<string, (int, int)>
  {
    if cs == [] then map[]
    else
      var stats, c := StatsOf(cs[..|cs| - 1]), cs[|cs| - 1];
      if c.key == "" then stats
      else
        var current := if c.key in stats then stats[c.key] else (0, 0);
        stats[c.key := (current.0 + 1, if c.completed then current.1 + c.price else current.1)]
  }

  lemma KeyListSnoc(cs: seq<Contribution>, i: nat)
    requires i < |cs|
    ensures KeyList(cs[..i + 1]) == KeyList(cs[..i]) + [cs[i].key]
  {
    var a, b := KeyList(cs[..i + 1]), KeyList(cs[..i]) + [cs[i].key];
    forall k | 0 <= k < |a| ensures a[k] == b[k] {
      assert cs[..i + 1][k] == cs[k];
    }
  }

  /** The object holds exactly the groups of the tally. */
  lemma {:induction false} StatsOfKeys(cs: seq<Contribution>)
    ensures forall k :: k in StatsOf(cs) <==> k in FirstSeen(KeyList(cs))
  {
    if cs != [] {
      var init := cs[..|cs| - 1];
      StatsOfKeys(init);
      assert cs[..|cs| - 1 + 1] == cs;
      KeyListSnoc(cs, |cs| - 1);
      FirstSeenSnoc(KeyList(init), cs[|cs| - 1].key);
    }
  }

  /** Each group of the object holds its count and value. */
  lemma {:induction false} StatsOfTotals(cs: seq<Contribution>)
    ensures forall k :: k in StatsOf(cs) ==> StatsOf(cs)[k] == (Total(cs, k, false), Total(cs, k, true))
  {
    if cs != [] {
      var init, c := cs[..|cs| - 1], cs[|cs| - 1];
      StatsOfTotals(init);
      StatsOfKeys(init);
      FirstSeenMembers(KeyList(init));
      forall k | k in StatsOf(cs) ensures StatsOf(cs)[k] == (Total(cs, k, false), Total(cs, k, true)) {
        if k == c.key && k !in StatsOf(init) {
          TotalOfAbsentKey(init, k, false);
          TotalOfAbsentKey(init, k, true);
        }
      }
    }
  }

  /** The `forEach` that fills the tally object, then `Object.entries` of it. */
  method Tally(cs: seq<Contribution>) returns (entries: seq<Entry>)
    ensures entries == TallyOf(cs)
  {
    ghost var ks := KeyList(cs);
    var keys: seq<string> := [];
    var stats: map<string, (int, int)> := map[];
    var i := 0;
    while i < |cs|
      invariant 0 <= i <= |cs|
      invariant keys == FirstSeen(ks[..i])
      invariant stats == StatsOf(cs[..i])
      invariant forall k :: k in stats <==> k in keys
    {
      var c := cs[i];
      FirstSeenPrefix(ks, i);
      StatsOfPrefix(cs, i);
      if c.key != "" {
        var current := (0, 0);
        if c.key in stats {
          current := stats[c.key];
        } else {
          keys := keys + [c.key];
        }
        stats := stats[c.key := (current.0 + 1, if c.completed then current.1 + c.price else current.1)];
      }
      i := i + 1;
    }
    assert cs[..i] == cs && ks[..i] == ks;
    entries := seq(|keys|, j requires 0 <= j < |keys| => Entry(keys[j], stats[keys[j]].0, stats[keys[j]].1));
    StatsOfTotals(cs);
    forall j | 0 <= j < |keys| ensures entries[j] == TallyOf(cs)[j] {
      assert keys[j] in stats;
    }
  }

  /** One more contribution read: `StatsOf` of the longer prefix. */
  lemma StatsOfPrefix(cs: seq<Contribution>, i: nat)
    requires i < |cs|
    ensures var stats, c := StatsOf(cs[..i]), cs[i];
      StatsOf(cs[..i + 1]) ==
        if c.key == "" then stats
        else
          var current := if c.key in stats then stats[c.key] else (0, 0);
          stats[c.key := (current.0 + 1, if c.completed then current.1 + c.price else current.1)]
  {
    assert cs[..i + 1][..i] == cs[..i];
  }

  lemma TotalStep(cs: seq<Contribution>, i: nat, key: string, byValue: bool)
    requires i < |cs|
    ensures Total(cs[..i + 1], key, byValue) ==
      Total(cs[..i], key, byValue) + (if cs[i].key == key then Amount(cs[i], byValue) else 0)
  {
    assert cs[..i + 1][..i] == cs[..i];
  }

  lemma FirstSeenSnoc(ks: seq<string>, k: string)
    ensures FirstSeen(ks + [k]) == if k == "" || k in FirstSeen(ks) then FirstSeen(ks) else FirstSeen(ks) + [k]
  {
    assert (ks + [k])[..|ks|] == ks;
  }

  /** The sum of the entries' counts (`byValue` false) or values (true). */
  function SumEntries(entries: seq<Entry>, byValue: bool): int
  {
    if entries == [] then 0
    else SumEntries(entries[..|entries| - 1], byValue)
         + (if byValue then entries[|entries| - 1].value else entries[|entries| - 1].count)
  }

  /** The sum over `keys` of each group's total. */
  function SumOver(keys: seq<string>, cs: seq<Contribution>, byValue: bool): int
  {
    if keys == [] then 0 else SumOver(keys[..|keys| - 1], cs, byValue) + Total(cs, keys[|keys| - 1], byValue)
  }

  lemma {:induction false} SumEntriesOver(keys: seq<string>, cs: seq<Contribution>, byValue: bool, n: nat)
    requires n <= |keys|
    ensures var t := TallyOf(cs); |t| == |FirstSeen(KeyList(cs))|
    ensures keys == FirstSeen(KeyList(cs)) ==>
      SumEntries(TallyOf(cs)[..n], byValue) == SumOver(keys[..n], cs, byValue)
  {
    if n > 0 && keys == FirstSeen(KeyList(cs)) {
      SumEntriesOver(keys, cs, byValue, n - 1);
      assert TallyOf(cs)[..n][..n - 1] == TallyOf(cs)[..n - 1];
      assert keys[..n][..n - 1] == keys[..n - 1];
    }
  }

  /** A group nobody contributed to totals zero. */
  lemma {:induction false} TotalOfAbsentKey(cs: seq<Contribution>, key: string, byValue: bool)
    requires key !in KeyList(cs)
    ensures Total(cs, key, byValue) == 0
  {
    if cs != [] {
      assert KeyList(cs[..|cs| - 1]) == KeyList(cs)[..|cs| - 1];
      TotalOfAbsentKey(cs[..|cs| - 1], key, byValue);
    }
  }

  /** One more contribution adds its amount to the sum over distinct keys exactly when its key
      is among them. */
  lemma {:induction false} SumOverSnoc(keys: seq<string>, cs: seq<Contribution>, c: Contribution, byValue: bool)
    requires Distinct(keys)
    ensures SumOver(keys, cs + [c], byValue) ==
      SumOver(keys, cs, byValue) + (if c.key in keys then Amount(c, byValue) else 0)
  {
    assert (cs + [c])[..|cs|] == cs;
    if keys != [] {
      var init := keys[..|keys| - 1];
      assert Distinct(init);
      SumOverSnoc(init, cs, c, byValue);
      assert keys == init + [keys[|keys| - 1]];
    }
  }

  /** The counts (or values) of all groups add up to the amounts of all grouped contributions. */
  lemma {:induction false} TallyAddsUp(cs: seq<Contribution>, byValue: bool)
    ensures SumEntries(TallyOf(cs), byValue) == GroupedTotal(cs, byValue)
  {
    var keys := FirstSeen(KeyList(cs));
    SumEntriesOver(keys, cs, byValue, |keys|);
    assert TallyOf(cs)[..|keys|] == TallyOf(cs) && keys[..|keys|] == keys;
    SumOverAddsUp(cs, byValue);
  }

  lemma {:induction false} SumOverAddsUp(cs: seq<Contribution>, byValue: bool)
    ensures SumOver(FirstSeen(KeyList(cs)), cs, byValue) == GroupedTotal(cs, byValue)
  {
    if cs != [] {
      var init, c := cs[..|cs| - 1], cs[|cs| - 1];
      assert cs == init + [c];
      assert KeyList(cs) == KeyList(init) + [c.key];
      var before := FirstSeen(KeyList(init));
      FirstSeenMembers(KeyList(init));
      SumOverAddsUp(init, byValue);
      SumOverSnoc(before, init, c, byValue);
      if c.key != "" && c.key !in before {
        assert FirstSeen(KeyList(cs)) == before + [c.key];
        TotalOfAbsentKey(init, c.key, byValue);
      }
    }
  }

  /** `sort((a, b) => b.count - a.count)`: the more used first. */
  predicate MoreUsed(a: Entry, b: Entry)
  {
    a.count > b.count
  }

  /** The groups ranked by count, highest first. */
  function Ranked(entries: seq<Entry>): (r: seq<Entry>)
    ensures multiset(r) == multiset(entries)
    ensures forall i, j :: 0 <= i < j < |r| ==> r[i].count >= r[j].count
  {
    assert StrictOrder(MoreUsed);
    SortBySorted(entries, MoreUsed);
    SortBy(entries, MoreUsed)
  }

  const RankSize := 5

  function Min(a: int, b: int): int { if a < b then a else b }

  /** `slice(0, 5)`. */
  function MostUsed(ranked: seq<Entry>): seq<Entry>
  {
    ranked[..Min(RankSize, |ranked|)]
  }

  /** `slice(-5).reverse()`. */
  function LeastUsed(ranked: seq<Entry>): seq<Entry>
  {
    Reverse(ranked[|ranked| - Min(RankSize, |ranked|)..])
  }

  /** The most-used list holds at most five groups (five when there are that many), each used
      at least as often as any group left out of it. */
  lemma MostUsedList(entries: seq<Entry>)
    ensures var r := Ranked(entries);
      |MostUsed(r)| <= RankSize && (|r| >= RankSize ==> |MostUsed(r)| == RankSize)
      && (forall e, f :: e in MostUsed(r) && f in r[|MostUsed(r)|..] ==> e.count >= f.count)
  {
    var r := Ranked(entries);
    var m := Min(RankSize, |r|);
    forall e, f | e in MostUsed(r) && f in r[m..] ensures e.count >= f.count {
      var i :| 0 <= i < m && r[i] == e;
      var j :| 0 <= j < |r| - m && r[m..][j] == f;
      assert r[m + j] == f;
    }
  }

  /** The least-used list holds at most five groups (five when there are that many), least
      used first, none used more often than a group left out of it. */
  lemma LeastUsedList(entries: seq<Entry>)
    ensures var r := Ranked(entries);
      |LeastUsed(r)| <= RankSize && (|r| >= RankSize ==> |LeastUsed(r)| == RankSize)
      && (forall e, f :: e in LeastUsed(r) && f in r[..|r| - |LeastUsed(r)|] ==> e.count <= f.count)
      && (forall i, j :: 0 <= i < j < |LeastUsed(r)| ==> LeastUsed(r)[i].count <= LeastUsed(r)[j].count)
  {
    LeastUsedOfRanked(Ranked(entries));
  }

  lemma LeastUsedOfRanked(r: seq<Entry>)
    requires forall i, j :: 0 <= i < j < |r| ==> r[i].count >= r[j].count
    ensures |LeastUsed(r)| == Min(RankSize, |r|)
    ensures forall e, f :: e in LeastUsed(r) && f in r[..|r| - |LeastUsed(r)|] ==> e.count <= f.count
    ensures forall i, j :: 0 <= i < j < |LeastUsed(r)| ==> LeastUsed(r)[i].count <= LeastUsed(r)[j].count
  {
    var m := Min(RankSize, |r|);
    LeastUsedAt(r);
    var least := LeastUsed(r);
    forall e, f | e in least && f in r[..|r| - m] ensures e.count <= f.count {
      var i :| 0 <= i < m && least[i] == e;
      var j :| 0 <= j < |r| - m && r[..|r| - m][j] == f;
      assert r[j] == f && e == r[|r| - 1 - i];
    }
    forall i, j | 0 <= i < j < m ensures least[i].count <= least[j].count {
      assert least[i] == r[|r| - 1 - i] && least[j] == r[|r| - 1 - j];
    }
  }

  /** The least-used list is the ranking read from its end. */
  lemma LeastUsedAt(r: seq<Entry>)
    ensures |LeastUsed(r)| == Min(RankSize, |r|)
    ensures forall i :: 0 <= i < |LeastUsed(r)| ==> LeastUsed(r)[i] == r[|r| - 1 - i]
  {
    var m := Min(RankSize, |r|);
    var tail := r[|r| - m..];
    forall i | 0 <= i < m ensures LeastUsed(r)[i] == r[|r| - 1 - i] {
      assert LeastUsed(r)[i] == tail[m - 1 - i];
    }
  }

  /** The monthly report. */
  datatype Report = Report(cancelled: nat, completed: nat, total: int,
                           mostUsed: seq<Entry>, leastUsed: seq<Entry>)

  /** `apt.service?.name`, or `""` when there is none (the row is then skipped). */
  function ServiceKey(r: ReportRow): string
  {
    if r.service.Some? then r.service.value.name else ""
  }

  function ServiceContributions(rows: seq<ReportRow>): (cs: seq<Contribution>)
    ensures |cs| == |rows|
    ensures forall i :: 0 <= i < |rows| ==>
      cs[i] == Contribution(ServiceKey(rows[i]), rows[i].status == Completed, PriceOf(rows[i]))
  {
    seq(|rows|, i requires 0 <= i < |rows| =>
      Contribution(ServiceKey(rows[i]), rows[i].status == Completed, PriceOf(rows[i])))
  }

  /** `fetchMonthlyReport` after its query: the counts, the revenue and the two rankings of
      the services used in the month. */
  method MonthlyReport(rows: seq<ReportRow>) returns (report: Report)
    ensures report.cancelled == CountStatus(rows, Cancelled)
    ensures report.completed == CountStatus(rows, Completed)
    ensures report.total == CompletedRevenue(rows)
    ensures report.mostUsed == MostUsed(Ranked(TallyOf(ServiceContributions(rows))))
    ensures report.leastUsed == LeastUsed(Ranked(TallyOf(ServiceContributions(rows))))
  {
    var entries := Tally(ServiceContributions(rows));
    var sorted := Ranked(entries);
    report := Report(CountStatus(rows, Cancelled), CountStatus(rows, Completed), CompletedRevenue(rows),
                     MostUsed(sorted), LeastUsed(sorted));
  }

  /** When every row has a named service, the service counts add up to the number of rows and
      the service values add up to the month's revenue. */
  lemma {:induction false} ServiceTallyMatchesTotals(rows: seq<ReportRow>)
    requires forall i :: 0 <= i < |rows| ==> ServiceKey(rows[i]) != ""
    ensures SumEntries(TallyOf(ServiceContributions(rows)), false) == |rows|
    ensures SumEntries(TallyOf(ServiceContributions(rows)), true) == CompletedRevenue(rows)
  {
    TallyAddsUp(ServiceContributions(rows), false);
    TallyAddsUp(ServiceContributions(rows), true);
    GroupedMatchesRows(rows);
  }

  lemma {:induction false} GroupedMatchesRows(rows: seq<ReportRow>)
    requires forall i :: 0 <= i < |rows| ==> ServiceKey(rows[i]) != ""
    ensures GroupedTotal(ServiceContributions(rows), false) == |rows|
    ensures GroupedTotal(ServiceContributions(rows), true) == CompletedRevenue(rows)
  {
    if rows != [] {
      var init := rows[..|rows| - 1];
      assert ServiceContributions(rows)[..|rows| - 1] == ServiceContributions(init);
      GroupedMatchesRows(init);
    }
  }

  const Unidentified := "Profissional não identificado"

  /** `apt.professional?.name || "Profissional não identificado"`. */
  function ProfessionalKey(r: ReportRow): (k: string)
    ensures k != ""
  {
    if r.professional.Some? && r.professional.value != "" then r.professional.value else Unidentified
  }

  predicate OfService(r: ReportRow, serviceName: string)
  {
    r.service.Some? && r.service.value.name == serviceName
  }

  /** The rows of one service, each keyed by its professional. */
  function DetailContributions(rows: seq<ReportRow>, serviceName: string): (cs: seq<Contribution>)
    ensures |cs| <= |rows|
  {
    if rows == [] then []
    else
      var r := rows[|rows| - 1];
      DetailContributions(rows[..|rows| - 1], serviceName)
      + (if OfService(r, serviceName)
         then [Contribution(ProfessionalKey(r), r.status == Completed, PriceOf(r))] else [])
  }

  function CountOfService(rows: seq<ReportRow>, serviceName: string): nat
  {
    if rows == [] then 0
    else CountOfService(rows[..|rows| - 1], serviceName) + (if OfService(rows[|rows| - 1], serviceName) then 1 else 0)
  }

  /** `fetchServiceProfessionalDetail` after its query: the service's rows grouped by
      professional and ranked by count. */
  method ServiceDetail(rows: seq<ReportRow>, serviceName: string) returns (professionals: seq<Entry>)
    ensures professionals == Ranked(TallyOf(DetailContributions(rows, serviceName)))
  {
    var entries := Tally(DetailContributions(rows, serviceName));
    professionals := Ranked(entries);
  }

  /** Every appointment of the service is counted under exactly one professional. */
  lemma ServiceDetailCountsEveryRow(rows: seq<ReportRow>, serviceName: string)
    ensures SumEntries(TallyOf(DetailContributions(rows, serviceName)), false) == CountOfService(rows, serviceName)
  {
    TallyAddsUp(DetailContributions(rows, serviceName), false);
    DetailGroupedCount(rows, serviceName);
  }

  lemma {:induction false} DetailGroupedCount(rows: seq<ReportRow>, serviceName: string)
    ensures GroupedTotal(DetailContributions(rows, serviceName), false) == CountOfService(rows, serviceName)
  {
    if rows != [] {
      var init, r := rows[..|rows| - 1], rows[|rows| - 1];
      DetailGroupedCount(init, serviceName);
      var before := DetailContributions(init, serviceName);
      if OfService(r, serviceName) {
        var c := Contribution(ProfessionalKey(r), r.status == Completed, PriceOf(r));
        assert DetailContributions(rows, serviceName) == before + [c];
        assert (before + [c])[..|before|] == before;
      } else {
        assert DetailContributions(rows, serviceName) == before;
      }
    }
  }

  /** `${year}-${month padded to 2}`. */
  function MonthKey(d: Date): (k: string)
    ensures k != []
  {
    IntToString(d.year) + "-" + PadStart2(IntToString(d.month))
  }

  /** `monthKey.split("-")` read back as year and month. */
  function ParseMonthKey(k: string): Option<(nat, nat)>
  {
    var parts := Split(k, '-');
    if |parts| == 2 && parts[0] != [] && AllDigits(parts[0]) && parts[1] != [] && AllDigits(parts[1])
    then Some((ParseNat(parts[0]), ParseNat(parts[1])))
    else None
  }

  /** Round trip: the key of a date reads back as its year and month. */
  lemma MonthKeyRoundTrip(d: Date)
    requires d.year >= 0 && 1 <= d.month <= 12
    ensures ParseMonthKey(MonthKey(d)) == Some((d.year, d.month))
  {
    var y, m := NatToString(d.year), PadStart2(NatToString(d.month));
    PaddedNumeral(d.month);
    assert MonthKey(d) == y + ['-'] + m;
    ReadMonthKey(y, m);
    ParseNatToString(d.year);
  }

  lemma ReadMonthKey(y: string, m: string)
    requires y != [] && AllDigits(y) && m != [] && AllDigits(m)
    ensures ParseMonthKey(y + ['-'] + m) == Some((ParseNat(y), ParseNat(m)))
  {
    DigitsExclude(y, '-');
    DigitsExclude(m, '-');
    SplitAfterPiece(y, m, '-');
    SplitNoSeparator(m, '-');
    assert Split(y + ['-'] + m, '-') == [y, m];
  }

  function MonthKeys(dates: seq<Date>): (ks: seq<string>)
    ensures |ks| == |dates| && forall i :: 0 <= i < |dates| ==> ks[i] == MonthKey(dates[i])
  {
    seq(|dates|, i requires 0 <= i < |dates| => MonthKey(dates[i]))
  }

  /** `Array.from(set).sort()` of a `Set` filled with `keys` in order. */
  function AscendingKeys(keys: seq<string>): seq<string>
  {
    SortBy(FirstSeen(keys), StringBefore)
  }

  /** `Array.from(set).sort().reverse()`. */
  function NewestFirst(keys: seq<string>): seq<string>
  {
    Reverse(AscendingKeys(keys))
  }

  /** The months of the dates, newest first. */
  function MonthsOf(dates: seq<Date>): seq<string>
  {
    NewestFirst(MonthKeys(dates))
  }

  /** The distinct keys, sorted: exactly the non-empty keys, strictly ascending. */
  lemma SortedKeys(keys: seq<string>)
    ensures forall k :: k in AscendingKeys(keys) <==> k != "" && k in keys
    ensures var s := AscendingKeys(keys); forall i, j :: 0 <= i < j < |s| ==> StringBefore(s[i], s[j])
  {
    var distinct := FirstSeen(keys);
    var sorted := SortBy(distinct, StringBefore);
    assert sorted == AscendingKeys(keys);
    FirstSeenMembers(keys);
    StringBeforeIsStrictOrder();
    SortBySorted(distinct, StringBefore);
    SameMultisetDistinct(distinct, sorted);
    SortedDistinctStrings(sorted);
    assert forall k :: k in sorted <==> k in multiset(distinct);
  }

  /** The listed keys are the non-empty keys given. */
  lemma NewestFirstMembers(keys: seq<string>)
    ensures forall k :: k in NewestFirst(keys) <==> k != "" && k in keys
  {
    SortedKeys(keys);
    ReverseMembers(AscendingKeys(keys));
  }

  /** The listed keys are in strictly descending order, so each appears once. */
  lemma NewestFirstOrder(keys: seq<string>)
    ensures var r := NewestFirst(keys); forall i, j :: 0 <= i < j < |r| ==> StringBefore(r[j], r[i])
  {
    SortedKeys(keys);
    ReverseOfAscending(AscendingKeys(keys));
  }

  lemma ReverseOfAscending(s: seq<string>)
    requires forall i, j :: 0 <= i < j < |s| ==> StringBefore(s[i], s[j])
    ensures var r := Reverse(s); forall i, j :: 0 <= i < j < |r| ==> StringBefore(r[j], r[i])
  {
    var r := Reverse(s);
    forall i, j | 0 <= i < j < |r| ensures StringBefore(r[j], r[i]) {
      assert r[j] == s[|s| - 1 - j] && r[i] == s[|s| - 1 - i];
    }
  }

  /** The available months: the month keys of the dates, each once, newest first. */
  lemma MonthsOfDescending(dates: seq<Date>)
    ensures forall k :: k in MonthsOf(dates) <==> k in MonthKeys(dates)
    ensures var r := MonthsOf(dates); forall i, j :: 0 <= i < j < |r| ==> StringBefore(r[j], r[i])
  {
    NewestFirstMembers(MonthKeys(dates));
    NewestFirstOrder(MonthKeys(dates));
    forall k | k in MonthKeys(dates) ensures k != "" {
      var i :| 0 <= i < |dates| && MonthKeys(dates)[i] == k;
    }
  }

  lemma ReverseMembers<T>(s: seq<T>)
    ensures forall x :: x in Reverse(s) <==> x in s
  {
    var r := Reverse(s);
    forall x ensures x in r <==> x in s {
      if x in r {
        var i :| 0 <= i < |r| && r[i] == x;
        assert s[|s| - 1 - i] == x;
      }
      if x in s {
        var i :| 0 <= i < |s| && s[i] == x;
        assert r[|s| - 1 - i] == x;
      }
    }
  }

  /** One more key of `ks` read: `FirstSeen` of the longer prefix. */
  lemma FirstSeenPrefix(ks: seq<string>, i: nat)
    requires i < |ks|
    ensures FirstSeen(ks[..i + 1]) ==
      if ks[i] == "" || ks[i] in FirstSeen(ks[..i]) then FirstSeen(ks[..i]) else FirstSeen(ks[..i]) + [ks[i]]
  {
    assert ks[..i + 1] == ks[..i] + [ks[i]];
    FirstSeenSnoc(ks[..i], ks[i]);
  }

  /** `fetchAvailableMonths` after its query: a `Set` filled in row order, then sorted and
      reversed. */
  method AvailableMonths(dates: seq<Date>) returns (months: seq<string>)
    ensures months == MonthsOf(dates)
  {
    ghost var keys := MonthKeys(dates);
    var seen: set<string> := {};
    var order: seq<string> := [];
    var i := 0;
    while i < |dates|
      invariant 0 <= i <= |dates|
      invariant order == FirstSeen(keys[..i])
      invariant forall k :: k in seen <==> k in order
    {
      var key := MonthKey(dates[i]);
      FirstSeenPrefix(keys, i);
      if key !in seen {
        seen := seen + {key};
        order := order + [key];
      }
      i := i + 1;
    }
    assert keys[..i] == keys;
    months := Reverse(SortBy(order, StringBefore));
  }
}
