/** The display helpers the pages share: the duration label of a service and the Portuguese
    label of an appointment status. */
module Display {
  import opened Text
  import opened Records

  /** `formatDuration`: `Nmin` below an hour, otherwise `Hh:MMmin` with the minutes padded to
      two digits (`Hh:00min` for whole hours). */
  function FormatDuration(minutes: int): (r: string)
    ensures |r| > 3 && r[|r| - 3..] == "min"
  {
    if minutes < 60 then IntToString(minutes) + "min"
    else
      var hours := minutes / 60;
      var remaining := minutes % 60;
      if remaining > 0 then NatToString(hours) + "h:" + PadStart2(NatToString(remaining)) + "min"
      else NatToString(hours) + "h:00min"
  }

  /** The whole-hour branch is the padded form of a zero remainder: above an hour the label is
      always hours, `h:`, two-digit minutes and `min`. */
  lemma FormatDurationLongForm(minutes: int)
    requires minutes >= 60
    ensures FormatDuration(minutes) ==
      NatToString(minutes / 60) + "h:" + PadStart2(NatToString(minutes % 60)) + "min"
  {
    if minutes % 60 == 0 {
      assert NatToString(0) == "0";
    }
  }

  /** Reads a duration label back into minutes: `Nmin`, or `Hh:MMmin` with exactly two
      minute digits. */
  function DurationMinutes(s: string): Option<nat>
  {
    if |s| < 3 || s[|s| - 3..] != "min" then None
    else ReadClock(Split(s[..|s| - 3], ':'))
  }

  /** The pieces of a label between the colons, read as minutes. */
  function ReadClock(parts: seq<string>): Option<nat>
  {
    if |parts| == 1 then
      if parts[0] != [] && AllDigits(parts[0]) then Some(ParseNat(parts[0])) else None
    else if |parts| == 2 then
      var h := parts[0];
      if |h| >= 2 && h[|h| - 1] == 'h' && AllDigits(h[..|h| - 1])
         && |parts[1]| == 2 && AllDigits(parts[1])
      then Some(60 * ParseNat(h[..|h| - 1]) + ParseNat(parts[1]))
      else None
    else None
  }

  /** Round trip: reading back the label of a non-negative duration gives the minutes. */
  lemma DurationRoundTrip(minutes: int)
    requires minutes >= 0
    ensures DurationMinutes(FormatDuration(minutes)) == Some(minutes)
  {
    if minutes < 60 {
      ShortDurationRoundTrip(minutes);
    } else {
      LongDurationRoundTrip(minutes);
    }
  }

  lemma ShortDurationRoundTrip(minutes: int)
    requires 0 <= minutes < 60
    ensures DurationMinutes(FormatDuration(minutes)) == Some(minutes)
  {
    var s := FormatDuration(minutes);
    var n := NatToString(minutes);
    assert s[..|s| - 3] == n;
    DigitsExclude(n, ':');
    SplitNoSeparator(n, ':');
    ParseNatToString(minutes);
  }

  lemma LongDurationRoundTrip(minutes: int)
    requires minutes >= 60
    ensures DurationMinutes(FormatDuration(minutes)) == Some(minutes)
  {
    FormatDurationLongForm(minutes);
    LongLabelValue(minutes / 60, minutes % 60);
  }

  /** The label built from `q` hours and `r` minutes reads as `60 * q + r`. */
  lemma LongLabelValue(q: nat, r: nat)
    requires r < 60
    ensures DurationMinutes(NatToString(q) + "h:" + PadStart2(NatToString(r)) + "min") == Some(60 * q + r)
  {
    PaddedNumeral(r);
    ParseNatToString(q);
    ReadLongLabel(NatToString(q), PadStart2(NatToString(r)));
  }

  /** A label `Hh:MMmin` reads as `60 * H + MM`. */
  lemma ReadLongLabel(h: string, p: string)
    requires h != [] && AllDigits(h) && |p| == 2 && AllDigits(p)
    ensures DurationMinutes(h + "h:" + p + "min") == Some(60 * ParseNat(h) + ParseNat(p))
  {
    LongLabelShape(h, p);
    SplitHoursMinutes(h, p);
    HoursPart(h);
    ReadTwoParts(h + "h:" + p + "min", h + "h", p);
  }

  lemma HoursPart(h: string)
    ensures var hh := h + "h"; |hh| >= 1 && hh[|hh| - 1] == 'h' && hh[..|hh| - 1] == h
  {
    var hh := h + "h";
    assert hh[..|hh| - 1] == h;
  }

  /** `DurationMinutes` on a label whose body splits into an hours part and a minutes part. */
  lemma ReadTwoParts(s: string, hh: string, p: string)
    requires |s| >= 3 && s[|s| - 3..] == "min" && Split(s[..|s| - 3], ':') == [hh, p]
    requires |hh| >= 2 && hh[|hh| - 1] == 'h' && AllDigits(hh[..|hh| - 1]) && |p| == 2 && AllDigits(p)
    ensures DurationMinutes(s) == Some(60 * ParseNat(hh[..|hh| - 1]) + ParseNat(p))
  {
    var parts := Split(s[..|s| - 3], ':');
    assert DurationMinutes(s) == ReadClock(parts);
    assert |parts| == 2 && parts[0] == hh && parts[1] == p;
  }

  lemma LongLabelShape(h: string, p: string)
    ensures var s := h + "h:" + p + "min";
      |s| >= 3 && s[|s| - 3..] == "min" && s[..|s| - 3] == h + "h" + [':'] + p
  {
    var s := h + "h:" + p + "min";
    assert s[..|s| - 3] == h + "h" + [':'] + p;
  }

  lemma SplitHoursMinutes(h: string, p: string)
    requires AllDigits(h) && AllDigits(p)
    ensures Split(h + "h" + [':'] + p, ':') == [h + "h", p]
  {
    var hh := h + "h";
    DigitsExclude(h, ':');
    DigitsExclude(p, ':');
    assert ':' !in hh;
    SplitAfterPiece(hh, p, ':');
    SplitNoSeparator(p, ':');
  }

  /** `getStatusText`: the three known statuses get their label; any other status is shown
      as it is. */
  function StatusText(status: string): (r: string)
    ensures r == status <==> status != Scheduled && status != Cancelled && status != Completed
    ensures status == Scheduled ==> r == "Agendado"
    ensures status == Cancelled ==> r == "Cancelado"
    ensures status == Completed ==> r == "Concluído"
  {
    if status == Scheduled then "Agendado"
    else if status == Cancelled then "Cancelado"
    else if status == Completed then "Concluído"
    else status
  }

  /** The three known statuses are told apart by their labels. */
  lemma StatusTextDistinguishesKnown(a: string, b: string)
    requires a in {Scheduled, Cancelled, Completed} && b in {Scheduled, Cancelled, Completed}
    requires StatusText(a) == StatusText(b)
    ensures a == b
  {
  }
}
