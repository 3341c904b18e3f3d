/** The Brazilian phone mask hook: `(DD) XXXXX-XXXX` over at most eleven digits, and the
    two state cells `value` (the masked text) and `rawValue` (the digits) it keeps. */
module PhoneMask {
  import opened Text

  /** At most this many digits are shown, and `onChange` accepts no more. */
  const MaxDigits := 11

  function Take11(d: string): (r: string)
    ensures |r| == if |d| <= MaxDigits then |d| else MaxDigits
  {
    if |d| <= MaxDigits then d else d[..MaxDigits]
  }

  /** The mask: stripping it gives back the (first eleven) digits of the input, and it adds
      one character for up to two digits, three up to seven, four beyond. */
  function FormatPhone(phone: string): (r: string)
    ensures Digits(r) == Take11(Digits(phone))
    ensures |r| == |Take11(Digits(phone))| +
      (if |Digits(phone)| <= 2 then 1 else if |Digits(phone)| <= 7 then 3 else 4)
    ensures r[0] == '('
  {
    var d := Digits(phone);
    var t := Take11(d);
    MaskDigits(t);
    if |d| <= 2 then "(" + d
    else if |d| <= 7 then "(" + d[..2] + ") " + d[2..]
    else if |d| <= MaxDigits then "(" + d[..2] + ") " + d[2..7] + "-" + d[7..]
    else
      assert t[..2] == d[..2] && t[2..7] == d[2..7] && t[7..] == d[7..MaxDigits];
      "(" + d[..2] + ") " + d[2..7] + "-" + d[7..MaxDigits]
  }

  /** Stripping the punctuation of each mask shape recovers its digits. */
  lemma MaskDigits(t: string)
    requires AllDigits(t)
    ensures Digits("(" + t) == t
    ensures |t| >= 2 ==> Digits("(" + t[..2] + ") " + t[2..]) == t
    ensures |t| >= 7 ==> Digits("(" + t[..2] + ") " + t[2..7] + "-" + t[7..]) == t
  {
    DigitsOfDigits(t);
    DigitsConcat("(", t);
    if |t| >= 2 {
      ShortMaskDigits(t);
    }
    if |t| >= 7 {
      LongMaskDigits(t);
    }
  }

  lemma ShortMaskDigits(t: string)
    requires AllDigits(t) && |t| >= 2
    ensures Digits("(" + t[..2] + ") " + t[2..]) == t
  {
    var a, b := t[..2], t[2..];
    DigitsOfDigits(a);
    DigitsOfDigits(b);
    DigitsConcat("(", a);
    DigitsConcat("(" + a, ") ");
    DigitsConcat("(" + a + ") ", b);
    assert a + b == t;
  }

  lemma LongMaskDigits(t: string)
    requires AllDigits(t) && |t| >= 7
    ensures Digits("(" + t[..2] + ") " + t[2..7] + "-" + t[7..]) == t
  {
    var a, b, c := t[..2], t[2..7], t[7..];
    DigitsOfDigits(a);
    DigitsOfDigits(b);
    DigitsOfDigits(c);
    var p := "(" + a + ") ";
    DigitsConcat("(", a);
    DigitsConcat("(" + a, ") ");
    assert Digits(p) == a;
    DigitsConcat(p, b);
    DigitsConcat(p + b, "-");
    DigitsConcat(p + b + "-", c);
    assert a + b + c == t;
  }

  /** The mask depends only on the digits of its input. */
  lemma FormatPhoneOnlyDigits(phone: string)
    ensures FormatPhone(phone) == FormatPhone(Digits(phone))
  {
    DigitsOfDigits(Digits(phone));
  }

  /** Round trip: a digit string of at most eleven digits is recovered from its mask. */
  lemma FormatPhoneRoundTrip(d: string)
    requires AllDigits(d) && |d| <= MaxDigits
    ensures Digits(FormatPhone(d)) == d
  {
    DigitsOfDigits(d);
  }

  /** Beyond eleven digits the rest is dropped: the mask equals that of the first eleven. */
  lemma FormatPhoneTruncates(phone: string)
    requires |Digits(phone)| > MaxDigits
    ensures FormatPhone(phone) == FormatPhone(Digits(phone)[..MaxDigits])
  {
    var d := Digits(phone);
    DigitsOfDigits(d[..MaxDigits]);
    assert d[..MaxDigits][..2] == d[..2];
    assert d[..MaxDigits][2..7] == d[2..7];
    assert d[..MaxDigits][7..] == d[7..MaxDigits];
  }

  /** The state cells of one `usePhoneMask()` instance. */
  class PhoneInput {
    var value: string
    var rawValue: string

    /** `rawValue` holds digits only and `value` is its mask, except in the initial state
        where both are empty (the mask of no digits is `"("`). */
    ghost predicate Valid()
      reads this
    {
      AllDigits(rawValue) && (value == FormatPhone(rawValue) || (value == "" && rawValue == ""))
    }

    constructor ()
      ensures Valid() && value == "" && rawValue == ""
    {
      value, rawValue := "", "";
    }

    /** `onChange`: input carrying more than eleven digits is ignored. */
    method OnChange(input: string)
      requires Valid()
      modifies this
      ensures Valid()
      ensures |old(rawValue)| <= MaxDigits ==> |rawValue| <= MaxDigits
      ensures |Digits(input)| <= MaxDigits ==>
        rawValue == Digits(input) && value == FormatPhone(rawValue)
      ensures |Digits(input)| > MaxDigits ==> rawValue == old(rawValue) && value == old(value)
    {
      var numbers := Digits(input);
      if |numbers| <= MaxDigits {
        rawValue := numbers;
        value := FormatPhone(numbers);
      }
    }

    /** `setValue`: no digit limit, so `rawValue` may keep more digits than `value` shows. */
    method SetValue(input: string)
      modifies this
      ensures Valid()
      ensures rawValue == Digits(input) && value == FormatPhone(rawValue)
      ensures Digits(value) == Take11(rawValue)
    {
      var numbers := Digits(input);
      DigitsOfDigits(numbers);
      rawValue := numbers;
      value := FormatPhone(numbers);
    }

    /** `getUnmaskedValue()`: the digits the user typed, which the mask shows in full as
        long as there are at most eleven. */
    function GetUnmaskedValue(): (r: string)
      reads this
      requires Valid()
      ensures AllDigits(r)
      ensures |r| <= MaxDigits ==> Digits(value) == r
    {
      FormatPhoneRoundTrip(if |rawValue| <= MaxDigits then rawValue else "");
      rawValue
    }

    /** `isValid()`: at least ten digits (a two-digit area code and an eight- or nine-digit
        number); within the limit, the same as ten digits showing in the mask. */
    function IsValid(): (b: bool)
      reads this
      requires Valid()
      ensures |rawValue| <= MaxDigits ==> (b <==> |Digits(value)| >= 10)
    {
      FormatPhoneRoundTrip(if |rawValue| <= MaxDigits then rawValue else "");
      |rawValue| >= 10
    }
  }
}
