/** The relative-day text shown under each task's title: a whole number of
    calendar days between the start of today and the start of the due day
    becomes "n days ago", "Yesterday", "Today", "Tomorrow" or "In n days",
    and the text is then lowercased. */
module RelativeDay {
  import opened Wrappers
  import opened SwiftInt

  // ---------------------------------------------------------------------
  // Decimal rendering of integers (Swift string interpolation of an Int)
  // ---------------------------------------------------------------------

  predicate IsDigit(c: char) { '0' <= c <= '9' }

  predicate AllDigits(s: string) { forall i :: 0 <= i < |s| ==> IsDigit(s[i]) }

  /** A decimal numeral as interpolation prints a natural number: at least
      one digit, and no leading zero unless the numeral is "0". */
  predicate IsNumeral(s: string) { |s| >= 1 && AllDigits(s) && (s[0] == '0' ==> |s| == 1) }

  function DigitChar(d: nat): (c: char)
    requires d < 10
    ensures IsDigit(c) && c as int - '0' as int == d
  {
    ('0' as int + d) as char
  }

  function DigitValue(c: char): (d: nat)
    requires IsDigit(c)
    ensures d < 10 && DigitChar(d) == c
  {
    c as int - '0' as int
  }

  /** The decimal numeral of `n`. */
  function Decimal(n: nat): (s: string)
    ensures IsNumeral(s)
    ensures s[0] == '0' <==> n == 0
    ensures n >= 10 ==> |s| >= 2
  {
    if n < 10 then [DigitChar(n)] else Decimal(n / 10) + [DigitChar(n % 10)]
  }

  /** The value a string of digits denotes. */
  function DecimalValue(s: string): nat
    requires AllDigits(s)
  {
    if s == [] then 0 else 10 * DecimalValue(s[..|s| - 1]) + DigitValue(s[|s| - 1])
  }

  /** Reading back a rendered numeral gives the number. */
  lemma {:induction false} DecimalValueOfDecimal(n: nat)
    ensures DecimalValue(Decimal(n)) == n
  {
    if n >= 10 {
      var s := Decimal(n);
      assert s[..|s| - 1] == Decimal(n / 10);
      DecimalValueOfDecimal(n / 10);
    }
  }

  /** Rendering the value of a numeral gives the numeral back. */
  lemma {:induction false} DecimalOfDecimalValue(s: string)
    requires IsNumeral(s)
    ensures Decimal(DecimalValue(s)) == s
  {
    if |s| > 1 {
      var p := s[..|s| - 1];
      assert p[0] == s[0];
      DecimalOfDecimalValue(p);
      var v := DecimalValue(p);
      assert v != 0;
      var d := DigitValue(s[|s| - 1]);
      assert DecimalValue(s) == 10 * v + d;
      assert (10 * v + d) / 10 == v && (10 * v + d) % 10 == d;
      assert s == p + [s[|s| - 1]];
    }
  }

  // ---------------------------------------------------------------------
  // Lowercasing
  // ---------------------------------------------------------------------

  predicate IsUpper(c: char) { 'A' <= c <= 'Z' }

  predicate NoUpper(s: string) { forall i :: 0 <= i < |s| ==> !IsUpper(s[i]) }

  function LowerChar(c: char): (r: char)
    ensures !IsUpper(r)
    ensures IsUpper(c) ==> r as int == c as int + 32
    ensures !IsUpper(c) ==> r == c
  {
    if IsUpper(c) then (c as int + 32) as char else c
  }

  /** `String.lowercased()` restricted to the letters these texts use: the
      same length, every capital replaced by its small letter (32 code points
      on), and every other character kept. */
  function Lowercase(s: string): (r: string)
    ensures |r| == |s| && NoUpper(r)
    ensures forall i :: 0 <= i < |s| && IsUpper(s[i]) ==> r[i] as int == s[i] as int + 32
    ensures forall i :: 0 <= i < |s| && !IsUpper(s[i]) ==> r[i] == s[i]
  {
    seq(|s|, i requires 0 <= i < |s| => LowerChar(s[i]))
  }

  /** Text without capitals is left as it is. */
  lemma LowercaseNoUpper(s: string)
    requires NoUpper(s)
    ensures Lowercase(s) == s
  {
  }

  /** Lowercasing works character by character, so it splits over concatenation. */
  lemma LowercaseConcat(a: string, b: string)
    ensures Lowercase(a + b) == Lowercase(a) + Lowercase(b)
  {
    var l, r := Lowercase(a + b), Lowercase(a) + Lowercase(b);
    assert forall i :: 0 <= i < |a| ==> l[i] == LowerChar(a[i]) == r[i];
    assert forall i :: |a| <= i < |a + b| ==> l[i] == LowerChar(b[i - |a|]) == r[i];
  }

  /** Lowercasing twice is lowercasing once. */
  lemma LowercaseIdempotent(s: string)
    ensures Lowercase(Lowercase(s)) == Lowercase(s)
  {
    LowercaseNoUpper(Lowercase(s));
  }

  lemma LowercaseCapitalised(c: char, rest: string)
    requires IsUpper(c) && NoUpper(rest)
    ensures Lowercase([c] + rest) == [LowerChar(c)] + rest
  {
    var l := Lowercase([c] + rest);
    assert l[0] == LowerChar(c);
    assert forall i :: 1 <= i < |l| ==> l[i] == rest[i - 1];
  }

  // ---------------------------------------------------------------------
  // The description
  // ---------------------------------------------------------------------

  /** The text before lowercasing, for any day difference: every case but
      the numeric "n days ago" starts with a capital. */
  function RawDescription(n: int): (r: string)
    ensures |r| > 0 && (IsUpper(r[0]) <==> n >= -1)
  {
    if n <= -2 then Decimal(-n) + " days ago"
    else if n == -1 then "Yesterday"
    else if n == 0 then "Today"
    else if n == 1 then "Tomorrow"
    else "In " + Decimal(n) + " days"
  }

  /** The detail text for a task whose due day is `n` calendar days from today. */
  function Description(n: int): (r: string)
    ensures |r| == |RawDescription(n)| && NoUpper(r)
  {
    Lowercase(RawDescription(n))
  }

  lemma NoUpperConcat(d: string, suffix: string)
    requires NoUpper(d) && NoUpper(suffix)
    ensures NoUpper(d + suffix)
  {
    assert forall i :: 0 <= i < |d| ==> (d + suffix)[i] == d[i];
    assert forall i :: |d| <= i < |d + suffix| ==> (d + suffix)[i] == suffix[i - |d|];
  }

  lemma LowercaseInDays(d: string)
    requires NoUpper(d)
    ensures Lowercase("In " + d + " days") == "in " + d + " days"
  {
    var rest := "n " + d + " days";
    assert "In " + d + " days" == ['I'] + rest;
    NoUpperConcat("n ", d);
    NoUpperConcat("n " + d, " days");
    LowercaseCapitalised('I', rest);
  }

  lemma DescriptionDaysAgo(n: int)
    requires n <= -2
    ensures Description(n) == Decimal(-n) + " days ago"
  {
    assert NoUpper(Decimal(-n));
    NoUpperConcat(Decimal(-n), " days ago");
    LowercaseNoUpper(Decimal(-n) + " days ago");
  }

  lemma DescriptionYesterday()
    ensures Description(-1) == "yesterday"
  {
    assert "Yesterday" == ['Y'] + "esterday";
    LowercaseCapitalised('Y', "esterday");
  }

  lemma DescriptionToday()
    ensures Description(0) == "today"
  {
    assert "Today" == ['T'] + "oday";
    LowercaseCapitalised('T', "oday");
  }

  lemma DescriptionTomorrow()
    ensures Description(1) == "tomorrow"
  {
    assert "Tomorrow" == ['T'] + "omorrow";
    LowercaseCapitalised('T', "omorrow");
  }

  lemma DescriptionInDays(n: int)
    requires n >= 2
    ensures Description(n) == "in " + Decimal(n) + " days"
  {
    assert NoUpper(Decimal(n));
    LowercaseInDays(Decimal(n));
  }

  /** What each case of the switch shows once lowercased. */
  lemma DescriptionCases(n: int)
    ensures n <= -2 ==> Description(n) == Decimal(-n) + " days ago"
    ensures n == -1 ==> Description(n) == "yesterday"
    ensures n == 0 ==> Description(n) == "today"
    ensures n == 1 ==> Description(n) == "tomorrow"
    ensures n >= 2 ==> Description(n) == "in " + Decimal(n) + " days"
  {
    if n <= -2 {
      DescriptionDaysAgo(n);
    } else if n == -1 {
      DescriptionYesterday();
    } else if n == 0 {
      DescriptionToday();
    } else if n == 1 {
      DescriptionTomorrow();
    } else {
      DescriptionInDays(n);
    }
  }

  /** Reads a detail text back to the day difference it describes, or None
      when the text is not one that `Description` produces. */
  function ParseDescription(s: string): Option<int>
  {
    match ParseWord(s)
    case Some(n) => Some(n)
    case None =>
      match ParseDaysAgo(s)
      case Some(n) => Some(n)
      case None => ParseInDays(s)
  }

  function ParseWord(s: string): Option<int>
  {
    if s == "yesterday" then Some(-1 as int)
    else if s == "today" then Some(0)
    else if s == "tomorrow" then Some(1)
    else None
  }

  /** "<n> days ago" for a numeral n of at least 2. */
  function ParseDaysAgo(s: string): Option<int>
  {
    if |s| >= 10 && s[|s| - 9..] == " days ago" then
      var p := s[..|s| - 9];
      if IsNumeral(p) && DecimalValue(p) >= 2 then Some(-(DecimalValue(p) as int)) else None
    else None
  }

  /** "in <n> days" for a numeral n of at least 2. */
  function ParseInDays(s: string): Option<int>
  {
    if |s| >= 9 && s[..3] == "in " && s[|s| - 5..] == " days" then
      var p := s[3..|s| - 5];
      if IsNumeral(p) && DecimalValue(p) >= 2 then Some(DecimalValue(p) as int) else None
    else None
  }

  /** A text starting with a digit is none of the three words. */
  lemma ParseWordDigit(s: string)
    requires |s| > 0 && IsDigit(s[0])
    ensures ParseWord(s) == None
  {
    assert "yesterday"[0] == 'y' && "today"[0] == 't' && "tomorrow"[0] == 't';
  }

  /** A text starting with 'i' is none of the three words. */
  lemma ParseWordIn(s: string)
    requires |s| > 0 && s[0] == 'i'
    ensures ParseWord(s) == None
  {
    assert "yesterday"[0] == 'y' && "today"[0] == 't' && "tomorrow"[0] == 't';
  }

  /** A text ending in 's' is not "<n> days ago". */
  lemma ParseDaysAgoEndingS(s: string)
    requires |s| > 0 && s[|s| - 1] == 's'
    ensures ParseDaysAgo(s) == None
  {
  }

  lemma ParseOfDaysAgo(n: int)
    requires n <= -2
    ensures ParseDescription(Decimal(-n) + " days ago") == Some(n)
  {
    var d := Decimal(-n);
    var s := d + " days ago";
    assert s[0] == d[0];
    ParseWordDigit(s);
    assert s[|s| - 9..] == " days ago";
    assert s[..|s| - 9] == d;
    DecimalValueOfDecimal(-n);
    assert ParseDaysAgo(s) == Some(n);
  }

  lemma ParseOfInDays(n: int)
    requires n >= 2
    ensures ParseDescription("in " + Decimal(n) + " days") == Some(n)
  {
    var d := Decimal(n);
    var s := "in " + d + " days";
    assert s[0] == 'i';
    ParseWordIn(s);
    assert s[|s| - 1] == 's';
    ParseDaysAgoEndingS(s);
    assert s[..3] == "in ";
    assert s[|s| - 5..] == " days";
    assert s[3..|s| - 5] == d;
    DecimalValueOfDecimal(n);
    assert ParseInDays(s) == Some(n);
  }

  /** Every day difference is read back from its description. */
  lemma ParseOfDescription(n: int)
    ensures ParseDescription(Description(n)) == Some(n)
  {
    DescriptionCases(n);
    if n <= -2 {
      ParseOfDaysAgo(n);
    } else if n >= 2 {
      ParseOfInDays(n);
    }
  }

  lemma DescriptionOfDaysAgoText(s: string)
    requires ParseDaysAgo(s).Some?
    ensures Description(ParseDaysAgo(s).value) == s
  {
    var p := s[..|s| - 9];
    var v := DecimalValue(p);
    var n: int := -(v as int);
    DecimalOfDecimalValue(p);
    assert Decimal(-n) == p;
    DescriptionDaysAgo(n);
    assert s == p + s[|s| - 9..];
  }

  lemma DescriptionOfInDaysText(s: string)
    requires ParseInDays(s).Some?
    ensures Description(ParseInDays(s).value) == s
  {
    var p := s[3..|s| - 5];
    DecimalOfDecimalValue(p);
    DescriptionInDays(DecimalValue(p));
    assert s == s[..3] + p + s[|s| - 5..];
  }

  /** Every text that is read back is exactly the description of what it is read as. */
  lemma DescriptionOfParse(s: string)
    requires ParseDescription(s).Some?
    ensures Description(ParseDescription(s).value) == s
  {
    if s == "yesterday" {
      DescriptionYesterday();
    } else if s == "today" {
      DescriptionToday();
    } else if s == "tomorrow" {
      DescriptionTomorrow();
    } else if ParseDaysAgo(s).Some? {
      DescriptionOfDaysAgoText(s);
    } else {
      DescriptionOfInDaysText(s);
    }
  }

  /** The texts and the day differences are in one-to-one correspondence:
      no two day differences share a text. */
  lemma ParseDescriptionIff(s: string, n: int)
    ensures ParseDescription(s) == Some(n) <==> Description(n) == s
  {
    ParseOfDescription(n);
    if ParseDescription(s).Some? {
      DescriptionOfParse(s);
    }
  }

  /** The cell's detail label: set to the description when the calendar
      produced a day difference, and left unset otherwise. */
  function DetailText(calendarDays: Option<int>): (r: Option<string>)
    ensures r.Some? <==> calendarDays.Some?
    ensures r.Some? ==> ParseDescription(r.value) == calendarDays && NoUpper(r.value)
  {
    match calendarDays
    case None => None
    case Some(n) => ParseOfDescription(n); Some(Description(n))
  }

  // ---------------------------------------------------------------------
  // The switch as written, over 64-bit Int
  // ---------------------------------------------------------------------

  /** Swift interpolation of a possibly negative Int. */
  function IntDecimal(n: int): string
  {
    if n < 0 then "-" + Decimal(-n) else Decimal(n)
  }

  /** The description exactly as the switch is written: its first case is
      `-Int.max ... -2`, which leaves out `Int.min`, so that value falls to the
      default case and is rendered as "In <n> days". */
  function DescriptionAsWritten(n: Int64): (r: string)
    ensures |r| == |RawDescriptionAsWritten(n)| && NoUpper(r)
  {
    Lowercase(RawDescriptionAsWritten(n))
  }

  function RawDescriptionAsWritten(n: Int64): (r: string)
    ensures |r| > 0 && (IsUpper(r[0]) <==> !(-INT_MAX <= n <= -2))
  {
    if -INT_MAX <= n <= -2 then Decimal(-n) + " days ago"
    else if n == -1 then "Yesterday"
    else if n == 0 then "Today"
    else if n == 1 then "Tomorrow"
    else "In " + IntDecimal(n) + " days"
  }

  /** On every Int but `Int.min` the switch as written agrees with `Description`. */
  lemma DescriptionAsWrittenAgrees(n: Int64)
    requires n != INT_MIN
    ensures DescriptionAsWritten(n) == Description(n)
  {
  }

  /** A text "in -<m> days" is not the description of any day difference. */
  lemma NegativeInDaysIsNoDescription(m: nat)
    ensures ParseDescription("in -" + Decimal(m) + " days") == None
  {
    var s := "in -" + Decimal(m) + " days";
    assert s[0] == 'i';
    ParseWordIn(s);
    assert s[|s| - 1] == 's';
    ParseDaysAgoEndingS(s);
    assert s[3..|s| - 5][0] == '-';
  }

  lemma LowercaseNegativeInDays(m: nat)
    ensures Lowercase("In " + ("-" + Decimal(m)) + " days") == "in -" + Decimal(m) + " days"
  {
    var d := Decimal(m);
    assert NoUpper("-" + d) by {
      assert NoUpper(d);
      NoUpperConcat("-", d);
    }
    LowercaseInDays("-" + d);
    assert "in " + ("-" + d) + " days" == "in -" + d + " days" by {
      assert "in " + ("-" + d) == ("in " + "-") + d;
      assert "in " + "-" == "in -";
    }
  }

  /** Below `-Int.max` the switch as written takes its default case. */
  lemma DescriptionAsWrittenBelowRange(n: Int64)
    requires n < -INT_MAX
    ensures DescriptionAsWritten(n) == "in -" + Decimal(-(n as int)) + " days"
  {
    var m: nat := -(n as int);
    var raw := "In " + ("-" + Decimal(m)) + " days";
    assert RawDescriptionAsWritten(n) == raw by {
      assert !(-INT_MAX <= n <= -2) && n != -1 && n != 0 && n != 1;
      assert IntDecimal(n) == "-" + Decimal(m);
    }
    assert Lowercase(raw) == "in -" + Decimal(m) + " days" by {
      LowercaseNegativeInDays(m);
    }
  }

  /** On `Int.min` the switch as written produces "in -<|Int.min|> days",
      which is not the description of any day difference. */
  lemma DescriptionAsWrittenAtIntMin(n: Int64)
    requires n == INT_MIN
    ensures DescriptionAsWritten(n) == "in -" + Decimal(-(n as int)) + " days"
    ensures forall m: int :: DescriptionAsWritten(n) != Description(m)
  {
    DescriptionAsWrittenBelowRange(n);
    NegativeInDaysIsNoDescription(-(n as int));
    forall m: int ensures DescriptionAsWritten(n) != Description(m) {
      ParseDescriptionIff(DescriptionAsWritten(n), m);
    }
  }
}
