/** The `DD/MM/YYYY` text both tables export for a calendar date. */
module DateFormat {
  import opened Common
  import opened Text
  import opened Time

  /** The decimal digits of `n`, with a leading '0' when there is only one. */
  function TwoDigits(n: nat): (r: string)
    ensures |r| >= 2
    ensures forall i :: 0 <= i < |r| ==> '0' <= r[i] <= '9'
  {
    PadStart(NatToString(n), 2, '0')
  }

  /** `${day}/${month}/${year}` with day and month padded to two digits. */
  function FormatDMY(c: Civil): (r: string)
    requires 1 <= c.month <= 12 && 1 <= c.day
  {
    TwoDigits(c.day) + "/" + TwoDigits(c.month) + "/" + IntToString(c.year)
  }

  /** What the three `String(NaN).padStart(...)` pieces of an Invalid Date give. */
  const InvalidDMY: string := "NaN/NaN/NaN"

  /** Reads `DD/MM/YYYY` text back into a date: three '/'-separated runs of decimal digits. */
  function ParseDMY(s: string): (r: Option<Civil>)
    ensures r.Some? ==> |Split(s, '/')| == 3
  {
    var parts := Split(s, '/');
    if |parts| == 3 && AllDigits(parts[0]) && AllDigits(parts[1]) && AllDigits(parts[2])
    then Some(Civil(DecimalValue(parts[2]), DecimalValue(parts[1]), DecimalValue(parts[0])))
    else None
  }

  predicate AllDigits(s: string) {
    forall i :: 0 <= i < |s| ==> '0' <= s[i] <= '9'
  }

  /** Leading zeros do not change the value of a digit string. */
  lemma {:induction false} LeadingZeros(z: string, s: string)
    requires forall i :: 0 <= i < |z| ==> z[i] == '0'
    requires AllDigits(s)
    ensures AllDigits(z + s)
    ensures DecimalValue(z + s) == DecimalValue(s)
    decreases |s|, |z|
  {
    if s != [] {
      var zs := z + s;
      assert zs[..|zs| - 1] == z + s[..|s| - 1];
      LeadingZeros(z, s[..|s| - 1]);
    } else if z != [] {
      assert z + s == z;
      assert z[..|z| - 1] + [] == z[..|z| - 1];
      LeadingZeros(z[..|z| - 1], []);
    } else {
      assert z + s == [];
    }
  }

  /** Padding to two digits keeps the value. */
  lemma TwoDigitsValue(n: nat)
    ensures DecimalValue(TwoDigits(n)) == n
  {
    var d := NatToString(n);
    var r := TwoDigits(n);
    DecimalRoundTrip(n);
    var z := r[..|r| - |d|];
    assert r == z + d;
    LeadingZeros(z, d);
  }

  /** The exported text of a date of a non-negative year reads back as that date. */
  lemma FormatParseRoundTrip(c: Civil)
    requires 1 <= c.month <= 12 && 1 <= c.day && c.year >= 0
    ensures ParseDMY(FormatDMY(c)) == Some(c)
  {
    var dd, mm, yy := TwoDigits(c.day), TwoDigits(c.month), NatToString(c.year);
    var parts := [dd, mm, yy];
    FormatIsJoin(c);
    NoSlash(dd);
    NoSlash(mm);
    NoSlash(yy);
    SplitJoin(parts, '/');
    ParseOfSplit(FormatDMY(c), parts);
    TwoDigitsValue(c.day);
    TwoDigitsValue(c.month);
    DecimalRoundTrip(c.year);
  }

  lemma FormatIsJoin(c: Civil)
    requires 1 <= c.month <= 12 && 1 <= c.day && c.year >= 0
    ensures FormatDMY(c) == Join([TwoDigits(c.day), TwoDigits(c.month), NatToString(c.year)], "/")
  {
    JoinThree(TwoDigits(c.day), TwoDigits(c.month), NatToString(c.year));
  }

  lemma ParseOfSplit(s: string, parts: seq<string>)
    requires |parts| == 3 && Split(s, '/') == parts
    requires AllDigits(parts[0]) && AllDigits(parts[1]) && AllDigits(parts[2])
    ensures ParseDMY(s) == Some(Civil(DecimalValue(parts[2]), DecimalValue(parts[1]), DecimalValue(parts[0])))
  {
  }

  lemma JoinThree(a: string, b: string, c: string)
    ensures Join([a, b, c], "/") == a + "/" + b + "/" + c
  {
    assert [a, b, c][1..] == [b, c] && [b, c][1..] == [c];
    assert Join([c], "/") == c;
    assert Join([b, c], "/") == b + "/" + c;
    assert Join([a, b, c], "/") == a + "/" + (b + "/" + c);
    assert a + "/" + (b + "/" + c) == a + "/" + b + "/" + c;
  }

  lemma NoSlash(s: string)
    requires AllDigits(s)
    ensures '/' !in s
  {
    forall i | 0 <= i < |s|
      ensures s[i] != '/'
    {
    }
  }
}
