/** The string operations the pipeline relies on: Python's `str.strip()`,
    `str.startswith` and `int(...)` restricted to decimal digit strings. */
module Text {
  import opened Common

  /** The characters that Python's `str.isspace()` accepts. */
  predicate IsSpace(c: char) {
    var n := c as int;
    || 0x09 <= n <= 0x0D || 0x1C <= n <= 0x20 || n == 0x85 || n == 0xA0
    || n == 0x1680 || 0x2000 <= n <= 0x200A || n == 0x2028 || n == 0x2029
    || n == 0x202F || n == 0x205F || n == 0x3000
  }

  /** Drops leading whitespace. */
  function TrimStart(s: string): string {
    if s != [] && IsSpace(s[0]) then TrimStart(s[1..]) else s
  }

  /** Drops trailing whitespace. */
  function TrimEnd(s: string): string {
    if s != [] && IsSpace(s[|s| - 1]) then TrimEnd(s[..|s| - 1]) else s
  }

  /** `TrimStart` drops exactly the leading run of whitespace. */
  lemma {:induction false} TrimStartDropsLeadingSpace(s: string)
    ensures var r := TrimStart(s);
      && |r| <= |s| && r == s[|s| - |r|..]
      && (forall i :: 0 <= i < |s| - |r| ==> IsSpace(s[i]))
      && (r == [] || !IsSpace(r[0]))
  {
    if s != [] && IsSpace(s[0]) {
      var t := s[1..];
      TrimStartDropsLeadingSpace(t);
      var r := TrimStart(t);
      assert TrimStart(s) == r;
      assert t[|t| - |r|..] == s[|s| - |r|..];
      forall i | 0 <= i < |s| - |r| ensures IsSpace(s[i]) {
        if i > 0 {
          assert s[i] == t[i - 1];
        }
      }
    }
  }

  /** `TrimEnd` drops exactly the trailing run of whitespace. */
  lemma {:induction false} TrimEndDropsTrailingSpace(s: string)
    ensures var r := TrimEnd(s);
      && |r| <= |s| && r == s[..|r|]
      && (forall i :: |r| <= i < |s| ==> IsSpace(s[i]))
      && (r == [] || !IsSpace(r[|r| - 1]))
  {
    if s != [] && IsSpace(s[|s| - 1]) {
      var t := s[..|s| - 1];
      TrimEndDropsTrailingSpace(t);
      var r := TrimEnd(t);
      assert TrimEnd(s) == r;
      assert t[..|r|] == s[..|r|];
      forall i | |r| <= i < |s| ensures IsSpace(s[i]) {
        if i < |s| - 1 {
          assert s[i] == t[i];
        }
      }
    }
  }

  /** Python's `s.strip()`. */
  function Strip(s: string): string {
    TrimEnd(TrimStart(s))
  }

  /** The dataset's null marker: a cell whose stripped form is `"N"`. */
  predicate IsSentinel(s: string) {
    Strip(s) == "N"
  }

  /** A cell is the sentinel exactly when it holds one `N` and otherwise
      only whitespace. */
  lemma SentinelShape(s: string)
    ensures IsSentinel(s) <==>
      exists i :: 0 <= i < |s| && s[i] == 'N' && forall j :: 0 <= j < |s| && j != i ==> IsSpace(s[j])
  {
    var t := TrimStart(s);
    var u := TrimEnd(t);
    var a := |s| - |t|;
    TrimStartDropsLeadingSpace(s);
    TrimEndDropsTrailingSpace(t);
    if IsSentinel(s) {
      assert u == "N" && t[0] == 'N';
      assert s[a] == 'N';
      forall j | 0 <= j < |s| && j != a ensures IsSpace(s[j]) {
        if j > a { assert s[j] == t[j - a]; }
      }
    }
    if exists i :: 0 <= i < |s| && s[i] == 'N' && forall j :: 0 <= j < |s| && j != i ==> IsSpace(s[j]) {
      var i :| 0 <= i < |s| && s[i] == 'N' && forall j :: 0 <= j < |s| && j != i ==> IsSpace(s[j]);
      assert !IsSpace('N');
      assert a == i;
      assert t[0] == 'N';
      assert |u| == 1;
      assert u == [t[0]];
    }
  }

  /** Python's `s.startswith(prefix)`. */
  predicate StartsWith(s: string, prefix: string) {
    |prefix| <= |s| && s[..|prefix|] == prefix
  }

  predicate IsDigit(c: char) {
    '0' <= c <= '9'
  }

  predicate AllDigits(s: string) {
    forall i :: 0 <= i < |s| ==> IsDigit(s[i])
  }

  /** The value of a string of decimal digits, most significant first. */
  function DigitsValue(s: string): nat
    requires AllDigits(s)
  {
    if s == [] then 0 else DigitsValue(s[..|s| - 1]) * 10 + (s[|s| - 1] as int - '0' as int)
  }

  /** `int(s)` on the strings the model admits: a non-empty run of decimal
      digits; anything else is the parse failure that `int` raises. */
  function ParseInt(s: string): (r: Option<nat>)
    ensures r.Some? <==> s != [] && AllDigits(s)
    ensures r.Some? ==> r.value < Pow10(|s|)
    ensures r.Some? && s[0] != '0' ==> Pow10(|s| - 1) <= r.value
  {
    if s != [] && AllDigits(s) then DigitsBounds(s); Some(DigitsValue(s)) else None
  }

  /** A run of n digits denotes a number below ten to the n, and at least
      ten to the n - 1 when it does not start with a zero. */
  lemma {:induction false} DigitsBounds(s: string)
    requires AllDigits(s)
    ensures DigitsValue(s) < Pow10(|s|)
    ensures s != [] && s[0] != '0' ==> Pow10(|s| - 1) <= DigitsValue(s)
  {
    if s != [] {
      var init := s[..|s| - 1];
      DigitsBounds(init);
      if init != [] {
        assert init[0] == s[0];
      }
    }
  }

  function Pow10(n: nat): nat {
    if n == 0 then 1 else 10 * Pow10(n - 1)
  }

  /** One more digit on the right multiplies the parsed value by ten and
      adds the digit. */
  lemma ParseIntAppendDigit(s: string, c: char)
    requires s != [] && AllDigits(s) && IsDigit(c)
    ensures ParseInt(s + [c]).Some?
    ensures ParseInt(s + [c]).value == 10 * ParseInt(s).value + (c as int - '0' as int)
  {
    var t := s + [c];
    assert t[..|t| - 1] == s && t[|t| - 1] == c;
  }

  lemma ShiftDigit(d: int, p: int, v: int, e: int)
    ensures (d * p + v) * 10 + e == d * (10 * p) + (v * 10 + e)
  {
  }

  /** A digit on the left adds its value times ten to the power of the
      length of the rest: digits count most significant first. */
  lemma {:induction false} DigitsPrepend(c: char, s: string)
    requires IsDigit(c) && AllDigits(s)
    ensures AllDigits([c] + s)
    ensures DigitsValue([c] + s) == (c as int - '0' as int) * Pow10(|s|) + DigitsValue(s)
  {
    var t := [c] + s;
    assert forall i :: 0 <= i < |t| ==> t[i] == if i == 0 then c else s[i - 1];
    if s == [] {
      assert t == [c] && t[..0] == [];
    } else {
      var init := s[..|s| - 1];
      var e := s[|s| - 1] as int - '0' as int;
      DigitsPrepend(c, init);
      assert t[..|t| - 1] == [c] + init;
      assert DigitsValue(t) == DigitsValue([c] + init) * 10 + e;
      assert DigitsValue(s) == DigitsValue(init) * 10 + e;
      ShiftDigit(c as int - '0' as int, Pow10(|init|), DigitsValue(init), e);
    }
  }

  /** Leading zeros do not change the parsed value, as with Python's `int`. */
  lemma ParseIntLeadingZero(s: string)
    requires s != [] && AllDigits(s)
    ensures ParseInt("0" + s) == ParseInt(s)
  {
    DigitsPrepend('0', s);
  }

  function DigitChar(d: nat): char
    requires d < 10
  {
    ('0' as int + d) as char
  }

  /** The decimal rendering of a natural number, as Python's `str(n)`. */
  function ToDecimal(n: nat): (s: string)
    ensures s != [] && AllDigits(s)
  {
    if n < 10 then [DigitChar(n)] else ToDecimal(n / 10) + [DigitChar(n % 10)]
  }

  /** Parsing the rendering of a number gives the number back. */
  lemma {:induction false} ParseToDecimal(n: nat)
    ensures ParseInt(ToDecimal(n)) == Some(n)
  {
    var s := ToDecimal(n);
    if n < 10 {
      assert s == [DigitChar(n)] && s[..0] == [];
    } else {
      ParseToDecimal(n / 10);
      assert s[..|s| - 1] == ToDecimal(n / 10);
      assert DigitsValue(s) == DigitsValue(ToDecimal(n / 10)) * 10 + n % 10;
    }
  }
}
