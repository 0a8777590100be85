/** JavaScript numbers as the tag code meets them: integers, and NaN where a
    conversion fails. Decimal digit strings, `toString`, `padStart(2, "0")`,
    `parseInt(s, 10)` and `Number(s)`. */
module Numbers {
  import opened Text

  /** A JavaScript number restricted to the integers, plus NaN. */
  datatype JsNum = Int(value: int) | NaN

  predicate AllDigits(s: string) {
    forall k :: 0 <= k < |s| ==> IsDigit(s[k])
  }

  function DigitValue(c: char): nat
    requires IsDigit(c)
  {
    c as int - '0' as int
  }

  function DigitChar(d: nat): (c: char)
    requires d < 10
    ensures IsDigit(c) && DigitValue(c) == d
  {
    ('0' as int + d) as char
  }

  function Pow10(n: nat): (r: nat)
    ensures r >= 1
  {
    if n == 0 then 1 else 10 * Pow10(n - 1)
  }

  /** The value of a string of decimal digits, read most significant first;
      the empty string reads as 0. */
  function DigitsValue(s: string): nat
    requires AllDigits(s)
  {
    if s == [] then 0 else DigitsValue(s[..|s| - 1]) * 10 + DigitValue(s[|s| - 1])
  }

  /** Reading a concatenation shifts the left part by the length of the right. */
  lemma {:induction false} DigitsValueAppend(a: string, b: string)
    requires AllDigits(a) && AllDigits(b)
    ensures AllDigits(a + b)
    ensures DigitsValue(a + b) == DigitsValue(a) * Pow10(|b|) + DigitsValue(b)
    decreases |b|
  {
    assert AllDigits(a + b);
    if b != [] {
      var b' := b[..|b| - 1];
      assert (a + b)[..|a + b| - 1] == a + b';
      assert (a + b)[|a + b| - 1] == b[|b| - 1];
      DigitsValueAppend(a, b');
      ShiftDigit(DigitsValue(a), Pow10(|b'|), DigitsValue(b'), DigitValue(b[|b| - 1]));
    } else {
      assert a + b == a;
    }
  }

  lemma ShiftDigit(x: int, p: int, y: int, d: int)
    ensures (x * p + y) * 10 + d == x * (10 * p) + (y * 10 + d)
  {
  }

  /** Leading zeros do not change the value. */
  lemma LeadingZero(s: string)
    requires AllDigits(s)
    ensures AllDigits("0" + s) && DigitsValue("0" + s) == DigitsValue(s)
  {
    DigitsValueAppend("0", s);
    assert DigitsValue("0") == 0 by { assert "0"[..0] == []; }
  }

  /** `n.toString()` for a natural number: decimal, no leading zero. */
  function NatToString(n: nat): (r: string)
    ensures |r| >= 1 && AllDigits(r)
    ensures |r| > 1 ==> r[0] != '0'
  {
    if n < 10 then [DigitChar(n)] else NatToString(n / 10) + [DigitChar(n % 10)]
  }

  lemma {:induction false} NatToStringValue(n: nat)
    ensures DigitsValue(NatToString(n)) == n
  {
    if n >= 10 {
      var s := NatToString(n);
      assert s[..|s| - 1] == NatToString(n / 10);
      NatToStringValue(n / 10);
    }
  }

  /** `String(i)` for an integer. */
  function IntToString(i: int): string
  {
    if i < 0 then "-" + NatToString(-i) else NatToString(i)
  }

  /** `String(x)` for a number of the model. */
  function NumToString(x: JsNum): string
  {
    match x
    case Int(i) => IntToString(i)
    case NaN => "NaN"
  }

  /** `s.padStart(2, "0")`. */
  function PadStart2(s: string): (r: string)
    ensures |r| == if |s| < 2 then 2 else |s|
    ensures EndsWith(r, s)
    ensures forall k :: 0 <= k < |r| - |s| ==> r[k] == '0'
  {
    if |s| == 0 then "00" else if |s| == 1 then "0" + s else s
  }

  /** Length of the longest prefix of digits. */
  function DigitRun(s: string): (n: nat)
    ensures n <= |s| && AllDigits(s[..n])
    ensures n == |s| || !IsDigit(s[n])
  {
    if s != [] && IsDigit(s[0]) then 1 + DigitRun(s[1..]) else 0
  }

  function Signed(negative: bool, n: nat): int {
    if negative then -(n as int) else n
  }

  /** `parseInt(s, 10)`: leading white space skipped, an optional sign, then the
      longest run of digits; no digits gives NaN. Whatever follows is ignored. */
  function ParseInt(s: string): JsNum
  {
    var t := TrimStart(s);
    var signed := t != [] && (t[0] == '-' || t[0] == '+');
    var body := if signed then t[1..] else t;
    var n := DigitRun(body);
    if n == 0 then NaN else Int(Signed(t != [] && t[0] == '-', DigitsValue(body[..n])))
  }

  /** `Number(s)` on the strings of the model: surrounding white space is
      dropped, blank text is 0, an optional sign followed by digits is their
      value; everything else is NaN here. */
  function NumberOf(s: string): JsNum
  {
    var t := Trim(s);
    var signed := t != [] && (t[0] == '-' || t[0] == '+');
    var body := if signed then t[1..] else t;
    if t == [] then Int(0)
    else if body != [] && AllDigits(body) then Int(Signed(t[0] == '-', DigitsValue(body)))
    else NaN
  }

  lemma DigitsHaveNoSpace(s: string)
    requires AllDigits(s)
    ensures s == [] || (!IsSpace(s[0]) && !IsSpace(s[|s| - 1]))
  {
  }

  /** `parseInt` of digits is their value. */
  lemma ParseIntOfDigits(d: string)
    requires d != [] && AllDigits(d)
    ensures ParseInt(d) == Int(DigitsValue(d))
  {
    assert !IsSpace(d[0]);
    DigitRunAll(d);
  }

  /** `parseInt` of a minus sign and digits is their negated value. */
  lemma ParseIntOfNegatedDigits(d: string)
    requires d != [] && AllDigits(d)
    ensures ParseInt("-" + d) == Int(-(DigitsValue(d) as int))
  {
    var s := "-" + d;
    assert !IsSpace(s[0]);
    assert s[1..] == d;
    DigitRunAll(d);
  }

  /** `parseInt` reads back what `toString` writes, with or without a leading
      zero from `padStart`. */
  lemma ParseIntOfIntToString(i: int)
    ensures ParseInt(IntToString(i)) == Int(i)
    ensures ParseInt(PadStart2(IntToString(i))) == Int(i)
  {
    var d := NatToString(if i < 0 then -i else i);
    NatToStringValue(if i < 0 then -i else i);
    if i < 0 {
      ParseIntOfNegatedDigits(d);
    } else {
      ParseIntOfDigits(d);
      if |d| == 1 {
        LeadingZero(d);
        ParseIntOfDigits("0" + d);
      }
    }
  }

  /** `toString` and `padStart(2, "0")` of a natural number: at least two
      digits, reading as that number. */
  lemma PaddedNatDigits(n: nat)
    ensures var t := PadStart2(IntToString(n));
            |t| >= 2 && AllDigits(t) && DigitsValue(t) == n
  {
    var d := NatToString(n);
    NatToStringValue(n);
    if |d| == 1 {
      LeadingZero(d);
    }
  }

  /** `Number` reads back what `toString` writes, with or without a leading
      zero from `padStart`. */
  lemma NumberOfIntToString(i: int)
    ensures NumberOf(IntToString(i)) == Int(i)
    ensures NumberOf(PadStart2(IntToString(i))) == Int(i)
  {
    ReadIntToString(i);
    if i >= 0 && |IntToString(i)| == 1 {
      var d := NatToString(i);
      NatToStringValue(i);
      DigitsHaveNoSpace(d);
      LeadingZero(d);
      TrimOfTrimmed("0" + d);
    }
  }

  lemma ReadIntToString(i: int)
    ensures NumberOf(IntToString(i)) == Int(i)
  {
    var d := NatToString(if i < 0 then -i else i);
    NatToStringValue(if i < 0 then -i else i);
    DigitsHaveNoSpace(d);
    TrimOfTrimmed(IntToString(i));
    if i < 0 {
      assert ("-" + d)[1..] == d;
    }
  }

  lemma DigitRunAll(s: string)
    requires AllDigits(s)
    ensures DigitRun(s) == |s| && s[..|s|] == s
  {
    if s != [] {
      DigitRunAll(s[1..]);
    }
  }

  /** Division truncated toward zero, as JavaScript's `Math.trunc(a / d)`
      and `(a / d) | 0` give it for a positive divisor. */
  function TDiv(a: int, d: nat): int
    requires d > 0
  {
    if a >= 0 then a / d else -((-a) / d)
  }

  /** JavaScript's `a % d`: the remainder takes the sign of `a`. */
  function TMod(a: int, d: nat): (r: int)
    requires d > 0
    ensures a == TDiv(a, d) * d + r
    ensures -(d as int) < r < d && (a >= 0 ==> r >= 0) && (a <= 0 ==> r <= 0)
  {
    if a >= 0 then a % d else -((-a) % d)
  }

  const TwoTo31: int := 0x8000_0000
  const TwoTo32: int := 0x1_0000_0000

  /** ECMAScript ToInt32 on an integer: wrap into the signed 32-bit range. */
  function ToInt32(n: int): (r: int)
    ensures -TwoTo31 <= r < TwoTo31
    ensures (r - n) % TwoTo32 == 0
  {
    var m := n % TwoTo32;
    if m >= TwoTo31 then m - TwoTo32 else m
  }

  /** ToInt32 leaves the signed 32-bit range alone. */
  lemma ToInt32InRange(n: int)
    requires -TwoTo31 <= n < TwoTo31
    ensures ToInt32(n) == n
  {
  }

  /** What `toString` and `padStart(2, "0")` write has no white space and no
      colon, and is never empty. */
  lemma PaddedIntIsPlain(i: int)
    ensures var t := PadStart2(IntToString(i));
            t != [] && ':' !in t && forall k :: 0 <= k < |t| ==> !IsSpace(t[k])
  {
    var d := NatToString(if i < 0 then -i else i);
    var t := PadStart2(IntToString(i));
    forall k | 0 <= k < |t|
      ensures t[k] == '-' || IsDigit(t[k])
    {
    }
  }

  /** `ps.map(p => parseInt(p, 10))`. */
  function ParseInts(ps: seq<string>): (r: seq<JsNum>)
    ensures |r| == |ps| && forall i :: 0 <= i < |ps| ==> r[i] == ParseInt(ps[i])
  {
    if ps == [] then [] else [ParseInt(ps[0])] + ParseInts(ps[1..])
  }

  /** `a + b` on numbers of the model: NaN absorbs. */
  function Add(a: JsNum, b: JsNum): JsNum
  {
    if a.Int? && b.Int? then Int(a.value + b.value) else NaN
  }

  /** `a - b`: NaN absorbs. */
  function Sub(a: JsNum, b: JsNum): JsNum
  {
    if a.Int? && b.Int? then Int(a.value - b.value) else NaN
  }

  /** `Math.max(a, b)`: NaN absorbs. */
  function Max(a: JsNum, b: JsNum): JsNum
  {
    if a.Int? && b.Int? then Int(if a.value < b.value then b.value else a.value) else NaN
  }

  lemma SpaceAt(s: string, k: int)
    ensures 0 <= k < |s| && AllSpace(s) ==> IsSpace(s[k])
  {
  }

  /** `Number` does not read text that holds a colon, such as an ISO 8601
      timestamp. */
  lemma NumberOfWithColon(s: string, j: nat)
    requires j < |s| && s[j] == ':'
    ensures NumberOf(s) == NaN
  {
    TrimSlice(s);
    var i := |s| - |TrimStart(s)|;
    var t := Trim(s);
    SpaceAt(s[..i], j);
    SpaceAt(s[i + |t|..], j - i - |t|);
    if i <= j < i + |t| {
      assert t[j - i] == ':';
      if t[0] == '-' || t[0] == '+' {
        assert t[1..][j - i - 1] == ':';
      }
    }
  }
}
