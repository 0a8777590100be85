/** `newId`, as the registries of both stopwatch versions allocate ids: one
    more than the largest key `parseInt` reads, "1" for an empty registry. */
module Ids {
  import opened Text
  import opened Numbers

  /** `Math.max(...xs)` on a non-empty list: NaN as soon as one is NaN. */
  function MaxOf(xs: seq<JsNum>): JsNum
    requires xs != []
  {
    if |xs| == 1 then xs[0] else Max(xs[0], MaxOf(xs[1..]))
  }

  /** The maximum is NaN exactly when some entry is; otherwise it is an
      entry and bounds them all. */
  lemma {:induction false} MaxOfBounds(xs: seq<JsNum>)
    requires xs != []
    ensures MaxOf(xs).Int? <==> forall i :: 0 <= i < |xs| ==> xs[i].Int?
    ensures MaxOf(xs).Int? ==> MaxOf(xs) in xs && forall i :: 0 <= i < |xs| ==> xs[i].value <= MaxOf(xs).value
  {
    if |xs| > 1 {
      MaxOfBounds(xs[1..]);
      assert forall i :: 1 <= i < |xs| ==> xs[i] == xs[1..][i - 1];
    }
  }

  /** Decimal digits, with an optional leading minus sign. */
  predicate Numeral(s: string) {
    s != [] && (s[0] == '-' || IsDigit(s[0])) && forall k :: 1 <= k < |s| ==> IsDigit(s[k])
  }

  /** `toString` of an integer is a numeral. */
  lemma IntToStringNumeral(i: int)
    ensures Numeral(IntToString(i))
  {
    var d := NatToString(if i < 0 then -i else i);
    if i < 0 {
      assert forall k :: 1 <= k < |"-" + d| ==> ("-" + d)[k] == d[k - 1];
    }
  }

  /** `newId` as written: "1" for an empty registry, else one more than the
      largest `parseInt` of the keys; a single key `parseInt` cannot read
      makes the maximum, and so the id, NaN. */
  function NewIdAsWritten(ids: seq<string>): (id: string)
    ensures id == "NaN" || Numeral(id)
  {
    if ids == [] then "1"
    else
      var n := Add(MaxOf(ParseInts(ids)), Int(1));
      if n.Int? then IntToStringNumeral(n.value); NumToString(n) else NumToString(n)
  }

  /** The keys `parseInt` reads, as integers. */
  function Readable(ids: seq<string>): seq<int>
  {
    if ids == [] then []
    else (if ParseInt(ids[0]).Int? then [ParseInt(ids[0]).value] else []) + Readable(ids[1..])
  }

  /** Every key `parseInt` reads is among the readable ones. */
  lemma {:induction false} ReadableHas(ids: seq<string>, i: nat)
    requires i < |ids| && ParseInt(ids[i]).Int?
    ensures ParseInt(ids[i]).value in Readable(ids)
  {
    if i > 0 {
      ReadableHas(ids[1..], i - 1);
    }
  }

  /** The largest of a non-empty list of integers. */
  function MaxInt(ns: seq<int>): (m: int)
    requires ns != []
    ensures m in ns && forall n :: n in ns ==> n <= m
  {
    if |ns| == 1 then ns[0]
    else
      var rest := MaxInt(ns[1..]);
      assert forall n :: n in ns ==> n == ns[0] || n in ns[1..];
      if ns[0] < rest then rest else ns[0]
  }

  /** `newId` with the keys `parseInt` cannot read passed over: one more
      than the largest readable key, or "1" when there is none. */
  function NewId(ids: seq<string>): (id: string)
    ensures Numeral(id)
  {
    var ns := Readable(ids);
    if ns == [] then "1" else IntToStringNumeral(MaxInt(ns) + 1); IntToString(MaxInt(ns) + 1)
  }

  /** The id `newId` allocates is above every key `parseInt` reads, and it
      is not a key already. */
  lemma NewIdFresh(ids: seq<string>)
    ensures NewId(ids) !in ids
    ensures ParseInt(NewId(ids)).Int?
    ensures forall i :: 0 <= i < |ids| && ParseInt(ids[i]).Int? ==> ParseInt(ids[i]).value < ParseInt(NewId(ids)).value
  {
    var ns := Readable(ids);
    var r := NewId(ids);
    if ns == [] {
      assert r == IntToString(1);
      ParseIntOfIntToString(1);
    } else {
      ParseIntOfIntToString(MaxInt(ns) + 1);
    }
    forall i | 0 <= i < |ids|
      ensures ids[i] != r && (ParseInt(ids[i]).Int? ==> ParseInt(ids[i]).value < ParseInt(r).value)
    {
      if ParseInt(ids[i]).Int? {
        ReadableHas(ids, i);
      }
    }
  }

  /** With every key readable the two agree. */
  lemma NewIdAgrees(ids: seq<string>)
    requires forall i :: 0 <= i < |ids| ==> ParseInt(ids[i]).Int?
    ensures NewIdAsWritten(ids) == NewId(ids)
  {
    if ids != [] {
      MaxOfReadable(ids);
    }
  }

  /** On readable keys `Math.max` agrees with the integer maximum. */
  lemma {:induction false} MaxOfReadable(ids: seq<string>)
    requires ids != [] && forall i :: 0 <= i < |ids| ==> ParseInt(ids[i]).Int?
    ensures Readable(ids) != [] && MaxOf(ParseInts(ids)) == Int(MaxInt(Readable(ids)))
  {
    var v := ParseInt(ids[0]).value;
    assert Readable(ids) == [v] + Readable(ids[1..]);
    if |ids| > 1 {
      MaxOfReadable(ids[1..]);
      assert ParseInts(ids)[1..] == ParseInts(ids[1..]);
      assert Readable(ids)[1..] == Readable(ids[1..]);
    }
  }

  /** A key `parseInt` cannot read makes `newId` as written return "NaN". */
  lemma NewIdAsWrittenNaN(ids: seq<string>, i: nat)
    requires i < |ids| && ParseInt(ids[i]).NaN?
    ensures NewIdAsWritten(ids) == "NaN"
  {
    var xs := ParseInts(ids);
    MaxOfBounds(xs);
    assert !xs[i].Int?;
  }

  /** With the keys "abc" and "NaN" registered, `newId` as written hands out
      "NaN", which is a key already: the entry under it gets overwritten. */
  lemma NewIdAsWrittenCollides()
    ensures NewIdAsWritten(["abc", "NaN"]) == "NaN"
    ensures NewIdAsWritten(["abc", "NaN"]) in ["abc", "NaN"]
    ensures NewId(["abc", "NaN"]) !in ["abc", "NaN"]
  {
    assert ParseInt("abc") == NaN;
    NewIdAsWrittenNaN(["abc", "NaN"], 0);
    NewIdFresh(["abc", "NaN"]);
  }
}
