/** The `stopwatch id:… passed:… limit:… name:… running:…` snippet of the
    plugin's second version: parsing it with defaults, writing it back, and
    the `h:m:s` conversions. */
module Snippet {
  import opened Wrappers
  import opened Text
  import opened Numbers
  import opened Records
  import opened KeyScan

  /** The alternatives of `/(id|name|passed|limit|running):\s*([^\s]+)/g`. */
  const SnippetKeys: seq<string> := ["id", "name", "passed", "limit", "running"]

  datatype Settings = Settings(defaultLimit: int, minIslandWidth: int)

  const DefaultSettings: Settings := Settings(60, 100)

  /** `StopwatchSpec`; an absent `name` is `None`. */
  datatype StopwatchSpec = StopwatchSpec(id: string, passed: JsNum, limit: JsNum, name: Option<string>, running: bool)

  // ---------------------------------------------------------------------
  // Time
  // ---------------------------------------------------------------------

  /** `t.split(":").map(n => +n)`. */
  function TimeFields(t: string): (r: seq<JsNum>)
    ensures |r| == |SplitOn(t, ':')| && |r| >= 1
    ensures forall i :: 0 <= i < |r| ==> r[i] == NumberOf(SplitOn(t, ':')[i])
  {
    NumbersOf(SplitOn(t, ':'))
  }

  function NumbersOf(ps: seq<string>): (r: seq<JsNum>)
    ensures |r| == |ps| && forall i :: 0 <= i < |ps| ==> r[i] == NumberOf(ps[i])
  {
    if ps == [] then [] else [NumberOf(ps[0])] + NumbersOf(ps[1..])
  }

  /** `while (p.length < 3) p.unshift(0)`. */
  function Padded(p: seq<JsNum>): (r: seq<JsNum>)
    ensures |r| >= 3
    decreases 3 - |p|
  {
    if |p| >= 3 then p else Padded([Int(0)] + p)
  }

  /** `h * 3600 + m * 60 + s`; NaN in any of them gives NaN. */
  function HMS(h: JsNum, m: JsNum, s: JsNum): (r: JsNum)
    ensures r.Int? <==> h.Int? && m.Int? && s.Int?
  {
    if h.Int? && m.Int? && s.Int? then Int(h.value * 3600 + m.value * 60 + s.value) else NaN
  }

  /** What `parseTime` returns. */
  function TimeOf(t: string): (r: JsNum)
    ensures ':' !in t ==> r == NumberOf(t)
  {
    var p := Padded(TimeFields(t));
    assert ':' !in t ==> p == [Int(0), Int(0), NumberOf(t)] by {
      if ':' !in t {
        var f := TimeFields(t);
        assert f == [NumberOf(t)];
        assert Padded(f) == Padded([Int(0)] + f) == Padded([Int(0), Int(0)] + f);
      }
    }
    HMS(p[0], p[1], p[2])
  }

  /** `parseTime`: split, convert, pad on the left with zeros, combine. */
  method ParseTime(t: string) returns (r: JsNum)
    ensures r == TimeOf(t)
  {
    var p := TimeFields(t);
    while |p| < 3
      invariant Padded(p) == Padded(TimeFields(t))
      decreases 3 - |p|
    {
      p := [Int(0)] + p;
    }
    r := HMS(p[0], p[1], p[2]);
  }

  /** Fewer than three fields are read as the trailing ones: one field is
      seconds, two are minutes and seconds; only the first three count. */
  lemma TimeOfPadsLeft(t: string)
    ensures var f := TimeFields(t);
            TimeOf(t) == if |f| == 1 then HMS(Int(0), Int(0), f[0])
                         else if |f| == 2 then HMS(Int(0), f[0], f[1])
                         else HMS(f[0], f[1], f[2])
  {
    var f := TimeFields(t);
    if |f| == 1 {
      assert Padded(f) == Padded([Int(0)] + f) == Padded([Int(0), Int(0)] + f);
      assert Padded(f) == [Int(0), Int(0), f[0]];
    } else if |f| == 2 {
      assert Padded(f) == Padded([Int(0)] + f);
      assert Padded(f) == [Int(0), f[0], f[1]];
    }
  }

  /** `pad`: `n.toString().padStart(2, "0")`. */
  function Pad(n: JsNum): (r: string)
    ensures |r| >= 2 && EndsWith(r, NumToString(n))
  {
    PadStart2(NumToString(n))
  }

  /** `formatTime` as written: the hours go through `| 0`, which wraps them
      into the signed 32-bit range; so do the minutes, which always fit. */
  function FormatTimeAsWritten(s: JsNum): (r: string)
    ensures |SplitOn(r, ':')| == 3
  {
    match s
    case NaN =>
      PadsSplitInThree(Int(0), Int(0), NaN);
      Pad(Int(0)) + ":" + Pad(Int(0)) + ":" + Pad(NaN)
    case Int(v) =>
      var h, m, sec := Int(ToInt32(TDiv(v, 3600))), Int(ToInt32(TDiv(TMod(v, 3600), 60))), Int(TMod(v, 60));
      PadsSplitInThree(h, m, sec);
      Pad(h) + ":" + Pad(m) + ":" + Pad(sec)
  }

  /** `formatTime` with the whole hours kept: hours, minutes and seconds by
      division truncated toward zero. */
  function FormatTime(s: JsNum): (r: string)
    ensures |SplitOn(r, ':')| == 3
  {
    match s
    case NaN =>
      PadsSplitInThree(Int(0), Int(0), NaN);
      Pad(Int(0)) + ":" + Pad(Int(0)) + ":" + Pad(NaN)
    case Int(v) =>
      var h, m, sec := Int(TDiv(v, 3600)), Int(TDiv(TMod(v, 3600), 60)), Int(TMod(v, 60));
      PadsSplitInThree(h, m, sec);
      Pad(h) + ":" + Pad(m) + ":" + Pad(sec)
  }

  /** The two agree whenever the hours fit in 32 bits. */
  lemma FormatTimeAgrees(v: int)
    requires -TwoTo31 <= TDiv(v, 3600) < TwoTo31
    ensures FormatTimeAsWritten(Int(v)) == FormatTime(Int(v))
  {
    ToInt32InRange(TDiv(v, 3600));
    ToInt32InRange(TDiv(TMod(v, 3600), 60));
  }

  /** What `pad` writes for an integer: non-empty, no colon, no white
      space, and `Number` reads the integer back. */
  lemma PadReads(i: int)
    ensures var t := Pad(Int(i));
            t != [] && ':' !in t && NoSpace(t) && NumberOf(t) == Int(i)
  {
    PaddedIntIsPlain(i);
    NumberOfIntToString(i);
  }

  /** Three padded numbers joined by colons split back into three fields. */
  lemma PadsSplitInThree(a: JsNum, b: JsNum, c: JsNum)
    ensures |SplitOn(Pad(a) + ":" + Pad(b) + ":" + Pad(c), ':')| == 3
  {
    PadHasNoColon(a);
    PadHasNoColon(b);
    PadHasNoColon(c);
    SplitThree(Pad(a), Pad(b), Pad(c));
  }

  lemma PadHasNoColon(n: JsNum)
    ensures ':' !in Pad(n)
  {
    match n
    case Int(i) => PadReads(i);
    case NaN => PadNaN();
  }

  /** What `pad` writes for NaN, and `Number` reads it back as NaN. */
  lemma PadNaN()
    ensures Pad(NaN) == "NaN" && NumberOf("NaN") == NaN
  {
    TrimOfTrimmed("NaN");
  }

  /** Three colon-free fields joined by colons read as their numbers. */
  lemma ReadThree(a: string, b: string, c: string)
    requires ':' !in a && ':' !in b && ':' !in c
    ensures TimeOf(a + ":" + b + ":" + c) == HMS(NumberOf(a), NumberOf(b), NumberOf(c))
  {
    Join3(a, b, c, [':']);
    SplitOnJoin([a, b, c], ':');
    var f := TimeFields(a + ":" + b + ":" + c);
    assert f == [NumberOf(a), NumberOf(b), NumberOf(c)];
    assert Padded(f) == f;
  }

  /** Seconds written as NaN read back as NaN, whatever the other fields. */
  lemma ReadNaNSeconds(h: int, m: int)
    ensures TimeOf(Pad(Int(h)) + ":" + Pad(Int(m)) + ":" + Pad(NaN)) == NaN
  {
    PadReads(h);
    PadReads(m);
    PadNaN();
    var c := Pad(NaN);
    assert ':' !in c;
    ReadThree(Pad(Int(h)), Pad(Int(m)), c);
  }

  /** Three padded integers joined by colons read as hours, minutes and
      seconds. */
  lemma ReadPads(h: int, m: int, s: int)
    ensures TimeOf(Pad(Int(h)) + ":" + Pad(Int(m)) + ":" + Pad(Int(s))) == Int(h * 3600 + m * 60 + s)
  {
    PadReads(h);
    PadReads(m);
    PadReads(s);
    ReadThree(Pad(Int(h)), Pad(Int(m)), Pad(Int(s)));
  }

  /** Reading what `formatTime` writes gives the number back, for every
      integer number of seconds and for NaN. */
  lemma TimeOfFormatTime(s: JsNum)
    ensures TimeOf(FormatTime(s)) == s
  {
    match s
    case NaN =>
      ReadNaNSeconds(0, 0);
    case Int(v) =>
      ReadPads(TDiv(v, 3600), TDiv(TMod(v, 3600), 60), TMod(v, 60));
      TruncatedSplit(v);
  }

  /** Whole hours, minutes below 60 and seconds below 60 of a non-negative
      number of seconds, by truncating and by flooring division alike. */
  lemma ClockFields(v: nat)
    ensures TDiv(v, 3600) == v / 3600 && TMod(v, 3600) == v % 3600
    ensures TDiv(v % 3600, 60) == v % 3600 / 60 < 60 && TMod(v, 60) == v % 60
  {
    assert v % 3600 < 3600;
  }

  /** Three padded naturals joined by colons split into three fields of at
      least two digits, which read as the three numbers. */
  lemma PaddedFields(h: nat, m: nat, s: nat)
    ensures var f := SplitOn(Pad(Int(h)) + ":" + Pad(Int(m)) + ":" + Pad(Int(s)), ':');
            && |f| == 3
            && (forall i :: 0 <= i < 3 ==> |f[i]| >= 2 && AllDigits(f[i]))
            && DigitsValue(f[0]) == h && DigitsValue(f[1]) == m && DigitsValue(f[2]) == s
  {
    var a, b, c := Pad(Int(h)), Pad(Int(m)), Pad(Int(s));
    PadNat(h);
    PadNat(m);
    PadNat(s);
    SplitThree(a, b, c);
    var f := SplitOn(a + ":" + b + ":" + c, ':');
    assert f == [a, b, c];
    assert f[0] == a && f[1] == b && f[2] == c;
  }

  /** `pad` of a natural number: at least two digits, reading as it. */
  lemma PadNat(n: nat)
    ensures var t := Pad(Int(n));
            |t| >= 2 && AllDigits(t) && DigitsValue(t) == n && ':' !in t
  {
    PaddedNatDigits(n);
    PadHasNoColon(Int(n));
  }

  /** For a non-negative number of seconds `formatTime` writes three
      colon-separated fields of at least two digits each: the whole hours,
      then the minutes and the seconds, both below 60. */
  lemma FormatTimeFields(v: nat)
    ensures var f := SplitOn(FormatTime(Int(v)), ':');
            && |f| == 3
            && (forall i :: 0 <= i < 3 ==> |f[i]| >= 2 && AllDigits(f[i]))
            && DigitsValue(f[0]) == v / 3600
            && DigitsValue(f[1]) == v % 3600 / 60 && DigitsValue(f[1]) < 60
            && DigitsValue(f[2]) == v % 60 && DigitsValue(f[2]) < 60
  {
    var h, m, sec := v / 3600, v % 3600 / 60, v % 60;
    ClockFields(v);
    assert FormatTime(Int(v)) == Pad(Int(h)) + ":" + Pad(Int(m)) + ":" + Pad(Int(sec));
    PaddedFields(h, m, sec);
  }

  /** The hours as written are the true hours wrapped to 32 bits, and so is
      what `parseTime` reads back. */
  lemma TimeOfFormatTimeAsWritten(v: int)
    ensures TimeOf(FormatTimeAsWritten(Int(v))) == Int(ToInt32(TDiv(v, 3600)) * 3600 + TMod(v, 3600))
  {
    var m := TDiv(TMod(v, 3600), 60);
    ToInt32InRange(m);
    ReadPads(ToInt32(TDiv(v, 3600)), m, TMod(v, 60));
    TruncatedSplit(v);
  }

  /** 2147483648 hours: `formatTime` as written writes -2147483648 hours,
      and `parseTime` reads back a negative number. */
  lemma FormatTimeWrapsHours()
    ensures TimeOf(FormatTimeAsWritten(Int(TwoTo31 * 3600))) == Int(-TwoTo31 * 3600)
    ensures TimeOf(FormatTime(Int(TwoTo31 * 3600))) == Int(TwoTo31 * 3600)
  {
    var v := TwoTo31 * 3600;
    WrappedHours();
    TimeOfFormatTimeAsWritten(v);
    TimeOfFormatTime(Int(v));
  }

  /** The arithmetic of the wrapped example: 2147483648 hours wrap to
      -2147483648. */
  lemma WrappedHours()
    ensures var v := TwoTo31 * 3600;
            ToInt32(TDiv(v, 3600)) * 3600 + TMod(v, 3600) == -TwoTo31 * 3600
  {
    var v := TwoTo31 * 3600;
    assert TDiv(v, 3600) == TwoTo31;
    assert TMod(v, 3600) == 0;
    assert ToInt32(TwoTo31) == -TwoTo31;
  }

  /** Minutes and seconds rebuild the remainder of the hours. */
  lemma TruncatedSplit(v: int)
    ensures TMod(v, 3600) == TDiv(TMod(v, 3600), 60) * 60 + TMod(v, 60)
  {
    if v >= 0 {
      ModOfMod(v);
    } else {
      ModOfMod(-v);
    }
  }

  lemma ModOfMod(x: nat)
    ensures (x % 3600) / 60 * 60 + x % 60 == x % 3600
  {
    var q := x / 3600;
    var r := x % 3600;
    assert x == 3600 * q + r;
    assert x % 60 == r % 60 by {
      assert x == 60 * (60 * q) + r;
    }
  }

  // ---------------------------------------------------------------------
  // Parsing and writing the snippet
  // ---------------------------------------------------------------------

  /** `x ? parseTime(x) : d` on a recorded string. */
  function TimeOr(v: Option<string>, d: JsNum): JsNum
  {
    match v
    case Some(t) => if t != [] then TimeOf(t) else d
    case None => d
  }

  /** What `parseSnippet` returns. */
  function ParseSnippetSpec(raw: string, defaults: Settings): StopwatchSpec
  {
    var rec := Collect(raw, SnippetKeys);
    StopwatchSpec(
      Lookup(rec, "id").GetOr(""),
      TimeOr(Lookup(rec, "passed"), Int(0)),
      TimeOr(Lookup(rec, "limit"), Int(defaults.defaultLimit)),
      Lookup(rec, "name"),
      Lookup(rec, "running") == Some("yes"))
  }

  /** `parseSnippet`. */
  method ParseSnippet(raw: string, defaults: Settings) returns (r: StopwatchSpec)
    ensures r == ParseSnippetSpec(raw, defaults)
  {
    var rec := ExecLoop(raw, SnippetKeys);
    var passed := Int(0);
    var p := Lookup(rec, "passed");
    if p.Some? && p.value != [] {
      passed := ParseTime(p.value);
    }
    var limit := Int(defaults.defaultLimit);
    var l := Lookup(rec, "limit");
    if l.Some? && l.value != [] {
      limit := ParseTime(l.value);
    }
    r := StopwatchSpec(Lookup(rec, "id").GetOr(""), passed, limit, Lookup(rec, "name"),
                       Lookup(rec, "running") == Some("yes"));
  }

  /** Each field comes from the last occurrence of its key in the text:
      `id` defaults to "", `passed` to 0, `limit` to the configured default,
      `name` stays absent, and `running` holds exactly for the value "yes". */
  lemma ParseSnippetLastWins(raw: string, defaults: Settings)
    ensures var r := ParseSnippetSpec(raw, defaults);
            var hits := Scan(raw, SnippetKeys);
            && r.id == LastWrite(hits, "id").GetOr("")
            && r.passed == (if LastWrite(hits, "passed").Some? then TimeOf(LastWrite(hits, "passed").value) else Int(0))
            && r.limit == (if LastWrite(hits, "limit").Some? then TimeOf(LastWrite(hits, "limit").value)
                           else Int(defaults.defaultLimit))
            && r.name == LastWrite(hits, "name")
            && (r.running <==> LastWrite(hits, "running") == Some("yes"))
  {
    var rec := Collect(raw, SnippetKeys);
    CollectLastWins(raw, SnippetKeys, "id");
    CollectLastWins(raw, SnippetKeys, "passed");
    CollectLastWins(raw, SnippetKeys, "limit");
    CollectLastWins(raw, SnippetKeys, "name");
    CollectLastWins(raw, SnippetKeys, "running");
    NonEmptyLookup(rec, "passed");
    NonEmptyLookup(rec, "limit");
  }

  /** Recorded values are never empty, so `rec.x ? … : …` only tests presence. */
  lemma NonEmptyLookup(rec: Record<string>, k: string)
    requires forall e :: e in rec ==> e.1 != []
    ensures Lookup(rec, k).Some? ==> Lookup(rec, k).value != []
  {
  }

  /** The pairs `stringifySnippet` writes, in order, given the texts it
      writes for each field. */
  function Pairs(id: string, passed: string, limit: string, name: Option<string>, flag: string): seq<(string, string)>
  {
    (if id != [] then [("id", id)] else [])
    + [("passed", passed), ("limit", limit)]
    + (if name.Some? && name.value != [] then [("name", name.value)] else [])
    + [("running", flag)]
  }

  function SnippetPairs(spec: StopwatchSpec): seq<(string, string)>
  {
    Pairs(spec.id, FormatTime(spec.passed), FormatTime(spec.limit), spec.name, if spec.running then "yes" else "no")
  }

  /** `stringifySnippet`. */
  method StringifySnippet(spec: StopwatchSpec) returns (out: string)
    ensures out == Join(["stopwatch"] + Labelled(SnippetPairs(spec), ""), " ")
  {
    var passed := FormatTime(spec.passed);
    var limit := FormatTime(spec.limit);
    var flag := if spec.running then "yes" else "no";
    out := WritePairs(spec.id, passed, limit, spec.name, flag);
  }

  /** The pushes of `stringifySnippet`: `id` when non-empty, `passed`,
      `limit`, `name` when non-empty, `running`, joined by spaces. */
  method WritePairs(id: string, passed: string, limit: string, name: Option<string>, flag: string)
    returns (out: string)
    ensures out == Join(["stopwatch"] + Labelled(Pairs(id, passed, limit, name, flag), ""), " ")
  {
    var parts := ["stopwatch"];
    ghost var pairs: seq<(string, string)> := [];
    if id != [] {
      Push(parts, pairs, "id", "id:", id);
      parts := parts + ["id:" + id];
      pairs := pairs + [("id", id)];
    }
    ghost var head := pairs;
    Push(parts, pairs, "passed", "passed:", passed);
    parts := parts + ["passed:" + passed];
    pairs := pairs + [("passed", passed)];
    Push(parts, pairs, "limit", "limit:", limit);
    parts := parts + ["limit:" + limit];
    pairs := pairs + [("limit", limit)];
    ghost var middle := pairs;
    if name.Some? && name.value != [] {
      Push(parts, pairs, "name", "name:", name.value);
      parts := parts + ["name:" + name.value];
      pairs := pairs + [("name", name.value)];
    }
    ghost var tail := pairs[|middle|..];
    assert pairs == middle + tail;
    Push(parts, pairs, "running", "running:", flag);
    parts := parts + ["running:" + flag];
    pairs := pairs + [("running", flag)];
    PairsInOrder(head, middle, tail, id, passed, limit, name, flag);
    out := Join(parts, " ");
  }

  lemma PairsInOrder(head: seq<(string, string)>, middle: seq<(string, string)>, tail: seq<(string, string)>,
                     id: string, passed: string, limit: string, name: Option<string>, flag: string)
    requires head == if id != [] then [("id", id)] else []
    requires middle == head + [("passed", passed)] + [("limit", limit)]
    requires tail == if name.Some? && name.value != [] then [("name", name.value)] else []
    ensures middle + tail + [("running", flag)] == Pairs(id, passed, limit, name, flag)
  {
    assert head + [("passed", passed)] + [("limit", limit)] == head + [("passed", passed), ("limit", limit)];
  }

  /** Pushing `key:value` onto the parts pushes the pair onto what they
      spell. */
  lemma Push(parts: seq<string>, pairs: seq<(string, string)>, key: string, tag: string, value: string)
    requires tag == key + ":"
    requires parts == ["stopwatch"] + Labelled(pairs, "")
    ensures parts + [tag + value] == ["stopwatch"] + Labelled(pairs + [(key, value)], "")
  {
    LabelledAppend(pairs, [(key, value)], "");
    assert key + ":" + "" + value == tag + value;
  }

  /** What `pad` writes is never empty and holds no white space. */
  lemma PadIsPlain(x: JsNum)
    ensures Pad(x) != [] && NoSpace(Pad(x))
  {
    match x
    case Int(i) => PadReads(i);
    case NaN => PadNaN();
  }

  lemma PadsArePlain(x: JsNum, y: JsNum, z: JsNum)
    ensures NoSpace(Pad(x) + ":" + Pad(y) + ":" + Pad(z))
  {
    var a, b, c := Pad(x), Pad(y), Pad(z);
    PadIsPlain(x);
    PadIsPlain(y);
    PadIsPlain(z);
    NoSpaceConcat(a, ":");
    NoSpaceConcat(a + ":", b);
    NoSpaceConcat(a + ":" + b, ":");
    NoSpaceConcat(a + ":" + b + ":", c);
  }

  /** What `formatTime` writes is never empty and holds no white space. */
  lemma FormatTimeIsPlain(s: JsNum)
    ensures FormatTime(s) != [] && NoSpace(FormatTime(s))
  {
    match s
    case NaN => PadsArePlain(Int(0), Int(0), NaN);
    case Int(v) => PadsArePlain(Int(TDiv(v, 3600)), Int(TDiv(TMod(v, 3600), 60)), Int(TMod(v, 60)));
  }

  /** Parsing what `stringifySnippet` writes gives the snippet back: passed,
      limit and running always; id and name when they hold no white space,
      with an empty name read back as absent. */
  lemma ParseStringify(spec: StopwatchSpec, defaults: Settings)
    requires NoSpace(spec.id)
    requires spec.name.Some? ==> NoSpace(spec.name.value)
    ensures ParseSnippetSpec(Join(["stopwatch"] + Labelled(SnippetPairs(spec), ""), " "), defaults) ==
              spec.(name := if spec.name == Some("") then None else spec.name)
  {
    var passed, limit := FormatTime(spec.passed), FormatTime(spec.limit);
    FormatTimeIsPlain(spec.passed);
    FormatTimeIsPlain(spec.limit);
    var flag := if spec.running then "yes" else "no";
    FlagIsPlain(spec.running);
    ParseWritten(spec.id, passed, limit, spec.name, flag, defaults);
    TimeOfFormatTime(spec.passed);
    TimeOfFormatTime(spec.limit);
  }

  /** The running flag is written as a non-empty word. */
  lemma FlagIsPlain(running: bool)
    ensures var flag := if running then "yes" else "no";
            flag != [] && NoSpace(flag)
  {
    var flag := if running then "yes" else "no";
    assert forall k :: 0 <= k < |flag| ==> flag[k] in "yesno";
  }

  /** Reading back the text written from some pairs gives the fields they
      were written from. */
  lemma ParseWritten(id: string, passed: string, limit: string, name: Option<string>, flag: string, defaults: Settings)
    requires NoSpace(id) && NoSpace(passed) && NoSpace(limit) && NoSpace(flag)
    requires name.Some? ==> NoSpace(name.value)
    requires passed != [] && limit != [] && flag != []
    ensures ParseSnippetSpec(Join(["stopwatch"] + Labelled(Pairs(id, passed, limit, name, flag), ""), " "), defaults) ==
              StopwatchSpec(id, TimeOf(passed), TimeOf(limit), if name == Some("") then None else name, flag == "yes")
  {
    ReadPairs(id, passed, limit, name, flag);
    PairsLookups(id, passed, limit, name, flag);
  }

  /** The pattern recovers the written pairs from the written text, when no
      value holds white space. */
  lemma ReadPairs(id: string, passed: string, limit: string, name: Option<string>, flag: string)
    requires NoSpace(id) && NoSpace(passed) && NoSpace(limit) && NoSpace(flag)
    requires name.Some? ==> NoSpace(name.value)
    requires passed != [] && limit != [] && flag != []
    ensures var ps := Pairs(id, passed, limit, name, flag);
            Collect(Join(["stopwatch"] + Labelled(ps, ""), " "), SnippetKeys) == ps
  {
    PairsShape(id, passed, limit, name, flag);
    ReadLabelled(Pairs(id, passed, limit, name, flag));
  }

  /** Distinct known keys with readable values, written after the block
      name, are collected back as they were written. */
  lemma ReadLabelled(ps: seq<(string, string)>)
    requires Readable(ps, SnippetKeys) && UniqueKeys(ps)
    ensures Collect(Join(["stopwatch"] + Labelled(ps, ""), " "), SnippetKeys) == ps
  {
    JoinLabelled("stopwatch", ps, "");
    SnippetKeysPlain();
    ScanWordThenPieces("stopwatch", ps, "", SnippetKeys);
    AssignAllDistinct(ps);
  }

  /** The keys the snippet reads hold neither white space nor a colon. */
  lemma SnippetKeysPlain()
    ensures PlainKeys(SnippetKeys)
  {
    assert forall i :: 0 <= i < |SnippetKeys| ==> NoSpace(SnippetKeys[i]) && ':' !in SnippetKeys[i];
  }

  /** The pairs `stringifySnippet` writes hold known keys, each at most once,
      with non-empty values free of white space. */
  lemma PairsShape(id: string, passed: string, limit: string, name: Option<string>, flag: string)
    requires NoSpace(id) && NoSpace(passed) && NoSpace(limit) && NoSpace(flag)
    requires name.Some? ==> NoSpace(name.value)
    requires passed != [] && limit != [] && flag != []
    ensures Readable(Pairs(id, passed, limit, name, flag), SnippetKeys)
    ensures UniqueKeys(Pairs(id, passed, limit, name, flag))
  {
    var ps := Pairs(id, passed, limit, name, flag);
    var i := if id != [] then 1 else 0;
    var named := name.Some? && name.value != [];
    PairsLayout(id, passed, limit, name, flag);
    assert id != [] ==> ps[0] == ("id", id);
    assert named ==> ps[i + 2] == ("name", name.value);
    PairsUnique(id, passed, limit, name, flag);
  }

  /** Where each entry sits: `id` first when present, then `passed` and
      `limit`, then `name` when present, `running` last. */
  lemma PairsLayout(id: string, passed: string, limit: string, name: Option<string>, flag: string)
    ensures var ps := Pairs(id, passed, limit, name, flag);
            var i := if id != [] then 1 else 0;
            var named := name.Some? && name.value != [];
            && |ps| == i + 3 + (if named then 1 else 0)
            && (id != [] ==> ps[0] == ("id", id))
            && ps[i] == ("passed", passed) && ps[i + 1] == ("limit", limit)
            && (named ==> ps[i + 2] == ("name", name.value))
            && ps[|ps| - 1] == ("running", flag)
  {
  }

  /** The key of each entry: its length tells which one it is. */
  lemma PairsKeyLengths(id: string, passed: string, limit: string, name: Option<string>, flag: string)
    ensures var ps := Pairs(id, passed, limit, name, flag);
            var i := if id != [] then 1 else 0;
            forall j :: 0 <= j < |ps| ==>
              (|ps[j].0| == 2 <==> id != [] && j == 0)
              && (|ps[j].0| == 6 <==> j == i)
              && (|ps[j].0| == 5 <==> j == i + 1)
              && (|ps[j].0| == 4 <==> name.Some? && name.value != [] && j == i + 2)
              && (|ps[j].0| == 7 <==> j == |ps| - 1)
  {
    PairsLayout(id, passed, limit, name, flag);
  }

  lemma PairsUnique(id: string, passed: string, limit: string, name: Option<string>, flag: string)
    ensures UniqueKeys(Pairs(id, passed, limit, name, flag))
  {
    var ps := Pairs(id, passed, limit, name, flag);
    PairsKeyLengths(id, passed, limit, name, flag);
    forall j, k | 0 <= j < k < |ps|
      ensures ps[j].0 != ps[k].0
    {
      assert |ps[j].0| != |ps[k].0|;
    }
  }

  /** The lookups in the pairs `stringifySnippet` writes: every key at most
      once, `id` and `name` only when non-empty. */
  lemma PairsLookups(id: string, passed: string, limit: string, name: Option<string>, flag: string)
    ensures var ps := Pairs(id, passed, limit, name, flag);
            && UniqueKeys(ps)
            && Lookup(ps, "id") == (if id != [] then Some(id) else None)
            && Lookup(ps, "passed") == Some(passed)
            && Lookup(ps, "limit") == Some(limit)
            && Lookup(ps, "name") == (if name.Some? && name.value != [] then name else None)
            && Lookup(ps, "running") == Some(flag)
  {
    var ps := Pairs(id, passed, limit, name, flag);
    var i := if id != [] then 1 else 0;
    var named := name.Some? && name.value != [];
    PairsLayout(id, passed, limit, name, flag);
    PairsUnique(id, passed, limit, name, flag);
    if id != [] {
      UniqueLookup(ps, 0);
    } else {
      PairsKeyLengths(id, passed, limit, name, flag);
      AbsentKey(ps, "id");
    }
    UniqueLookup(ps, i);
    UniqueLookup(ps, i + 1);
    if named {
      UniqueLookup(ps, i + 2);
    } else {
      PairsKeyLengths(id, passed, limit, name, flag);
      AbsentKey(ps, "name");
    }
    UniqueLookup(ps, |ps| - 1);
  }

  /** A key no entry has the length of is absent. */
  lemma AbsentKey(ps: seq<(string, string)>, k: string)
    requires forall j :: 0 <= j < |ps| ==> |ps[j].0| != |k|
    ensures k !in Keys(ps)
  {
  }
}
