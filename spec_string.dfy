/** The `stopwatch name: … passed: … limit: …` snippet of the plugin's first
    version: reading it, the `h:m:s` conversions through `parseInt` and
    `Math.floor`, and rewriting it with a new elapsed time. */
module SpecString {
  import opened Wrappers
  import opened Text
  import opened Numbers
  import opened Records
  import opened KeyScan
  import Snippet

  /** The alternatives of `/(name|passed|limit):\s*([^\s]+)/g`. */
  const SpecKeys: seq<string> := ["name", "passed", "limit"]

  /** `{ passed, limit, name }`; an undefined `limit` or `name` is `None`. */
  datatype Spec = Spec(passed: JsNum, limit: Option<JsNum>, name: Option<string>)

  /** What `parseSpec` returns. */
  datatype Parsed = Parsed(spec: Spec, hasPassed: bool)

  // ---------------------------------------------------------------------
  // Time
  // ---------------------------------------------------------------------

  /** `str.split(':').map(p => parseInt(p, 10))`. */
  function TimeFields(t: string): seq<JsNum>
  {
    ParseInts(SplitOn(t, ':'))
  }

  /** What `parseTime` returns: the fields padded on the left with zeros to
      three, then `h * 3600 + m * 60 + s`. */
  function TimeOf(t: string): (r: JsNum)
    ensures ':' !in t ==> r == ParseInt(t)
  {
    var p := Snippet.Padded(TimeFields(t));
    assert ':' !in t ==> p == [Int(0), Int(0), ParseInt(t)] by {
      if ':' !in t {
        var f := TimeFields(t);
        assert f == [ParseInt(t)];
        assert Snippet.Padded(f) == Snippet.Padded([Int(0)] + f) == Snippet.Padded([Int(0), Int(0)] + f);
      }
    }
    Snippet.HMS(p[0], p[1], p[2])
  }

  /** `parseTime`. */
  method ParseTime(t: string) returns (r: JsNum)
    ensures r == TimeOf(t)
  {
    var parts := TimeFields(t);
    while |parts| < 3
      invariant Snippet.Padded(parts) == Snippet.Padded(TimeFields(t))
      decreases 3 - |parts|
    {
      parts := [Int(0)] + parts;
    }
    r := Snippet.HMS(parts[0], parts[1], parts[2]);
  }

  /** One field is seconds, two are minutes and seconds; a field that
      `parseInt` cannot read makes the whole time NaN. */
  lemma TimeOfPadsLeft(t: string)
    ensures var f := TimeFields(t);
            TimeOf(t) == if |f| == 1 then Snippet.HMS(Int(0), Int(0), f[0])
                         else if |f| == 2 then Snippet.HMS(Int(0), f[0], f[1])
                         else Snippet.HMS(f[0], f[1], f[2])
    ensures TimeOf(t).Int? ==> forall i :: 0 <= i < |TimeFields(t)| && i < 3 ==> TimeFields(t)[i].Int?
  {
    var f := TimeFields(t);
    if |f| == 1 {
      assert Snippet.Padded(f) == Snippet.Padded([Int(0)] + f) == Snippet.Padded([Int(0), Int(0)] + f);
      assert Snippet.Padded(f) == [Int(0), Int(0), f[0]];
    } else if |f| == 2 {
      assert Snippet.Padded(f) == Snippet.Padded([Int(0)] + f);
      assert Snippet.Padded(f) == [Int(0), f[0], f[1]];
    }
  }

  /** `formatTime`: `Math.floor(sec / 3600)` hours, then the remainder by
      JavaScript's `%` (which keeps the sign of `sec`) floored to minutes,
      and `sec % 60` seconds; each written by `toString` and
      `padStart(2, '0')`. NaN writes `NaN` in every field. */
  function FormatTime(sec: JsNum): (r: string)
    ensures |SplitOn(r, ':')| == 3
  {
    match sec
    case NaN =>
      Snippet.PadsSplitInThree(NaN, NaN, NaN);
      Snippet.Pad(NaN) + ":" + Snippet.Pad(NaN) + ":" + Snippet.Pad(NaN)
    case Int(v) =>
      var h, m, s := Int(v / 3600), Int(TMod(v, 3600) / 60), Int(TMod(v, 60));
      Snippet.PadsSplitInThree(h, m, s);
      Snippet.Pad(h) + ":" + Snippet.Pad(m) + ":" + Snippet.Pad(s)
  }

  /** For a non-negative number of seconds `formatTime` writes three
      colon-separated fields of at least two digits each: the whole hours,
      then the minutes and the seconds, both below 60. */
  lemma FormatTimeFields(v: nat)
    ensures var f := SplitOn(FormatTime(Int(v)), ':');
            && |f| == 3
            && (forall i :: 0 <= i < 3 ==> |f[i]| >= 2 && AllDigits(f[i]))
            && DigitsValue(f[0]) == v / 3600
            && DigitsValue(f[1]) == v % 3600 / 60 && DigitsValue(f[1]) < 60
            && DigitsValue(f[2]) == v % 60 && DigitsValue(f[2]) < 60
  {
    var h, m, sec := v / 3600, v % 3600 / 60, v % 60;
    Snippet.ClockFields(v);
    assert FormatTime(Int(v)) == Snippet.Pad(Int(h)) + ":" + Snippet.Pad(Int(m)) + ":" + Snippet.Pad(Int(sec));
    Snippet.PaddedFields(h, m, sec);
  }

  /** What `toString` and `padStart` write for an integer: `parseInt` reads
      it back, and it holds no colon and no white space. */
  lemma PadReads(i: int)
    ensures var t := Snippet.Pad(Int(i));
            t != [] && ':' !in t && NoSpace(t) && ParseInt(t) == Int(i)
  {
    PaddedIntIsPlain(i);
    ParseIntOfIntToString(i);
  }

  /** `parseInt` does not read `NaN`. */
  lemma ParseIntOfNaNText()
    ensures ParseInt("NaN") == NaN
  {
    assert !IsSpace("NaN"[0]) && !IsDigit("NaN"[0]);
  }

  /** Three colon-free fields joined by colons read as their numbers. */
  lemma ReadThree(a: string, b: string, c: string)
    requires ':' !in a && ':' !in b && ':' !in c
    ensures TimeOf(a + ":" + b + ":" + c) == Snippet.HMS(ParseInt(a), ParseInt(b), ParseInt(c))
  {
    Join3(a, b, c, [':']);
    SplitOnJoin([a, b, c], ':');
    var f := TimeFields(a + ":" + b + ":" + c);
    assert f == [ParseInt(a), ParseInt(b), ParseInt(c)];
    assert Snippet.Padded(f) == f;
  }

  /** Three padded integers joined by colons read as hours, minutes and
      seconds. */
  lemma ReadPads(h: int, m: int, s: int)
    ensures TimeOf(Snippet.Pad(Int(h)) + ":" + Snippet.Pad(Int(m)) + ":" + Snippet.Pad(Int(s))) ==
              Int(h * 3600 + m * 60 + s)
  {
    PadReads(h);
    PadReads(m);
    PadReads(s);
    ReadThree(Snippet.Pad(Int(h)), Snippet.Pad(Int(m)), Snippet.Pad(Int(s)));
  }

  /** `parseTime(formatTime(s)) == s` for every non-negative integer. */
  lemma TimeOfFormatTime(v: int)
    requires v >= 0
    ensures TimeOf(FormatTime(Int(v))) == Int(v)
  {
    ReadPads(v / 3600, TMod(v, 3600) / 60, TMod(v, 60));
    assert TMod(v, 3600) == v % 3600 && TMod(v, 60) == v % 60;
    Snippet.ModOfMod(v);
  }

  /** NaN is read back as NaN. */
  lemma TimeOfFormatTimeNaN()
    ensures TimeOf(FormatTime(NaN)) == NaN
  {
    Snippet.PadNaN();
    ParseIntOfNaNText();
    var t := Snippet.Pad(NaN);
    assert ':' !in t;
    ReadThree(t, t, t);
  }

  /** NaN is written as `NaN` in every field. */
  lemma FormatTimeNaNText()
    ensures FormatTime(NaN) == "NaN:NaN:NaN"
  {
    Snippet.PadNaN();
    var t := Snippet.Pad(NaN);
    assert t + ":" == "NaN:";
    assert "NaN:" + t == "NaN:NaN";
    assert "NaN:NaN" + ":" == "NaN:NaN:";
    assert "NaN:NaN:" + t == "NaN:NaN:NaN";
  }

  /** Below zero the round trip fails: every field carries the minus sign,
      so -1 second is written `-1:-1:-1` and read back as -3661. */
  lemma TimeOfFormatTimeNegative()
    ensures TimeOf(FormatTime(Int(-1))) == Int(-3661)
  {
    assert -1 / 3600 == -1 && TMod(-1, 3600) == -1 && -1 / 60 == -1 && TMod(-1, 60) == -1;
    ReadPads(-1, -1, -1);
  }

  /** What `formatTime` writes is never empty and holds no white space. */
  lemma FormatTimeIsPlain(sec: JsNum)
    ensures FormatTime(sec) != [] && NoSpace(FormatTime(sec))
  {
    match sec
    case NaN => Snippet.PadsArePlain(NaN, NaN, NaN);
    case Int(v) => Snippet.PadsArePlain(Int(v / 3600), Int(TMod(v, 3600) / 60), Int(TMod(v, 60)));
  }

  // ---------------------------------------------------------------------
  // Reading the snippet
  // ---------------------------------------------------------------------

  /** `x ? parseTime(x) : …` on a recorded string. */
  function ParsedOf(text: string): Parsed
  {
    var rec := Collect(text, SpecKeys);
    var p := Lookup(rec, "passed");
    var l := Lookup(rec, "limit");
    Parsed(
      Spec(if p.Some? && p.value != [] then TimeOf(p.value) else Int(0),
           if l.Some? && l.value != [] then Some(TimeOf(l.value)) else None,
           Lookup(rec, "name")),
      p.Some?)
  }

  /** `parseSpec`. */
  method ParseSpec(text: string) returns (r: Parsed)
    ensures r == ParsedOf(text)
  {
    var rec := ExecLoop(text, SpecKeys);
    var hasPassed := Lookup(rec, "passed").Some?;
    var passed := Int(0);
    if Lookup(rec, "passed").Some? && Lookup(rec, "passed").value != [] {
      passed := ParseTime(Lookup(rec, "passed").value);
    }
    var limit := None;
    if Lookup(rec, "limit").Some? && Lookup(rec, "limit").value != [] {
      var t := ParseTime(Lookup(rec, "limit").value);
      limit := Some(t);
    }
    r := Parsed(Spec(passed, limit, Lookup(rec, "name")), hasPassed);
  }

  /** Each field comes from the last occurrence of its key: `passed`
      defaults to 0, `limit` and `name` stay undefined, and `hasPassed`
      holds exactly when some `passed:` was matched. */
  lemma ParseSpecLastWins(text: string)
    ensures var r := ParsedOf(text);
            var hits := Scan(text, SpecKeys);
            && r.spec.passed == (if LastWrite(hits, "passed").Some? then TimeOf(LastWrite(hits, "passed").value) else Int(0))
            && r.spec.limit == (if LastWrite(hits, "limit").Some? then Some(TimeOf(LastWrite(hits, "limit").value)) else None)
            && r.spec.name == LastWrite(hits, "name")
            && (r.hasPassed <==> "passed" in Keys(hits))
  {
    var rec := Collect(text, SpecKeys);
    CollectLastWins(text, SpecKeys, "passed");
    CollectLastWins(text, SpecKeys, "limit");
    CollectLastWins(text, SpecKeys, "name");
    Snippet.NonEmptyLookup(rec, "passed");
    Snippet.NonEmptyLookup(rec, "limit");
  }

  // ---------------------------------------------------------------------
  // Rewriting the snippet
  // ---------------------------------------------------------------------

  /** The pairs `buildSpecString` writes after `stopwatch`, in this order:
      the name and the limit only when recorded, the time always. */
  function Written(name: Option<string>, passed: string, limit: Option<string>): seq<(string, string)>
  {
    (if name.Some? && name.value != [] then [("name", name.value)] else [])
    + [("passed", passed)]
    + (if limit.Some? && limit.value != [] then [("limit", limit.value)] else [])
  }

  /** What `buildSpecString(original, passed)` returns. */
  function BuildSpecText(original: string, passed: JsNum): string
  {
    WriteRecord(Collect(original, SpecKeys), FormatTime(passed))
  }

  /** The text written for a record of the original and the new time. */
  function WriteRecord(rec: Record<string>, time: string): string
  {
    "stopwatch" + Pieces(Written(Lookup(rec, "name"), time, Lookup(rec, "limit")), " ")
  }

  /** `buildSpecString`: record the keys of the original, overwrite
      `passed` with the formatted time, then append the parts. */
  method BuildSpecString(original: string, passed: JsNum) returns (result: string)
    ensures result == BuildSpecText(original, passed)
  {
    var rec := ExecLoop(original, SpecKeys);
    var text := FormatTime(passed);
    rec := RecordPassed(rec, text);
    result := WriteParts(Lookup(rec, "name"), Lookup(rec, "passed").value, Lookup(rec, "limit"));
  }

  /** The appends of `buildSpecString`: the name when recorded and
      non-empty, the time, the limit when recorded and non-empty. */
  method WriteParts(name: Option<string>, time: string, limit: Option<string>) returns (result: string)
    ensures result == "stopwatch" + Pieces(Written(name, time, limit), " ")
  {
    ghost var N := if name.Some? && name.value != [] then " name: " + name.value else "";
    ghost var L := if limit.Some? && limit.value != [] then " limit: " + limit.value else "";
    result := "stopwatch";
    if name.Some? && name.value != [] {
      result := result + (" name: " + name.value);
    }
    assert result == "stopwatch" + N;
    result := result + (" passed: " + time);
    if limit.Some? && limit.value != [] {
      result := result + (" limit: " + limit.value);
    }
    assert result == "stopwatch" + N + (" passed: " + time) + L;
    WrittenText(name, time, limit);
  }

  /** `record['passed'] = …`, which leaves the name and the limit alone. */
  function RecordPassed(rec: Record<string>, time: string): (r: Record<string>)
    ensures Lookup(r, "name") == Lookup(rec, "name")
    ensures Lookup(r, "passed") == Some(time)
    ensures Lookup(r, "limit") == Lookup(rec, "limit")
  {
    AssignLookup(rec, "passed", time, "name");
    AssignLookup(rec, "passed", time, "passed");
    AssignLookup(rec, "passed", time, "limit");
    Assign(rec, "passed", time)
  }

  /** The pieces of the written pairs, as `buildSpecString` concatenates
      them. */
  lemma WrittenText(name: Option<string>, time: string, limit: Option<string>)
    ensures "stopwatch" + Pieces(Written(name, time, limit), " ") ==
              "stopwatch" + (if name.Some? && name.value != [] then " name: " + name.value else "")
              + (" passed: " + time) + (if limit.Some? && limit.value != [] then " limit: " + limit.value else "")
  {
    var n := if name.Some? && name.value != [] then [("name", name.value)] else [];
    var l := if limit.Some? && limit.value != [] then [("limit", limit.value)] else [];
    var N := if name.Some? && name.value != [] then " name: " + name.value else "";
    var L := if limit.Some? && limit.value != [] then " limit: " + limit.value else "";
    PiecesAppend(n + [("passed", time)], l, " ");
    PiecesAppend(n, [("passed", time)], " ");
    PiecesOne("passed", time, " ");
    PassedLabel();
    if n != [] {
      PiecesOne("name", name.value, " ");
      NameLabel();
    }
    assert Pieces(n, " ") == N;
    if l != [] {
      PiecesOne("limit", limit.value, " ");
      LimitLabel();
    }
    assert Pieces(l, " ") == L;
    assert Pieces(Written(name, time, limit), " ") == N + (" passed: " + time) + L;
    Assoc4("stopwatch", N, " passed: " + time, L);
  }

  /** The labels `buildSpecString` writes are the pieces' `key: ` texts.
      Proved apart: the literal concatenations are costly inside the proof
      of `WrittenText`. */
  lemma PassedLabel()
    ensures " " + "passed" + ":" + " " == " passed: "
  {
  }

  lemma NameLabel()
    ensures " " + "name" + ":" + " " == " name: "
  {
  }

  lemma LimitLabel()
    ensures " " + "limit" + ":" + " " == " limit: "
  {
  }

  lemma Assoc4(a: string, b: string, c: string, d: string)
    ensures a + (b + c + d) == a + b + c + d
  {
  }

  /** The pattern recovers the written pairs from the written text, when no
      value holds white space. */
  lemma ReadWritten(name: Option<string>, passed: string, limit: Option<string>)
    requires passed != [] && NoSpace(passed)
    requires name.Some? ==> NoSpace(name.value)
    requires limit.Some? ==> NoSpace(limit.value)
    ensures var ws := Written(name, passed, limit);
            Collect("stopwatch" + Pieces(ws, " "), SpecKeys) == ws
  {
    var ws := Written(name, passed, limit);
    SpecKeysPlain();
    assert Readable(ws, SpecKeys);
    ScanWordThenPieces("stopwatch", ws, " ", SpecKeys);
    WrittenLookups(name, passed, limit);
    AssignAllDistinct(ws);
  }

  /** The keys the snippet rewriter reads hold neither white space nor a
      colon. */
  lemma SpecKeysPlain()
    ensures PlainKeys(SpecKeys)
  {
    assert forall i :: 0 <= i < |SpecKeys| ==> NoSpace(SpecKeys[i]) && ':' !in SpecKeys[i];
  }

  /** Each key is written at most once: the name and the limit when
      recorded and non-empty, the time always. */
  lemma WrittenLookups(name: Option<string>, passed: string, limit: Option<string>)
    ensures var ws := Written(name, passed, limit);
            && UniqueKeys(ws)
            && Lookup(ws, "name") == (if name.Some? && name.value != [] then name else None)
            && Lookup(ws, "passed") == Some(passed)
            && Lookup(ws, "limit") == (if limit.Some? && limit.value != [] then limit else None)
  {
    var ws := Written(name, passed, limit);
    var i := if name.Some? && name.value != [] then 1 else 0;
    assert ws[i] == ("passed", passed);
    assert UniqueKeys(ws);
    if i == 1 {
      assert ws[0] == ("name", name.value);
      UniqueLookup(ws, 0);
    } else {
      assert "name" !in Keys(ws);
    }
    UniqueLookup(ws, i);
    if limit.Some? && limit.value != [] {
      assert ws[i + 1] == ("limit", limit.value);
      UniqueLookup(ws, i + 1);
    } else {
      assert "limit" !in Keys(ws);
    }
  }

  /** What the original records is never empty and holds no white space. */
  lemma RecordedValues(original: string)
    ensures var rec := Collect(original, SpecKeys);
            && (Lookup(rec, "name").Some? ==> Lookup(rec, "name").value != [] && NoSpace(Lookup(rec, "name").value))
            && (Lookup(rec, "limit").Some? ==> Lookup(rec, "limit").value != [] && NoSpace(Lookup(rec, "limit").value))
  {
    var rec := Collect(original, SpecKeys);
    CollectLastWins(original, SpecKeys, "name");
    CollectLastWins(original, SpecKeys, "limit");
  }

  /** Reading the rewritten snippet gives the new time as `parseTime` reads
      `formatTime`'s text, the original name and limit, and `hasPassed`. */
  lemma ParseBuild(original: string, passed: JsNum)
    ensures var before := ParsedOf(original);
            var after := ParsedOf(BuildSpecText(original, passed));
            after == Parsed(Spec(TimeOf(FormatTime(passed)), before.spec.limit, before.spec.name), true)
  {
    var rec := Collect(original, SpecKeys);
    RecordedValues(original);
    FormatTimeIsPlain(passed);
    ReadWritten(Lookup(rec, "name"), FormatTime(passed), Lookup(rec, "limit"));
    WrittenLookups(Lookup(rec, "name"), FormatTime(passed), Lookup(rec, "limit"));
  }

  /** So the new time is read back exactly when it is a non-negative integer
      or NaN. */
  lemma ParseBuildPassed(original: string, passed: JsNum)
    requires passed.Int? ==> passed.value >= 0
    ensures ParsedOf(BuildSpecText(original, passed)).spec.passed == passed
    ensures ParsedOf(BuildSpecText(original, passed)).hasPassed
  {
    ParseBuild(original, passed);
    match passed
    case NaN => TimeOfFormatTimeNaN();
    case Int(v) => TimeOfFormatTime(v);
  }

  /** Rewriting the rewritten snippet with the same time changes nothing. */
  lemma BuildIdempotent(original: string, passed: JsNum)
    ensures BuildSpecText(BuildSpecText(original, passed), passed) == BuildSpecText(original, passed)
  {
    var rec := Collect(original, SpecKeys);
    RecordedValues(original);
    FormatTimeIsPlain(passed);
    ReadWritten(Lookup(rec, "name"), FormatTime(passed), Lookup(rec, "limit"));
    WrittenLookups(Lookup(rec, "name"), FormatTime(passed), Lookup(rec, "limit"));
  }
}
