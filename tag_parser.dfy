/** The typed field extractor `TagParser.start`: find the block name, cut
    the text after it into fragments that begin at tag names, and read one
    typed value per declared parameter. */
module TagParser {
  import opened Wrappers
  import opened Text
  import opened Numbers
  import opened Records

  datatype InnerType = StringType | IntegerType | YesNoType

  /** How a parameter looks in the text and what its value is converted to. */
  datatype Param = Param(tagName: string, innerType: InnerType)

  /** A converted value; `FNull` is JavaScript's `null`. */
  datatype FieldValue = FNull | FInt(n: int) | FBool(b: bool) | FStr(s: string)

  // ---------------------------------------------------------------------
  // Splitting at `(?=tag\s*:)`
  // ---------------------------------------------------------------------

  /** `s` starts with `tag`, then white space, then `:`: the look-ahead
      `(?=tag\s*:)` succeeds at the start of `s`. */
  predicate TagColonPrefix(s: string, tag: string) {
    StartsWith(s, tag) && |tag| + SpaceRun(s[|tag|..]) < |s| && s[|tag| + SpaceRun(s[|tag|..])] == ':'
  }

  /** The pieces of `s[p..]` when split at every position `q' >= q`, `q' < |s|`,
      where the look-ahead succeeds; `p` is the start of the current piece. */
  function SplitScan(s: string, tag: string, p: nat, q: nat): (r: seq<string>)
    requires p < q && p <= |s|
    ensures |r| >= 1 && Concat(r) == s[p..]
    decreases |s| + 1 - q
  {
    if q >= |s| then [s[p..]]
    else if TagColonPrefix(s[q..], tag) then
      var rest := SplitScan(s, tag, q, q + 1);
      assert s[p..] == s[p..q] + s[q..];
      [s[p..q]] + rest
    else SplitScan(s, tag, p, q + 1)
  }

  /** `s.split(new RegExp("(?=" + tag + "\\s*:)", "g"))`: an empty look-ahead
      match splits at every position after the first where it succeeds, never
      at position 0 and never at the end. */
  function SplitAtTag(s: string, tag: string): (r: seq<string>)
    ensures |r| >= 1 && Concat(r) == s
  {
    assert s[0..] == s;
    SplitScan(s, tag, 0, 1)
  }

  /** The text the parts make up, `parts.join("")`; kept apart from `Join`
      because it peels one part at a time, as the split proofs do. */
  function Concat(parts: seq<string>): string
  {
    if parts == [] then [] else parts[0] + Concat(parts[1..])
  }

  /** `Concat` is `Join` with the empty separator. */
  lemma {:induction false} ConcatIsJoin(parts: seq<string>)
    ensures Concat(parts) == Join(parts, "")
  {
    if |parts| > 1 {
      ConcatIsJoin(parts[1..]);
      assert parts[0] + "" == parts[0];
    } else if |parts| == 1 {
      assert parts[1..] == [];
    }
  }

  lemma {:induction false} ConcatAppend(a: seq<string>, b: seq<string>)
    ensures Concat(a + b) == Concat(a) + Concat(b)
  {
    if a != [] {
      assert (a + b)[1..] == a[1..] + b;
      ConcatAppend(a[1..], b);
    } else {
      assert a + b == b;
    }
  }

  /** Every piece after the first starts where the look-ahead succeeds. */
  predicate PiecesStartAtTag(r: seq<string>, tag: string) {
    forall i :: 0 < i < |r| ==> TagColonPrefix(Concat(r[i..]), tag)
  }

  /** The look-ahead succeeds nowhere inside a piece. */
  predicate NoTagInsidePieces(r: seq<string>, tag: string) {
    forall i :: 0 <= i < |r| ==> NoTagInside(r[i], Concat(r[i + 1..]), tag)
  }

  /** The look-ahead fails at every position inside `piece`, which is
      followed by the text `after`. */
  predicate NoTagInside(piece: string, after: string, tag: string) {
    forall j :: 0 < j < |piece| ==> !TagColonPrefix(piece[j..] + after, tag)
  }

  lemma ConsPieces(head: string, rest: seq<string>, tag: string)
    requires rest != [] && TagColonPrefix(Concat(rest), tag)
    requires PiecesStartAtTag(rest, tag) && NoTagInsidePieces(rest, tag)
    requires NoTagInside(head, Concat(rest), tag)
    ensures PiecesStartAtTag([head] + rest, tag) && NoTagInsidePieces([head] + rest, tag)
  {
    ConsStarts(head, rest, tag);
    ConsInside(head, rest, tag);
  }

  lemma ConsStarts(head: string, rest: seq<string>, tag: string)
    requires rest != [] && TagColonPrefix(Concat(rest), tag) && PiecesStartAtTag(rest, tag)
    ensures PiecesStartAtTag([head] + rest, tag)
  {
    var r := [head] + rest;
    forall i | 0 < i < |r|
      ensures TagColonPrefix(Concat(r[i..]), tag)
    {
      assert r[i..] == rest[i - 1..];
      if i == 1 {
        assert rest[0..] == rest;
      }
    }
  }

  lemma {:induction false} ConsInside(head: string, rest: seq<string>, tag: string)
    requires NoTagInsidePieces(rest, tag) && NoTagInside(head, Concat(rest), tag)
    ensures NoTagInsidePieces([head] + rest, tag)
  {
    var r := [head] + rest;
    forall i | 0 <= i < |r|
      ensures NoTagInside(r[i], Concat(r[i + 1..]), tag)
    {
      if i == 0 {
        assert r[i] == head && r[i + 1..] == rest;
      } else {
        assert r[i] == rest[i - 1] && r[i + 1..] == rest[i..];
      }
    }
  }

  /** The look-ahead fails at every position strictly between `p` and `q`. */
  predicate NoTagBetween(s: string, tag: string, p: nat, q: nat) {
    forall j :: p < j < q && j < |s| ==> !TagColonPrefix(s[j..], tag)
  }

  /** The last piece `s[p..]` holds no match strictly inside it. */
  lemma LastPiece(s: string, tag: string, p: nat, q: nat)
    requires p <= |s| <= q && NoTagBetween(s, tag, p, q)
    ensures PiecesStartAtTag([s[p..]], tag) && NoTagInsidePieces([s[p..]], tag)
  {
    var r := [s[p..]];
    forall j | 0 < j < |s[p..]|
      ensures !TagColonPrefix(s[p..][j..] + Concat(r[1..]), tag)
    {
      assert r[1..] == [];
      assert s[p..][j..] + Concat(r[1..]) == s[p + j..];
    }
    assert NoTagInside(r[0], Concat(r[1..]), tag);
  }

  /** A piece `s[p..q]` followed by pieces that make up `s[q..]`. */
  lemma PieceBeforeMatch(s: string, tag: string, p: nat, q: nat, rest: seq<string>)
    requires p < q < |s| && Concat(rest) == s[q..] && rest != []
    requires TagColonPrefix(s[q..], tag)
    requires NoTagBetween(s, tag, p, q)
    requires PiecesStartAtTag(rest, tag) && NoTagInsidePieces(rest, tag)
    ensures PiecesStartAtTag([s[p..q]] + rest, tag) && NoTagInsidePieces([s[p..q]] + rest, tag)
  {
    forall j | 0 < j < |s[p..q]|
      ensures !TagColonPrefix(s[p..q][j..] + Concat(rest), tag)
    {
      assert s[p..q][j..] + Concat(rest) == s[p + j..];
    }
    ConsPieces(s[p..q], rest, tag);
  }

  /** Where the look-ahead fails the scan moves on within the same piece. */
  lemma SkipStep(s: string, tag: string, p: nat, q: nat)
    requires p < q < |s| && !TagColonPrefix(s[q..], tag) && NoTagBetween(s, tag, p, q)
    ensures NoTagBetween(s, tag, p, q + 1)
    ensures SplitScan(s, tag, p, q) == SplitScan(s, tag, p, q + 1)
  {
  }

  /** Where the look-ahead succeeds the piece ends and a new one begins. */
  lemma CutStep(s: string, tag: string, p: nat, q: nat)
    requires p < q < |s| && TagColonPrefix(s[q..], tag)
    ensures NoTagBetween(s, tag, q, q + 1)
    ensures SplitScan(s, tag, p, q) == [s[p..q]] + SplitScan(s, tag, q, q + 1)
  {
  }

  /** The pieces of one split start exactly where the look-ahead succeeds:
      every piece after the first starts with `tag`, white space and `:`,
      and no piece holds such a match anywhere but at its start. */
  lemma {:induction false} SplitScanBoundaries(s: string, tag: string, p: nat, q: nat, r: seq<string>)
    requires p < q && p <= |s| && NoTagBetween(s, tag, p, q)
    requires r == SplitScan(s, tag, p, q)
    ensures PiecesStartAtTag(r, tag) && NoTagInsidePieces(r, tag)
    decreases |s| + 1 - q
  {
    if q >= |s| {
      LastPiece(s, tag, p, q);
    } else if TagColonPrefix(s[q..], tag) {
      CutStep(s, tag, p, q);
      var rest := SplitScan(s, tag, q, q + 1);
      SplitScanBoundaries(s, tag, q, q + 1, rest);
      PieceBeforeMatch(s, tag, p, q, rest);
    } else {
      SkipStep(s, tag, p, q);
      SplitScanBoundaries(s, tag, p, q + 1, r);
    }
  }

  /** Splitting at one tag: every piece after the first starts with the tag
      and its colon in the text, and no piece holds another such position. */
  lemma SplitAtTagBoundaries(s: string, tag: string)
    ensures PiecesStartAtTag(SplitAtTag(s, tag), tag)
    ensures NoTagInsidePieces(SplitAtTag(s, tag), tag)
  {
    SplitScanBoundaries(s, tag, 0, 1, SplitAtTag(s, tag));
  }

  /** `parts.flatMap(p => p.split(...))`. */
  function SplitEach(parts: seq<string>, tag: string): (r: seq<string>)
    ensures Concat(r) == Concat(parts)
  {
    if parts == [] then []
    else
      ConcatAppend(SplitAtTag(parts[0], tag), SplitEach(parts[1..], tag));
      SplitAtTag(parts[0], tag) + SplitEach(parts[1..], tag)
  }

  lemma {:induction false} SplitEachAppend(a: seq<string>, b: seq<string>, tag: string)
    ensures SplitEach(a + b, tag) == SplitEach(a, tag) + SplitEach(b, tag)
  {
    if a != [] {
      assert (a + b)[1..] == a[1..] + b;
      SplitEachAppend(a[1..], b, tag);
    } else {
      assert a + b == b;
    }
  }

  /** The split by each tag of the list in turn. */
  function SplitAll(parts: seq<string>, tags: seq<string>): (r: seq<string>)
    ensures Concat(r) == Concat(parts)
    decreases |tags|
  {
    if tags == [] then parts else SplitAll(SplitEach(parts, tags[0]), tags[1..])
  }

  /** Some tag of `ts` has its look-ahead succeed at the start of `s`. */
  predicate CutAtSomeTag(s: string, ts: seq<string>) {
    exists k :: 0 <= k < |ts| && TagColonPrefix(s, ts[k])
  }

  /** Every part after the first starts, in the text the parts make up,
      where the look-ahead of some tag of `ts` succeeds. */
  predicate CutsAtTags(parts: seq<string>, ts: seq<string>) {
    forall i :: 0 < i < |parts| ==> CutAtSomeTag(Concat(parts[i..]), ts)
  }

  /** A white-space run that stops inside `a` is not lengthened by text
      after `a`. */
  lemma {:induction false} SpaceRunAppend(a: string, b: string)
    requires SpaceRun(a) < |a|
    ensures SpaceRun(a + b) == SpaceRun(a)
  {
    if IsSpace(a[0]) {
      assert (a + b)[1..] == a[1..] + b;
      SpaceRunAppend(a[1..], b);
    }
  }

  /** The look-ahead only reads up to the colon, so text after it does not
      change where it succeeds. */
  lemma TagColonPrefixAppend(s: string, t: string, tag: string)
    requires TagColonPrefix(s, tag)
    ensures TagColonPrefix(s + t, tag)
  {
    assert (s + t)[|tag|..] == s[|tag|..] + t;
    assert (s + t)[..|tag|] == s[..|tag|];
    SpaceRunAppend(s[|tag|..], t);
  }

  /** A cut inside the first parts is still a cut with the rest appended. */
  lemma CutInFirst(a: seq<string>, b: seq<string>, ts: seq<string>, i: nat)
    requires 0 < i < |a| && CutAtSomeTag(Concat(a[i..]) + Concat(b), ts)
    ensures CutAtSomeTag(Concat((a + b)[i..]), ts)
  {
    assert (a + b)[i..] == a[i..] + b;
    ConcatAppend(a[i..], b);
  }

  /** A cut in the rest is still a cut behind the first parts. */
  lemma CutInRest(a: seq<string>, b: seq<string>, ts: seq<string>, i: nat)
    requires |a| < i < |a| + |b| && CutAtSomeTag(Concat(b[i - |a|..]), ts)
    ensures CutAtSomeTag(Concat((a + b)[i..]), ts)
  {
    assert (a + b)[i..] == b[i - |a|..];
  }

  /** Cuts inside the first parts followed by cuts in the rest. */
  lemma CutsAppend(a: seq<string>, b: seq<string>, ts: seq<string>)
    requires a != [] && CutsAtTags(b, ts) && (b != [] ==> CutAtSomeTag(Concat(b), ts))
    requires forall i :: 0 < i < |a| ==> CutAtSomeTag(Concat(a[i..]) + Concat(b), ts)
    ensures CutsAtTags(a + b, ts)
  {
    forall i | 0 < i < |a + b|
      ensures CutAtSomeTag(Concat((a + b)[i..]), ts)
    {
      if i < |a| {
        CutInFirst(a, b, ts, i);
      } else if i == |a| {
        assert (a + b)[i..] == b;
      } else {
        CutInRest(a, b, ts, i);
      }
    }
  }

  /** One split step keeps every cut and adds cuts at `ts[k]`. */
  lemma {:induction false} SplitEachCuts(parts: seq<string>, ts: seq<string>, k: nat)
    requires k < |ts| && CutsAtTags(parts, ts)
    ensures CutsAtTags(SplitEach(parts, ts[k]), ts)
  {
    if parts != [] {
      var tag := ts[k];
      var a, b := SplitAtTag(parts[0], tag), SplitEach(parts[1..], tag);
      assert CutsAtTags(parts[1..], ts) by {
        forall i | 0 < i < |parts[1..]|
          ensures CutAtSomeTag(Concat(parts[1..][i..]), ts)
        {
          assert parts[1..][i..] == parts[i + 1..];
        }
      }
      SplitEachCuts(parts[1..], ts, k);
      SplitAtTagBoundaries(parts[0], tag);
      forall i | 0 < i < |a|
        ensures CutAtSomeTag(Concat(a[i..]) + Concat(b), ts)
      {
        TagColonPrefixAppend(Concat(a[i..]), Concat(b), tag);
      }
      if b != [] {
        assert Concat(b) == Concat(parts[1..]);
        assert CutAtSomeTag(Concat(parts[1..]), ts);
      }
      CutsAppend(a, b, ts);
    }
  }

  /** Splitting by a list of tags in turn cuts only where the look-ahead of
      one of them succeeds: every part after the first, followed by the
      parts after it, starts with a tag name, white space and `:`. The tag
      may be found in the middle of a word. */
  lemma {:induction false} SplitAllCuts(parts: seq<string>, tags: seq<string>, ts: seq<string>)
    requires CutsAtTags(parts, ts) && forall k :: 0 <= k < |tags| ==> tags[k] in ts
    ensures CutsAtTags(SplitAll(parts, tags), ts)
    decreases |tags|
  {
    if tags != [] {
      var k :| 0 <= k < |ts| && ts[k] == tags[0];
      SplitEachCuts(parts, ts, k);
      SplitAllCuts(SplitEach(parts, tags[0]), tags[1..], ts);
    }
  }

  /** The split of a chunk by every tag of the structure: each part after
      the first starts, in the chunk, at one of the tags and its colon. */
  lemma SplitChunkCuts(chunk: string, tags: seq<string>)
    ensures CutsAtTags(SplitAll([chunk], tags), tags)
  {
    SplitAllCuts([chunk], tags, tags);
  }

  lemma SplitChunkAtAb()
    ensures SplitAtTag("xab:", "ab") == ["x", "ab:"]
  {
    var s := "xab:";
    assert s[1..] == "ab:" && s[1..][..2] == "ab" && s[1..][2..] == ":" && SpaceRun(":") == 0;
    CutStep(s, "ab", 0, 1);
    assert s[0..1] == "x";
    assert s[2..] == "b:" && !StartsWith(s[2..], "ab");
    SkipStep(s, "ab", 1, 2);
    assert s[3..] == ":" && !StartsWith(s[3..], "ab");
    SkipStep(s, "ab", 1, 3);
  }

  lemma SplitAbAtB()
    ensures SplitAtTag("ab:", "b") == ["a", "b:"]
  {
    var t := "ab:";
    assert t[1..] == "b:" && t[1..][..1] == "b" && t[1..][1..] == ":" && SpaceRun(":") == 0;
    CutStep(t, "b", 0, 1);
    assert t[0..1] == "a";
    assert t[2..] == ":" && !StartsWith(t[2..], "b");
    SkipStep(t, "b", 1, 2);
  }

  /** A tag name that ends another one cuts that name in the middle: with
      the tags "ab" and then "b", the chunk "xab:" is split into "x", "a"
      and "b:", and the part "a" starts at neither tag. */
  lemma MidWordCut()
    ensures SplitAll(["xab:"], ["ab", "b"]) == ["x", "a", "b:"]
    ensures !TagColonPrefix("a", "ab") && !TagColonPrefix("a", "b")
  {
    SplitChunkAtAb();
    SplitAbAtB();
    assert SplitEach(["xab:"], "ab") == ["x", "ab:"] by {
      assert ["xab:"][1..] == [];
    }
    assert SplitAtTag("x", "b") == ["x"];
    assert SplitEach(["x", "ab:"], "b") == ["x"] + ["a", "b:"] by {
      assert ["x", "ab:"][1..] == ["ab:"];
      assert ["ab:"][1..] == [];
    }
    assert ["ab", "b"][1..] == ["b"] && ["b"][1..] == [];
  }

  /** `parts.filter(Boolean).map(p => p.trim())`. */
  function Fragments(parts: seq<string>): (r: seq<string>)
    ensures |r| <= |parts|
  {
    if parts == [] then []
    else if parts[0] == [] then Fragments(parts[1..])
    else [Trim(parts[0])] + Fragments(parts[1..])
  }

  /** Each fragment is the trimmed text of a non-empty part. */
  lemma {:induction false} FragmentsAreTrimmedParts(parts: seq<string>)
    ensures forall i :: 0 <= i < |Fragments(parts)| ==>
              exists j :: 0 <= j < |parts| && parts[j] != [] && Fragments(parts)[i] == Trim(parts[j])
  {
    if parts != [] {
      FragmentsAreTrimmedParts(parts[1..]);
      var r, rest := Fragments(parts), Fragments(parts[1..]);
      var skip := if parts[0] == [] then 0 else 1;
      assert r == (if parts[0] == [] then [] else [Trim(parts[0])]) + rest;
      forall i | 0 <= i < |r|
        ensures exists j :: 0 <= j < |parts| && parts[j] != [] && r[i] == Trim(parts[j])
      {
        if i < skip {
          assert parts[0] != [] && r[i] == Trim(parts[0]);
        } else {
          var k := i - skip;
          assert 0 <= k < |rest| && r[i] == rest[k];
          var j :| 0 <= j < |parts[1..]| && parts[1..][j] != [] && rest[k] == Trim(parts[1..][j]);
          assert parts[j + 1] == parts[1..][j];
        }
      }
    } else {
      assert Fragments(parts) == [];
    }
  }

  /** The tag names of the parameters, in order. */
  function TagList(structure: seq<(string, Param)>): (r: seq<string>)
    ensures |r| == |structure| && forall i :: 0 <= i < |r| ==> r[i] == structure[i].1.tagName
  {
    if structure == [] then [] else [structure[0].1.tagName] + TagList(structure[1..])
  }

  /** The split in place: for each tag, every current part is replaced by its
      pieces. */
  method SplitParts(chunk: string, tags: seq<string>) returns (parts: seq<string>)
    ensures parts == SplitAll([chunk], tags)
  {
    parts := [chunk];
    for t := 0 to |tags|
      invariant SplitAll(parts, tags[t..]) == SplitAll([chunk], tags)
    {
      assert tags[t..][1..] == tags[t + 1..];
      parts := SplitEachInPlace(parts, tags[t]);
    }
    assert tags[|tags|..] == [];
  }

  /** `parts = parts.flatMap(p => p.split(...))` for one tag. */
  method SplitEachInPlace(parts: seq<string>, tag: string) returns (next: seq<string>)
    ensures next == SplitEach(parts, tag)
  {
    next := [];
    for i := 0 to |parts|
      invariant next + SplitEach(parts[i..], tag) == SplitEach(parts, tag)
    {
      assert parts[i..] == [parts[i]] + parts[i + 1..];
      next := next + SplitAtTag(parts[i], tag);
    }
    assert parts[|parts|..] == [];
  }

  // ---------------------------------------------------------------------
  // Reading one field
  // ---------------------------------------------------------------------

  /** `parts.find(p => p.startsWith(tagName))`. */
  function FindStartingWith(parts: seq<string>, tagName: string): (r: Option<string>)
    ensures r.Some? ==> r.value in parts && StartsWith(r.value, tagName)
    ensures r.None? <==> forall i :: 0 <= i < |parts| ==> !StartsWith(parts[i], tagName)
  {
    if parts == [] then None
    else if StartsWith(parts[0], tagName) then Some(parts[0])
    else FindStartingWith(parts[1..], tagName)
  }

  /** The first colon followed by a character other than a line terminator:
      where `/:(.+)/` matches. */
  function ValueColon(raw: string, from: nat): (r: Option<nat>)
    requires from <= |raw|
    ensures r.Some? ==> from <= r.value && r.value + 1 < |raw| && raw[r.value] == ':'
                        && !IsLineTerminator(raw[r.value + 1])
    ensures forall j :: from <= j && (r.None? || j < r.value) && j + 1 < |raw| ==>
              !(raw[j] == ':' && !IsLineTerminator(raw[j + 1]))
    decreases |raw| - from
  {
    if from + 1 >= |raw| then None
    else if raw[from] == ':' && !IsLineTerminator(raw[from + 1]) then Some(from)
    else ValueColon(raw, from + 1)
  }

  /** The end of the line that contains position `i`. */
  function LineEnd(s: string, i: nat): (e: nat)
    requires i <= |s|
    ensures i <= e <= |s| && (e == |s| || IsLineTerminator(s[e]))
    ensures forall k :: i <= k < e ==> !IsLineTerminator(s[k])
    decreases |s| - i
  {
    if i == |s| || IsLineTerminator(s[i]) then i else LineEnd(s, i + 1)
  }

  /** `raw.split(/:(.+)/)[1] ?? ""`: the captured text after the first such
      colon, up to the end of its line. */
  function TextAfterColon(raw: string): string
  {
    match ValueColon(raw, 0)
    case None => ""
    case Some(c) => raw[c + 1..LineEnd(raw, c + 1)]
  }

  /** `val.replace(/\D+/g, "")`. */
  function KeepDigits(s: string): (r: string)
    ensures AllDigits(r) && |r| <= |s|
  {
    if s == [] then [] else (if IsDigit(s[0]) then [s[0]] else []) + KeepDigits(s[1..])
  }

  /** The conversion of the trimmed value text to the parameter's type. */
  function Convert(val: string, innerType: InnerType): FieldValue
  {
    match innerType
    case IntegerType =>
      (match NumberOf(KeepDigits(val))
       case Int(n) => FInt(n)
       case NaN => FNull)
    case YesNoType =>
      var l := ToLower(val);
      if Contains(l, "yes") then FBool(true)
      else if Contains(l, "no") then FBool(false)
      else FNull
    case StringType => if val == [] then FNull else FStr(val)
  }

  /** The value of one parameter read from the fragments. */
  function FieldOf(fragments: seq<string>, param: Param): FieldValue
  {
    match FindStartingWith(fragments, param.tagName)
    case None => FNull
    case Some(raw) => if raw == [] then FNull else Convert(Trim(TextAfterColon(raw)), param.innerType)
  }

  /** The text after the first occurrence of the block name, trimmed, or
      nothing when the name does not occur. */
  function Chunk(str: string, blockName: string): Option<string>
  {
    match IndexOf(str, blockName)
    case None => None
    case Some(idx) => Some(Trim(str[idx + |blockName|..]))
  }

  /** The assignments `obj[key] = ...`, one per parameter in order. */
  function FieldWrites(fragments: seq<string>, structure: seq<(string, Param)>): (r: seq<(string, FieldValue)>)
    ensures |r| == |structure| && forall i :: 0 <= i < |r| ==>
              r[i] == (structure[i].0, FieldOf(fragments, structure[i].1))
  {
    if structure == [] then []
    else [(structure[0].0, FieldOf(fragments, structure[0].1))] + FieldWrites(fragments, structure[1..])
  }

  /** What `start` returns. */
  function StartSpec(blockName: string, structure: seq<(string, Param)>, str: string): Option<Record<FieldValue>>
  {
    match Chunk(str, blockName)
    case None => None
    case Some(chunk) =>
      if chunk == [] then None
      else
        var fragments := Fragments(SplitAll([chunk], TagList(structure)));
        Some(AssignAll([], FieldWrites(fragments, structure)))
  }

  /** `parts.filter(Boolean).map(p => p.trim())`, one part at a time. */
  method FilterAndTrim(parts: seq<string>) returns (fragments: seq<string>)
    ensures fragments == Fragments(parts)
  {
    fragments := [];
    for i := 0 to |parts|
      invariant fragments + Fragments(parts[i..]) == Fragments(parts)
    {
      assert parts[i..] == [parts[i]] + parts[i + 1..];
      if parts[i] != [] {
        fragments := fragments + [Trim(parts[i])];
      }
    }
    assert parts[|parts|..] == [];
  }

  /** The `forEach` over the parameters that fills `obj`. */
  method ReadFields(fragments: seq<string>, structure: seq<(string, Param)>) returns (obj: Record<FieldValue>)
    ensures obj == AssignAll([], FieldWrites(fragments, structure))
  {
    obj := [];
    for i := 0 to |structure|
      invariant AssignAll(obj, FieldWrites(fragments, structure[i..])) == AssignAll([], FieldWrites(fragments, structure))
    {
      assert structure[i..] == [structure[i]] + structure[i + 1..];
      var (key, param) := structure[i];
      var raw := FindStartingWith(fragments, param.tagName);
      var value: FieldValue;
      if raw.None? || raw.value == [] {
        value := FNull;
      } else {
        var val := Trim(TextAfterColon(raw.value));
        value := Convert(val, param.innerType);
      }
      obj := Assign(obj, key, value);
    }
    assert structure[|structure|..] == [];
  }

  /** `TagParser.start`. */
  method Start(blockName: string, structure: seq<(string, Param)>, str: string)
    returns (r: Option<Record<FieldValue>>)
    ensures r == StartSpec(blockName, structure, str)
  {
    var idx := IndexOf(str, blockName);
    if idx.None? {
      return None;
    }
    var chunk := Trim(str[idx.value + |blockName|..]);
    assert Chunk(str, blockName) == Some(chunk);
    if chunk == [] {
      return None;
    }
    var parts := SplitParts(chunk, TagList(structure));
    var fragments := FilterAndTrim(parts);
    var obj := ReadFields(fragments, structure);
    assert StartSpec(blockName, structure, str) == Some(obj);
    return Some(obj);
  }

  // ---------------------------------------------------------------------
  // What the conversions and `start` promise
  // ---------------------------------------------------------------------

  /** `Number` of a run of digits is their value (blank text is 0). */
  lemma NumberOfDigits(d: string)
    requires AllDigits(d)
    ensures NumberOf(d) == Int(DigitsValue(d))
  {
    DigitsHaveNoSpace(d);
    TrimOfTrimmed(d);
    if d != [] {
      assert d[0] != '-' && d[0] != '+';
    }
  }

  /** An integer field is the value of the digits of its text, all other
      characters dropped; it is never null and never negative, and text
      without digits reads as 0. */
  lemma IntegerField(val: string)
    ensures Convert(val, IntegerType) == FInt(DigitsValue(KeepDigits(val)))
    ensures (forall k :: 0 <= k < |val| ==> !IsDigit(val[k])) ==> Convert(val, IntegerType) == FInt(0)
  {
    NumberOfDigits(KeepDigits(val));
    if forall k :: 0 <= k < |val| ==> !IsDigit(val[k]) {
      NoDigitsKept(val);
    }
  }

  lemma {:induction false} NoDigitsKept(s: string)
    requires forall k :: 0 <= k < |s| ==> !IsDigit(s[k])
    ensures KeepDigits(s) == []
  {
    if s != [] {
      NoDigitsKept(s[1..]);
    }
  }

  /** Digits are kept in order and nothing else is. */
  lemma {:induction false} KeepDigitsOfDigits(s: string)
    requires AllDigits(s)
    ensures KeepDigits(s) == s
  {
    if s != [] {
      KeepDigitsOfDigits(s[1..]);
    }
  }

  /** A yes/no field is true exactly when the lowered text contains "yes",
      false exactly when it contains "no" but not "yes", and null otherwise. */
  lemma YesNoField(val: string)
    ensures Convert(val, YesNoType) == FBool(true) <==> Contains(ToLower(val), "yes")
    ensures Convert(val, YesNoType) == FBool(false) <==>
              !Contains(ToLower(val), "yes") && Contains(ToLower(val), "no")
    ensures Convert(val, YesNoType) == FNull <==>
              !Contains(ToLower(val), "yes") && !Contains(ToLower(val), "no")
  {
  }

  /** A string field is its text, and null when the text is empty. */
  lemma StringField(val: string)
    ensures Convert(val, StringType) == FNull <==> val == []
    ensures val != [] ==> Convert(val, StringType) == FStr(val)
  {
  }

  /** The text after the colon: empty exactly when no colon is followed by a
      character on the same line; otherwise it is the rest of that line,
      right after the first such colon. */
  lemma TextAfterColonSpec(raw: string)
    ensures var r := TextAfterColon(raw);
            && (forall k :: 0 <= k < |r| ==> !IsLineTerminator(r[k]))
            && (r == [] <==> forall j :: 0 <= j && j + 1 < |raw| ==> !(raw[j] == ':' && !IsLineTerminator(raw[j + 1])))
            && (r != [] ==> exists c :: 0 <= c && c + 1 + |r| <= |raw| && raw[c] == ':' && raw[c + 1..c + 1 + |r|] == r
                                   && (c + 1 + |r| == |raw| || IsLineTerminator(raw[c + 1 + |r|])))
  {
    match ValueColon(raw, 0)
    case None =>
    case Some(c) =>
      var e := LineEnd(raw, c + 1);
      assert raw[c + 1..e][0] == raw[c + 1];
  }

  /** A parameter whose tag begins no fragment reads as null. */
  lemma MissingTagIsNull(fragments: seq<string>, param: Param)
    requires forall i :: 0 <= i < |fragments| ==> !StartsWith(fragments[i], param.tagName)
    ensures FieldOf(fragments, param) == FNull
  {
  }

  /** A parameter reads the first fragment that begins with its tag. */
  lemma FieldFromFirstFragment(fragments: seq<string>, param: Param, i: nat)
    requires i < |fragments| && StartsWith(fragments[i], param.tagName) && fragments[i] != []
    requires forall k :: 0 <= k < i ==> !StartsWith(fragments[k], param.tagName)
    ensures FieldOf(fragments, param) == Convert(Trim(TextAfterColon(fragments[i])), param.innerType)
    decreases i
  {
    FirstFragment(fragments, param.tagName, i);
  }

  lemma {:induction false} FirstFragment(parts: seq<string>, tagName: string, i: nat)
    requires i < |parts| && StartsWith(parts[i], tagName)
    requires forall k :: 0 <= k < i ==> !StartsWith(parts[k], tagName)
    ensures FindStartingWith(parts, tagName) == Some(parts[i])
    decreases i
  {
    if i > 0 {
      FirstFragment(parts[1..], tagName, i - 1);
    }
  }

  /** `start` gives null exactly when the block name does not occur or only
      white space follows its first occurrence. */
  lemma StartNullIff(blockName: string, structure: seq<(string, Param)>, str: string)
    ensures StartSpec(blockName, structure, str).None? <==>
              || !Contains(str, blockName)
              || AllSpace(str[IndexOf(str, blockName).value + |blockName|..])
  {
    match IndexOf(str, blockName)
    case None =>
    case Some(idx) =>
      TrimEmptyIff(str[idx + |blockName|..]);
  }

  /** When the parameter keys are distinct, the object holds exactly those
      keys, in their order, and each key holds its own parameter's value. */
  lemma ReadFieldsSpec(fragments: seq<string>, structure: seq<(string, Param)>, i: nat)
    requires UniqueKeys(structure) && i < |structure|
    ensures var obj := AssignAll([], FieldWrites(fragments, structure));
            && Keys(obj) == Keys(structure)
            && Lookup(obj, structure[i].0) == Some(FieldOf(fragments, structure[i].1))
  {
    var ws := FieldWrites(fragments, structure);
    assert Keys(ws) == Keys(structure);
    assert UniqueKeys(ws);
    AssignAllDistinct(ws);
    UniqueLookup(ws, i);
  }
}
