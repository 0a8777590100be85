/** The reading half of the tag language (`TagSyntaxHandler`): the top-level
    splitter `topLevelParse`, the tree builder `parseTag`, `stripQuotes`,
    `toObject` and `parse`. */
module TagSyntax {
  import opened Wrappers
  import opened Text
  import opened Records
  import opened BraceMatcher

  // ---------------------------------------------------------------------
  // Key tokens: `\w+`, at most one white-space character, then `:`.
  // ---------------------------------------------------------------------

  /** The end of the run of word characters that starts at `p`. */
  function WordEnd(s: string, p: nat): (q: nat)
    requires p <= |s|
    ensures p <= q <= |s|
    ensures forall k :: p <= k < q ==> IsWordChar(s[k])
    ensures q == |s| || !IsWordChar(s[q])
    decreases |s| - p
  {
    if p < |s| && IsWordChar(s[p]) then WordEnd(s, p + 1) else p
  }

  /** Where the colon of a key token whose word ends at `q` sits: right at `q`,
      or after one white-space character. */
  function ColonAfter(s: string, q: nat): (c: Option<nat>)
    requires q <= |s|
    ensures c.Some? ==> q <= c.value <= q + 1 && c.value < |s| && s[c.value] == ':'
  {
    if q < |s| && s[q] == ':' then Some(q)
    else if q + 1 < |s| && IsSpace(s[q]) && s[q + 1] == ':' then Some(q + 1)
    else None
  }

  /** A match of `\w+[\s]?:` can start at `p`. */
  predicate KeyAt(s: string, p: nat)
    requires p < |s|
  {
    IsWordChar(s[p]) && ColonAfter(s, WordEnd(s, p)).Some?
  }

  /** A match of `\b\w+[\s]?:` can start at `p`: a key token that is not the
      tail of a longer word. */
  predicate BoundedKeyAt(s: string, p: nat)
    requires p < |s|
  {
    KeyAt(s, p) && (p == 0 || !IsWordChar(s[p - 1]))
  }

  /** The leftmost position at or after `from` where a key token starts: where
      the regular expression `/(\w+)[\s]?:/` matches. */
  function FindKey(s: string, from: nat): (r: Option<nat>)
    requires from <= |s|
    ensures r.Some? ==> from <= r.value < |s| && KeyAt(s, r.value)
    ensures forall j :: from <= j < |s| && (r.None? || j < r.value) ==> !KeyAt(s, j)
    decreases |s| - from
  {
    if from == |s| then None
    else if KeyAt(s, from) then Some(from)
    else FindKey(s, from + 1)
  }

  /** The leftmost position at or after `from` where the look-ahead
      `(?=\b\w+[\s]?:)` succeeds. */
  function FindBoundedKey(s: string, from: nat): (r: Option<nat>)
    requires from <= |s|
    ensures r.Some? ==> from <= r.value < |s| && BoundedKeyAt(s, r.value)
    ensures forall j :: from <= j < |s| && (r.None? || j < r.value) ==> !BoundedKeyAt(s, j)
    decreases |s| - from
  {
    if from == |s| then None
    else if BoundedKeyAt(s, from) then Some(from)
    else FindBoundedKey(s, from + 1)
  }

  /** Inside a word every position shares the word's end. */
  lemma WordEndInside(s: string, p: nat)
    requires 0 < p <= |s| && IsWordChar(s[p - 1])
    ensures WordEnd(s, p - 1) == WordEnd(s, p)
  {
  }

  /** The leftmost key token always starts a word, so the `\b` of the second
      expression changes nothing: both find the same position. */
  lemma LeftmostKeyIsBounded(s: string)
    ensures FindKey(s, 0) == FindBoundedKey(s, 0)
  {
    match FindKey(s, 0) {
      case None =>
      case Some(p) =>
        if p > 0 && IsWordChar(s[p - 1]) {
          WordEndInside(s, p);
          assert KeyAt(s, p - 1);
        }
        assert BoundedKeyAt(s, p);
        if FindBoundedKey(s, 0).Some? {
          assert KeyAt(s, FindBoundedKey(s, 0).value);
        }
    }
  }

  /** What `/(\w+)[\s]?:([\s\S]*)/` captures: the key and everything after
      its colon. */
  datatype KeyMatch = KeyMatch(key: string, rest: string)

  predicate IsWord(w: string) {
    w != [] && forall k :: 0 <= k < |w| ==> IsWordChar(w[k])
  }

  function MatchKey(s: string): (m: Option<KeyMatch>)
    ensures m.Some? ==> IsWord(m.value.key) && |m.value.rest| < |s|
    ensures m.None? <==> FindKey(s, 0).None?
  {
    match FindKey(s, 0)
    case None => None
    case Some(p) =>
      var q := WordEnd(s, p);
      var c := ColonAfter(s, q).value;
      Some(KeyMatch(s[p..q], s[c + 1..]))
  }

  // ---------------------------------------------------------------------
  // topLevelParse
  // ---------------------------------------------------------------------

  /** An entry of the level record: a finished value or a brace group still
      to be parsed. */
  datatype WipValue = Final(value: string) | Group(value: string)

  /** One pass of the do-while loop of `topLevelParse` on the remaining text:
      `None` when no key token is left, otherwise the key, its value and the
      new remaining text. A group whose braces do not balance makes the
      matcher throw, which is passed on as a failure. */
  datatype Write = Write(key: string, value: WipValue, next: string)

  function Pass(next: string): (r: Result<Option<Write>, ParseError>)
    ensures r.Success? && r.value.Some? ==>
              |r.value.value.next| < |next| && IsWord(r.value.value.key)
              && (r.value.value.value.Group? ==> |r.value.value.value.value| < |next|)
  {
    match MatchKey(next)
    case None => Success(None)
    case Some(m) =>
      var t := Trim(m.rest);
      if t != [] && t[0] == '{' then
        match MatchGroup(t)
        case Failure(e) => Failure(e)
        case Success(g) => Success(Some(Write(m.key, Group(Trim(g.value)), g.next)))
      else
        match FindBoundedKey(t, 0)
        case None => Success(Some(Write(m.key, Final(Trim(t)), "")))
        case Some(k) => Success(Some(Write(m.key, Final(Trim(t[..k])), t[k..])))
  }

  /** The key whose assignment on a plain object replaces the object's
      prototype instead of adding a property. */
  const ProtoKey: string := "__proto__"

  /** The own property `out[key] = value` adds to a plain object: none for
      `__proto__`, so `Object.entries` never lists that key. */
  function OwnWrite(key: string, value: WipValue): (ws: seq<(string, WipValue)>)
    ensures key == ProtoKey <==> ws == []
    ensures ws != [] ==> ws == [(key, value)]
  {
    if key == ProtoKey then [] else [(key, value)]
  }

  /** The assignments `out[key] = ...` the loop performs that add an own
      property, in order. */
  function Writes(next: string): (r: Result<seq<(string, WipValue)>, ParseError>)
    ensures r.Success? ==> forall i :: 0 <= i < |r.value| ==>
              IsWord(r.value[i].0) && r.value[i].0 != ProtoKey
              && (r.value[i].1.Group? ==> |r.value[i].1.value| < |next|)
    decreases |next|
  {
    match Pass(next)
    case Failure(e) => Failure(e)
    case Success(None) => Success([])
    case Success(Some(w)) =>
      if Trim(w.next) == [] then Success(OwnWrite(w.key, w.value))
      else
        match Writes(w.next)
        case Failure(e) => Failure(e)
        case Success(ws) => Success(OwnWrite(w.key, w.value) + ws)
  }

  /** What `topLevelParse` returns (or throws). */
  function TopLevel(s: string): (r: Result<Record<WipValue>, ParseError>)
    ensures r.Success? <==> Writes(s).Success?
    ensures r.Success? ==> UniqueKeys(r.value) && forall x :: x in r.value ==> x in Writes(s).value
  {
    match Writes(s)
    case Failure(e) => Failure(e)
    case Success(ws) =>
      AssignAllLastWriteWins([], ws, "");
      AssignAllEntries([], ws);
      Success(AssignAll([], ws))
  }

  /** What the loop of `topLevelParse` returns from a state where the
      object built so far is `out` and `next` is still to be read. */
  function Resume(out: Record<WipValue>, next: string): Result<Record<WipValue>, ParseError>
  {
    match Writes(next)
    case Failure(e) => Failure(e)
    case Success(ws) => Success(AssignAll(out, ws))
  }

  /** One pass of the loop, seen from `Resume`. */
  lemma ResumeStep(out: Record<WipValue>, next: string)
    ensures Pass(next).Failure? ==> Resume(out, next) == Failure(Pass(next).error)
    ensures Pass(next) == Success(None) ==> Resume(out, next) == Success(out)
    ensures Pass(next).Success? && Pass(next).value.Some? ==>
              var w := Pass(next).value.value;
              var out' := AssignAll(out, OwnWrite(w.key, w.value));
              Resume(out, next) == if Trim(w.next) == [] then Success(out') else Resume(out', w.next)
  {
    match Pass(next)
    case Failure(_) =>
    case Success(None) =>
    case Success(Some(w)) =>
      var own := OwnWrite(w.key, w.value);
      if Trim(w.next) == [] {
        assert Writes(next) == Success(own);
      } else {
        match Writes(w.next)
        case Failure(_) =>
          assert Writes(next) == Writes(w.next);
        case Success(ws) =>
          assert Writes(next) == Success(own + ws);
          if own == [] {
            assert own + ws == ws;
          } else {
            AssignAllCons(out, (w.key, w.value), ws);
          }
      }
  }

  /** `topLevelParse`: a do-while loop that reads one key and its value per
      pass and stops when no key is left or the rest is blank. */
  method TopLevelParse(str: string) returns (r: Result<Record<WipValue>, ParseError>)
    ensures r == TopLevel(str)
  {
    var out: Record<WipValue> := [];
    var next := str;
    while true
      invariant TopLevel(str) == Resume(out, next)
      decreases |next|
    {
      ResumeStep(out, next);
      var parsed := MatchKey(next);
      if parsed.None? {
        break;
      }
      var key := parsed.value.key;
      var rest := Trim(parsed.value.rest);
      var value: WipValue;
      if rest != [] && rest[0] == '{' {
        var g := ParseGroupValue(rest);
        if g.Failure? {
          return Failure(g.error);
        }
        value := Group(Trim(g.value.value));
        assert Pass(next) == Success(Some(Write(key, value, g.value.next)));
        next := g.value.next;
      } else {
        var k := FindBoundedKey(rest, 0);
        if k.None? {
          value := Final(Trim(rest));
          assert Pass(next) == Success(Some(Write(key, value, "")));
          next := "";
        } else {
          value := Final(Trim(rest[..k.value]));
          assert Pass(next) == Success(Some(Write(key, value, rest[k.value..])));
          next := rest[k.value..];
        }
      }
      ghost var out0 := out;
      if key != ProtoKey {
        out := Assign(out, key, value);
        assert [(key, value)][1..] == [];
      }
      assert out == AssignAll(out0, OwnWrite(key, value));
      if Trim(next) == [] {
        break;
      }
    }
    return Success(out);
  }

  /** A pass never throws: the matcher only ever sees text that opens with `{`. */
  lemma PassNeverFails(next: string)
    ensures Pass(next).Success?
  {
    match MatchKey(next) {
      case None =>
      case Some(m) =>
        var t := Trim(m.rest);
        if t != [] && t[0] == '{' {
          OpeningBraceNeverFails(t);
        }
    }
  }

  /** `topLevelParse` never throws. */
  lemma {:induction false} TopLevelNeverFails(s: string)
    ensures Writes(s).Success? && TopLevel(s).Success?
    decreases |s|
  {
    PassNeverFails(s);
    match Pass(s).value {
      case None =>
      case Some(w) =>
        if Trim(w.next) != [] {
          TopLevelNeverFails(w.next);
        }
    }
  }

  /** The record holds each written key once, its keys are words other than
      `__proto__`, a repeated key keeps only its last value, and a group's
      text is shorter than the input. */
  lemma TopLevelRecord(s: string, k: string)
    requires TopLevel(s).Success?
    ensures var rec := TopLevel(s).value;
            && UniqueKeys(rec)
            && (forall i :: 0 <= i < |rec| ==> IsWord(rec[i].0) && rec[i].0 != ProtoKey)
            && (forall i :: 0 <= i < |rec| && rec[i].1.Group? ==> |rec[i].1.value| < |s|)
            && Lookup(rec, k) == LastWrite(Writes(s).value, k)
  {
    var ws := Writes(s).value;
    var rec := AssignAll([], ws);
    AssignAllLastWriteWins([], ws, k);
    AssignAllEntries([], ws);
    forall i | 0 <= i < |rec|
      ensures IsWord(rec[i].0) && rec[i].0 != ProtoKey && (rec[i].1.Group? ==> |rec[i].1.value| < |s|)
    {
      assert rec[i] in rec;
      var j :| 0 <= j < |ws| && ws[j] == rec[i];
    }
  }

  /** Every group text of the record is shorter than the input, so the
      tree of levels is finite. */
  lemma TopLevelGroupsShorter(s: string)
    requires TopLevel(s).Success?
    ensures var rec := TopLevel(s).value;
            forall i :: 0 <= i < |rec| && rec[i].1.Group? ==> |rec[i].1.value| < |s|
  {
    TopLevelRecord(s, "");
  }

  /** A value whose text opens with `{` becomes a group entry holding the text
      between that brace and its matching `}`; the rest after the `}` is what
      the loop reads next. */
  lemma PassOnGroup(s: string, c: nat)
    requires MatchKey(s).Some?
    requires var t := Trim(MatchKey(s).value.rest);
             && 0 < c < |t| && t[0] == '{' && StillOpen(t, 0, c) && Depth(t[..c + 1]) == 0
    ensures var m := MatchKey(s).value;
            var t := Trim(m.rest);
            Pass(s) == Success(Some(Write(m.key, Group(Trim(t[1..c])), Trim(t[c + 1..]))))
  {
    var t := Trim(MatchKey(s).value.rest);
    assert t[0..c + 1] == t[..c + 1];
    MatchGroupCloses(t, 0, c);
    TrimIdempotent(t[1..c]);
  }

  /** Any other value runs up to the next key token that starts a word, or to
      the end; it never contains such a token itself. */
  lemma PassOnFinal(s: string)
    requires MatchKey(s).Some?
    requires var t := Trim(MatchKey(s).value.rest); t == [] || t[0] != '{'
    ensures var m := MatchKey(s).value;
            var t := Trim(m.rest);
            exists k :: 0 <= k <= |t| && (forall j :: 0 <= j < k ==> !BoundedKeyAt(t, j))
              && (k < |t| ==> BoundedKeyAt(t, k))
              && Pass(s) == Success(Some(Write(m.key, Final(Trim(t[..k])), if k < |t| then t[k..] else "")))
  {
    var m := MatchKey(s).value;
    var t := Trim(m.rest);
    var k := match FindBoundedKey(t, 0) case Some(k) => k case None => |t|;
    var w := Write(m.key, Final(Trim(t[..k])), if k < |t| then t[k..] else "");
    assert Pass(s) == Success(Some(w)) by {
      if k == |t| {
        assert t[..k] == t;
      }
    }
    assert forall j :: 0 <= j < k ==> !BoundedKeyAt(t, j);
  }

  lemma {:induction false} WordEndShift(s: string, p: nat, j: nat)
    requires p + j <= |s|
    ensures WordEnd(s[p..], j) == WordEnd(s, p + j) - p
    decreases |s| - p - j
  {
    if p + j < |s| && IsWordChar(s[p + j]) {
      WordEndShift(s, p, j + 1);
    }
  }

  /** Dropping a prefix of length `p` moves every key token `p` places left. */
  lemma KeyAtShift(s: string, p: nat, j: nat)
    requires p + j < |s|
    ensures KeyAt(s[p..], j) <==> KeyAt(s, p + j)
    ensures KeyAt(s, p + j) ==>
              var q := WordEnd(s, p + j);
              WordEnd(s[p..], j) == q - p && ColonAfter(s[p..], q - p).value == ColonAfter(s, q).value - p
  {
    WordEndShift(s, p, j);
  }

  /** Text before the first key token is dropped: the loop reads the same
      entries from the text that starts at that token. */
  lemma TextBeforeFirstKeyIgnored(s: string)
    requires FindKey(s, 0).Some?
    ensures Writes(s) == Writes(s[FindKey(s, 0).value..])
  {
    var t := s[FindKey(s, 0).value..];
    MatchFromFirstKey(s);
    assert Pass(t) == Pass(s);
  }

  lemma MatchFromFirstKey(s: string)
    requires FindKey(s, 0).Some?
    ensures MatchKey(s[FindKey(s, 0).value..]) == MatchKey(s)
  {
    var p := FindKey(s, 0).value;
    var t := s[p..];
    KeyAtShift(s, p, 0);
    assert FindKey(t, 0) == Some(0);
    var q := WordEnd(s, p);
    var c := ColonAfter(s, q).value;
    assert MatchKey(s) == Some(KeyMatch(s[p..q], s[c + 1..]));
    assert WordEnd(t, 0) == q - p && ColonAfter(t, q - p).value == c - p;
    assert MatchKey(t) == Some(KeyMatch(t[0..q - p], t[c - p + 1..]));
    assert t[0..q - p] == s[p..q];
    assert t[c - p + 1..] == s[c + 1..];
  }

  // ---------------------------------------------------------------------
  // parseTag: the tree of levels
  // ---------------------------------------------------------------------

  /** An entry of a parsed level: a final value, or a group replaced by the
      entries of its own parse (`groupParsed`). */
  datatype Parsed = Done(value: string) | GroupParsed(entries: seq<(string, Parsed)>)

  /** `tagWIP.filter(entry => entry[1].type == "final")`, each kept as a
      final entry of the parsed level. */
  function Finals(rec: Record<WipValue>): (r: seq<(string, Parsed)>)
    ensures forall i :: 0 <= i < |r| ==> r[i].1.Done? && (r[i].0, Final(r[i].1.value)) in rec
  {
    if rec == [] then []
    else if rec[0].1.Final? then [(rec[0].0, Done(rec[0].1.value))] + Finals(rec[1..])
    else Finals(rec[1..])
  }

  /** The group entries of a level record, in order. */
  function FilterGroups(rec: Record<WipValue>): (r: Record<WipValue>)
    ensures forall i :: 0 <= i < |r| ==> r[i].1.Group? && r[i] in rec
  {
    if rec == [] then []
    else if rec[0].1.Group? then [rec[0]] + FilterGroups(rec[1..])
    else FilterGroups(rec[1..])
  }

  /** The parse of one level (`recursion`): the final entries first, then
      each group, in order, replaced by the parse of its text. */
  function ParseLevel(s: string): (r: Result<seq<(string, Parsed)>, ParseError>)
    ensures r.Success? ==> TopLevel(s).Success?
    ensures r.Success? ==> forall i :: 0 <= i < |r.value| ==>
              (r.value[i].1.Done? <==> i < |Finals(TopLevel(s).value)|)
    decreases |s|, 1, 0
  {
    match TopLevel(s)
    case Failure(e) => Failure(e)
    case Success(rec) =>
      TopLevelGroupsShorter(s);
      match ParseGroups(rec, s)
      case Failure(e) => Failure(e)
      case Success(groups) => Success(Finals(rec) + groups)
  }

  /** `groupValues.map(...)`: each group entry of `rec` parsed in turn; `s`
      is the level text the groups were read from. */
  function ParseGroups(rec: Record<WipValue>, s: string): (r: Result<seq<(string, Parsed)>, ParseError>)
    requires forall i :: 0 <= i < |rec| && rec[i].1.Group? ==> |rec[i].1.value| < |s|
    ensures r.Success? ==> forall i :: 0 <= i < |r.value| ==> r.value[i].1.GroupParsed?
    decreases |s|, 0, |rec|
  {
    if rec == [] then Success([])
    else if rec[0].1.Final? then ParseGroups(rec[1..], s)
    else
      match ParseLevel(rec[0].1.value)
      case Failure(e) => Failure(e)
      case Success(inner) =>
        match ParseGroups(rec[1..], s)
        case Failure(e) => Failure(e)
        case Success(rest) => Success([(rec[0].0, GroupParsed(inner))] + rest)
  }

  /** A parsed group entry `e` made from the group entry `g`: the same key,
      holding the parse of the group's text. */
  ghost predicate GroupMatch(e: (string, Parsed), g: (string, WipValue)) {
    e.0 == g.0 && ParseLevel(g.1.value).Success? && e.1 == GroupParsed(ParseLevel(g.1.value).value)
  }

  ghost predicate GroupsMatch(r: seq<(string, Parsed)>, gs: Record<WipValue>) {
    |r| == |gs| && forall i :: 0 <= i < |r| ==> GroupMatch(r[i], gs[i])
  }

  lemma GroupsMatchCons(e: (string, Parsed), g: (string, WipValue), r: seq<(string, Parsed)>, gs: Record<WipValue>)
    requires GroupMatch(e, g) && GroupsMatch(r, gs)
    ensures GroupsMatch([e] + r, [g] + gs)
  {
    forall i | 0 <= i < |r| + 1
      ensures GroupMatch(([e] + r)[i], ([g] + gs)[i])
    {
      if i > 0 {
        assert ([e] + r)[i] == r[i - 1] && ([g] + gs)[i] == gs[i - 1];
      }
    }
  }

  /** The parsed groups are the group entries of `rec`, in order, each under
      its own key and holding the parse of its text. */
  lemma {:induction false} ParseGroupsSpec(rec: Record<WipValue>, s: string)
    requires forall i :: 0 <= i < |rec| && rec[i].1.Group? ==> |rec[i].1.value| < |s|
    requires ParseGroups(rec, s).Success?
    ensures GroupsMatch(ParseGroups(rec, s).value, FilterGroups(rec))
  {
    if rec != [] {
      ParseGroupsSpec(rec[1..], s);
      var rest := ParseGroups(rec[1..], s).value;
      if rec[0].1.Group? {
        var e := (rec[0].0, GroupParsed(ParseLevel(rec[0].1.value).value));
        assert ParseGroups(rec, s).value == [e] + rest;
        assert FilterGroups(rec) == [rec[0]] + FilterGroups(rec[1..]);
        GroupsMatchCons(e, rec[0], rest, FilterGroups(rec[1..]));
      } else {
        assert ParseGroups(rec, s).value == rest;
        assert FilterGroups(rec) == FilterGroups(rec[1..]);
      }
    } else {
      assert ParseGroups(rec, s).value == [] && FilterGroups(rec) == [];
    }
  }

  /** Every entry of a level is final or a group, so the two filters share it out. */
  lemma {:induction false} FiltersCover(rec: Record<WipValue>)
    ensures |Finals(rec)| + |FilterGroups(rec)| == |rec|
  {
    if rec != [] {
      FiltersCover(rec[1..]);
    }
  }

  /** `parseTag` never throws, at any depth. */
  lemma {:induction false} ParseLevelNeverFails(s: string)
    ensures ParseLevel(s).Success?
    decreases |s|, 1, 0
  {
    TopLevelNeverFails(s);
    var rec := TopLevel(s).value;
    TopLevelGroupsShorter(s);
    ParseGroupsNeverFail(rec, s);
  }

  lemma {:induction false} ParseGroupsNeverFail(rec: Record<WipValue>, s: string)
    requires forall i :: 0 <= i < |rec| && rec[i].1.Group? ==> |rec[i].1.value| < |s|
    ensures ParseGroups(rec, s).Success?
    decreases |s|, 0, |rec|
  {
    if rec != [] {
      if rec[0].1.Group? {
        ParseLevelNeverFails(rec[0].1.value);
      }
      ParseGroupsNeverFail(rec[1..], s);
    }
  }

  /** A parsed group entry of level record `rec`: some group text of `rec`,
      under the same key, parses to the entry's entries. */
  ghost predicate GroupOf(e: (string, Parsed), rec: Record<WipValue>) {
    e.1.GroupParsed? && exists v :: (e.0, Group(v)) in rec && ParseLevel(v) == Success(e.1.entries)
  }

  /** A parsed level holds one entry per entry of the level record: all final
      entries first, each with its text, then each group under its key,
      holding the parse of its text. */
  lemma ParseLevelShape(s: string)
    requires ParseLevel(s).Success?
    ensures TopLevel(s).Success?
    ensures var r := ParseLevel(s).value;
            var rec := TopLevel(s).value;
            && |r| == |rec|
            && (forall i, j :: 0 <= i < j < |r| && r[i].1.GroupParsed? ==> r[j].1.GroupParsed?)
            && (forall i :: 0 <= i < |r| && r[i].1.Done? ==> (r[i].0, Final(r[i].1.value)) in rec)
            && (forall i :: 0 <= i < |r| && r[i].1.GroupParsed? ==> GroupOf(r[i], rec))
  {
    var rec := TopLevel(s).value;
    TopLevelGroupsShorter(s);
    var gs := ParseGroups(rec, s).value;
    assert ParseLevel(s).value == Finals(rec) + gs;
    GroupsOfLevel(rec, s);
    LevelConcat(Finals(rec), gs, rec);
  }

  /** The groups parsed from a level record are group entries of it, and
      with its final entries they account for all of it. */
  lemma GroupsOfLevel(rec: Record<WipValue>, s: string)
    requires forall i :: 0 <= i < |rec| && rec[i].1.Group? ==> |rec[i].1.value| < |s|
    requires ParseGroups(rec, s).Success?
    ensures var gs := ParseGroups(rec, s).value;
            |Finals(rec)| + |gs| == |rec| && forall i :: 0 <= i < |gs| ==> GroupOf(gs[i], rec)
  {
    var gs := ParseGroups(rec, s).value;
    ParseGroupsSpec(rec, s);
    FiltersCover(rec);
    var groups := FilterGroups(rec);
    forall i | 0 <= i < |gs|
      ensures GroupOf(gs[i], rec)
    {
      assert GroupMatch(gs[i], groups[i]);
      assert groups[i] in rec;
      assert groups[i] == (gs[i].0, Group(groups[i].1.value));
    }
  }

  /** Final entries followed by group entries: the groups come last. */
  lemma LevelConcat(fs: seq<(string, Parsed)>, gs: seq<(string, Parsed)>, rec: Record<WipValue>)
    requires forall i :: 0 <= i < |fs| ==> fs[i].1.Done? && (fs[i].0, Final(fs[i].1.value)) in rec
    requires forall i :: 0 <= i < |gs| ==> GroupOf(gs[i], rec)
    ensures var r := fs + gs;
            && (forall i, j :: 0 <= i < j < |r| && r[i].1.GroupParsed? ==> r[j].1.GroupParsed?)
            && (forall i :: 0 <= i < |r| && r[i].1.Done? ==> (r[i].0, Final(r[i].1.value)) in rec)
            && (forall i :: 0 <= i < |r| && r[i].1.GroupParsed? ==> GroupOf(r[i], rec))
  {
    var r := fs + gs;
    forall i | 0 <= i < |r|
      ensures r[i].1.GroupParsed? <==> i >= |fs|
      ensures r[i].1.Done? ==> (r[i].0, Final(r[i].1.value)) in rec
      ensures r[i].1.GroupParsed? ==> GroupOf(r[i], rec)
    {
      if i >= |fs| {
        assert r[i] == gs[i - |fs|];
      }
    }
  }

  // ---------------------------------------------------------------------
  // stripQuotes, toObject, parse
  // ---------------------------------------------------------------------

  predicate IsQuote(c: char) {
    c == '"' || c == '\''
  }

  /** `stripQuotes`: trim, then drop one pair of matching quotes around the
      text. `slice(1, -1)` of a lone quote is empty. */
  function StripQuotes(s: string): (r: string)
    ensures |r| <= |Trim(s)|
    ensures r != Trim(s) ==> |Trim(s)| >= 1 && IsQuote(Trim(s)[0]) && Trim(s)[|Trim(s)| - 1] == Trim(s)[0]
  {
    var t := Trim(s);
    if t != [] && IsQuote(t[0]) && t[|t| - 1] == t[0] then
      if |t| >= 2 then t[1..|t| - 1] else []
    else t
  }

  /** Text wrapped in a pair of equal quotes comes out unwrapped, whatever it
      holds, quotes and surrounding white space included. */
  lemma StripQuotesUnwraps(x: string, q: char)
    requires IsQuote(q)
    ensures StripQuotes([q] + x + [q]) == x
  {
    var w := [q] + x + [q];
    TrimOfTrimmed(w);
    assert w[1..|w| - 1] == x;
  }

  /** Text that is already trimmed and not wrapped in matching quotes is kept
      as it is; white space around it is dropped. */
  lemma StripQuotesKeepsUnquoted(s: string)
    requires Trim(s) == [] || !IsQuote(Trim(s)[0]) || Trim(s)[|Trim(s)| - 1] != Trim(s)[0]
    ensures StripQuotes(s) == Trim(s)
  {
  }

  /** A lone quote character becomes the empty string. */
  lemma StripQuotesLoneQuote(q: char)
    requires IsQuote(q)
    ensures StripQuotes([q]) == []
  {
    TrimOfTrimmed([q]);
  }

  /** The result never has more characters than the trimmed input, and is
      the trimmed input or its interior. */
  lemma StripQuotesShape(s: string)
    ensures var t := Trim(s);
            StripQuotes(s) == t || (|t| >= 2 && StripQuotes(s) == t[1..|t| - 1]) || (|t| == 1 && StripQuotes(s) == [])
  {
  }

  /** A value of the object `toObject` builds: a string, or a nested object. */
  datatype Value = Str(text: string) | Obj(fields: Record<Value>)

  /** The assignments `toObject` performs for the entries of `node` from the
      `i`-th on: final entries through `stripQuotes`, parsed groups turned
      into objects. */
  function Conversions(node: Parsed, i: nat): (r: seq<(string, Value)>)
    requires node.GroupParsed? && i <= |node.entries|
    ensures |r| == |node.entries| - i
    ensures forall j :: 0 <= j < |r| ==>
              r[j].0 == node.entries[i + j].0 && (r[j].1.Str? <==> node.entries[i + j].1.Done?)
    decreases node, |node.entries| - i
  {
    if i == |node.entries| then []
    else
      var (k, v) := node.entries[i];
      var converted := match v
        case Done(t) => Str(StripQuotes(t))
        case GroupParsed(_) => Obj(AssignAll([], Conversions(v, 0)));
      [(k, converted)] + Conversions(node, i + 1)
  }

  /** The object `toObject` returns for a list of parsed entries. */
  function Materialize(pairs: seq<(string, Parsed)>): (r: Record<Value>)
    ensures UniqueKeys(r)
    ensures forall i :: 0 <= i < |r| ==> r[i].0 in Keys(pairs)
  {
    var cs := Conversions(GroupParsed(pairs), 0);
    AssignAllLastWriteWins([], cs, "");
    ConversionsKeys(pairs);
    AssignAllKeysFrom([], cs);
    AssignAll([], cs)
  }

  /** The conversions keep the keys of the pairs, in order. */
  lemma ConversionsKeys(pairs: seq<(string, Parsed)>)
    ensures Keys(Conversions(GroupParsed(pairs), 0)) == Keys(pairs)
  {
    var cs := Conversions(GroupParsed(pairs), 0);
    assert GroupParsed(pairs).entries == pairs;
    assert forall j :: 0 <= j < |cs| ==> Keys(cs)[j] == Keys(pairs)[j];
  }

  /** One step of `Conversions`: the `i`-th entry converted, then the rest. */
  lemma ConversionsStep(pairs: seq<(string, Parsed)>, i: nat)
    requires i < |pairs|
    ensures Conversions(GroupParsed(pairs), i)
            == [(pairs[i].0, match pairs[i].1
                   case Done(t) => Str(StripQuotes(t))
                   case GroupParsed(es) => Obj(Materialize(es)))]
               + Conversions(GroupParsed(pairs), i + 1)
  {
    assert GroupParsed(pairs).entries[i] == pairs[i];
  }

  /** `toObject`: a loop over the entries that assigns each key in turn,
      calling itself on parsed groups. */
  method ToObject(pairs: seq<(string, Parsed)>) returns (obj: Record<Value>)
    ensures obj == Materialize(pairs)
    decreases GroupParsed(pairs)
  {
    obj := [];
    var i := 0;
    while i < |pairs|
      invariant 0 <= i <= |pairs|
      invariant AssignAll(obj, Conversions(GroupParsed(pairs), i)) == Materialize(pairs)
    {
      var (key, val) := pairs[i];
      var value: Value;
      match val {
        case Done(t) =>
          value := Str(StripQuotes(t));
        case GroupParsed(entries) =>
          assert val == GroupParsed(pairs).entries[i].1;
          var inner := ToObject(entries);
          value := Obj(inner);
      }
      ConversionsStep(pairs, i);
      AssignAllCons(obj, (key, value), Conversions(GroupParsed(pairs), i + 1));
      obj := Assign(obj, key, value);
      i := i + 1;
    }
  }

  /** The object has each key once; for a repeated key the later entry wins. */
  lemma MaterializeLastWins(pairs: seq<(string, Parsed)>, k: string)
    ensures UniqueKeys(Materialize(pairs))
    ensures Lookup(Materialize(pairs), k) == LastWrite(Conversions(GroupParsed(pairs), 0), k)
    ensures Lookup(Materialize(pairs), k).None? <==> forall i :: 0 <= i < |pairs| ==> pairs[i].0 != k
  {
    var cs := Conversions(GroupParsed(pairs), 0);
    AssignAllLastWriteWins([], cs, k);
    assert GroupParsed(pairs).entries == pairs;
    assert forall i :: 0 <= i < |pairs| ==> Keys(cs)[i] == pairs[i].0;
  }

  /** What `parse` returns: the validator's data, the validator's message, or
      `"Error"` when the parsing threw. */
  datatype Outcome<T> = Ok(result: T) | Err(error: string)

  function ParseSpec<T>(str: string, validate: Record<Value> -> Result<T, string>): Outcome<T>
  {
    match ParseLevel(str)
    case Failure(_) => Err("Error")
    case Success(pairs) =>
      match validate(Materialize(pairs))
      case Failure(message) => Err(message)
      case Success(data) => Ok(data)
  }

  /** `parse`: parse the tag, build the object, validate it. The schema
      check is a parameter. */
  method Parse<T>(str: string, validate: Record<Value> -> Result<T, string>) returns (r: Outcome<T>)
    ensures r == ParseSpec(str, validate)
  {
    var parsed := ParseLevel(str);
    if parsed.Failure? {
      return Err("Error");
    }
    var obj := ToObject(parsed.value);
    var validated := validate(obj);
    if validated.Failure? {
      return Err(validated.error);
    }
    return Ok(validated.value);
  }

  /** The `"Error"` branch of `parse` is never taken: every outcome is the
      validator's verdict on the object built from the text. */
  lemma ParseOutcomeIsValidators<T>(str: string, validate: Record<Value> -> Result<T, string>)
    ensures ParseLevel(str).Success?
    ensures var v := validate(Materialize(ParseLevel(str).value));
            && (ParseSpec(str, validate).Ok? <==> v.Success?)
            && (v.Success? ==> ParseSpec(str, validate).result == v.value)
            && (v.Failure? ==> ParseSpec(str, validate).error == v.error)
  {
    ParseLevelNeverFails(str);
  }
}
