/** The global search `/(k1|k2|…):\s*([^\s]+)/g` run with `exec` until it
    fails, each hit stored as `record[key] = value`. Both snippet parsers
    use it, with different key lists. */
module KeyScan {
  import opened Wrappers
  import opened Text
  import opened Records

  /** One hit anchored at a position: the key, the captured value and the
      length of the whole match. */
  datatype Hit = Hit(key: string, value: string, len: nat)

  /** `:\s*([^\s]+)` at the start of `u`: the value and the match length.
      The greedy `\s*` never has to give back: a shorter run would leave a
      white-space character where `[^\s]` is needed. */
  function ColonValue(u: string): Option<(string, nat)>
  {
    if u == [] || u[0] != ':' then None
    else
      var w := SpaceRun(u[1..]);
      var n := NonSpaceRun(u[1 + w..]);
      if n == 0 then None else Some((u[1 + w..1 + w + n], 1 + w + n))
  }

  /** The capture is non-empty and free of white space, and the match holds
      the colon and the capture. */
  lemma ColonValueShape(u: string)
    requires ColonValue(u).Some?
    ensures var (v, n) := ColonValue(u).value;
            2 <= n <= |u| && v != [] && NoSpace(v) && u[0] == ':' && u[n - |v|..n] == v
  {
    var w := SpaceRun(u[1..]);
    var n := NonSpaceRun(u[1 + w..]);
    assert u[1 + w..][..n] == u[1 + w..1 + w + n];
  }

  /** The pattern anchored at the start of `u`: the alternatives are tried in
      the order of `keys`, and the first one that lets the rest match wins. */
  function HitAt(u: string, keys: seq<string>): Option<Hit>
  {
    if keys == [] then None
    else if StartsWith(u, keys[0]) && ColonValue(u[|keys[0]|..]).Some? then
      var (v, n) := ColonValue(u[|keys[0]|..]).value;
      Some(Hit(keys[0], v, |keys[0]| + n))
    else HitAt(u, keys[1..])
  }

  /** The hits of the global search over `u`, in order: the leftmost hit,
      then the search resumes where it ended. `exec` with `lastIndex = i`
      searches `s[i..]`. */
  function Scan(u: string, keys: seq<string>): seq<(string, string)>
    decreases |u|
  {
    if u == [] then []
    else
      HitLength(u, keys);
      match HitAt(u, keys)
      case Some(h) => [(h.key, h.value)] + Scan(u[h.len..], keys)
      case None => Scan(u[1..], keys)
  }

  /** The record the loop fills. */
  function Collect(s: string, keys: seq<string>): Record<string>
  {
    AssignAll([], Scan(s, keys))
  }

  /** `for (let m; (m = re.exec(s));) rec[m[1]] = m[2];` */
  method ExecLoop(s: string, keys: seq<string>) returns (rec: Record<string>)
    ensures rec == Collect(s, keys)
  {
    rec := [];
    var lastIndex := 0;
    CollectingStart(s, keys);
    while true
      invariant Collecting(s, keys, lastIndex, rec)
      decreases |s| - lastIndex
    {
      var i := Exec(s, keys, lastIndex);
      if i == |s| {
        CollectingEnd(s, keys, lastIndex, rec);
        return;
      }
      var h := HitAt(s[i..], keys).value;
      CollectingHit(s, keys, lastIndex, i, rec, h);
      rec := Assign(rec, h.key, h.value);
      lastIndex := i + h.len;
    }
  }

  /** The record so far, with the scan from `i` still to be stored, makes
      the whole record. */
  ghost predicate Collecting(s: string, keys: seq<string>, i: nat, rec: Record<string>) {
    i <= |s| && AssignAll(rec, Scan(s[i..], keys)) == Collect(s, keys)
  }

  lemma CollectingStart(s: string, keys: seq<string>)
    ensures Collecting(s, keys, 0, [])
  {
    assert s[0..] == s;
  }

  /** Storing the next hit and resuming after it keeps collecting. */
  lemma CollectingHit(s: string, keys: seq<string>, from: nat, i: nat, rec: Record<string>, h: Hit)
    requires from <= i < |s| && Collecting(s, keys, from, rec)
    requires Scan(s[i..], keys) == Scan(s[from..], keys) && HitAt(s[i..], keys) == Some(h)
    ensures from < i + h.len <= |s| && Collecting(s, keys, i + h.len, Assign(rec, h.key, h.value))
  {
    ScanAtHitIn(s, keys, i, rec, h);
  }

  /** Nothing left to scan: the record is complete. */
  lemma CollectingEnd(s: string, keys: seq<string>, from: nat, rec: Record<string>)
    requires Collecting(s, keys, from, rec) && Scan(s[|s|..], keys) == Scan(s[from..], keys)
    ensures rec == Collect(s, keys)
  {
    assert s[|s|..] == [];
  }

  /** `re.exec(s)` from `lastIndex = from`: the position of the leftmost hit,
      or `|s|` when there is none. */
  method Exec(s: string, keys: seq<string>, from: nat) returns (i: nat)
    requires from <= |s|
    ensures from <= i <= |s| && (i == |s| || HitAt(s[i..], keys).Some?)
    ensures forall j :: from <= j < i ==> HitAt(s[j..], keys).None?
    ensures Scan(s[i..], keys) == Scan(s[from..], keys)
  {
    i := from;
    while i < |s| && HitAt(s[i..], keys).None?
      invariant Skipping(s, keys, from, i)
      decreases |s| - i
    {
      SkippingStep(s, keys, from, i);
      i := i + 1;
    }
  }

  /** No hit starts between `from` and `i`, so the scan from `i` is the
      scan from `from`. */
  ghost predicate Skipping(s: string, keys: seq<string>, from: nat, i: nat) {
    && from <= i <= |s|
    && (forall j :: from <= j < i ==> HitAt(s[j..], keys).None?)
    && Scan(s[i..], keys) == Scan(s[from..], keys)
  }

  lemma SkippingStep(s: string, keys: seq<string>, from: nat, i: nat)
    requires Skipping(s, keys, from, i) && i < |s| && HitAt(s[i..], keys).None?
    ensures Skipping(s, keys, from, i + 1)
  {
    ScanSkip(s, keys, i);
  }

  /** Where no hit starts the scan moves on by one character. */
  lemma ScanSkip(s: string, keys: seq<string>, i: nat)
    requires i < |s| && HitAt(s[i..], keys).None?
    ensures Scan(s[i..], keys) == Scan(s[i + 1..], keys)
  {
    assert s[i..][1..] == s[i + 1..];
  }

  /** Storing the hit at `i` and resuming after it leaves the record the
      rest of the scan fills unchanged. */
  lemma ScanAtHitIn(s: string, keys: seq<string>, i: nat, rec: Record<string>, h: Hit)
    requires i < |s| && HitAt(s[i..], keys) == Some(h)
    ensures 0 < h.len && i + h.len <= |s|
    ensures AssignAll(Assign(rec, h.key, h.value), Scan(s[i + h.len..], keys)) == AssignAll(rec, Scan(s[i..], keys))
  {
    ScanAtHit(s[i..], keys, h);
    AssignAllCons(rec, (h.key, h.value), Scan(s[i..][h.len..], keys));
    assert s[i..][h.len..] == s[i + h.len..];
  }

  /** At a hit the scan records it and resumes after it. */
  lemma ScanAtHit(u: string, keys: seq<string>, h: Hit)
    requires u != [] && HitAt(u, keys) == Some(h)
    ensures h.len <= |u|
    ensures Scan(u, keys) == [(h.key, h.value)] + Scan(u[h.len..], keys)
  {
    HitLength(u, keys);
  }

  /** Every stored value is a hit's non-empty, white-space-free capture
      under one of the keys, the keys are distinct, and a key repeated in
      the text keeps the value of its last occurrence. */
  lemma CollectLastWins(s: string, keys: seq<string>, k: string)
    ensures UniqueKeys(Collect(s, keys))
    ensures Lookup(Collect(s, keys), k) == LastWrite(Scan(s, keys), k)
    ensures forall e :: e in Collect(s, keys) ==> e.0 in keys && e.1 != [] && NoSpace(e.1)
  {
    AssignAllLastWriteWins([], Scan(s, keys), k);
    AssignAllEntries([], Scan(s, keys));
    ScanEntries(s, keys);
  }

  /** Every hit is under a listed key, with a non-empty, white-space-free value. */
  lemma {:induction false} ScanEntries(u: string, keys: seq<string>)
    ensures forall e :: e in Scan(u, keys) ==> e.0 in keys && e.1 != [] && NoSpace(e.1)
    decreases |u|
  {
    if u != [] {
      HitShape(u, keys);
      match HitAt(u, keys)
      case Some(h) =>
        ScanEntries(u[h.len..], keys);
      case None =>
        ScanEntries(u[1..], keys);
    }
  }

  // ---------------------------------------------------------------------
  // Reading the scan of text built from pieces
  // ---------------------------------------------------------------------

  /** Keys as the source's patterns have them: no white space and no colon. */
  predicate PlainKeys(keys: seq<string>) {
    forall i :: 0 <= i < |keys| ==> NoSpace(keys[i]) && ':' !in keys[i]
  }

  /** No hit can start inside a colon-free word that is followed by white
      space or by the end of the text. */
  lemma NoHitInWord(p: string, t: string, keys: seq<string>, j: nat)
    requires PlainKeys(keys) && ':' !in p && j < |p|
    requires t == [] || IsSpace(t[0])
    ensures HitAt((p + t)[j..], keys).None?
  {
    var u := (p + t)[j..];
    if HitAt(u, keys).Some? {
      HitShape(u, keys);
      var key := HitAt(u, keys).value.key;
      // the colon after the key would lie in `p`, be the character right
      // after `p`, or the key would run into the white space after `p`
      if j + |key| > |p| {
        KeyIsPlain(keys, key);
        KeyCharIsNoSpace(u, key, |p| - j);
      }
    }
  }

  lemma KeyIsPlain(keys: seq<string>, key: string)
    requires PlainKeys(keys) && key in keys
    ensures NoSpace(key) && ':' !in key
  {
    var i :| 0 <= i < |keys| && keys[i] == key;
  }

  /** Inside the key, the text has the key's own characters. */
  lemma KeyCharIsNoSpace(u: string, key: string, i: nat)
    requires StartsWith(u, key) && NoSpace(key) && i < |key|
    ensures !IsSpace(u[i])
  {
    assert u[..|key|][i] == u[i];
  }

  /** A hit is at least a colon and one character long, and fits. */
  lemma HitLength(u: string, keys: seq<string>)
    ensures HitAt(u, keys).Some? ==> 2 <= HitAt(u, keys).value.len <= |u|
  {
    HitShape(u, keys);
  }

  /** What a hit looks like: a listed key, a colon, and a non-empty,
      white-space-free capture inside the match. */
  lemma {:induction false} HitShape(u: string, keys: seq<string>)
    ensures HitAt(u, keys).Some? ==>
              var h := HitAt(u, keys).value;
              && h.key in keys && StartsWith(u, h.key) && |h.key| < |u| && u[|h.key|] == ':'
              && 2 <= h.len <= |u| && h.value != [] && NoSpace(h.value)
  {
    if keys != [] {
      if StartsWith(u, keys[0]) && ColonValue(u[|keys[0]|..]).Some? {
        ColonValueShape(u[|keys[0]|..]);
      } else {
        HitShape(u, keys[1..]);
      }
    }
  }

  /** A hit starts with a key character or the colon, never with white space. */
  lemma HitStartsOutsideSpace(u: string, keys: seq<string>)
    requires PlainKeys(keys) && u != [] && HitAt(u, keys).Some?
    ensures !IsSpace(u[0])
  {
    HitShape(u, keys);
    var key := HitAt(u, keys).value.key;
    if key == [] {
      assert u[0] == ':';
    } else {
      assert u[0] == key[0];
    }
  }

  /** A colon-free word followed by white space or the end: the scan starts
      after it. */
  lemma SkipWord(p: string, t: string, keys: seq<string>)
    requires PlainKeys(keys) && ':' !in p
    requires t == [] || IsSpace(t[0])
    ensures Scan(p + t, keys) == Scan(t, keys)
  {
    SkipWordFrom(p, t, keys, 0);
    assert (p + t)[0..] == p + t && (p + t)[|p|..] == t;
  }

  lemma {:induction false} SkipWordFrom(p: string, t: string, keys: seq<string>, j: nat)
    requires PlainKeys(keys) && ':' !in p && j <= |p|
    requires t == [] || IsSpace(t[0])
    ensures Scan((p + t)[j..], keys) == Scan((p + t)[|p|..], keys)
    decreases |p| - j
  {
    if j < |p| {
      NoHitInWord(p, t, keys, j);
      assert (p + t)[j..][1..] == (p + t)[j + 1..];
      SkipWordFrom(p, t, keys, j + 1);
    }
  }

  /** A listed key can only hit as itself: with colon-free keys, at most one
      key followed by a colon starts at a position. */
  lemma {:induction false} HitIsTheKey(k: string, rest: string, keys: seq<string>)
    requires PlainKeys(keys) && k in keys
    requires ColonValue(rest).Some?
    ensures HitAt(k + rest, keys).Some? && HitAt(k + rest, keys).value.key == k
    ensures HitAt(k + rest, keys).value.len == |k| + ColonValue(rest).value.1
    ensures HitAt(k + rest, keys).value.value == ColonValue(rest).value.0
  {
    var u := k + rest;
    assert u[|k|..] == rest;
    if keys[0] == k {
      assert StartsWith(u, k);
    } else {
      HitIsTheKey(k, rest, keys[1..]);
    }
  }

  /** `:`, some white space, a white-space-free value and then white space or
      the end: the value is captured whole. */
  lemma ColonValueOf(sep: string, v: string, t: string)
    requires AllSpace(sep) && v != [] && NoSpace(v)
    requires t == [] || IsSpace(t[0])
    ensures ColonValue(":" + sep + v + t) == Some((v, 1 + |sep| + |v|))
  {
    var u := ":" + sep + v + t;
    var w := |sep|;
    assert u[1..] == sep + (v + t);
    assert SpaceRun(u[1..]) == w by {
      SpaceRunOf(sep, v + t);
    }
    assert u[1 + w..] == v + t;
    assert NonSpaceRun(u[1 + w..]) == |v| by {
      NonSpaceRunOf(v, t);
    }
    assert u[1 + w..1 + w + |v|] == v;
  }

  lemma {:induction false} SpaceRunOf(sep: string, t: string)
    requires AllSpace(sep) && (t == [] || !IsSpace(t[0]))
    ensures SpaceRun(sep + t) == |sep|
  {
    if sep != [] {
      assert (sep + t)[1..] == sep[1..] + t;
      SpaceRunOf(sep[1..], t);
    }
  }

  lemma {:induction false} NonSpaceRunOf(v: string, t: string)
    requires NoSpace(v) && (t == [] || IsSpace(t[0]))
    ensures NonSpaceRun(v + t) == |v|
  {
    if v != [] {
      assert (v + t)[1..] == v[1..] + t;
      NonSpaceRunOf(v[1..], t);
    }
  }

  /** No hit starts at white space. */
  lemma ScanSkipsSpace(u: string, keys: seq<string>)
    requires PlainKeys(keys) && u != [] && IsSpace(u[0])
    ensures Scan(u, keys) == Scan(u[1..], keys)
  {
    if HitAt(u, keys).Some? {
      HitStartsOutsideSpace(u, keys);
    }
  }

  /** One ` key:sep value` piece: it yields exactly its pair, and the scan
      goes on after it. */
  lemma ScanPiece(k: string, sep: string, v: string, t: string, keys: seq<string>)
    requires PlainKeys(keys) && k in keys
    requires AllSpace(sep) && v != [] && NoSpace(v)
    requires t == [] || IsSpace(t[0])
    ensures Scan(" " + k + ":" + sep + v + t, keys) == [(k, v)] + Scan(t, keys)
  {
    var body := ":" + sep + v + t;
    var w := k + body;
    var u := " " + k + ":" + sep + v + t;
    assert u == " " + w && u[1..] == w;
    ScanSkipsSpace(u, keys);
    ColonValueOf(sep, v, t);
    HitIsTheKey(k, body, keys);
    var h := HitAt(w, keys).value;
    ScanAtHit(w, keys, h);
    assert w[h.len..] == t;
  }

  /** Text made of ` key:sep value` pieces, one per pair. */
  function Pieces(ps: seq<(string, string)>, sep: string): (r: string)
    ensures r == [] || r[0] == ' '
  {
    if ps == [] then [] else " " + ps[0].0 + ":" + sep + ps[0].1 + Pieces(ps[1..], sep)
  }

  lemma PiecesOne(k: string, v: string, sep: string)
    ensures Pieces([(k, v)], sep) == " " + k + ":" + sep + v
  {
    assert Pieces([(k, v)][1..], sep) == [];
  }

  lemma {:induction false} PiecesAppend(a: seq<(string, string)>, b: seq<(string, string)>, sep: string)
    ensures Pieces(a + b, sep) == Pieces(a, sep) + Pieces(b, sep)
  {
    if a != [] {
      assert (a + b)[1..] == a[1..] + b;
      PiecesAppend(a[1..], b, sep);
    } else {
      assert a + b == b;
    }
  }

  /** Pairs whose keys are listed and whose values the pattern captures whole. */
  predicate Readable(ps: seq<(string, string)>, keys: seq<string>) {
    forall i :: 0 <= i < |ps| ==> ps[i].0 in keys && ps[i].1 != [] && NoSpace(ps[i].1)
  }

  /** The scan of such text reads back exactly the pairs it was made of. */
  lemma {:induction false} ScanPieces(ps: seq<(string, string)>, sep: string, keys: seq<string>)
    requires PlainKeys(keys) && AllSpace(sep) && Readable(ps, keys)
    ensures Scan(Pieces(ps, sep), keys) == ps
  {
    if ps != [] {
      var t := Pieces(ps[1..], sep);
      ScanPieces(ps[1..], sep, keys);
      ScanPiece(ps[0].0, sep, ps[0].1, t, keys);
      assert Pieces(ps, sep) == " " + ps[0].0 + ":" + sep + ps[0].1 + t;
      assert ps == [ps[0]] + ps[1..];
    }
  }

  /** A leading colon-free word before the pieces is skipped. */
  lemma ScanWordThenPieces(word: string, ps: seq<(string, string)>, sep: string, keys: seq<string>)
    requires PlainKeys(keys) && AllSpace(sep) && Readable(ps, keys) && ':' !in word
    ensures Scan(word + Pieces(ps, sep), keys) == ps
  {
    SkipWord(word, Pieces(ps, sep), keys);
    ScanPieces(ps, sep, keys);
  }

  /** The `key:sep value` strings of the pairs. */
  function Labelled(ps: seq<(string, string)>, sep: string): (r: seq<string>)
    ensures |r| == |ps| && forall i :: 0 <= i < |ps| ==> r[i] == ps[i].0 + ":" + sep + ps[i].1
  {
    if ps == [] then [] else [ps[0].0 + ":" + sep + ps[0].1] + Labelled(ps[1..], sep)
  }

  lemma LabelledAppend(a: seq<(string, string)>, b: seq<(string, string)>, sep: string)
    ensures Labelled(a + b, sep) == Labelled(a, sep) + Labelled(b, sep)
  {
  }

  /** A word and the labelled pairs joined by single spaces is the word
      followed by the pieces. */
  lemma {:induction false} JoinLabelled(word: string, ps: seq<(string, string)>, sep: string)
    ensures Join([word] + Labelled(ps, sep), " ") == word + Pieces(ps, sep)
    decreases |ps|
  {
    if ps != [] {
      var l0 := ps[0].0 + ":" + sep + ps[0].1;
      JoinLabelled(l0, ps[1..], sep);
      assert [word] + Labelled(ps, sep) == [word] + ([l0] + Labelled(ps[1..], sep));
      assert ([word] + Labelled(ps, sep))[1..] == [l0] + Labelled(ps[1..], sep);
    } else {
      assert [word] + Labelled(ps, sep) == [word];
    }
  }
}
