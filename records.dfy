/** A JavaScript plain object used as a dictionary, seen as the ordered list
    of its entries (what `Object.entries` returns). Assigning to an existing
    key replaces its value in place; assigning a new key appends it. */
module Records {
  import opened Wrappers

  type Record<V> = seq<(string, V)>

  function Keys<V>(r: Record<V>): (ks: seq<string>)
    ensures |ks| == |r| && forall i :: 0 <= i < |r| ==> ks[i] == r[i].0
  {
    if r == [] then [] else [r[0].0] + Keys(r[1..])
  }

  predicate UniqueKeys<V>(r: Record<V>) {
    forall i, j :: 0 <= i < j < |r| ==> r[i].0 != r[j].0
  }

  /** `obj[k]`: the value stored under `k`, if any. */
  function Lookup<V>(r: Record<V>, k: string): (v: Option<V>)
    ensures v.None? <==> k !in Keys(r)
    ensures v.Some? ==> exists i :: 0 <= i < |r| && r[i] == (k, v.value)
  {
    if r == [] then None
    else if r[0].0 == k then Some(r[0].1)
    else Lookup(r[1..], k)
  }

  /** `obj[k] = v`. */
  function Assign<V>(r: Record<V>, k: string, v: V): Record<V>
  {
    if r == [] then [(k, v)]
    else if r[0].0 == k then [(k, v)] + r[1..]
    else [r[0]] + Assign(r[1..], k, v)
  }

  /** After `obj[k] = v` the object answers `v` for `k` and what it answered
      before for every other key. */
  lemma {:induction false} AssignLookup<V>(r: Record<V>, k: string, v: V, k': string)
    ensures Lookup(Assign(r, k, v), k') == if k' == k then Some(v) else Lookup(r, k')
  {
    if r != [] && r[0].0 != k {
      AssignLookup(r[1..], k, v, k');
    }
  }

  /** A new key goes last and an existing key keeps its place. */
  lemma {:induction false} AssignKeys<V>(r: Record<V>, k: string, v: V)
    ensures Keys(Assign(r, k, v)) == if k in Keys(r) then Keys(r) else Keys(r) + [k]
  {
    if r != [] && r[0].0 != k {
      AssignKeys(r[1..], k, v);
      assert Keys(Assign(r, k, v)) == [r[0].0] + Keys(Assign(r[1..], k, v));
      assert Keys(r) == [r[0].0] + Keys(r[1..]);
    } else if r != [] {
      assert Keys(Assign(r, k, v)) == [k] + Keys(r[1..]);
      assert Keys(r) == [k] + Keys(r[1..]);
    }
  }

  /** Assignment keeps the keys unique. */
  lemma AssignUnique<V>(r: Record<V>, k: string, v: V)
    requires UniqueKeys(r)
    ensures UniqueKeys(Assign(r, k, v))
  {
    AssignKeys(r, k, v);
    var ks := Keys(Assign(r, k, v));
    assert forall i, j :: 0 <= i < j < |ks| ==> ks[i] != ks[j];
  }

  /** A sequence of assignments `obj[k1] = v1; obj[k2] = v2; ...` in order. */
  function AssignAll<V>(r: Record<V>, writes: seq<(string, V)>): Record<V>
    decreases |writes|
  {
    if writes == [] then r else AssignAll(Assign(r, writes[0].0, writes[0].1), writes[1..])
  }

  /** The value of the last write to `k`, if any. */
  function LastWrite<V>(writes: seq<(string, V)>, k: string): (v: Option<V>)
    ensures v.None? <==> k !in Keys(writes)
  {
    if writes == [] then None
    else if writes[|writes| - 1].0 == k then Some(writes[|writes| - 1].1)
    else
      assert Keys(writes) == Keys(writes[..|writes| - 1]) + [writes[|writes| - 1].0] by {
        KeysAppend(writes[..|writes| - 1], [writes[|writes| - 1]]);
        assert writes == writes[..|writes| - 1] + [writes[|writes| - 1]];
      }
      LastWrite(writes[..|writes| - 1], k)
  }

  lemma {:induction false} KeysAppend<V>(a: Record<V>, b: Record<V>)
    ensures Keys(a + b) == Keys(a) + Keys(b)
  {
  }

  /** Last write wins: after a run of assignments, a key holds the value of
      its last write, or what it held before if it was never written; keys
      stay unique. */
  lemma {:induction false} AssignAllLastWriteWins<V>(r: Record<V>, writes: seq<(string, V)>, k: string)
    requires UniqueKeys(r)
    ensures UniqueKeys(AssignAll(r, writes))
    ensures Lookup(AssignAll(r, writes), k) ==
              if k in Keys(writes) then LastWrite(writes, k) else Lookup(r, k)
    decreases |writes|
  {
    if writes != [] {
      var last := writes[|writes| - 1];
      var init := writes[..|writes| - 1];
      assert writes == init + [last];
      AssignAllSnoc(r, init, last);
      AssignAllLastWriteWins(r, init, k);
      AssignAllLastWriteWins(r, init, last.0);
      AssignLookup(AssignAll(r, init), last.0, last.1, k);
      AssignUnique(AssignAll(r, init), last.0, last.1);
      KeysAppend(init, [last]);
    }
  }

  lemma {:induction false} AssignAllSnoc<V>(r: Record<V>, init: seq<(string, V)>, last: (string, V))
    ensures AssignAll(r, init + [last]) == Assign(AssignAll(r, init), last.0, last.1)
    decreases |init|
  {
    if init != [] {
      assert (init + [last])[1..] == init[1..] + [last];
      AssignAllSnoc(Assign(r, init[0].0, init[0].1), init[1..], last);
    }
  }

  /** A key is present after a run of assignments exactly when it was
      present before or was written. */
  lemma {:induction false} AssignAllKeys<V>(r: Record<V>, writes: seq<(string, V)>, k: string)
    requires UniqueKeys(r)
    ensures k in Keys(AssignAll(r, writes)) <==> k in Keys(r) || k in Keys(writes)
  {
    AssignAllLastWriteWins(r, writes, k);
  }

  /** Every entry after an assignment was there before or is the new one. */
  lemma {:induction false} AssignEntries<V>(r: Record<V>, k: string, v: V)
    ensures forall x :: x in Assign(r, k, v) ==> x in r || x == (k, v)
  {
    if r != [] && r[0].0 != k {
      AssignEntries(r[1..], k, v);
    }
  }

  /** Every entry after a run of assignments was there before or was written. */
  lemma {:induction false} AssignAllEntries<V>(r: Record<V>, writes: seq<(string, V)>)
    ensures forall x :: x in AssignAll(r, writes) ==> x in r || x in writes
    decreases |writes|
  {
    if writes != [] {
      AssignEntries(r, writes[0].0, writes[0].1);
      AssignAllEntries(Assign(r, writes[0].0, writes[0].1), writes[1..]);
    }
  }

  /** Every key after a run of assignments was there before or was written. */
  lemma AssignAllKeysFrom<V>(r: Record<V>, writes: seq<(string, V)>)
    ensures forall i :: 0 <= i < |AssignAll(r, writes)| ==> AssignAll(r, writes)[i].0 in Keys(r) + Keys(writes)
  {
    var out := AssignAll(r, writes);
    AssignAllEntries(r, writes);
    forall i | 0 <= i < |out|
      ensures out[i].0 in Keys(r) + Keys(writes)
    {
      assert out[i] in out;
      if out[i] in r {
        var j :| 0 <= j < |r| && r[j] == out[i];
        assert Keys(r)[j] == out[i].0;
      } else {
        var j :| 0 <= j < |writes| && writes[j] == out[i];
        assert Keys(writes)[j] == out[i].0;
      }
    }
  }

  /** In a record with unique keys, looking up the key of an entry finds
      that entry. */
  lemma {:induction false} UniqueLookup<V>(r: Record<V>, i: nat)
    requires i < |r| && UniqueKeys(r)
    ensures Lookup(r, r[i].0) == Some(r[i].1)
  {
    if i > 0 {
      assert r[0].0 != r[i].0;
      UniqueLookup(r[1..], i - 1);
    }
  }

  /** Assigning a key that is not there appends the entry. */
  lemma {:induction false} AssignAppends<V>(r: Record<V>, k: string, v: V)
    requires k !in Keys(r)
    ensures Assign(r, k, v) == r + [(k, v)]
  {
    if r != [] {
      AssignAppends(r[1..], k, v);
      assert r == [r[0]] + r[1..];
    }
  }

  /** Writing distinct keys into an empty object lists them in write order. */
  lemma AssignAllDistinct<V>(ws: seq<(string, V)>)
    requires UniqueKeys(ws)
    ensures AssignAll([], ws) == ws
  {
    var k := 0;
    while k < |ws|
      invariant 0 <= k <= |ws|
      invariant AssignAll([], ws) == AssignAll(ws[..k], ws[k..])
      decreases |ws| - k
    {
      assert ws[k].0 !in Keys(ws[..k]);
      AssignAppends(ws[..k], ws[k].0, ws[k].1);
      assert ws[..k + 1] == ws[..k] + [ws[k]];
      assert ws[k..][1..] == ws[k + 1..];
      k := k + 1;
    }
    assert ws[..|ws|] == ws;
  }

  lemma AssignAllCons<V>(r: Record<V>, w: (string, V), rest: seq<(string, V)>)
    ensures AssignAll(r, [w] + rest) == AssignAll(Assign(r, w.0, w.1), rest)
  {
    assert ([w] + rest)[1..] == rest;
  }
}
