/** The earlier tag registry: code blocks read by `TagParser.start` with the
    stopwatch parameters, defaults filled in by the tag's constructor, and
    each tag stored under an id no other tag holds. */
module LegacyTags {
  import opened Wrappers
  import opened Records
  import opened Ids
  import opened TagParser

  const BlockName: string := "stopwatch"

  /** `paramsStructure`. */
  const ParamsStructure: seq<(string, Param)> := [
    ("id", Param("id", StringType)),
    ("passed", Param("passed", IntegerType)),
    ("limit", Param("limit", IntegerType)),
    ("name", Param("name", StringType)),
    ("running", Param("running", YesNoType))
  ]

  /** `StopwatchParsed`: each field may be null (`None`). */
  datatype Parsed = Parsed(id: Option<string>, passed: Option<int>, limit: Option<int>, name: Option<string>,
                           running: Option<bool>)

  /** `StopwatchData`: every field present. */
  datatype TagData = TagData(id: string, passed: int, limit: int, name: string, running: bool)

  /** The manager's `defaultTag`. */
  const DefaultTag: TagData := TagData("1", 0, 60, "", false)

  function StringField(v: Option<FieldValue>): Option<string> {
    if v.Some? && v.value.FStr? then Some(v.value.s) else None
  }

  function IntField(v: Option<FieldValue>): Option<int> {
    if v.Some? && v.value.FInt? then Some(v.value.n) else None
  }

  function BoolField(v: Option<FieldValue>): Option<bool> {
    if v.Some? && v.value.FBool? then Some(v.value.b) else None
  }

  /** The object `start` returns, read field by field. */
  function FromRecord(rec: Record<FieldValue>): Parsed {
    Parsed(StringField(Lookup(rec, "id")), IntField(Lookup(rec, "passed")), IntField(Lookup(rec, "limit")),
           StringField(Lookup(rec, "name")), BoolField(Lookup(rec, "running")))
  }

  /** The constructor's `??` defaulting. */
  function Defaulted(p: Parsed, d: TagData): (t: TagData)
    ensures p == Parsed(None, None, None, None, None) ==> t == d
    ensures p.id.Some? && p.passed.Some? && p.limit.Some? && p.name.Some? && p.running.Some? ==>
              t == TagData(p.id.value, p.passed.value, p.limit.value, p.name.value, p.running.value)
  {
    TagData(p.id.GetOr(d.id), p.passed.GetOr(d.passed), p.limit.GetOr(d.limit), p.name.GetOr(d.name),
            p.running.GetOr(d.running))
  }

  /** A parsed tag; its fields are set once, by the constructor. The element
      it was read from is left out. */
  class Tag {
    const id: string
    const passed: int
    const limit: int
    const name: string
    const running: bool

    function Data(): TagData {
      TagData(id, passed, limit, name, running)
    }

    /** Each field is the parsed value unless that is null, else the
        default. */
    constructor(parsed: Parsed, defaults: TagData)
      ensures Data() == Defaulted(parsed, defaults)
      ensures parsed.id.Some? ==> id == parsed.id.value
      ensures parsed.id.None? ==> id == defaults.id
    {
      id := parsed.id.GetOr(defaults.id);
      passed := parsed.passed.GetOr(defaults.passed);
      limit := parsed.limit.GetOr(defaults.limit);
      name := parsed.name.GetOr(defaults.name);
      running := parsed.running.GetOr(defaults.running);
    }
  }

  /** The properties every object inherits from `Object.prototype`. Looking
      one of them up in the `{}` registry finds a function or an object, so
      `this.tags[id]` is truthy for them although no tag is stored there. */
  const InheritedNames: set<string> := {
    "constructor", "__defineGetter__", "__defineSetter__", "hasOwnProperty", "__lookupGetter__",
    "__lookupSetter__", "isPrototypeOf", "propertyIsEnumerable", "toString", "valueOf", "__proto__",
    "toLocaleString"
  }

  /** `this.tags[id]` is truthy: a tag is stored under `id`, or `id` is an
      inherited name. */
  predicate Occupied(ids: seq<string>, id: string) {
    id in ids || id in InheritedNames
  }

  /** The ids `newId` hands out are numbers, never an inherited name. */
  lemma NewIdNotInherited(ids: seq<string>)
    ensures NewId(ids) !in InheritedNames
  {
    var r := NewId(ids);
    assert Numeral(r);
  }

  /** The id `parse` files a parsed tag under: a missing or empty id is
      replaced by a new one, and so is an id the registry already holds or
      inherits. */
  function FinalId(p: Parsed, ids: seq<string>): (id: string)
    ensures !Occupied(ids, id)
    ensures p.id.Some? && p.id.value != "" && !Occupied(ids, p.id.value) ==> id == p.id.value
    ensures p.id.None? || p.id.value == "" || Occupied(ids, p.id.value) ==> id == NewId(ids)
  {
    NewIdFresh(ids);
    NewIdNotInherited(ids);
    var first := if p.id.None? || p.id.value == "" then NewId(ids) else p.id.value;
    if Occupied(ids, first) then NewId(ids) else first
  }

  /** The same with `newId` as written. */
  function FinalIdAsWritten(p: Parsed, ids: seq<string>): string {
    var first := if p.id.None? || p.id.value == "" then NewIdAsWritten(ids) else p.id.value;
    if Occupied(ids, first) then NewIdAsWritten(ids) else first
  }

  /** With the keys "abc" and "NaN" registered, a block without an id is
      filed under "NaN" as written, replacing the tag stored there; the
      corrected allocation files it under a key of its own. */
  lemma FinalIdAsWrittenOverwrites<V>(r: Record<V>, v: V)
    requires Keys(r) == ["abc", "NaN"]
    ensures FinalIdAsWritten(Parsed(None, None, None, None, None), Keys(r)) == "NaN"
    ensures Keys(Assign(r, FinalIdAsWritten(Parsed(None, None, None, None, None), Keys(r)), v)) == Keys(r)
    ensures |Assign(r, FinalId(Parsed(None, None, None, None, None), Keys(r)), v)| == |r| + 1
  {
    NewIdAsWrittenCollides();
    AssignKeys(r, "NaN", v);
    var f := FinalId(Parsed(None, None, None, None, None), Keys(r));
    AssignKeys(r, f, v);
    assert |Keys(Assign(r, f, v))| == |Keys(r)| + 1;
  }

  /** What `start` makes of each block. */
  function Blocks(ts: seq<string>): (bs: seq<Option<Record<FieldValue>>>)
    ensures |bs| == |ts| && forall i :: 0 <= i < |ts| ==> bs[i] == StartSpec(BlockName, ParamsStructure, ts[i])
  {
    if ts == [] then [] else [StartSpec(BlockName, ParamsStructure, ts[0])] + Blocks(ts[1..])
  }

  /** The blocks `start` recognises, in order, read as `StopwatchParsed`. */
  function Recognised(bs: seq<Option<Record<FieldValue>>>): (ps: seq<Parsed>)
    ensures |ps| <= |bs|
  {
    if bs == [] then []
    else (if bs[0].Some? then [FromRecord(bs[0].value)] else []) + Recognised(bs[1..])
  }

  /** The ids a run of `parse` files its tags under, each allocated against
      the keys so far. */
  function Allocate(ids: seq<string>, ps: seq<Parsed>): (r: seq<string>)
    ensures |r| == |ps|
    decreases |ps|
  {
    if ps == [] then []
    else
      var f := FinalId(ps[0], ids);
      [f] + Allocate(ids + [f], ps[1..])
  }

  predicate Distinct(ids: seq<string>) {
    forall i, j :: 0 <= i < j < |ids| ==> ids[i] != ids[j]
  }

  /** No two tags ever share an id: the keys stay distinct and every
      allocated id is new. */
  lemma {:induction false} AllocateDistinct(ids: seq<string>, ps: seq<Parsed>)
    requires Distinct(ids)
    ensures Distinct(ids + Allocate(ids, ps))
    decreases |ps|
  {
    if ps != [] {
      var f := FinalId(ps[0], ids);
      assert Distinct(ids + [f]);
      AllocateDistinct(ids + [f], ps[1..]);
      assert ids + Allocate(ids, ps) == (ids + [f]) + Allocate(ids + [f], ps[1..]);
    }
  }

  /** On an empty registry a block without an id gets "1", and so does one
      whose id is an inherited name such as "constructor"; any other given
      id is kept. */
  lemma FirstAllocation(p: Parsed)
    ensures Allocate([], [p]) ==
            [if p.id.Some? && p.id.value != "" && p.id.value !in InheritedNames then p.id.value else "1"]
  {
    assert Readable([]) == [];
  }

  /** The registry: tags by id. */
  class TagManager {
    var tags: Record<Tag>

    constructor()
      ensures tags == []
    {
      tags := [];
    }

    /** `parse`, over the text of each code block in document order: every
        block `start` recognises becomes a tag, filed under its allocated id
        after the tags already there, and returned in order. */
    method Parse(texts: seq<string>) returns (found: seq<Tag>)
      modifies this
      ensures var ps := Recognised(Blocks(texts));
              var ids := Allocate(Keys(old(tags)), ps);
              && Keys(tags) == Keys(old(tags)) + ids
              && old(tags) <= tags
              && |found| == |ps|
              && FiledAfter(tags, |old(tags)|, found) && Built(found, ps, ids)
              && forall t :: t in found ==> fresh(t)
    {
      ghost var before := tags;
      ghost var bs := Blocks(texts);
      ghost var ps := Recognised(bs);
      ghost var alloc := Allocate(Keys(before), ps);
      found := [];
      var i := 0;
      while i < |texts|
        invariant 0 <= i <= |texts|
        invariant Progress(tags, before, found, bs, i, ps, alloc)
        invariant forall t :: t in found ==> fresh(t)
      {
        found := Visit(texts[i], before, found, bs, i, ps, alloc);
        i := i + 1;
      }
      ProgressDone(tags, before, found, bs, ps, alloc);
    }

    /** One code block of `parse`: the text goes through `start`; a
        recognised block is filed, any other is passed over. */
    method Visit(text: string, ghost before: Record<Tag>, found: seq<Tag>, ghost bs: seq<Option<Record<FieldValue>>>,
                 ghost i: nat, ghost ps: seq<Parsed>, ghost alloc: seq<string>) returns (found': seq<Tag>)
      requires i < |bs| && bs[i] == StartSpec(BlockName, ParamsStructure, text)
      requires Progress(tags, before, found, bs, i, ps, alloc)
      modifies this
      ensures Progress(tags, before, found', bs, i + 1, ps, alloc)
      ensures forall t :: t in found' ==> t in found || fresh(t)
    {
      var parsed := Start(BlockName, ParamsStructure, text);
      if parsed.Some? {
        ghost var tags0 := tags;
        var tag := File(FromRecord(parsed.value));
        ProgressFile(tags0, before, found, bs, i, ps, alloc, tag);
        found' := found + [tag];
      } else {
        ProgressSkip(tags, before, found, bs, i, ps, alloc);
        found' := found;
      }
    }

    /** The body of `parse` for one recognised block: the id is settled and
        the new tag is filed under it, after the tags already there. */
    method File(parsed: Parsed) returns (tag: Tag)
      modifies this
      ensures var f := FinalId(parsed, Keys(old(tags)));
              && tags == old(tags) + [(f, tag)] && Keys(tags) == Keys(old(tags)) + [f]
              && fresh(tag) && tag.Data() == Defaulted(parsed.(id := Some(f)), DefaultTag)
    {
      var ids := Keys(tags);
      ghost var f := FinalId(parsed, ids);
      var p := parsed;
      if p.id.None? || p.id.value == "" {
        p := p.(id := Some(NewId(ids)));
      }
      if p.id.value in ids || p.id.value in InheritedNames {
        p := p.(id := Some(NewId(ids)));
      }
      assert p.id.value == f;
      tag := new Tag(p, DefaultTag);
      AssignAppends(tags, f, tag);
      KeysAppend(tags, [(f, tag)]);
      tags := Assign(tags, p.id.value, tag);
    }
  }

  /** The entries from `n0` on hold the tags of `found`, in order. */
  predicate FiledAfter(tags: Record<Tag>, n0: nat, found: seq<Tag>) {
    |tags| == n0 + |found| && forall j :: 0 <= j < |found| ==> tags[n0 + j].1 == found[j]
  }

  lemma FiledAppend(tags: Record<Tag>, n0: nat, found: seq<Tag>, f: string, tag: Tag)
    requires FiledAfter(tags, n0, found)
    ensures FiledAfter(tags + [(f, tag)], n0, found + [tag])
  {
    forall j | 0 <= j < |found| + 1
      ensures (tags + [(f, tag)])[n0 + j].1 == (found + [tag])[j]
    {
      if j < |found| {
        assert (tags + [(f, tag)])[n0 + j] == tags[n0 + j];
      }
    }
  }

  /** Each tag of `found` holds its parse, under its allocated id, with the
      defaults filled in. */
  predicate Built(found: seq<Tag>, ps: seq<Parsed>, alloc: seq<string>) {
    && |found| <= |ps| && |found| <= |alloc|
    && forall j :: 0 <= j < |found| ==> found[j].Data() == Defaulted(ps[j].(id := Some(alloc[j])), DefaultTag)
  }

  lemma BuiltAppend(found: seq<Tag>, ps: seq<Parsed>, alloc: seq<string>, tag: Tag)
    requires Built(found, ps, alloc) && |found| < |ps| && |found| < |alloc|
    requires tag.Data() == Defaulted(ps[|found|].(id := Some(alloc[|found|])), DefaultTag)
    ensures Built(found + [tag], ps, alloc)
  {
  }

  /** Where `parse` stands after the first `i` blocks: the tags already
      there are kept, the tags found so far follow them in order, and the
      remaining blocks will be filed under the remaining allocated ids. */
  predicate Progress(tags: Record<Tag>, before: Record<Tag>, found: seq<Tag>, bs: seq<Option<Record<FieldValue>>>, i: nat,
                     ps: seq<Parsed>, alloc: seq<string>) {
    && i <= |bs| && |alloc| == |ps|
    && |tags| == |before| + |found| && before <= tags
    && |found| <= |ps| && Recognised(bs[i..]) == ps[|found|..]
    && Pending(Keys(tags), Keys(before), ps, |found|, alloc)
    && FiledAfter(tags, |before|, found) && Built(found, ps, alloc)
  }

  lemma ProgressSkip(tags: Record<Tag>, before: Record<Tag>, found: seq<Tag>, bs: seq<Option<Record<FieldValue>>>, i: nat,
                     ps: seq<Parsed>, alloc: seq<string>)
    requires i < |bs| && Progress(tags, before, found, bs, i, ps, alloc) && bs[i].None?
    ensures Progress(tags, before, found, bs, i + 1, ps, alloc)
  {
    RecognisedStep(bs, i, ps, |found|);
  }

  lemma ProgressFile(tags: Record<Tag>, before: Record<Tag>, found: seq<Tag>, bs: seq<Option<Record<FieldValue>>>, i: nat,
                     ps: seq<Parsed>, alloc: seq<string>, tag: Tag)
    requires i < |bs| && Progress(tags, before, found, bs, i, ps, alloc) && bs[i].Some?
    requires var f := FinalId(FromRecord(bs[i].value), Keys(tags));
             tag.Data() == Defaulted(FromRecord(bs[i].value).(id := Some(f)), DefaultTag)
    ensures var f := FinalId(FromRecord(bs[i].value), Keys(tags));
            Progress(tags + [(f, tag)], before, found + [tag], bs, i + 1, ps, alloc)
  {
    var f := FinalId(FromRecord(bs[i].value), Keys(tags));
    var n := |found|;
    var tags' := tags + [(f, tag)];
    RecognisedStep(bs, i, ps, n);
    assert ps[n] == FromRecord(bs[i].value);
    AllocateStep(Keys(before), alloc, Keys(tags), ps, n);
    assert alloc[n] == f;
    KeysAppend(tags, [(f, tag)]);
    assert Keys(tags') == Keys(tags) + [f];
    assert Pending(Keys(tags'), Keys(before), ps, n + 1, alloc);
    FiledAppend(tags, |before|, found, f, tag);
    BuiltAppend(found, ps, alloc, tag);
    assert before <= tags' by {
      assert tags'[..|tags|] == tags;
    }
  }

  lemma ProgressDone(tags: Record<Tag>, before: Record<Tag>, found: seq<Tag>, bs: seq<Option<Record<FieldValue>>>,
                     ps: seq<Parsed>, alloc: seq<string>)
    requires Progress(tags, before, found, bs, |bs|, ps, alloc)
    ensures Keys(tags) == Keys(before) + alloc && before <= tags && |found| == |ps|
    ensures FiledAfter(tags, |before|, found) && Built(found, ps, alloc)
  {
    assert bs[|bs|..] == [];
  }

  /** One block of the run: a recognised block is the next parse, any other
      block is passed over. */
  lemma RecognisedStep(bs: seq<Option<Record<FieldValue>>>, i: nat, ps: seq<Parsed>, n: nat)
    requires i < |bs| && n <= |ps| && Recognised(bs[i..]) == ps[n..]
    ensures bs[i].Some? ==> n < |ps| && ps[n] == FromRecord(bs[i].value) && Recognised(bs[i + 1..]) == ps[n + 1..]
    ensures bs[i].None? ==> Recognised(bs[i + 1..]) == ps[n..]
  {
    assert bs[i..][1..] == bs[i + 1..];
    if bs[i].Some? {
      assert ps[n..][1..] == ps[n + 1..];
    }
  }

  /** One step of `Allocate`. */
  lemma AllocateCons(ids: seq<string>, ps: seq<Parsed>)
    requires ps != []
    ensures Allocate(ids, ps) == [FinalId(ps[0], ids)] + Allocate(ids + [FinalId(ps[0], ids)], ps[1..])
  {
  }

  /** The ids still to be allocated, against the keys so far, complete the
      run's allocation. */
  predicate Pending(keys: seq<string>, kb: seq<string>, ps: seq<Parsed>, n: nat, alloc: seq<string>)
    requires n <= |ps|
  {
    keys + Allocate(keys, ps[n..]) == kb + alloc
  }

  /** One allocation of the run: the next id is the next allocated one, and
      what remains to allocate is allocated against the keys with it. */
  lemma AllocateStep(kb: seq<string>, alloc: seq<string>, ids: seq<string>, ps: seq<Parsed>, n: nat)
    requires n < |ps| && |ids| == |kb| + n && |alloc| == |ps|
    requires Pending(ids, kb, ps, n, alloc)
    ensures alloc[n] == FinalId(ps[n], ids)
    ensures Pending(ids + [FinalId(ps[n], ids)], kb, ps, n + 1, alloc)
  {
    var f := FinalId(ps[n], ids);
    var rest := Allocate(ids + [f], ps[n + 1..]);
    AllocateCons(ids, ps[n..]);
    assert ps[n..][0] == ps[n] && ps[n..][1..] == ps[n + 1..];
    assert ids + [f] + rest == ids + ([f] + rest);
    assert (ids + ([f] + rest))[|ids|] == f;
  }
}
