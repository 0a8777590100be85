/** The stopwatch data of the plugin's current version: the constraints of
    its schema, completing parsed data with the defaults, allocating ids,
    and the play/pause callback. */
module Stopwatch {
  import opened Wrappers
  import Text
  import opened Numbers
  import opened Records
  import opened Ids

  datatype YesNo = Yes | No

  /** What `stopwatchSchema` lets through: every field, and `techStuff`
      itself, may be missing. */
  datatype TechPartial = TechPartial(id: Option<string>, startDate: Option<string>, passed: Option<JsNum>,
                                     running: Option<YesNo>)

  datatype DataPartial = DataPartial(name: Option<string>, limit: Option<JsNum>, techStuff: Option<TechPartial>)

  /** `StopwatchData`: every field present. */
  datatype Tech = Tech(id: string, startDate: string, passed: JsNum, running: YesNo)

  datatype Data = Data(name: string, limit: JsNum, techStuff: Tech)

  predicate PositiveInt(x: JsNum) {
    x.Int? && x.value > 0
  }

  predicate NonNegativeInt(x: JsNum) {
    x.Int? && x.value >= 0
  }

  /** The number constraints of `stopwatchSchema` on what it accepted: an
      integer limit above zero, an integer passed time not below zero. The
      string fields and the yes/no enum are carried by the types. */
  predicate Accepted(p: DataPartial) {
    && (p.limit.Some? ==> PositiveInt(p.limit.value))
    && (p.techStuff.Some? && p.techStuff.value.passed.Some? ==> NonNegativeInt(p.techStuff.value.passed.value))
  }

  /** The same constraints on complete data. */
  predicate Valid(d: Data) {
    PositiveInt(d.limit) && NonNegativeInt(d.techStuff.passed)
  }

  /** `defaultTag`. */
  const DefaultTag: Data := Data("", Int(60), Tech("1", "", Int(0), No))

  // ---------------------------------------------------------------------
  // Completing parsed data
  // ---------------------------------------------------------------------

  /** `completeData`: the defaults, overridden by whatever the parsed data
      holds; the id is the parsed one, else a new one. */
  function CompleteData(parsed: DataPartial, ids: seq<string>): (d: Data)
    ensures Accepted(parsed) ==> Valid(d)
  {
    var t := parsed.techStuff.GetOr(TechPartial(None, None, None, None));
    var d := DefaultTag.techStuff;
    Data(parsed.name.GetOr(DefaultTag.name), parsed.limit.GetOr(DefaultTag.limit),
         Tech(if t.id.Some? then t.id.value else NewId(ids), t.startDate.GetOr(d.startDate),
              t.passed.GetOr(d.passed), t.running.GetOr(d.running)))
  }

  /** Completing data the schema accepted gives data the schema accepts. */
  lemma CompleteDataValid(parsed: DataPartial, ids: seq<string>)
    requires Accepted(parsed)
    ensures Valid(CompleteData(parsed, ids))
  {
  }

  /** The id of completed data: the parsed one when given, else a fresh one;
      on an empty registry that is "1". */
  lemma CompleteDataId(parsed: DataPartial, ids: seq<string>)
    ensures var id := CompleteData(parsed, ids).techStuff.id;
            && (parsed.techStuff.Some? && parsed.techStuff.value.id.Some? ==> id == parsed.techStuff.value.id.value)
            && (parsed.techStuff.None? || parsed.techStuff.value.id.None? ==> id !in ids)
            && (parsed.techStuff.None? || parsed.techStuff.value.id.None? ==> (ids == [] ==> id == "1"))
  {
    NewIdFresh(ids);
  }

  // ---------------------------------------------------------------------
  // The play/pause callback
  // ---------------------------------------------------------------------

  function Flip(r: YesNo): YesNo {
    if r == Yes then No else Yes
  }

  /** The data after `callback` at clock reading `now`: running flipped,
      passed set to `now - Number(startDate)`, startDate set to "0". */
  function Toggled(d: Data, now: JsNum): (e: Data)
    ensures e.techStuff.running != d.techStuff.running && e.techStuff.startDate == "0"
    ensures e.name == d.name && e.limit == d.limit && e.techStuff.id == d.techStuff.id
  {
    d.(techStuff := d.techStuff.(running := Flip(d.techStuff.running),
                                 passed := Sub(now, NumberOf(d.techStuff.startDate)),
                                 startDate := "0"))
  }

  /** `callback` changes only the running flag, the start date and the
      passed time; two callbacks restore the flag. */
  lemma ToggledKeeps(d: Data, now: JsNum, later: JsNum)
    ensures var e := Toggled(d, now);
            && e.name == d.name && e.limit == d.limit && e.techStuff.id == d.techStuff.id
            && e.techStuff.startDate == "0" && e.techStuff.running != d.techStuff.running
            && Toggled(e, later).techStuff.running == d.techStuff.running
  {
  }

  /** `now()` as written: `Number` of an ISO 8601 timestamp. */
  function NowAsWritten(iso: string): (t: JsNum)
    ensures ':' in iso ==> t == NaN
  {
    if ':' in iso then
      NumberOfWithColon(iso, Text.FirstIndex(iso, ':'));
      NumberOf(iso)
    else NumberOf(iso)
  }

  /** An ISO 8601 timestamp holds colons, so the clock as written reads NaN
      and `callback` stores NaN as the passed time, which the schema
      refuses. */
  lemma ToggledAsWrittenIsNaN(d: Data, iso: string, j: nat)
    requires j < |iso| && iso[j] == ':'
    ensures Toggled(d, NowAsWritten(iso)).techStuff.passed == NaN
    ensures !Valid(Toggled(d, NowAsWritten(iso)))
  {
    NumberOfWithColon(iso, j);
  }

  /** With a numeric clock at or after the start date, `callback` keeps the
      data valid, and the passed time is the difference. */
  lemma ToggledKeepsValid(d: Data, now: int)
    requires Valid(d)
    requires NumberOf(d.techStuff.startDate).Int? && NumberOf(d.techStuff.startDate).value <= now
    ensures Valid(Toggled(d, Int(now)))
    ensures Toggled(d, Int(now)).techStuff.passed == Int(now - NumberOf(d.techStuff.startDate).value)
  {
  }

  /** A drawn stopwatch tag; the element it draws into is left out. */
  class Tag {
    var data: Data

    constructor(data: Data)
      ensures this.data == data
    {
      this.data := data;
    }

    /** `callback`, with a numeric clock reading in place of `now()`. */
    method Callback(now: int)
      modifies this
      ensures data == Toggled(old(data), Int(now))
    {
      data := data.(techStuff := data.techStuff.(running := if data.techStuff.running == Yes then No else Yes,
                                                 passed := Sub(Int(now), NumberOf(data.techStuff.startDate)),
                                                 startDate := "0"));
    }
  }

  /** `TagManager`: a registry no method of this version writes to. */
  class TagManager {
    var tags: Record<Tag>

    constructor()
      ensures tags == []
    {
      tags := [];
    }

    /** `makeTag`: completes the data against the registry's keys and
        builds a tag, leaving the registry as it is. */
    method MakeTag(parsed: DataPartial) returns (tag: Tag)
      ensures fresh(tag) && tag.data == CompleteData(parsed, Keys(tags))
    {
      var data := CompleteData(parsed, Keys(tags));
      tag := new Tag(data);
    }
  }

  /** Since `makeTag` never registers its tag, every tag of a manager gets
      the parsed id or "1". */
  lemma MakeTagIdIsOne(parsed: DataPartial)
    ensures var id := CompleteData(parsed, []).techStuff.id;
            id == (if parsed.techStuff.Some? && parsed.techStuff.value.id.Some? then parsed.techStuff.value.id.value else "1")
  {
    CompleteDataId(parsed, []);
  }
}
