/** The writing half of the tag language (`TagSyntaxHandler.write`): an
    object is rendered as `key: value` parts joined by single spaces, nested
    objects and arrays as `key: { ... }`, and the whole wrapped in a fenced
    code block named after the tag. */
module TagWriter {
  import opened Wrappers
  import opened Text
  import opened Numbers
  import opened Records

  /** The JavaScript values `write` meets. Numbers are the integers and NaN
      of the model. */
  datatype JsValue =
    | JStr(text: string)
    | JNum(num: JsNum)
    | JBool(flag: bool)
    | JNull
    | JUndefined
    | JObj(fields: seq<(string, JsValue)>)
    | JArr(items: seq<JsValue>)

  // ---------------------------------------------------------------------
  // Size, the measure rendering recurses on
  // ---------------------------------------------------------------------

  function Size(v: JsValue): nat
    decreases v, 1, 0
  {
    match v
    case JObj(fs) => 1 + FieldsSize(v, 0)
    case JArr(items) => 1 + ItemsSize(v, 0)
    case _ => 1
  }

  function FieldsSize(v: JsValue, i: nat): nat
    requires v.JObj? && i <= |v.fields|
    decreases v, 0, |v.fields| - i
  {
    if i == |v.fields| then 0 else Size(v.fields[i].1) + FieldsSize(v, i + 1)
  }

  function ItemsSize(v: JsValue, i: nat): nat
    requires v.JArr? && i <= |v.items|
    decreases v, 0, |v.items| - i
  {
    if i == |v.items| then 0 else Size(v.items[i]) + ItemsSize(v, i + 1)
  }

  lemma {:induction false} FieldsSizeBound(v: JsValue, i: nat, j: nat)
    requires v.JObj? && i <= j < |v.fields|
    ensures Size(v.fields[j].1) <= FieldsSize(v, i)
    decreases j - i
  {
    if i < j {
      FieldsSizeBound(v, i + 1, j);
    }
  }

  /** A field's value is smaller than the object that holds it. */
  lemma FieldSmaller(fields: seq<(string, JsValue)>, j: nat)
    requires j < |fields|
    ensures Size(fields[j].1) < Size(JObj(fields))
  {
    FieldsSizeBound(JObj(fields), 0, j);
  }

  /** `arrObj`: the items of an array under the keys "0", "1", ... */
  function Indexed(items: seq<JsValue>): (r: seq<(string, JsValue)>)
    ensures |r| == |items| && forall i :: 0 <= i < |r| ==> r[i] == (NatToString(i), items[i])
  {
    if items == [] then [] else Indexed(items[..|items| - 1]) + [(NatToString(|items| - 1), items[|items| - 1])]
  }

  lemma {:induction false} IndexedSize(items: seq<JsValue>, i: nat)
    requires i <= |items|
    ensures FieldsSize(JObj(Indexed(items)), i) == ItemsSize(JArr(items), i)
    decreases |items| - i
  {
    if i < |items| {
      IndexedSize(items, i + 1);
    }
  }

  /** Turning an array into its index-keyed object keeps its size. */
  lemma IndexedSameSize(items: seq<JsValue>)
    ensures Size(JObj(Indexed(items))) == Size(JArr(items))
  {
    IndexedSize(items, 0);
  }

  // ---------------------------------------------------------------------
  // escapeString
  // ---------------------------------------------------------------------

  /** `s.replace(/c/g, rep)` for a single character `c`. */
  function ReplaceAll(s: string, c: char, rep: string): string
  {
    if s == [] then [] else (if s[0] == c then rep else [s[0]]) + ReplaceAll(s[1..], c, rep)
  }

  lemma {:induction false} ReplaceAllAppend(a: string, b: string, c: char, rep: string)
    ensures ReplaceAll(a + b, c, rep) == ReplaceAll(a, c, rep) + ReplaceAll(b, c, rep)
  {
    if a != [] {
      assert (a + b)[1..] == a[1..] + b;
      ReplaceAllAppend(a[1..], b, c, rep);
    } else {
      assert a + b == b;
    }
  }

  /** The escaping of one character: a backslash and a double quote get a
      backslash in front, everything else is kept. */
  function EscapeChar(c: char): string
  {
    if c == '\\' then "\\\\" else if c == '"' then "\\\"" else [c]
  }

  function EscapeChars(s: string): string
  {
    if s == [] then [] else EscapeChar(s[0]) + EscapeChars(s[1..])
  }

  /** The two global replacements, backslashes first and then quotes, escape
      each character on its own: the second pass never meets a backslash the
      first one wrote. */
  lemma {:induction false} TwoPassEscape(s: string)
    ensures ReplaceAll(ReplaceAll(s, '\\', "\\\\"), '"', "\\\"") == EscapeChars(s)
  {
    if s != [] {
      var head := if s[0] == '\\' then "\\\\" else [s[0]];
      assert ReplaceAll(s, '\\', "\\\\") == head + ReplaceAll(s[1..], '\\', "\\\\");
      ReplaceAllAppend(head, ReplaceAll(s[1..], '\\', "\\\\"), '"', "\\\"");
      TwoPassEscape(s[1..]);
      if s[0] == '\\' {
        assert ReplaceAll(head, '"', "\\\"") == "\\\\" by {
          assert head[1..] == "\\";
          assert head[1..][1..] == [];
        }
      } else {
        assert ReplaceAll(head, '"', "\\\"") == EscapeChar(s[0]) by {
          assert head[1..] == [];
        }
      }
    }
  }

  /** `escapeString`. */
  function EscapeString(s: string): (e: string)
    ensures |e| >= 2 && e[0] == '"' && e[|e| - 1] == '"'
    ensures e[1..|e| - 1] == EscapeChars(s)
  {
    TwoPassEscape(s);
    "\"" + ReplaceAll(ReplaceAll(s, '\\', "\\\\"), '"', "\\\"") + "\""
  }

  /** Reading an escaped text back: a backslash takes the next character
      literally. */
  function Unescape(e: string): string
    decreases |e|
  {
    if e == [] then []
    else if e[0] == '\\' && |e| >= 2 then [e[1]] + Unescape(e[2..])
    else [e[0]] + Unescape(e[1..])
  }

  lemma {:induction false} UnescapeEscapeChars(s: string)
    ensures Unescape(EscapeChars(s)) == s
  {
    if s != [] {
      var e := EscapeChars(s);
      assert e == EscapeChar(s[0]) + EscapeChars(s[1..]);
      UnescapeEscapeChars(s[1..]);
      if s[0] == '\\' || s[0] == '"' {
        assert e[2..] == EscapeChars(s[1..]);
      } else {
        assert e[1..] == EscapeChars(s[1..]);
      }
      assert s == [s[0]] + s[1..];
    }
  }

  /** An escaped string is quoted, holds no unescaped quote, and unescaping
      its interior gives the original text back. */
  lemma EscapeStringRoundTrip(s: string)
    ensures var e := EscapeString(s);
            && |e| >= 2 && e[0] == '"' && e[|e| - 1] == '"'
            && Unescape(e[1..|e| - 1]) == s
  {
    TwoPassEscape(s);
    UnescapeEscapeChars(s);
    var e := EscapeString(s);
    assert e[1..|e| - 1] == EscapeChars(s);
  }

  // ---------------------------------------------------------------------
  // render and write
  // ---------------------------------------------------------------------

  function BoolToString(b: bool): string {
    if b then "true" else "false"
  }

  /** The part written for one entry. */
  function Part(k: string, v: JsValue): (p: string)
    ensures StartsWith(p, k + ": ")
    decreases Size(v), 1, 0
  {
    match v
    case JObj(fs) => k + ": { " + RenderFields(fs) + " }"
    case JArr(items) =>
      IndexedSameSize(items);
      k + ": { " + RenderFields(Indexed(items)) + " }"
    case JNum(n) => k + ": " + NumToString(n)
    case JBool(b) => k + ": " + BoolToString(b)
    case JNull => k + ": null"
    case JUndefined => k + ": null"
    case JStr(t) => k + ": " + EscapeString(t)
  }

  /** The parts for the entries from the `i`-th on. */
  function PartsFrom(fields: seq<(string, JsValue)>, i: nat): (r: seq<string>)
    requires i <= |fields|
    ensures |r| == |fields| - i
    decreases Size(JObj(fields)), 0, |fields| - i
  {
    if i == |fields| then []
    else
      FieldSmaller(fields, i);
      [Part(fields[i].0, fields[i].1)] + PartsFrom(fields, i + 1)
  }

  lemma PartsFromStep(fields: seq<(string, JsValue)>, i: nat)
    requires i < |fields|
    ensures PartsFrom(fields, i) == [Part(fields[i].0, fields[i].1)] + PartsFrom(fields, i + 1)
  {
  }

  /** What `render` returns for an object with these entries. */
  function RenderFields(fields: seq<(string, JsValue)>): (r: string)
    ensures fields == [] ==> r == []
    ensures fields != [] ==> StartsWith(r, fields[0].0 + ": ")
    decreases Size(JObj(fields)), 0, |fields| + 1
  {
    var parts := PartsFrom(fields, 0);
    if fields != [] then
      FieldSmaller(fields, 0);
      assert parts[0] == Part(fields[0].0, fields[0].1);
      JoinStartsWithFirst(parts, " ");
      assert Join(parts, " ")[..|fields[0].0 + ": "|] == parts[0][..|fields[0].0 + ": "|];
      Join(parts, " ")
    else Join(parts, " ")
  }

  /** A join of parts starts with the first part. */
  lemma JoinStartsWithFirst(parts: seq<string>, sep: string)
    requires parts != []
    ensures StartsWith(Join(parts, sep), parts[0])
  {
    if |parts| > 1 {
      assert Join(parts, sep) == parts[0] + (sep + Join(parts[1..], sep));
    }
  }

  /** `arrObj[String(i)] = item` for every item in turn. */
  method IndexArray(items: seq<JsValue>) returns (arrObj: Record<JsValue>)
    ensures arrObj == Indexed(items)
  {
    arrObj := [];
    for i := 0 to |items|
      invariant arrObj == Indexed(items[..i])
    {
      IndexKeyFresh(items[..i]);
      AssignKeys(arrObj, NatToString(i), items[i]);
      AssignAppends(arrObj, NatToString(i), items[i]);
      arrObj := Assign(arrObj, NatToString(i), items[i]);
      assert items[..i + 1][..i] == items[..i];
    }
    assert items[..|items|] == items;
  }

  /** The next index is not yet a key of the index-keyed object. */
  lemma IndexKeyFresh(items: seq<JsValue>)
    ensures NatToString(|items|) !in Keys(Indexed(items))
  {
    forall i | 0 <= i < |items|
      ensures Keys(Indexed(items))[i] != NatToString(|items|)
    {
      NatToStringValue(i);
      NatToStringValue(|items|);
    }
  }

  /** `render`: a loop that pushes one part per entry, calling itself on
      nested objects and arrays, then joins the parts with spaces. */
  method Render(fields: seq<(string, JsValue)>) returns (out: string)
    ensures out == RenderFields(fields)
    decreases Size(JObj(fields)), 1
  {
    var parts: seq<string> := [];
    for i := 0 to |fields|
      invariant parts + PartsFrom(fields, i) == PartsFrom(fields, 0)
    {
      FieldSmaller(fields, i);
      var part := RenderPart(fields[i].0, fields[i].1);
      PartsFromStep(fields, i);
      assert parts + PartsFrom(fields, i) == (parts + [part]) + PartsFrom(fields, i + 1);
      parts := parts + [part];
    }
    assert PartsFrom(fields, |fields|) == [];
    assert parts == parts + PartsFrom(fields, |fields|);
    out := Join(parts, " ");
  }

  /** The body of the loop in `render`: the part for one entry, rendering a
      nested object or array by a recursive call. */
  method RenderPart(k: string, v: JsValue) returns (part: string)
    ensures part == Part(k, v)
    decreases Size(v), 2
  {
    match v {
      case JObj(fs) =>
        var inner := Render(fs);
        part := k + ": { " + inner + " }";
      case JArr(items) =>
        var arrObj := IndexArray(items);
        IndexedSameSize(items);
        var inner := Render(arrObj);
        part := k + ": { " + inner + " }";
      case JNum(n) =>
        part := k + ": " + NumToString(n);
      case JBool(b) =>
        part := k + ": " + BoolToString(b);
      case JNull =>
        part := k + ": null";
      case JUndefined =>
        part := k + ": null";
      case JStr(t) =>
        part := k + ": " + EscapeString(t);
    }
  }

  /** The opening and closing lines of the fence. */
  function FenceOpen(blockName: string): string {
    "```" + blockName + "\n"
  }

  const FenceClose: string := "\n```"

  /** `write`: the rendered object, trimmed, inside a fenced code block named
      after the tag. */
  method Write(blockName: string, obj: seq<(string, JsValue)>) returns (out: string)
    ensures StartsWith(out, FenceOpen(blockName)) && EndsWith(out, FenceClose)
    ensures |out| == |FenceOpen(blockName)| + |Trim(RenderFields(obj))| + |FenceClose|
    ensures out[|FenceOpen(blockName)|..|out| - |FenceClose|] == Trim(RenderFields(obj))
  {
    var body := Render(obj);
    out := "```" + blockName + "\n" + Trim(body) + "\n```";
    assert out == FenceOpen(blockName) + Trim(body) + FenceClose;
  }

  /** A string value is written after its key as a quoted, escaped literal
      that unescapes to the original text. */
  lemma StringPartReadsBack(k: string, t: string)
    ensures var p := Part(k, JStr(t));
            && StartsWith(p, k + ": ")
            && var e := p[|k| + 2..];
               |e| >= 2 && e[0] == '"' && e[|e| - 1] == '"' && Unescape(e[1..|e| - 1]) == t
  {
    EscapeStringRoundTrip(t);
    var p := Part(k, JStr(t));
    assert p == (k + ": ") + EscapeString(t);
    assert p[|k| + 2..] == EscapeString(t);
  }

  /** An array is written as the object that holds its items under the keys
      "0", "1", ..., each index once. */
  lemma ArrayAsIndexedObject(k: string, items: seq<JsValue>, i: nat)
    requires i < |items|
    ensures Part(k, JArr(items)) == Part(k, JObj(Indexed(items)))
    ensures UniqueKeys(Indexed(items))
    ensures Lookup(Indexed(items), NatToString(i)) == Some(items[i])
  {
    var r := Indexed(items);
    forall a, b | 0 <= a < b < |r|
      ensures r[a].0 != r[b].0
    {
      NatToStringValue(a);
      NatToStringValue(b);
    }
    UniqueLookup(r, i);
  }
}
