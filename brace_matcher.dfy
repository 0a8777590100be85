/** The brace matcher of the tag language (`parseGroupValue`): it finds the
    first balanced `{...}` group of a text and splits the text into the group's
    interior and what follows it. */
module BraceMatcher {
  import opened Wrappers
  import opened Text

  /** `{ value, next }`: a group's interior and the text after it. */
  datatype GroupValue = GroupValue(value: string, next: string)

  /** What the matcher throws on a closing brace with no opening one. */
  datatype ParseError = BraceImbalance

  predicate IsBrace(c: char) {
    c == '{' || c == '}'
  }

  function Delta(c: char): int {
    if c == '{' then 1 else if c == '}' then -1 else 0
  }

  /** Net nesting depth at the end of a span: opening minus closing braces. */
  function Depth(s: string): int
  {
    if s == [] then 0 else Depth(s[..|s| - 1]) + Delta(s[|s| - 1])
  }

  lemma {:induction false} DepthAppend(a: string, b: string)
    ensures Depth(a + b) == Depth(a) + Depth(b)
    decreases |b|
  {
    if b == [] {
      assert a + b == a;
    } else {
      assert (a + b)[..|a + b| - 1] == a + b[..|b| - 1];
      DepthAppend(a, b[..|b| - 1]);
    }
  }

  lemma DepthOfBraceFree(s: string)
    requires forall k :: 0 <= k < |s| ==> !IsBrace(s[k])
    ensures Depth(s) == 0
  {
    if s != [] {
      DepthOfBraceFree(s[..|s| - 1]);
    }
  }

  /** Every prefix has non-negative depth and the whole has depth zero. */
  predicate Balanced(t: string) {
    Depth(t) == 0 && forall k :: 0 <= k <= |t| ==> Depth(t[..k]) >= 0
  }

  /** Position of the first brace of either kind, or `|s|` if there is none. */
  function FirstBrace(s: string): (i: nat)
    ensures i <= |s| && (i < |s| ==> IsBrace(s[i]))
    ensures forall k :: 0 <= k < i ==> !IsBrace(s[k])
  {
    if s == [] then 0 else if IsBrace(s[0]) then 0 else 1 + FirstBrace(s[1..])
  }

  /** The group opened at `o` is still open after each of the first `n`
      characters of `s`, the opening brace included. */
  predicate StillOpen(s: string, o: nat, n: nat)
    requires o < n <= |s|
  {
    forall j :: o < j <= n ==> Depth(s[o..j]) > 0
  }

  /** The position of the brace that closes the group opened at `o`: the first
      point after `o` where the depth counted from `o` is back to zero; `|s|`
      when the group never closes. */
  function MatchingClose(s: string, o: nat): (c: nat)
    requires o < |s| && s[o] == '{'
    ensures o < c <= |s|
  {
    CloseFrom(s, o, o + 1)
  }

  function CloseFrom(s: string, o: nat, k: nat): (c: nat)
    requires o < k <= |s|
    ensures k <= c <= |s|
    decreases |s| - k
  {
    if k == |s| || Depth(s[o..k + 1]) == 0 then k
    else CloseFrom(s, o, k + 1)
  }

  /** The search from `k` stops at the first closing point: the group stays
      open up to it, and it is a closing brace that brings the depth to zero. */
  lemma {:induction false} CloseFromSpec(s: string, o: nat, k: nat)
    requires o < k <= |s| && StillOpen(s, o, k)
    ensures var c := CloseFrom(s, o, k);
            StillOpen(s, o, c) && (c < |s| ==> s[c] == '}' && Depth(s[o..c + 1]) == 0)
    decreases |s| - k
  {
    if k < |s| {
      Step(s, o, k);
      if Depth(s[o..k + 1]) != 0 {
        CloseFromSpec(s, o, k + 1);
      }
    }
  }

  /** `MatchingClose` finds the close of the group, or runs to the end of the
      text with the group still open. */
  lemma MatchingCloseSpec(s: string, o: nat)
    requires o < |s| && s[o] == '{'
    ensures var c := MatchingClose(s, o);
            StillOpen(s, o, c) && (c < |s| ==> s[c] == '}' && Depth(s[o..c + 1]) == 0)
  {
    assert Depth(s[o..o + 1]) == 1 by { assert s[o..o + 1][..0] == []; }
    CloseFromSpec(s, o, o + 1);
  }

  /** One more character moves the depth counted from `o` by its delta, and
      the group stays open while that depth is positive. */
  lemma Step(s: string, o: nat, i: nat)
    requires o < i < |s|
    ensures Depth(s[o..i + 1]) == Depth(s[o..i]) + Delta(s[i])
    ensures StillOpen(s, o, i) && Depth(s[o..i + 1]) > 0 ==> StillOpen(s, o, i + 1)
  {
    assert s[o..i + 1][..i - o] == s[o..i];
  }

  /** A group still open after `n` characters cannot have closed earlier. */
  lemma NotClosedBefore(s: string, o: nat, n: nat, m: nat)
    requires o < n <= |s| && StillOpen(s, o, n)
    requires o <= m < |s| && Depth(s[o..m + 1]) == 0
    ensures n <= m
  {
  }

  /** Two positions that both qualify as the close of the group at `o` are equal. */
  lemma CloseIsUnique(s: string, o: nat, c: nat)
    requires o < |s| && s[o] == '{'
    requires o < c <= |s| && StillOpen(s, o, c)
    requires c < |s| ==> Depth(s[o..c + 1]) == 0
    ensures MatchingClose(s, o) == c
  {
    var m := MatchingClose(s, o);
    MatchingCloseSpec(s, o);
    if m < |s| {
      NotClosedBefore(s, o, c, m);
    }
    if c < |s| {
      NotClosedBefore(s, o, m, c);
    }
  }

  /** What `parseGroupValue` returns or throws. The interior and the rest are
      never longer than the input, and the interior is strictly shorter. */
  function MatchGroup(s: string): (r: Result<GroupValue, ParseError>)
    ensures r.Success? ==> |r.value.value| < |s| || r.value.value == []
    ensures r.Success? ==> |r.value.next| <= |s|
  {
    MatchFrom(s, FirstBrace(s))
  }

  /** The matcher once the first brace, at `o`, is known. */
  function MatchFrom(s: string, o: nat): (r: Result<GroupValue, ParseError>)
    requires o <= |s|
    ensures r.Success? ==> |r.value.value| < |s| || r.value.value == []
    ensures r.Success? ==> |r.value.next| <= |s|
  {
    if o == |s| then Success(GroupValue("", s))
    else if s[o] == '}' then Failure(BraceImbalance)
    else if s[o] == '{' then GroupAt(s, o, MatchingClose(s, o))
    else Success(GroupValue("", s))
  }

  /** The matcher once the group's opening `o` and closing `c` are known;
      `c == |s|` when the group never closes. */
  function GroupAt(s: string, o: nat, c: nat): (r: Result<GroupValue, ParseError>)
    requires o < c <= |s|
    ensures r.Success? && (|r.value.value| < |s| || r.value.value == []) && |r.value.next| <= |s|
  {
    if c == |s| then Success(GroupValue("", s)) else Success(ClosedGroup(s, o, c))
  }

  /** The result for a group opened at `o` and closed at `c`: the trimmed
      interior and the trimmed rest. */
  function ClosedGroup(s: string, o: nat, c: nat): (g: GroupValue)
    requires o < c < |s|
    ensures |g.value| < |s| && |g.next| < |s|
  {
    TrimmedSlicesShorter(s, o, c);
    GroupValue(Trim(s[o + 1..c]), Trim(s[c + 1..]))
  }

  lemma TrimmedSlicesShorter(s: string, o: nat, c: nat)
    requires o < c < |s|
    ensures |Trim(s[o + 1..c])| < |s| && |Trim(s[c + 1..])| < |s|
  {
  }

  lemma MatchGroupCloses(s: string, o: nat, c: nat)
    requires o == FirstBrace(s) && o < c < |s| && s[o] == '{'
    requires StillOpen(s, o, c) && Depth(s[o..c + 1]) == 0
    ensures MatchGroup(s) == Success(ClosedGroup(s, o, c))
  {
    CloseIsUnique(s, o, c);
    MatchGroupAt(s, o, c);
  }

  lemma MatchGroupAt(s: string, o: nat, c: nat)
    requires o == FirstBrace(s) && o < c < |s| && s[o] == '{' && MatchingClose(s, o) == c
    ensures MatchGroup(s) == Success(ClosedGroup(s, o, c))
  {
    assert MatchGroup(s) == MatchFrom(s, o) == GroupAt(s, o, c);
  }

  lemma MatchGroupNeverCloses(s: string, o: nat)
    requires o == FirstBrace(s) && o < |s| && s[o] == '{' && StillOpen(s, o, |s|)
    ensures MatchGroup(s) == Success(GroupValue("", s))
  {
    CloseIsUnique(s, o, |s|);
  }

  /** `parseGroupValue`: scan left to right with a depth counter, remember
      where the outermost group opens, and return as soon as it closes. */
  method ParseGroupValue(s: string) returns (r: Result<GroupValue, ParseError>)
    ensures r == MatchGroup(s)
  {
    var depth := 0;
    var start := -1;
    var i := 0;
    while i < |s|
      invariant 0 <= i <= |s|
      invariant start == -1 ==> depth == 0 && i <= FirstBrace(s)
      invariant start != -1 ==>
        && 0 <= start < i && start == FirstBrace(s) && s[start] == '{'
        && depth == Depth(s[start..i]) && StillOpen(s, start, i)
    {
      if s[i] == '{' {
        if depth == 0 {
          start := i;
          assert s[i..i + 1][..0] == [];
        } else {
          Step(s, start, i);
        }
        depth := depth + 1;
      } else if s[i] == '}' {
        if start != -1 {
          Step(s, start, i);
        }
        depth := depth - 1;
        if depth == 0 && start != -1 {
          MatchGroupCloses(s, start, i);
          return Success(ClosedGroup(s, start, i));
        } else if depth < 0 {
          return Failure(BraceImbalance);
        }
      } else if start != -1 {
        Step(s, start, i);
      }
      i := i + 1;
    }
    if start != -1 {
      MatchGroupNeverCloses(s, start);
    }
    return Success(GroupValue("", s));
  }

  /** A text that opens with `{` never makes the matcher throw: the first brace
      is an opening one, and the depth cannot go below zero before it closes. */
  lemma OpeningBraceNeverFails(s: string)
    requires s != [] && s[0] == '{'
    ensures MatchGroup(s).Success?
    ensures |MatchGroup(s).value.value| < |s|
  {
    assert FirstBrace(s) == 0;
  }

  /** `}` at `i` takes the depth from zero to minus one, with no `{` before it. */
  predicate StrayCloseAt(s: string, i: nat)
    requires i < |s|
  {
    && s[i] == '}' && Depth(s[..i]) == 0 && Depth(s[..i + 1]) < 0
    && forall k :: 0 <= k < i ==> s[k] != '{'
  }

  /** The matcher throws exactly when some closing brace drives the depth below
      zero before any brace has opened. */
  lemma FailureIsStrayClose(s: string)
    ensures MatchGroup(s).Failure? <==> exists i :: 0 <= i < |s| && StrayCloseAt(s, i)
  {
    var o := FirstBrace(s);
    if MatchGroup(s).Failure? {
      DepthOfBraceFree(s[..o]);
      assert s[..o + 1][..o] == s[..o];
      assert StrayCloseAt(s, o);
    }
    if exists i :: 0 <= i < |s| && StrayCloseAt(s, i) {
      var i :| 0 <= i < |s| && StrayCloseAt(s, i);
      StrayCloseIsFirstBrace(s, i);
    }
  }

  lemma StrayCloseIsFirstBrace(s: string, i: nat)
    requires i < |s| && StrayCloseAt(s, i)
    ensures FirstBrace(s) == i
  {
    DepthWithoutOpening(s[..i]);
    assert forall k :: 0 <= k < i ==> s[..i][k] == s[k];
  }

  /** Without opening braces the depth is never positive, and it is zero only
      when there is no closing brace either. */
  lemma {:induction false} DepthWithoutOpening(t: string)
    requires forall k :: 0 <= k < |t| ==> t[k] != '{'
    ensures Depth(t) <= 0
    ensures Depth(t) == 0 ==> forall k :: 0 <= k < |t| ==> t[k] != '}'
  {
    if t != [] {
      var u := t[..|t| - 1];
      DepthWithoutOpening(u);
      assert forall k :: 0 <= k < |u| ==> u[k] == t[k];
    }
  }

  /** The interior of a closed group is balanced: its depth never drops below
      zero and ends at zero. */
  lemma GroupInteriorBalanced(s: string, o: nat, c: nat)
    requires o < c < |s| && s[o] == '{' && StillOpen(s, o, c) && Depth(s[o..c + 1]) == 0
    ensures Balanced(s[o + 1..c])
  {
    var t := s[o + 1..c];
    forall k | 0 <= k <= |t|
      ensures Depth(t[..k]) >= 0
    {
      assert s[o..o + 1 + k] == [s[o]] + t[..k];
      DepthAppend([s[o]], t[..k]);
      assert Depth([s[o]]) == 1 by { assert [s[o]][..0] == []; }
    }
    assert s[o..c + 1] == [s[o]] + t + [s[c]];
    DepthAppend([s[o]] + t, [s[c]]);
    DepthAppend([s[o]], t);
    assert Depth([s[o]]) == 1 by { assert [s[o]][..0] == []; }
    assert Depth([s[c]]) == -1 by { assert [s[c]][..0] == []; Step(s, o, c); }
  }
}
