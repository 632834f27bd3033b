/** Bounded expansion of brace groups, depth first. */
module Braces {
  import opened Results
  import opened ByteStrings

  const OPEN: byte := 123
  const CLOSE: byte := 125
  const COMMA: byte := 44

  /** The nesting depth after `value`, started at `depth`; a closing brace too many is
      ignored. */
  function Depth(value: Bytes, depth: nat): nat {
    if value == [] then depth
    else Depth(value[1..],
      if value[0] == OPEN then depth + 1 else if value[0] == CLOSE && depth > 0 then depth - 1 else depth)
  }

  /** Some comma lies outside every nested group. */
  predicate HasTopComma(value: Bytes) {
    exists i | 0 <= i < |value| :: value[i] == COMMA && Depth(value[..i], 0) == 0
  }

  lemma {:induction false} DepthStep(value: Bytes, depth: nat, b: byte)
    ensures Depth(value + [b], depth) ==
      var d := Depth(value, depth); if b == OPEN then d + 1 else if b == CLOSE && d > 0 then d - 1 else d
    decreases |value|
  {
    if value == [] {
      assert (value + [b])[1..] == [];
    } else {
      assert (value + [b])[1..] == value[1..] + [b];
      DepthStep(
        value[1..], if value[0] == OPEN then depth + 1 else if value[0] == CLOSE && depth > 0 then depth - 1 else depth,
        b);
    }
  }

  function Join(parts: seq<Bytes>): Bytes
    requires parts != []
  {
    if |parts| == 1 then parts[0] else parts[0] + [COMMA] + Join(parts[1..])
  }

  lemma {:induction false} JoinAppend(parts: seq<Bytes>, last: Bytes)
    requires parts != []
    ensures Join(parts + [last]) == Join(parts) + [COMMA] + last
  {
    if |parts| == 1 {
      assert (parts + [last])[1..] == [last];
    } else {
      assert (parts + [last])[1..] == parts[1..] + [last];
      JoinAppend(parts[1..], last);
      assert parts[0] + [COMMA] + (Join(parts[1..]) + [COMMA] + last) ==
        parts[0] + [COMMA] + Join(parts[1..]) + [COMMA] + last;
    }
  }

  /** `parts` are what `value` falls into at its top-level commas: joined they give it
      back, none of them has a top-level comma, and all but the last end outside nested
      groups. */
  ghost predicate SplitInto(value: Bytes, parts: seq<Bytes>) {
    && parts != [] && Join(parts) == value
    && (forall k :: 0 <= k < |parts| ==> !HasTopComma(parts[k]))
    && (forall k :: 0 <= k < |parts| - 1 ==> Depth(parts[k], 0) == 0)
  }

  /** The split of a string is unique. */
  lemma {:induction false} SplitIsUnique(value: Bytes, a: seq<Bytes>, b: seq<Bytes>)
    requires SplitInto(value, a) && SplitInto(value, b)
    ensures a == b
    decreases |a|
  {
    SameHead(value, a, b);
    if |a| > 1 {
      SplitTail(value, a);
      SplitTail(value, b);
      SplitIsUnique(value[|a[0]| + 1..], a[1..], b[1..]);
    }
    assert a == [a[0]] + a[1..] && b == [b[0]] + b[1..];
  }

  lemma SplitTail(value: Bytes, a: seq<Bytes>)
    requires SplitInto(value, a) && |a| > 1
    ensures |a[0]| < |value| && value[|a[0]|] == COMMA && value[..|a[0]|] == a[0]
    ensures SplitInto(value[|a[0]| + 1..], a[1..])
  {
    assert value == a[0] + ([COMMA] + Join(a[1..]));
    assert value[|a[0]| + 1..] == Join(a[1..]);
    forall k | 0 <= k < |a[1..]| ensures !HasTopComma(a[1..][k]) {
      assert a[1..][k] == a[k + 1];
    }
    forall k | 0 <= k < |a[1..]| - 1 ensures Depth(a[1..][k], 0) == 0 {
      assert a[1..][k] == a[k + 1];
    }
  }

  lemma CommaInside(value: Bytes, part: Bytes, i: nat)
    requires i < |part| <= |value| && part == value[..|part|]
    requires value[i] == COMMA && Depth(value[..i], 0) == 0
    ensures HasTopComma(part)
  {
    assert part[i] == value[i] && part[..i] == value[..i];
  }

  lemma HeadEnds(value: Bytes, a: seq<Bytes>, b: seq<Bytes>)
    requires SplitInto(value, a) && SplitInto(value, b)
    ensures |a| > 1 ==> |b[0]| <= |a[0]|
  {
    if |a| > 1 {
      SplitTail(value, a);
      HeadIsPrefix(value, b);
      if |b[0]| > |a[0]| {
        CommaInside(value, b[0], |a[0]|);
      }
    }
  }

  lemma HeadIsPrefix(value: Bytes, b: seq<Bytes>)
    requires SplitInto(value, b)
    ensures |b[0]| <= |value| && b[0] == value[..|b[0]|]
  {
    if |b| > 1 { SplitTail(value, b); }
  }

  lemma SameHead(value: Bytes, a: seq<Bytes>, b: seq<Bytes>)
    requires SplitInto(value, a) && SplitInto(value, b)
    ensures a[0] == b[0] && (|a| > 1 <==> |b| > 1)
  {
    HeadEnds(value, a, b);
    HeadEnds(value, b, a);
    if |a| > 1 { SplitTail(value, a); }
    if |b| > 1 { SplitTail(value, b); }
  }

  /** The alternatives of a group, cut at its top-level commas. */
  function Split(value: Bytes): (parts: seq<Bytes>)
    ensures SplitInto(value, parts)
  {
    SplitFrom(value, 0)
  }

  /** The alternatives of `value`, the first of which goes on at least to `i`. */
  function SplitFrom(value: Bytes, i: nat): (parts: seq<Bytes>)
    requires i <= |value|
    requires forall k :: 0 <= k < i ==> !(value[k] == COMMA && Depth(value[..k], 0) == 0)
    ensures SplitInto(value, parts)
    decreases |value|, |value| - i
  {
    if i == |value| then
      [value]
    else if value[i] == COMMA && Depth(value[..i], 0) == 0 then
      var rest := SplitFrom(value[i + 1..], 0);
      SplitHere(value, i, rest);
      [value[..i]] + rest
    else
      SplitFrom(value, i + 1)
  }

  lemma SplitHere(value: Bytes, i: nat, rest: seq<Bytes>)
    requires i < |value| && value[i] == COMMA && Depth(value[..i], 0) == 0
    requires forall k :: 0 <= k < i ==> !(value[k] == COMMA && Depth(value[..k], 0) == 0)
    requires SplitInto(value[i + 1..], rest)
    ensures SplitInto(value, [value[..i]] + rest)
  {
    var parts := [value[..i]] + rest;
    assert parts[1..] == rest;
    assert value == value[..i] + [COMMA] + value[i + 1..];
    forall k | 0 <= k < i ensures !(value[..i][k] == COMMA && Depth(value[..i][..k], 0) == 0) {
      assert value[..i][..k] == value[..k];
    }
  }

  /** The loop over bytes, with the depth counter kept across alternatives. */
  method SplitBraceAlternatives(value: Bytes) returns (alternatives: seq<Bytes>)
    ensures alternatives == Split(value)
  {
    alternatives := [];
    var start, depth: nat := 0, 0;
    for index := 0 to |value|
      invariant 0 <= start <= index
      invariant depth == Depth(value[start..index], 0)
      invariant !HasTopComma(value[start..index])
      invariant SplitSoFar(value, alternatives, start)
    {
      var b, part := value[index], value[start..index];
      assert value[start..index + 1] == part + [b];
      DepthStep(part, 0, b);
      NoCommaYet(part, b);
      if b == OPEN {
        depth := depth + 1;
      } else if b == CLOSE {
        depth := if depth > 0 then depth - 1 else 0;
      } else if b == COMMA && depth == 0 {
        OneMorePart(value, alternatives, start, index);
        alternatives := alternatives + [part];
        start := index + 1;
        assert value[start..index + 1] == [];
      }
    }
    var last := value[start..];
    assert last == value[start..|value|];
    LastPart(value, alternatives, start);
    alternatives := alternatives + [last];
    SplitIsUnique(value, alternatives, Split(value));
  }

  /** The parts found before `start`, each with the comma after it. */
  ghost predicate SplitSoFar(value: Bytes, parts: seq<Bytes>, start: nat) {
    && start <= |value|
    && (forall k :: 0 <= k < |parts| ==> !HasTopComma(parts[k]) && Depth(parts[k], 0) == 0)
    && (if parts == [] then start == 0 else start > 0 && Join(parts) + [COMMA] == value[..start])
  }

  lemma OneMorePart(value: Bytes, parts: seq<Bytes>, start: nat, index: nat)
    requires SplitSoFar(value, parts, start) && start <= index < |value| && value[index] == COMMA
    requires !HasTopComma(value[start..index]) && Depth(value[start..index], 0) == 0
    ensures SplitSoFar(value, parts + [value[start..index]], index + 1)
  {
    var part := value[start..index];
    if parts != [] {
      JoinAppend(parts, part);
      assert value[..index + 1] == value[..start] + part + [COMMA];
    } else {
      assert value[..index + 1] == part + [COMMA];
    }
  }

  lemma LastPart(value: Bytes, parts: seq<Bytes>, start: nat)
    requires SplitSoFar(value, parts, start) && !HasTopComma(value[start..])
    ensures SplitInto(value, parts + [value[start..]])
  {
    var last := value[start..];
    if parts != [] {
      JoinAppend(parts, last);
      assert value == value[..start] + last;
    }
  }

  lemma NoCommaYet(part: Bytes, b: byte)
    requires !HasTopComma(part)
    ensures !(b == COMMA && Depth(part, 0) == 0) ==> !HasTopComma(part + [b])
  {
    var longer := part + [b];
    forall i | 0 <= i < |longer| && !(b == COMMA && Depth(part, 0) == 0)
      ensures !(longer[i] == COMMA && Depth(longer[..i], 0) == 0)
    {
      if i < |part| {
        assert longer[..i] == part[..i];
      } else {
        assert longer[..i] == part;
      }
    }
  }

  lemma {:induction false} JoinLength(parts: seq<Bytes>, k: nat)
    requires k < |parts|
    ensures |parts[k]| <= |Join(parts)|
    ensures |parts| > 1 ==> |parts[k]| < |Join(parts)|
    decreases |parts|
  {
    if |parts| > 1 && k > 0 {
      JoinLength(parts[1..], k - 1);
    }
  }

  /** The first group that closes: from the first opening brace to the first position
      after it where as many braces have closed as opened. */
  function FirstGroup(pattern: Bytes): (r: Option<(nat, nat)>)
    ensures r.Some? ==> r.value.0 < r.value.1 < |pattern|
    ensures r.Some? ==> pattern[r.value.0] == OPEN && pattern[r.value.1] == CLOSE
  {
    var open := FirstOpen(pattern, 0);
    if open == |pattern| then None
    else
      var close := FirstClose(pattern, open + 1, 1);
      if close == |pattern| then None else Some((open, close))
  }

  function FirstOpen(pattern: Bytes, from: nat): (i: nat)
    requires from <= |pattern|
    ensures from <= i <= |pattern| && (i < |pattern| ==> pattern[i] == OPEN)
    ensures forall k :: from <= k < i ==> pattern[k] != OPEN
    decreases |pattern| - from
  {
    if from == |pattern| || pattern[from] == OPEN then from else FirstOpen(pattern, from + 1)
  }

  function FirstClose(pattern: Bytes, from: nat, depth: nat): (i: nat)
    requires from <= |pattern| && depth > 0
    ensures from <= i <= |pattern| && (i < |pattern| ==> pattern[i] == CLOSE)
    decreases |pattern| - from
  {
    if from == |pattern| then from
    else if pattern[from] == OPEN then FirstClose(pattern, from + 1, depth + 1)
    else if pattern[from] == CLOSE then if depth == 1 then from else FirstClose(pattern, from + 1, depth - 1)
    else FirstClose(pattern, from + 1, depth)
  }

  /** The first opening brace, and the brace at which the nesting it begins ends. */
  ghost predicate Matching(pattern: Bytes, open: nat, close: nat) {
    && open < close < |pattern| && pattern[open] == OPEN && pattern[close] == CLOSE
    && (forall k :: 0 <= k < open ==> pattern[k] != OPEN)
    && Depth(pattern[open..close + 1], 0) == 0
    && (forall k :: open < k <= close ==> Depth(pattern[open..k], 0) > 0)
  }

  lemma {:induction false} ClosesWhereDepthEnds(pattern: Bytes, open: nat, from: nat, depth: nat)
    requires open < from <= |pattern| && depth > 0 && Depth(pattern[open..from], 0) == depth
    ensures
      var close := FirstClose(pattern, from, depth);
      && (forall k :: from <= k <= close && k <= |pattern| ==> Depth(pattern[open..k], 0) > 0)
      && (close < |pattern| ==> Depth(pattern[open..close + 1], 0) == 0)
    decreases |pattern| - from
  {
    if from < |pattern| {
      assert pattern[open..from + 1] == pattern[open..from] + [pattern[from]];
      DepthStep(pattern[open..from], 0, pattern[from]);
      var next := Depth(pattern[open..from + 1], 0);
      if next > 0 {
        ClosesWhereDepthEnds(pattern, open, from + 1, next);
      }
    }
  }

  /** The group found is the one that the nesting depth delimits. */
  lemma GroupIsMatching(pattern: Bytes, open: nat, close: nat)
    ensures FirstGroup(pattern) == Some((open, close)) <==> Matching(pattern, open, close)
  {
    var first := FirstOpen(pattern, 0);
    if first < |pattern| {
      assert pattern[first..first + 1] == [OPEN];
      assert [OPEN][1..] == [];
      ClosesWhereDepthEnds(pattern, first, first + 1, 1);
      if Matching(pattern, open, close) {
        assert open == first;
        var found := FirstClose(pattern, first + 1, 1);
        // The nesting after either brace.
        var atFound := if found < |pattern| then Depth(pattern[first..found + 1], 0) else 0;
        var atClose := Depth(pattern[first..close + 1], 0);
      }
    }
  }

  function Chosen(pattern: Bytes, group: (nat, nat), alternative: Bytes): Bytes
    requires group.0 < group.1 < |pattern|
  {
    pattern[..group.0] + alternative + pattern[group.1 + 1..]
  }

  /** The alternatives of the first group, if it has more than one. */
  function Alternatives(pattern: Bytes): (r: Option<((nat, nat), seq<Bytes>)>)
    ensures r.Some? ==> r.value.0.0 < r.value.0.1 < |pattern|
    ensures r.Some? ==> forall k :: 0 <= k < |r.value.1| ==> |Chosen(pattern, r.value.0, r.value.1[k])| < |pattern|
  {
    var group := FirstGroup(pattern);
    if group.None? then None
    else
      var inner := pattern[group.value.0 + 1..group.value.1];
      var alternatives := Split(inner);
      assert forall k :: 0 <= k < |alternatives| ==> |alternatives[k]| <= |inner| by {
        forall k | 0 <= k < |alternatives| ensures |alternatives[k]| <= |inner| {
          JoinLength(alternatives, k);
        }
      }
      if |alternatives| <= 1 then None else Some((group.value, alternatives))
  }

  /** All expansions, depth first, without a limit. */
  function Leaves(pattern: Bytes): (r: seq<Bytes>)
    ensures r != []
    decreases |pattern|, 1, 0
  {
    var alternatives := Alternatives(pattern);
    if alternatives.None? then [pattern] else LeavesOfEach(pattern, alternatives.value.0, alternatives.value.1, 0)
  }

  function LeavesOfEach(pattern: Bytes, group: (nat, nat), alternatives: seq<Bytes>, k: nat): (r: seq<Bytes>)
    requires group.0 < group.1 < |pattern| && k <= |alternatives|
    requires forall i :: 0 <= i < |alternatives| ==> |Chosen(pattern, group, alternatives[i])| < |pattern|
    ensures k < |alternatives| ==> r != []
    decreases |pattern|, 0, |alternatives| - k
  {
    if k == |alternatives| then []
    else Leaves(Chosen(pattern, group, alternatives[k])) + LeavesOfEach(pattern, group, alternatives, k + 1)
  }

  /** `output` with as much of `more` as the limit leaves room for. */
  function Filled(output: seq<Bytes>, more: seq<Bytes>, limit: nat): seq<Bytes> {
    if |output| >= limit then output
    else if |output| + |more| <= limit then output + more
    else output + more[..limit - |output|]
  }

  lemma FilledTwice(output: seq<Bytes>, a: seq<Bytes>, b: seq<Bytes>, limit: nat)
    ensures Filled(Filled(output, a, limit), b, limit) == Filled(output, a + b, limit)
  {
    if |output| < limit {
      if |output| + |a| > limit {
        assert (a + b)[..limit - |output|] == a[..limit - |output|];
      } else if |output| + |a| + |b| > limit {
        assert output + a + b[..limit - |output| - |a|] == output + (a + b)[..limit - |output|];
      } else {
        assert output + a + b == output + (a + b);
      }
    }
  }

  /** The scan for the first group, byte by byte. */
  method FindGroup(pattern: Bytes) returns (r: Option<(nat, nat)>)
    ensures r == FirstGroup(pattern)
  {
    var open, depth: nat := 0, 0;
    for index := 0 to |pattern|
      invariant open <= index
      invariant depth == 0 ==> FirstOpen(pattern, 0) == FirstOpen(pattern, index)
      invariant depth > 0 ==> open < |pattern| && FirstOpen(pattern, 0) == open
      invariant depth > 0 ==> FirstClose(pattern, open + 1, 1) == FirstClose(pattern, index, depth)
    {
      if pattern[index] == OPEN {
        if depth == 0 {
          open := index;
        }
        depth := depth + 1;
      } else if pattern[index] == CLOSE && depth > 0 {
        depth := depth - 1;
        if depth == 0 {
          return Some((open, index));
        }
      }
    }
    return None;
  }

  /** Expansion pushes exactly the first leaves, as many as the limit leaves room for. */
  method ExpandBraces(pattern: Bytes, output: seq<Bytes>, limit: nat) returns (r: seq<Bytes>)
    ensures r == Filled(output, Leaves(pattern), limit)
    decreases |pattern|
  {
    r := output;
    if |output| >= limit {
      return;
    }
    var group := FindGroup(pattern);
    if group.Some? {
      var alternatives := SplitBraceAlternatives(pattern[group.value.0 + 1..group.value.1]);
      if |alternatives| > 1 {
        assert Alternatives(pattern) == Some((group.value, alternatives));
        for k := 0 to |alternatives|
          invariant Filled(r, LeavesOfEach(pattern, group.value, alternatives, k), limit) ==
            Filled(output, Leaves(pattern), limit)
        {
          if |r| >= limit {
            return;
          }
          var expanded := Chosen(pattern, group.value, alternatives[k]);
          FilledTwice(r, Leaves(expanded), LeavesOfEach(pattern, group.value, alternatives, k + 1), limit);
          r := ExpandBraces(expanded, r, limit);
        }
        assert Filled(r, [], limit) == r;
        return;
      }
    }
    r := r + [pattern];
  }
}
