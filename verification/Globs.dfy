/** Memoised matching of glob patterns against slash-separated paths. */
module Globs {
  import opened Results
  import opened ByteStrings
  import opened Braces
  import Expansions

  const STAR: byte := 42
  const SLASH: byte := 47
  const QUESTION: byte := 63
  const BRACKET: byte := 91
  const END_BRACKET: byte := 93
  const BANG: byte := 33
  const DASH: byte := 45

  /** What one piece of a pattern stands for. */
  datatype Token =
    | Run                                            // a run without slashes
    | AnyRun                                         // any run
    | Directories                                    // any run that ends at the start or after a slash
    | AnyOne                                         // one byte that is no slash
    | OneOf(ranges: seq<(byte, byte)>, negated: bool) // one byte of a class, never a slash
    | Exactly(b: byte)
    | Nothing                                        // an unclosed class matches no path

  /** The ranges of a class: `a-z` is one, any other byte stands for itself. */
  function Ranges(members: Bytes): seq<(byte, byte)> {
    if members == [] then []
    else if |members| > 2 && members[1] == DASH then [(members[0], members[2])] + Ranges(members[3..])
    else [(members[0], members[0])] + Ranges(members[1..])
  }

  predicate InRanges(b: byte, ranges: seq<(byte, byte)>) {
    exists r | r in ranges :: r.0 <= b <= r.1
  }

  function FindEnd(pattern: Bytes, from: nat): (i: nat)
    requires from <= |pattern|
    ensures from <= i <= |pattern|
    decreases |pattern| - from
  {
    if from == |pattern| || pattern[from] == END_BRACKET then from else FindEnd(pattern, from + 1)
  }

  /** The class of the pattern at `p`, with the position after it. */
  function ClassAt(pattern: Bytes, p: nat): (r: Option<(seq<(byte, byte)>, bool, nat)>)
    requires p < |pattern|
    ensures r.Some? ==> p < r.value.2 <= |pattern|
  {
    var end := FindEnd(pattern, p + 1);
    if end == |pattern| then None
    else
      var members := pattern[p + 1..end];
      if members != [] && members[0] == BANG then Some((Ranges(members[1..]), true, end + 1))
      else Some((Ranges(members), false, end + 1))
  }

  /** The first token of the pattern from `p` on, and where the next one starts. */
  function TokenAt(pattern: Bytes, p: nat): (r: (Token, nat))
    requires p < |pattern|
    ensures p < r.1 <= |pattern|
  {
    if pattern[p] == STAR then
      if p + 1 < |pattern| && pattern[p + 1] == STAR then
        if p + 2 < |pattern| && pattern[p + 2] == SLASH then (Directories, p + 3) else (AnyRun, p + 2)
      else (Run, p + 1)
    else if pattern[p] == QUESTION then (AnyOne, p + 1)
    else if pattern[p] == BRACKET then
      var found := ClassAt(pattern, p);
      if found.Some? then (OneOf(found.value.0, found.value.1), found.value.2) else (Nothing, |pattern|)
    else (Exactly(pattern[p]), p + 1)
  }

  function Tokens(pattern: Bytes, p: nat): seq<Token>
    requires p <= |pattern|
    decreases |pattern| - p
  {
    if p == |pattern| then [] else [TokenAt(pattern, p).0] + Tokens(pattern, TokenAt(pattern, p).1)
  }

  /** One token stands for the stretch of the path from `i` to `j`. */
  predicate Spans(token: Token, path: Bytes, i: nat, j: nat)
    requires i <= j <= |path|
  {
    match token
    case Run => forall k | i <= k < j :: path[k] != SLASH
    case AnyRun => true
    case Directories => j == 0 || path[j - 1] == SLASH
    case AnyOne => j == i + 1 && path[i] != SLASH
    case OneOf(ranges, negated) => j == i + 1 && path[i] != SLASH && InRanges(path[i], ranges) != negated
    case Exactly(b) => j == i + 1 && path[i] == b
    case Nothing => false
  }

  /** The path can be cut into stretches that its tokens stand for, one after the other. */
  ghost predicate Denotes(tokens: seq<Token>, path: Bytes, i: nat)
    requires i <= |path|
  {
    if tokens == [] then i == |path|
    else exists j :: i <= j <= |path| && Spans(tokens[0], path, i, j) && Denotes(tokens[1..], path, j)
  }

  /** The true answer for one cell of the table. */
  ghost predicate Answer(pattern: Bytes, path: Bytes, p: nat, i: nat)
    requires p <= |pattern| && i <= |path|
  {
    Denotes(Tokens(pattern, p), path, i)
  }

  lemma AnswerStep(pattern: Bytes, path: Bytes, p: nat, i: nat)
    requires p < |pattern| && i <= |path|
    ensures Answer(pattern, path, p, i) <==>
      exists j ::
        i <= j <= |path| && Spans(TokenAt(pattern, p).0, path, i, j) && Answer(pattern, path, TokenAt(pattern, p).1, j)
  {
    var tokens := Tokens(pattern, p);
    assert tokens[1..] == Tokens(pattern, TokenAt(pattern, p).1);
  }

  /** A star either stops here or takes one more byte. */
  lemma StarAnswer(pattern: Bytes, path: Bytes, p: nat, i: nat)
    requires p < |pattern| && i <= |path| && pattern[p] == STAR
    ensures var (token, next) := TokenAt(pattern, p);
      Answer(pattern, path, p, i) <==>
        || ((token.Directories? ==> i == 0 || path[i - 1] == SLASH) && Answer(pattern, path, next, i))
        || (i < |path| && (token.Run? ==> path[i] != SLASH) && Answer(pattern, path, p, i + 1))
  {
    var (token, next) := TokenAt(pattern, p);
    AnswerStep(pattern, path, p, i);
    if i < |path| {
      AnswerStep(pattern, path, p, i + 1);
      if Answer(pattern, path, p, i) {
        var j :| i <= j <= |path| && Spans(token, path, i, j) && Answer(pattern, path, next, j);
        if j > i {
          assert Spans(token, path, i + 1, j);
        }
      }
      if (token.Run? ==> path[i] != SLASH) && Answer(pattern, path, p, i + 1) {
        var j :| i + 1 <= j <= |path| && Spans(token, path, i + 1, j) && Answer(pattern, path, next, j);
        assert Spans(token, path, i, j);
      }
    }
    if (token.Directories? ==> i == 0 || path[i - 1] == SLASH) && Answer(pattern, path, next, i) {
      assert Spans(token, path, i, i);
    }
  }

  /** Any other token takes exactly one byte, or none can satisfy it. */
  lemma ByteAnswer(pattern: Bytes, path: Bytes, p: nat, i: nat)
    requires p < |pattern| && i <= |path| && pattern[p] != STAR
    ensures var (token, next) := TokenAt(pattern, p);
      Answer(pattern, path, p, i) <==> i < |path| && Spans(token, path, i, i + 1) && Answer(pattern, path, next, i + 1)
  {
    AnswerStep(pattern, path, p, i);
  }

  /** Reads the class at `p` and tests one byte, if there is one and it is no slash. */
  method CharacterClass(pattern: Bytes, p: nat, character: Option<byte>) returns (r: Option<(bool, nat)>)
    requires p < |pattern|
    ensures r.Some? <==> character.Some? && character.value != SLASH && ClassAt(pattern, p).Some?
    ensures r.Some? ==>
      var (ranges, negated, next) := ClassAt(pattern, p).value;
      r.value == (InRanges(character.value, ranges) != negated, next)
  {
    if character.None? || character.value == SLASH {
      return None;
    }
    var b := character.value;
    var end := p + 1;
    while end < |pattern| && pattern[end] != END_BRACKET
      invariant p + 1 <= end <= |pattern| && FindEnd(pattern, p + 1) == FindEnd(pattern, end)
    {
      end := end + 1;
    }
    if end == |pattern| {
      return None;
    }
    var members := pattern[p + 1..end];
    var negated := members != [] && members[0] == BANG;
    if negated {
      members := members[1..];
    }
    var matched, index := false, 0;
    while index < |members|
      invariant index <= |members|
      invariant InRanges(b, Ranges(members)) <==> matched || InRanges(b, Ranges(members[index..]))
    {
      var rest := members[index..];
      if index + 2 < |members| && members[index + 1] == DASH {
        RangeStep(b, (members[index], members[index + 2]), Ranges(members[index + 3..]));
        assert rest[3..] == members[index + 3..];
        matched := matched || members[index] <= b <= members[index + 2];
        index := index + 3;
      } else {
        RangeStep(b, (members[index], members[index]), Ranges(members[index + 1..]));
        assert rest[1..] == members[index + 1..];
        matched := matched || members[index] == b;
        index := index + 1;
      }
    }
    assert members[index..] == [];
    return Some((matched != negated, end + 1));
  }

  lemma RangeStep(b: byte, first: (byte, byte), rest: seq<(byte, byte)>)
    ensures InRanges(b, [first] + rest) <==> first.0 <= b <= first.1 || InRanges(b, rest)
  {
    if InRanges(b, [first] + rest) {
      var r :| r in [first] + rest && r.0 <= b <= r.1;
    }
    if first.0 <= b <= first.1 {
      assert first in [first] + rest;
    }
    if InRanges(b, rest) {
      var r :| r in rest && r.0 <= b <= r.1;
      assert r in [first] + rest;
    }
  }

  /** The table fits pattern and path, and every filled cell holds the true answer. */
  ghost predicate Sound(pattern: Bytes, path: Bytes, states: array2<Option<bool>>)
    reads states
  {
    && states.Length0 == |pattern| + 1 && states.Length1 == |path| + 1
    && forall p, i :: 0 <= p <= |pattern| && 0 <= i <= |path| && states[p, i].Some? ==>
       states[p, i].value == Answer(pattern, path, p, i)
  }

  /** The filled cells. */
  ghost function FilledCells(states: array2<Option<bool>>): set<(nat, nat)>
    reads states
  {
    set p: nat, i: nat | p < states.Length0 && i < states.Length1 && states[p, i].Some? :: (p, i)
  }

  /** Matches the rest of the pattern against the rest of the path. `computed` lists the
      cells this call worked out: none was filled before, none lies before the start, and
      none appears twice. */
  method GlobMatchesAt(pattern: Bytes, path: Bytes, p: nat, i: nat, states: array2<Option<bool>>)
    returns (result: bool, ghost computed: seq<(nat, nat)>)
    requires p <= |pattern| && i <= |path| && Sound(pattern, path, states)
    modifies states
    ensures Sound(pattern, path, states)
    ensures result == Answer(pattern, path, p, i)
    ensures OnceEach(computed, old(FilledCells(states)), FilledCells(states))
    ensures From(computed, p, i)
    ensures (p, i) in FilledCells(states)
    decreases |pattern| - p, |path| - i
  {
    if states[p, i].Some? {
      return states[p, i].value, [];
    }
    computed := [];
    if p == |pattern| {
      result := i == |path|;
    } else if pattern[p] == STAR {
      result, computed := MatchStar(pattern, path, p, i, states);
    } else {
      result, computed := MatchByte(pattern, path, p, i, states);
    }
    ghost var before := FilledCells(states);
    assert (p, i) !in before;
    states[p, i] := Some(result);
    assert FilledCells(states) == before + {(p, i)};
    computed := computed + [(p, i)];
  }

  /** `computed` lists, once each, exactly the cells of `after` that `before` lacks. */
  ghost predicate OnceEach(computed: seq<(nat, nat)>, before: set<(nat, nat)>, after: set<(nat, nat)>) {
    && before <= after
    && (forall c :: c in computed <==> c in after && c !in before)
    && (forall k, l :: 0 <= k < l < |computed| ==> computed[k] != computed[l])
  }

  lemma OnceThenOnce(
      a: seq<(nat, nat)>, b: seq<(nat, nat)>, before: set<(nat, nat)>, middle: set<(nat, nat)>, after: set<(nat, nat)>)
    requires OnceEach(a, before, middle) && OnceEach(b, middle, after)
    ensures OnceEach(a + b, before, after)
  {
    forall k, l | 0 <= k < l < |a + b| ensures (a + b)[k] != (a + b)[l] {
      if k < |a| <= l {
        assert a[k] in a && b[l - |a|] in b;
      }
    }
  }

  /** Every cell lies in a later row, or in row `p` from column `i` on. */
  ghost predicate From(computed: seq<(nat, nat)>, p: nat, i: nat) {
    forall c :: c in computed ==> c.0 > p || (c.0 == p && c.1 >= i)
  }

  method MatchStar(pattern: Bytes, path: Bytes, p: nat, i: nat, states: array2<Option<bool>>)
    returns (result: bool, ghost computed: seq<(nat, nat)>)
    requires p < |pattern| && i <= |path| && Sound(pattern, path, states) && pattern[p] == STAR
    modifies states
    ensures Sound(pattern, path, states)
    ensures result == Answer(pattern, path, p, i)
    ensures OnceEach(computed, old(FilledCells(states)), FilledCells(states))
    ensures From(computed, p, i + 1)
    decreases |pattern| - p, |path| - i, 0
  {
    StarAnswer(pattern, path, p, i);
    var recursive := p + 1 < |pattern| && pattern[p + 1] == STAR;
    var next := p + if recursive then 2 else 1;
    var directory := recursive && next < |pattern| && pattern[next] == SLASH;
    if directory {
      next := next + 1;
    }
    result, computed := false, [];
    ghost var before := FilledCells(states);
    if !directory || i == 0 || path[i - 1] == SLASH {
      result, computed := GlobMatchesAt(pattern, path, next, i, states);
    }
    ghost var middle := FilledCells(states);
    assert OnceEach(computed, before, middle);
    if !result && i < |path| && (recursive || path[i] != SLASH) {
      ghost var more;
      result, more := GlobMatchesAt(pattern, path, p, i + 1, states);
      OnceThenOnce(computed, more, before, middle, FilledCells(states));
      computed := computed + more;
    }
  }

  method MatchByte(pattern: Bytes, path: Bytes, p: nat, i: nat, states: array2<Option<bool>>)
    returns (result: bool, ghost computed: seq<(nat, nat)>)
    requires p < |pattern| && i <= |path| && Sound(pattern, path, states) && pattern[p] != STAR
    modifies states
    ensures Sound(pattern, path, states)
    ensures result == Answer(pattern, path, p, i)
    ensures OnceEach(computed, old(FilledCells(states)), FilledCells(states))
    ensures From(computed, p, i + 1)
    decreases |pattern| - p, |path| - i, 0
  {
    ByteAnswer(pattern, path, p, i);
    result, computed := false, [];
    var next := TakeByte(pattern, path, p, i);
    if next.Some? {
      result, computed := GlobMatchesAt(pattern, path, next.value, i + 1, states);
    }
  }

  /** Where the pattern goes on after its token has taken the byte at `i`, if it does. */
  method TakeByte(pattern: Bytes, path: Bytes, p: nat, i: nat) returns (next: Option<nat>)
    requires p < |pattern| && i <= |path| && pattern[p] != STAR
    ensures next.Some? <==> i < |path| && Spans(TokenAt(pattern, p).0, path, i, i + 1)
    ensures next.Some? ==> next.value == TokenAt(pattern, p).1
  {
    next := None;
    if pattern[p] == QUESTION {
      if i < |path| && path[i] != SLASH {
        next := Some(p + 1);
      }
    } else if pattern[p] == BRACKET {
      var found := CharacterClass(pattern, p, if i < |path| then Some(path[i]) else None);
      if found.Some? && found.value.0 {
        next := Some(found.value.1);
      }
    } else if i < |path| && path[i] == pattern[p] {
      next := Some(p + 1);
    }
  }

  /** Some of the first 256 expansions of the pattern's tree stands for the path. */
  ghost predicate GlobDenotes(pattern: Bytes, path: Bytes) {
    SomeStands(Expansions.Product(Expansions.Parse(pattern, 0)), path)
  }

  ghost predicate SomeStands(expansions: seq<Expansions.Expansion>, path: Bytes) {
    exists k :: 0 <= k < |expansions| && k < 256 && Answer(expansions[k].text, path, 0, 0)
  }

  lemma FirstStands(expansions: seq<Expansions.Expansion>, first: seq<Bytes>, path: Bytes)
    requires first == Filled([], Expansions.Texts(expansions), 256)
    ensures SomeStands(expansions, path) <==> exists e :: e in first && Answer(e, path, 0, 0)
  {
    assert |first| == if |expansions| < 256 then |expansions| else 256;
    assert forall k :: 0 <= k < |first| ==> first[k] == expansions[k].text;
    if SomeStands(expansions, path) {
      var k :| 0 <= k < |expansions| && k < 256 && Answer(expansions[k].text, path, 0, 0);
      assert first[k] in first;
    }
  }

  lemma DenotesIfLeaf(pattern: Bytes, path: Bytes, first: seq<Bytes>)
    requires first == Filled([], Leaves(pattern), 256)
    ensures GlobDenotes(pattern, path) <==> exists e :: e in first && Answer(e, path, 0, 0)
  {
    Expansions.LeavesAreExpansions(pattern);
    FirstStands(Expansions.Product(Expansions.Parse(pattern, 0)), first, path);
  }

  /** One expansion, with a table of its own. */
  method ExpansionMatches(pattern: Bytes, path: Bytes) returns (result: bool)
    ensures result == Answer(pattern, path, 0, 0)
  {
    var states := new Option<bool>[|pattern| + 1, |path| + 1]((p, i) => None);
    var matches, _ := GlobMatchesAt(pattern, path, 0, 0, states);
    return matches;
  }

  method AnyMatches(expanded: seq<Bytes>, path: Bytes) returns (result: bool)
    ensures result <==> exists e :: e in expanded && Answer(e, path, 0, 0)
  {
    for k := 0 to |expanded|
      invariant forall j :: 0 <= j < k ==> !Answer(expanded[j], path, 0, 0)
    {
      var matches := ExpansionMatches(expanded[k], path);
      if matches {
        return true;
      }
    }
    return false;
  }

  method GlobMatches(pattern: Bytes, path: Bytes) returns (result: bool)
    ensures result <==> GlobDenotes(pattern, path)
  {
    var expanded := ExpandBraces(pattern, [], 256);
    DenotesIfLeaf(pattern, path, expanded);
    result := AnyMatches(expanded, path);
  }
}
