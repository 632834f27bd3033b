/** What a pattern with brace groups expands to, read off its tree. */
module Expansions {
  import opened Results
  import opened ByteStrings
  import opened Braces

  datatype Pattern =
    | End
    | Literal(b: byte, rest: Pattern)
    | Group(choices: Choices, rest: Pattern)
    | Unclosed(text: Bytes)

  datatype Choices = Last(only: Pattern) | More(first: Pattern, others: Choices)

  function Print(p: Pattern): Bytes {
    match p
    case End => []
    case Literal(b, rest) => [b] + Print(rest)
    case Group(choices, rest) => Enclosed(PrintChoices(choices), Print(rest))
    case Unclosed(text) => text
  }

  function Enclosed(inner: Bytes, after: Bytes): (r: Bytes)
    ensures |r| == |inner| + |after| + 2
  {
    [OPEN] + inner + [CLOSE] + after
  }

  lemma EnclosedAppend(inner: Bytes, after: Bytes, more: Bytes)
    ensures Enclosed(inner, after) + more == Enclosed(inner, after + more)
  {
  }

  function PrintChoices(choices: Choices): Bytes {
    match choices
    case Last(only) => Print(only)
    case More(first, others) => Print(first) + [COMMA] + PrintChoices(others)
  }

  /** Closing braces and commas are literals outside groups only; a brace that opens and is
      never closed can only come after every group. */
  predicate WellFormed(p: Pattern, nested: bool) {
    match p
    case End => true
    case Literal(b, rest) => b != OPEN && (nested ==> b != CLOSE && b != COMMA) && WellFormed(rest, nested)
    case Group(choices, rest) => ChoicesWellFormed(choices) && WellFormed(rest, nested)
    case Unclosed(text) => !nested && text != [] && text[0] == OPEN && FirstClose(text, 1, 1) == |text|
  }

  predicate ChoicesWellFormed(choices: Choices) {
    match choices
    case Last(only) => WellFormed(only, true)
    case More(first, others) => WellFormed(first, true) && ChoicesWellFormed(others)
  }

  // Every string has a tree

  /** The tree of a pattern, from one position on. */
  function Parse(s: Bytes, from: nat): Pattern
    requires from <= |s|
    decreases |s| - from
  {
    if from == |s| then End
    else if s[from] != OPEN then Literal(s[from], Parse(s, from + 1))
    else
      var close := FirstClose(s, from + 1, 1);
      if close == |s| then Unclosed(s[from..]) else Group(ParseChoices(s, from + 1), Parse(s, close + 1))
  }

  /** The alternatives up to the brace that closes their group. */
  function ParseChoices(s: Bytes, from: nat): Choices
    requires from <= |s| && FirstClose(s, from, 1) < |s|
    decreases |s| - from
  {
    if s[from] == CLOSE then Last(End)
    else if s[from] == COMMA then More(End, ParseChoices(s, from + 1))
    else if s[from] == OPEN then
      CloseTwice(s, from + 1, 1);
      var choices := ParseChoices(s, FirstClose(s, from + 1, 1) + 1);
      WithFirst(choices, Group(ParseChoices(s, from + 1), First(choices)))
    else
      var choices := ParseChoices(s, from + 1);
      WithFirst(choices, Literal(s[from], First(choices)))
  }

  function First(choices: Choices): Pattern {
    if choices.Last? then choices.only else choices.first
  }

  function WithFirst(choices: Choices, p: Pattern): Choices {
    if choices.Last? then Last(p) else More(p, choices.others)
  }

  predicate Reads(choices: Choices, s: Bytes, from: nat, close: nat) {
    from <= close <= |s| && ChoicesWellFormed(choices) && PrintChoices(choices) == s[from..close]
  }

  lemma ReadsComma(s: Bytes, from: nat, close: nat, choices: Choices)
    requires from < |s| && s[from] == COMMA && Reads(choices, s, from + 1, close)
    ensures Reads(More(End, choices), s, from, close)
  {
  }

  lemma ReadsLiteral(s: Bytes, from: nat, close: nat, choices: Choices)
    requires from < |s| && s[from] != OPEN && s[from] != CLOSE && s[from] != COMMA
    requires Reads(choices, s, from + 1, close)
    ensures Reads(WithFirst(choices, Literal(s[from], First(choices))), s, from, close)
  {
    LiteralFirst(s[from], choices);
    assert s[from..close] == [s[from]] + s[from + 1..close];
  }

  lemma CutEnclosed(s: Bytes, from: nat, inner: nat, close: nat)
    requires from < inner < close <= |s| && s[from] == OPEN && s[inner] == CLOSE
    ensures s[from..close] == Enclosed(s[from + 1..inner], s[inner + 1..close])
  {
  }

  lemma ReadsGroup(s: Bytes, from: nat, inner: nat, close: nat, nested: Choices, choices: Choices)
    requires from < inner < close <= |s| && s[from] == OPEN && s[inner] == CLOSE
    requires Reads(nested, s, from + 1, inner) && Reads(choices, s, inner + 1, close)
    ensures Reads(WithFirst(choices, Group(nested, First(choices))), s, from, close)
  {
    GroupFirst(nested, choices);
    CutEnclosed(s, from, inner, close);
  }

  lemma {:induction false} ChoicesAreRead(s: Bytes, from: nat)
    requires from <= |s| && FirstClose(s, from, 1) < |s|
    ensures Reads(ParseChoices(s, from), s, from, FirstClose(s, from, 1))
    decreases |s| - from
  {
    var close := FirstClose(s, from, 1);
    if s[from] == COMMA {
      ChoicesAreRead(s, from + 1);
      ReadsComma(s, from, close, ParseChoices(s, from + 1));
    } else if s[from] == OPEN {
      CloseTwice(s, from + 1, 1);
      var inner := FirstClose(s, from + 1, 1);
      ChoicesAreRead(s, from + 1);
      ChoicesAreRead(s, inner + 1);
      ReadsGroup(s, from, inner, close, ParseChoices(s, from + 1), ParseChoices(s, inner + 1));
    } else if s[from] != CLOSE {
      ChoicesAreRead(s, from + 1);
      ReadsLiteral(s, from, close, ParseChoices(s, from + 1));
    }
  }

  lemma NeverCloses(s: Bytes, from: nat)
    requires from < |s| && FirstClose(s, from + 1, 1) == |s|
    ensures FirstClose(s[from..], 1, 1) == |s| - from
  {
    assert s == s[..from] + s[from..];
    CloseFurther(s[..from], s[from..], 1, 1);
  }

  lemma {:induction false} PatternIsRead(s: Bytes, from: nat)
    requires from <= |s|
    ensures WellFormed(Parse(s, from), false) && Print(Parse(s, from)) == s[from..]
    decreases |s| - from
  {
    if from < |s| && s[from] != OPEN {
      PatternIsRead(s, from + 1);
    } else if from < |s| {
      var close := FirstClose(s, from + 1, 1);
      if close == |s| {
        NeverCloses(s, from);
      } else {
        ChoicesAreRead(s, from + 1);
        PatternIsRead(s, close + 1);
        CutEnclosed(s, from, close, |s|);
      }
    }
  }

  lemma LiteralFirst(b: byte, choices: Choices)
    requires ChoicesWellFormed(choices) && b != OPEN && b != CLOSE && b != COMMA
    ensures
      var r := WithFirst(choices, Literal(b, First(choices)));
      ChoicesWellFormed(r) && PrintChoices(r) == [b] + PrintChoices(choices)
  {
  }

  lemma GroupFirst(nested: Choices, choices: Choices)
    requires ChoicesWellFormed(nested) && ChoicesWellFormed(choices)
    ensures
      var r := WithFirst(choices, Group(nested, First(choices)));
      ChoicesWellFormed(r) && PrintChoices(r) == Enclosed(PrintChoices(nested), PrintChoices(choices))
  {
    if choices.More? {
      EnclosedAppend(PrintChoices(nested), Print(choices.first), [COMMA] + PrintChoices(choices.others));
    }
  }

  lemma {:induction false} CloseFurther(u: Bytes, s: Bytes, from: nat, depth: nat)
    requires from <= |s| && depth > 0
    ensures FirstClose(u + s, |u| + from, depth) == |u| + FirstClose(s, from, depth)
    decreases |s| - from
  {
    if from < |s| {
      var next := if s[from] == OPEN then depth + 1 else if s[from] == CLOSE then depth - 1 else depth;
      if next > 0 {
        CloseFurther(u, s, from + 1, next);
      }
    }
  }

  /** One level further out closes at the next brace that closes after this level has. */
  lemma {:induction false} CloseTwice(s: Bytes, from: nat, depth: nat)
    requires from <= |s| && depth > 0
    ensures
      var close := FirstClose(s, from, depth);
      FirstClose(s, from, depth + 1) == if close == |s| then close else FirstClose(s, close + 1, 1)
    decreases |s| - from
  {
    if from < |s| {
      var next := if s[from] == OPEN then depth + 1 else if s[from] == CLOSE then depth - 1 else depth;
      if next > 0 {
        CloseTwice(s, from + 1, next);
      }
    }
  }

  // What a tree expands to

  /** An expansion, and whether it is final: a group without alternatives, or one that is
      never closed, ends the expansion, and all that follows is taken as it stands. */
  datatype Expansion = Expansion(text: Bytes, final: bool)

  function Prefixed(u: Bytes, es: seq<Expansion>): (r: seq<Expansion>)
    ensures |r| == |es|
  {
    seq(|es|, i requires 0 <= i < |es| => es[i].(text := u + es[i].text))
  }

  function OneThen(e: Expansion, rest: seq<Expansion>, text: Bytes): seq<Expansion> {
    if e.final then [Expansion(e.text + text, true)] else Prefixed(e.text, rest)
  }

  /** Each of `firsts` followed by each of `rest`, or, if it is final, by `text`. */
  function Then(firsts: seq<Expansion>, rest: seq<Expansion>, text: Bytes): seq<Expansion> {
    if firsts == [] then [] else OneThen(firsts[0], rest, text) + Then(firsts[1..], rest, text)
  }

  /** The product of what the parts expand to, the first part varying slowest. */
  function Product(p: Pattern): seq<Expansion> {
    match p
    case End => [Expansion([], false)]
    case Literal(b, rest) => Prefixed([b], Product(rest))
    case Group(choices, rest) =>
      if choices.Last? then [Expansion(Print(p), true)] else Then(Each(choices), Product(rest), Print(rest))
    case Unclosed(text) => [Expansion(text, true)]
  }

  /** What the alternatives expand to, one after the other. */
  function Each(choices: Choices): seq<Expansion> {
    match choices
    case Last(only) => Product(only)
    case More(first, others) => Product(first) + Each(others)
  }

  function Texts(es: seq<Expansion>): (r: seq<Bytes>)
    ensures |r| == |es|
  {
    seq(|es|, i requires 0 <= i < |es| => es[i].text)
  }

  lemma PrefixedTwice(u: Bytes, v: Bytes, es: seq<Expansion>)
    ensures Prefixed(u, Prefixed(v, es)) == Prefixed(u + v, es)
  {
    forall i | 0 <= i < |es| ensures Prefixed(u, Prefixed(v, es))[i] == Prefixed(u + v, es)[i] {
      assert u + (v + es[i].text) == u + v + es[i].text;
    }
  }

  lemma PrefixedByNothing(es: seq<Expansion>)
    ensures Prefixed([], es) == es
  {
    assert forall i :: 0 <= i < |es| ==> [] + es[i].text == es[i].text;
  }

  lemma {:induction false} ThenAppend(a: seq<Expansion>, b: seq<Expansion>, rest: seq<Expansion>, text: Bytes)
    ensures Then(a + b, rest, text) == Then(a, rest, text) + Then(b, rest, text)
    decreases |a|
  {
    if a == [] {
      assert a + b == b;
    } else {
      assert (a + b)[1..] == a[1..] + b;
      ThenAppend(a[1..], b, rest, text);
    }
  }

  lemma {:induction false} ThenPrefixed(u: Bytes, a: seq<Expansion>, rest: seq<Expansion>, text: Bytes)
    ensures Then(Prefixed(u, a), rest, text) == Prefixed(u, Then(a, rest, text))
    decreases |a|
  {
    if a != [] {
      assert Prefixed(u, a)[1..] == Prefixed(u, a[1..]);
      ThenPrefixed(u, a[1..], rest, text);
      PrefixedTwice(u, a[0].text, rest);
      assert u + (a[0].text + text) == u + a[0].text + text;
    }
  }

  lemma ThenOne(e: Expansion, rest: seq<Expansion>, text: Bytes)
    ensures Then([e], rest, text) == OneThen(e, rest, text)
  {
    assert [e][1..] == [];
  }

  lemma OneThenThen(e: Expansion, b: seq<Expansion>, middle: Bytes, c: seq<Expansion>, text: Bytes)
    ensures Then(OneThen(e, b, middle), c, text) == OneThen(e, Then(b, c, text), middle + text)
  {
    if e.final {
      ThenOne(Expansion(e.text + middle, true), c, text);
      assert e.text + middle + text == e.text + (middle + text);
    } else {
      ThenPrefixed(e.text, b, c, text);
    }
  }

  lemma {:induction false} ThenThen(
      a: seq<Expansion>, b: seq<Expansion>, middle: Bytes, c: seq<Expansion>, text: Bytes)
    ensures Then(Then(a, b, middle), c, text) == Then(a, Then(b, c, text), middle + text)
    decreases |a|
  {
    if a != [] {
      ThenAppend(OneThen(a[0], b, middle), Then(a[1..], b, middle), c, text);
      ThenThen(a[1..], b, middle, c, text);
      OneThenThen(a[0], b, middle, c, text);
    }
  }

  // One tree after another

  function Append(p: Pattern, q: Pattern): Pattern {
    match p
    case End => q
    case Literal(b, rest) => Literal(b, Append(rest, q))
    case Group(choices, rest) => Group(choices, Append(rest, q))
    case Unclosed(_) => p
  }

  lemma {:induction false} AppendPrints(p: Pattern, q: Pattern)
    requires WellFormed(p, true) && WellFormed(q, false)
    ensures WellFormed(Append(p, q), false) && Print(Append(p, q)) == Print(p) + Print(q)
    decreases p
  {
    match p
    case Literal(b, rest) => AppendPrints(rest, q);
    case Group(choices, rest) =>
      AppendPrints(rest, q);
      EnclosedAppend(PrintChoices(choices), Print(rest), Print(q));
    case End =>
  }

  lemma {:induction false} AppendExpands(p: Pattern, q: Pattern)
    requires WellFormed(p, true) && WellFormed(q, false)
    ensures Product(Append(p, q)) == Then(Product(p), Product(q), Print(q))
    decreases p
  {
    AppendPrints(p, q);
    match p
    case End =>
      ThenOne(Expansion([], false), Product(q), Print(q));
      PrefixedByNothing(Product(q));
    case Literal(b, rest) =>
      AppendExpands(rest, q);
      ThenPrefixed([b], Product(rest), Product(q), Print(q));
    case Group(choices, rest) =>
      AppendPrints(rest, q);
      AppendExpands(rest, q);
      if choices.Last? {
        ThenOne(Expansion(Print(p), true), Product(q), Print(q));
      } else {
        ThenThen(Each(choices), Product(rest), Print(rest), Product(q), Print(q));
      }
  }

  // The scans over the bytes find the tree

  predicate StandsAt(s: Bytes, from: nat, part: Bytes) {
    from + |part| <= |s| && s[from..from + |part|] == part
  }

  lemma StandsApart(s: Bytes, from: nat, a: Bytes, b: Bytes)
    requires StandsAt(s, from, a + b)
    ensures StandsAt(s, from, a) && StandsAt(s, from + |a|, b)
  {
    assert a == (a + b)[..|a|] && b == (a + b)[|a|..];
  }

  lemma EnclosedStands(s: Bytes, from: nat, inner: Bytes, after: Bytes)
    requires StandsAt(s, from, Enclosed(inner, after))
    ensures
      var close := from + 1 + |inner|;
      && s[from] == OPEN && s[close] == CLOSE
      && StandsAt(s, from + 1, inner) && StandsAt(s, close + 1, after)
  {
    StandsApart(s, from, [OPEN] + inner + [CLOSE], after);
    StandsApart(s, from, [OPEN] + inner, [CLOSE]);
    StandsApart(s, from, [OPEN], inner);
  }

  lemma SkipLiteral(s: Bytes, from: nat, b: byte, after: Bytes, depth: nat)
    requires StandsAt(s, from, [b] + after) && b != OPEN && b != CLOSE && depth > 0
    ensures StandsAt(s, from + 1, after) && FirstClose(s, from, depth) == FirstClose(s, from + 1, depth)
  {
    StandsApart(s, from, [b], after);
    assert s[from] == s[from..from + 1][0];
  }

  lemma SkipGroup(s: Bytes, from: nat, inner: Bytes, after: Bytes, depth: nat)
    requires StandsAt(s, from, Enclosed(inner, after)) && depth > 0
    requires FirstClose(s, from + 1, depth + 1) == FirstClose(s, from + 1 + |inner|, depth + 1)
    ensures FirstClose(s, from, depth) == FirstClose(s, from + 2 + |inner|, depth)
  {
    EnclosedStands(s, from, inner, after);
  }

  lemma {:induction false} SkipsOver(s: Bytes, from: nat, p: Pattern, depth: nat)
    requires WellFormed(p, true) && depth > 0 && StandsAt(s, from, Print(p))
    ensures FirstClose(s, from, depth) == FirstClose(s, from + |Print(p)|, depth)
    decreases p, 1
  {
    match p
    case End =>
    case Literal(b, rest) =>
      SkipLiteral(s, from, b, Print(rest), depth);
      SkipsOver(s, from + 1, rest, depth);
    case Group(choices, rest) => SkipsGroup(s, from, p, depth);
  }

  lemma {:induction false} SkipsGroup(s: Bytes, from: nat, p: Pattern, depth: nat)
    requires p.Group? && WellFormed(p, true) && depth > 0 && StandsAt(s, from, Print(p))
    ensures FirstClose(s, from, depth) == FirstClose(s, from + |Print(p)|, depth)
    decreases p, 0
  {
    var inner, after := PrintChoices(p.choices), Print(p.rest);
    EnclosedStands(s, from, inner, after);
    SkipsChoices(s, from + 1, p.choices, depth + 1);
    SkipGroup(s, from, inner, after, depth);
    SkipsOver(s, from + 2 + |inner|, p.rest, depth);
  }

  lemma SkipComma(s: Bytes, from: nat, a: Bytes, b: Bytes, depth: nat)
    requires StandsAt(s, from, a + [COMMA] + b) && depth > 0
    ensures StandsAt(s, from, a) && StandsAt(s, from + |a| + 1, b)
    ensures FirstClose(s, from + |a|, depth) == FirstClose(s, from + |a| + 1, depth)
  {
    StandsApart(s, from, a + [COMMA], b);
    StandsApart(s, from, a, [COMMA]);
  }

  lemma {:induction false} SkipsChoices(s: Bytes, from: nat, c: Choices, depth: nat)
    requires ChoicesWellFormed(c) && depth > 0 && StandsAt(s, from, PrintChoices(c))
    ensures FirstClose(s, from, depth) == FirstClose(s, from + |PrintChoices(c)|, depth)
    decreases c
  {
    match c
    case Last(only) => SkipsOver(s, from, only, depth);
    case More(first, others) =>
      SkipComma(s, from, Print(first), PrintChoices(others), depth);
      SkipsOver(s, from, first, depth);
      SkipsChoices(s, from + |Print(first)| + 1, others, depth);
  }

  lemma OpensAfter(u: Bytes, text: Bytes)
    requires OPEN !in u && text != [] && text[0] == OPEN
    ensures FirstOpen(u + text, 0) == |u|
  {
    assert (u + text)[|u|] == OPEN;
    assert forall k :: 0 <= k < |u| ==> (u + text)[k] == u[k];
  }

  lemma GroupIsFirst(u: Bytes, choices: Choices, w: Bytes)
    requires ChoicesWellFormed(choices) && OPEN !in u
    ensures
      var pattern, close := u + Enclosed(PrintChoices(choices), w), |u| + 1 + |PrintChoices(choices)|;
      FirstGroup(pattern) == Some((|u|, close))
  {
    var pattern := u + Enclosed(PrintChoices(choices), w);
    EnclosedStands(pattern, |u|, PrintChoices(choices), w);
    OpensAfter(u, Enclosed(PrintChoices(choices), w));
    SkipsChoices(pattern, |u| + 1, choices, 1);
  }

  function Prints(choices: Choices): (r: seq<Bytes>)
    ensures r != [] && Join(r) == PrintChoices(choices) && (|r| == 1 <==> choices.Last?)
  {
    match choices
    case Last(only) => [Print(only)]
    case More(first, others) =>
      var rest := Prints(others);
      assert ([Print(first)] + rest)[1..] == rest;
      [Print(first)] + rest
  }

  /** Every comma lies inside a nested group. */
  predicate CommasNested(s: Bytes, depth: nat) {
    s == [] || ((s[0] == COMMA ==> depth > 0) && CommasNested(s[1..], Next(s[0], depth)))
  }

  function Next(b: byte, depth: nat): nat {
    if b == OPEN then depth + 1 else if b == CLOSE && depth > 0 then depth - 1 else depth
  }

  lemma DepthFirst(s: Bytes, depth: nat)
    requires s != []
    ensures Depth(s, depth) == Depth(s[1..], Next(s[0], depth))
  {
  }

  lemma {:induction false} DepthAppend(a: Bytes, b: Bytes, depth: nat)
    ensures Depth(a + b, depth) == Depth(b, Depth(a, depth))
    ensures CommasNested(a, depth) && CommasNested(b, Depth(a, depth)) ==> CommasNested(a + b, depth)
    decreases |a|
  {
    if a == [] {
      assert a + b == b;
    } else {
      assert (a + b)[1..] == a[1..] + b && (a + b)[0] == a[0];
      DepthFirst(a, depth);
      DepthFirst(a + b, depth);
      DepthAppend(a[1..], b, Next(a[0], depth));
    }
  }

  lemma {:induction false} CommasAreNested(s: Bytes, depth: nat, i: nat)
    requires CommasNested(s, depth) && i < |s| && s[i] == COMMA
    ensures Depth(s[..i], depth) > 0
    decreases |s|
  {
    if i > 0 {
      assert s[..i][1..] == s[1..][..i - 1];
      DepthFirst(s[..i], depth);
      CommasAreNested(s[1..], Next(s[0], depth), i - 1);
    }
  }

  lemma {:induction false} Balanced(p: Pattern, depth: nat)
    requires WellFormed(p, true)
    ensures Depth(Print(p), depth) == depth && CommasNested(Print(p), depth)
    decreases p
  {
    match p
    case End =>
    case Literal(b, rest) =>
      assert Depth([b], depth) == depth;
      DepthAppend([b], Print(rest), depth);
      Balanced(rest, depth);
    case Group(choices, rest) =>
      var inner := PrintChoices(choices);
      BalancedChoices(choices, depth + 1);
      Balanced(rest, depth);
      DepthAppend([CLOSE], Print(rest), depth + 1);
      DepthAppend(inner, [CLOSE] + Print(rest), depth + 1);
      DepthAppend([OPEN], inner + ([CLOSE] + Print(rest)), depth);
      assert Print(p) == Enclosed(inner, Print(rest)) == [OPEN] + (inner + ([CLOSE] + Print(rest)));
  }

  lemma {:induction false} BalancedChoices(c: Choices, depth: nat)
    requires ChoicesWellFormed(c) && depth > 0
    ensures Depth(PrintChoices(c), depth) == depth && CommasNested(PrintChoices(c), depth)
    decreases c
  {
    match c
    case Last(only) => Balanced(only, depth);
    case More(first, others) =>
      Balanced(first, depth);
      BalancedChoices(others, depth);
      DepthAppend([COMMA], PrintChoices(others), depth);
      DepthAppend(Print(first), [COMMA] + PrintChoices(others), depth);
      assert PrintChoices(c) == Print(first) + ([COMMA] + PrintChoices(others));
  }

  lemma {:induction false} PrintsAreTheSplit(choices: Choices)
    requires ChoicesWellFormed(choices)
    ensures SplitInto(PrintChoices(choices), Prints(choices))
    decreases choices
  {
    var first := First(choices);
    Balanced(first, 0);
    assert !HasTopComma(Print(first)) by {
      forall i | 0 <= i < |Print(first)| && Print(first)[i] == COMMA ensures Depth(Print(first)[..i], 0) > 0 {
        CommasAreNested(Print(first), 0, i);
      }
    }
    if choices.More? {
      PrintsAreTheSplit(choices.others);
      assert Prints(choices)[1..] == Prints(choices.others);
    }
  }

  // The leaves are the expansions

  lemma NoGroup(pattern: Bytes)
    requires FirstOpen(pattern, 0) == |pattern| || FirstClose(pattern, FirstOpen(pattern, 0) + 1, 1) == |pattern|
    ensures FirstGroup(pattern) == None
  {
  }

  lemma NothingToChoose(pattern: Bytes)
    requires FirstGroup(pattern) == None
    ensures Leaves(pattern) == [pattern]
  {
    assert Alternatives(pattern) == None;
  }

  lemma AlternativesOf(pattern: Bytes, open: nat, close: nat, parts: seq<Bytes>)
    requires FirstGroup(pattern) == Some((open, close)) && SplitInto(pattern[open + 1..close], parts)
    ensures Alternatives(pattern) == if |parts| == 1 then None else Some(((open, close), parts))
  {
    var inner := pattern[open + 1..close];
    SplitIsUnique(inner, Split(inner), parts);
  }

  lemma GroupToChoose(u: Bytes, choices: Choices, w: Bytes)
    requires ChoicesWellFormed(choices) && OPEN !in u
    ensures
      var pattern, close := u + Enclosed(PrintChoices(choices), w), |u| + 1 + |PrintChoices(choices)|;
      Alternatives(pattern) == if choices.Last? then None else Some(((|u|, close), Prints(choices)))
  {
    var pattern, close := u + Enclosed(PrintChoices(choices), w), |u| + 1 + |PrintChoices(choices)|;
    GroupIsFirst(u, choices, w);
    PrintsAreTheSplit(choices);
    EnclosedStands(pattern, |u|, PrintChoices(choices), w);
    AlternativesOf(pattern, |u|, close, Prints(choices));
  }

  /** Expanding the bytes of a tree, after a prefix without groups, gives what the tree
      expands to. */
  lemma {:induction false} LeavesOfPrinted(u: Bytes, p: Pattern)
    requires WellFormed(p, false) && OPEN !in u
    ensures Leaves(u + Print(p)) == Texts(Prefixed(u, Product(p)))
    decreases |Print(p)|, 2, p
  {
    var pattern := u + Print(p);
    match p
    case End =>
      assert pattern == u;
      NoGroup(u);
      NothingToChoose(u);
    case Literal(b, rest) =>
      assert pattern == u + [b] + Print(rest);
      LeavesOfPrinted(u + [b], rest);
      PrefixedTwice(u, [b], Product(rest));
    case Group(choices, rest) =>
      GroupToChoose(u, choices, Print(rest));
      if choices.More? {
        LeavesOfChoices(u, p, choices, 0);
      }
    case Unclosed(text) =>
      OpensAfter(u, text);
      CloseFurther(u, text, 1, 1);
      NoGroup(pattern);
      NothingToChoose(pattern);
  }

  lemma ChosenInEnclosed(u: Bytes, inner: Bytes, after: Bytes, alternative: Bytes)
    ensures
      var pattern, close := u + Enclosed(inner, after), |u| + 1 + |inner|;
      close < |pattern| && Chosen(pattern, (|u|, close), alternative) == u + (alternative + after)
  {
    var pattern, close := u + Enclosed(inner, after), |u| + 1 + |inner|;
    EnclosedStands(pattern, |u|, inner, after);
    assert pattern[..|u|] == u && pattern[close + 1..] == after;
    assert u + alternative + after == u + (alternative + after);
  }

  lemma ShorterPrint(p: Pattern, first: Pattern, k: nat)
    requires WellFormed(p, false) && p.Group? && WellFormed(first, true)
    requires k < |Prints(p.choices)| && Prints(p.choices)[k] == Print(first)
    ensures WellFormed(Append(first, p.rest), false) && |Print(Append(first, p.rest))| < |Print(p)|
  {
    JoinLength(Prints(p.choices), k);
    AppendPrints(first, p.rest);
  }

  /** What is found in a printed group with alternatives. */
  lemma GroupIsChosen(u: Bytes, p: Pattern, first: Pattern, k: nat)
    requires WellFormed(p, false) && p.Group? && p.choices.More? && OPEN !in u && WellFormed(first, true)
    requires k < |Prints(p.choices)| && Prints(p.choices)[k] == Print(first)
    ensures
      var group := (|u|, |u| + 1 + |PrintChoices(p.choices)|);
      && Alternatives(u + Print(p)) == Some((group, Prints(p.choices)))
      && Chosen(u + Print(p), group, Prints(p.choices)[k]) == u + Print(Append(first, p.rest))
  {
    GroupToChoose(u, p.choices, Print(p.rest));
    AppendPrints(first, p.rest);
    ChosenInEnclosed(u, PrintChoices(p.choices), Print(p.rest), Print(first));
  }

  /** One alternative, put in the place of its group. */
  lemma {:induction false} LeavesOfChoice(u: Bytes, p: Pattern, first: Pattern, k: nat)
    requires WellFormed(p, false) && p.Group? && p.choices.More? && OPEN !in u && WellFormed(first, true)
    requires k < |Prints(p.choices)| && Prints(p.choices)[k] == Print(first)
    ensures
      var group := (|u|, |u| + 1 + |PrintChoices(p.choices)|);
      && Alternatives(u + Print(p)) == Some((group, Prints(p.choices)))
      && Leaves(Chosen(u + Print(p), group, Prints(p.choices)[k])) ==
         Texts(Prefixed(u, Then(Product(first), Product(p.rest), Print(p.rest))))
    decreases |Print(p)|, 0, 0
  {
    GroupIsChosen(u, p, first, k);
    ShorterPrint(p, first, k);
    LeavesOfPrinted(u, Append(first, p.rest));
    AppendExpands(first, p.rest);
  }

  lemma {:induction false} LeavesOfChoices(u: Bytes, p: Pattern, c: Choices, k: nat)
    requires WellFormed(p, false) && p.Group? && p.choices.More? && OPEN !in u && ChoicesWellFormed(c)
    requires k < |Prints(p.choices)| && Prints(p.choices)[k..] == Prints(c)
    ensures
      var group := (|u|, |u| + 1 + |PrintChoices(p.choices)|);
      && Alternatives(u + Print(p)) == Some((group, Prints(p.choices)))
      && LeavesOfEach(u + Print(p), group, Prints(p.choices), k) ==
         Texts(Prefixed(u, Then(Each(c), Product(p.rest), Print(p.rest))))
    decreases |Print(p)|, 1, c
  {
    OnePrint(Prints(p.choices), c, k);
    LeavesOfChoice(u, p, First(c), k);
    OneChoice(u + Print(p), k);
    if c.More? {
      LeavesOfChoices(u, p, c.others, k + 1);
      FirstAndOthers(u, c, Product(p.rest), Print(p.rest));
    }
  }

  lemma OnePrint(prints: seq<Bytes>, c: Choices, k: nat)
    requires k < |prints| && prints[k..] == Prints(c)
    ensures prints[k] == Print(First(c))
    ensures if c.More? then k + 1 < |prints| && prints[k + 1..] == Prints(c.others) else k + 1 == |prints|
  {
    assert prints[k] == Prints(c)[0];
    assert prints[k + 1..] == Prints(c)[1..];
  }

  lemma OneChoice(pattern: Bytes, k: nat)
    requires Alternatives(pattern).Some? && k < |Alternatives(pattern).value.1|
    ensures
      var (group, parts) := Alternatives(pattern).value;
      LeavesOfEach(pattern, group, parts, k) == Leaves(Chosen(pattern, group, parts[k])) +
        if k + 1 == |parts| then [] else LeavesOfEach(pattern, group, parts, k + 1)
  {
  }

  lemma TogetherAppended(u: Bytes, a: seq<Expansion>, b: seq<Expansion>)
    ensures Texts(Prefixed(u, a + b)) == Texts(Prefixed(u, a)) + Texts(Prefixed(u, b))
  {
  }

  lemma FirstAndOthers(u: Bytes, c: Choices, rest: seq<Expansion>, text: Bytes)
    requires c.More?
    ensures Texts(Prefixed(u, Then(Each(c), rest, text))) ==
      Texts(Prefixed(u, Then(Product(c.first), rest, text))) + Texts(Prefixed(u, Then(Each(c.others), rest, text)))
  {
    ThenAppend(Product(c.first), Each(c.others), rest, text);
    TogetherAppended(u, Then(Product(c.first), rest, text), Then(Each(c.others), rest, text));
  }

  /** The leaves of a printed tree are what the tree expands to. */
  lemma LeavesOfTree(tree: Pattern)
    requires WellFormed(tree, false)
    ensures Leaves(Print(tree)) == Texts(Product(tree))
  {
    LeavesOfPrinted([], tree);
    assert [] + Print(tree) == Print(tree);
    PrefixedByNothing(Product(tree));
  }

  /** Every string is the print of a tree, and its leaves are what that tree expands to. */
  lemma LeavesAreExpansions(pattern: Bytes)
    ensures
      var tree := Parse(pattern, 0);
      WellFormed(tree, false) && Print(tree) == pattern && Leaves(pattern) == Texts(Product(tree))
  {
    PatternIsRead(pattern, 0);
    LeavesOfTree(Parse(pattern, 0));
  }
}
