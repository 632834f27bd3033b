/** Canonical text edits: byte ranges of one text and their replacements, in order. */
module TextEdits {
  import opened Results
  import opened ByteStrings

  datatype TextEdit = TextEdit(start: nat, end: nat, newText: Bytes)

  /** The edits from `cursor` on are ordered, apart, and cut the text at boundaries. */
  predicate Accepts(before: Bytes, edits: seq<TextEdit>, cursor: nat) {
    edits == [] ||
    (&& cursor <= edits[0].start <= edits[0].end
     && IsCharBoundary(before, edits[0].start) && IsCharBoundary(before, edits[0].end)
     && Accepts(before, edits[1..], edits[0].end))
  }

  /** The text from `cursor` on with the edits applied. */
  function Swept(before: Bytes, edits: seq<TextEdit>, cursor: nat): Bytes
    requires cursor <= |before| && Accepts(before, edits, cursor)
  {
    if edits == [] then before[cursor..]
    else before[cursor..edits[0].start] + edits[0].newText + Swept(before, edits[1..], edits[0].end)
  }

  lemma {:induction false} AcceptsPrefix(before: Bytes, edits: seq<TextEdit>, cursor: nat, i: nat)
    requires i < |edits| && Accepts(before, edits, cursor)
    ensures Accepts(before, edits[i..], if i == 0 then cursor else edits[i - 1].end)
    decreases i
  {
    if i > 0 {
      AcceptsPrefix(before, edits[1..], edits[0].end, i - 1);
      assert edits[1..][i - 1..] == edits[i..];
      assert i > 1 ==> edits[1..][i - 2] == edits[i - 1];
    }
  }

  /** One pass over the text, refusing ranges that go back, leave the text or split a
      character, and texts that are not UTF-8. */
  method ApplyCanonicalTextEdits(before: Bytes, edits: seq<TextEdit>) returns (r: Result<Bytes>)
    ensures r.Ok? <==> ValidUtf8(before) && Accepts(before, edits, 0)
    ensures r.Ok? ==> r.value == Swept(before, edits, 0)
  {
    if !ValidUtf8(before) {
      return Err;
    }
    var after: Bytes, cursor: nat := [], 0;
    for i := 0 to |edits|
      invariant cursor <= |before|
      invariant Accepts(before, edits, 0) <==> Accepts(before, edits[i..], cursor)
      invariant Accepts(before, edits, 0) ==> Swept(before, edits, 0) == after + Swept(before, edits[i..], cursor)
    {
      var edit := edits[i];
      SweepStep(before, edits, i, cursor, after);
      if edit.start < cursor || edit.end < edit.start {
        return Err;
      }
      if !IsCharBoundary(before, edit.start) || !IsCharBoundary(before, edit.end) {
        return Err;
      }
      after := after + before[cursor..edit.start] + edit.newText;
      cursor := edit.end;
    }
    assert edits[|edits|..] == [];
    after := after + before[cursor..];
    return Ok(after);
  }

  lemma SweepStep(before: Bytes, edits: seq<TextEdit>, i: nat, cursor: nat, after: Bytes)
    requires i < |edits| && cursor <= |before|
    ensures var e := edits[i];
      Accepts(before, edits[i..], cursor) <==>
        && cursor <= e.start <= e.end && IsCharBoundary(before, e.start) && IsCharBoundary(before, e.end)
        && Accepts(before, edits[i + 1..], e.end)
    ensures Accepts(before, edits[i..], cursor) ==>
      && edits[i].end <= |before|
      && after + Swept(before, edits[i..], cursor)
           == after + before[cursor..edits[i].start] + edits[i].newText + Swept(before, edits[i + 1..], edits[i].end)
  {
    assert edits[i..][0] == edits[i] && edits[i..][1..] == edits[i + 1..];
    if Accepts(before, edits[i..], cursor) {
      var gap, rest := before[cursor..edits[i].start], Swept(before, edits[i + 1..], edits[i].end);
      assert after + (gap + edits[i].newText + rest) == after + gap + edits[i].newText + rest;
    }
  }

  function Replace(text: Bytes, edit: TextEdit): Bytes
    requires edit.start <= edit.end <= |text|
  {
    text[..edit.start] + edit.newText + text[edit.end..]
  }

  /** The meaning of a list of edits: every range refers to the original text, so the
      edits are carried out from the last to the first. */
  function LastToFirst(text: Bytes, edits: seq<TextEdit>): Result<Bytes>
  {
    if edits == [] then Ok(text)
    else
      var tail :- LastToFirst(text, edits[1..]);
      if edits[0].start <= edits[0].end <= |tail| then Ok(Replace(tail, edits[0])) else Err
  }

  lemma {:induction false} SweepFromCursor(before: Bytes, edits: seq<TextEdit>, cursor: nat)
    requires cursor <= |before| && Accepts(before, edits, cursor)
    ensures LastToFirst(before, edits) == Ok(before[..cursor] + Swept(before, edits, cursor))
  {
    if edits == [] {
      assert before[..cursor] + before[cursor..] == before;
    } else {
      var e := edits[0];
      SweepFromCursor(before, edits[1..], e.end);
      var rest := Swept(before, edits[1..], e.end);
      var tail := before[..e.end] + rest;
      assert tail[..e.start] == before[..e.start] && tail[e.end..] == rest;
      assert before[..e.start] == before[..cursor] + before[cursor..e.start];
      assert Replace(tail, e) == before[..cursor] + (before[cursor..e.start] + e.newText + rest);
    }
  }

  /** The single pass is the simultaneous replacement. */
  lemma SweepIsSimultaneous(before: Bytes, edits: seq<TextEdit>)
    requires Accepts(before, edits, 0)
    ensures LastToFirst(before, edits) == Ok(Swept(before, edits, 0))
  {
    SweepFromCursor(before, edits, 0);
    assert before[..0] + Swept(before, edits, 0) == Swept(before, edits, 0);
  }

  function Removed(edits: seq<TextEdit>): int {
    if edits == [] then 0 else edits[0].end - edits[0].start + Removed(edits[1..])
  }

  function Inserted(edits: seq<TextEdit>): nat {
    if edits == [] then 0 else |edits[0].newText| + Inserted(edits[1..])
  }

  lemma {:induction false} SweptLength(before: Bytes, edits: seq<TextEdit>, cursor: nat)
    requires cursor <= |before| && Accepts(before, edits, cursor)
    ensures |Swept(before, edits, cursor)| == |before| - cursor - Removed(edits) + Inserted(edits)
  {
    if edits != [] {
      SweptLength(before, edits[1..], edits[0].end);
    }
  }

  /** The stretch between two boundaries of a valid text is valid. */
  lemma StretchIsValid(text: Bytes, from: nat, to: nat)
    requires ValidUtf8(text) && from <= to && IsCharBoundary(text, from) && IsCharBoundary(text, to)
    ensures to <= |text| && ValidUtf8(text[from..to])
  {
    CutValid(text, to);
    var head := text[..to];
    assert from < to ==> head[from] == text[from];
    CutValid(head, from);
    assert head[from..] == text[from..to];
  }

  /** Valid text and valid replacements give valid text. */
  lemma {:induction false} SweptIsValid(before: Bytes, edits: seq<TextEdit>, cursor: nat)
    requires ValidUtf8(before) && IsCharBoundary(before, cursor) && cursor <= |before| && Accepts(before, edits, cursor)
    requires forall e :: e in edits ==> ValidUtf8(e.newText)
    ensures ValidUtf8(Swept(before, edits, cursor))
  {
    if edits == [] {
      CutValid(before, cursor);
    } else {
      var e := edits[0];
      StretchIsValid(before, cursor, e.start);
      SweptIsValid(before, edits[1..], e.end);
      ConcatValid(before[cursor..e.start], e.newText);
      ConcatValid(before[cursor..e.start] + e.newText, Swept(before, edits[1..], e.end));
    }
  }

  /** The text from `cursor` to `to` with the edits applied, all of them before `to`. */
  function SweptTo(before: Bytes, edits: seq<TextEdit>, cursor: nat, to: nat): Bytes
    requires to <= |before| && AcceptsTo(before, edits, cursor, to)
  {
    if edits == [] then before[cursor..to]
    else before[cursor..edits[0].start] + edits[0].newText + SweptTo(before, edits[1..], edits[0].end, to)
  }

  predicate AcceptsTo(before: Bytes, edits: seq<TextEdit>, cursor: nat, to: nat) {
    if edits == [] then cursor <= to
    else cursor <= edits[0].start <= edits[0].end <= |before| && AcceptsTo(before, edits[1..], edits[0].end, to)
  }

  lemma {:induction false} EarlierFit(before: Bytes, edits: seq<TextEdit>, cursor: nat, i: nat)
    requires cursor <= |before| && Accepts(before, edits, cursor) && i < |edits|
    ensures edits[i].start <= edits[i].end <= |before| && AcceptsTo(before, edits[..i], cursor, edits[i].start)
    decreases i
  {
    if i > 0 {
      EarlierFit(before, edits[1..], edits[0].end, i - 1);
      assert edits[..i][0] == edits[0] && edits[..i][1..] == edits[1..][..i - 1];
    }
  }

  /** Every edit is in its place: after the text up to its start, with all earlier edits,
      and before the text from its end on, with all later ones. */
  lemma {:induction false} EditInPlace(before: Bytes, edits: seq<TextEdit>, cursor: nat, i: nat)
    requires cursor <= |before| && Accepts(before, edits, cursor) && i < |edits|
    ensures edits[i].start <= edits[i].end <= |before| && AcceptsTo(before, edits[..i], cursor, edits[i].start)
    ensures Accepts(before, edits[i + 1..], edits[i].end)
    ensures Swept(before, edits, cursor) ==
      SweptTo(before, edits[..i], cursor, edits[i].start)
      + (edits[i].newText + Swept(before, edits[i + 1..], edits[i].end))
    decreases i
  {
    EarlierFit(before, edits, cursor, i);
    var gap := before[cursor..edits[0].start];
    if i == 0 {
      Regroup2(gap, edits[0].newText, Swept(before, edits[1..], edits[0].end));
    } else {
      var others := edits[1..];
      EditInPlace(before, others, edits[0].end, i - 1);
      assert edits[..i][0] == edits[0] && edits[..i][1..] == others[..i - 1] && others[i..] == edits[i + 1..];
      Regroup(gap, edits[0].newText, SweptTo(before, others[..i - 1], edits[0].end, edits[i].start),
        edits[i].newText + Swept(before, edits[i + 1..], edits[i].end));
    }
  }

  /** Insertions at one position appear there in the order in which they were given. */
  lemma InsertsKeepOrder(before: Bytes, edits: seq<TextEdit>, cursor: nat, i: nat)
    requires cursor <= |before| && Accepts(before, edits, cursor) && i + 1 < |edits|
    requires edits[i].end == edits[i + 1].start
    ensures edits[i].start <= edits[i + 1].end <= |before| && AcceptsTo(before, edits[..i], cursor, edits[i].start)
    ensures Accepts(before, edits[i + 2..], edits[i + 1].end)
    ensures Swept(before, edits, cursor) ==
      SweptTo(before, edits[..i], cursor, edits[i].start)
      + (edits[i].newText + (edits[i + 1].newText + Swept(before, edits[i + 2..], edits[i + 1].end)))
  {
    EditInPlace(before, edits, cursor, i);
    var rest := edits[i + 1..];
    EditInPlace(before, rest, edits[i].end, 0);
    assert rest[1..] == edits[i + 2..] && rest[..0] == [];
    var tail := rest[0].newText + Swept(before, rest[1..], rest[0].end);
    assert [] + tail == tail;
  }

  lemma Regroup(a: Bytes, b: Bytes, c: Bytes, d: Bytes)
    ensures a + b + (c + d) == a + b + c + d
  {
  }

  lemma Regroup2(a: Bytes, b: Bytes, c: Bytes)
    ensures a + b + c == a + (b + c)
  {
  }
}
