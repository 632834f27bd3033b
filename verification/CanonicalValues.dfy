/** The canonical encoding of JSON values that every digest is taken of. */
module CanonicalValues {
  import opened Results
  import opened ByteStrings

  const TWO_63: nat := 0x8000_0000_0000_0000
  const TWO_64: nat := 0x1_0000_0000_0000_0000

  datatype Entry = Entry(key: Bytes, value: Value)

  /** A number is a negative 64-bit integer, a 64-bit natural or a float, of which only the
      bits matter. The entries of an object stand in some order of iteration. */
  datatype Value =
    | Null
    | Bool(b: bool)
    | Negative(i: int)
    | Natural(n: nat)
    | Float(bits: nat)
    | Text(text: Bytes)
    | List(items: seq<Value>)
    | Object(entries: seq<Entry>)

  /** Big-endian bytes. */
  function BigEndian(n: nat, width: nat): (r: Bytes)
    ensures |r| == width
  {
    if width == 0 then [] else BigEndian(n / 256, width - 1) + [(n % 256) as byte]
  }

  function FromBigEndian(s: Bytes): nat
    decreases |s|
  {
    if s == [] then 0 else FromBigEndian(s[..|s| - 1]) * 256 + s[|s| - 1] as nat
  }

  function Power256(k: nat): nat {
    if k == 0 then 1 else 256 * Power256(k - 1)
  }

  lemma {:induction false} BigEndianRoundTrip(n: nat, width: nat)
    requires n < Power256(width)
    ensures FromBigEndian(BigEndian(n, width)) == n
  {
    if width > 0 {
      BigEndianRoundTrip(n / 256, width - 1);
      assert BigEndian(n, width)[..width - 1] == BigEndian(n / 256, width - 1);
    }
  }

  lemma Word(n: nat)
    requires n < TWO_64
    ensures FromBigEndian(BigEndian(n, 8)) == n
  {
    assert Power256(4) == 0x1_0000_0000;
    assert Power256(8) == 256 * (256 * (256 * (256 * Power256(4))));
    BigEndianRoundTrip(n, 8);
  }

  /** Byte order of keys. */
  predicate Less(a: Bytes, b: Bytes) {
    b != [] && (a == [] || a[0] < b[0] || (a[0] == b[0] && Less(a[1..], b[1..])))
  }

  lemma {:induction false} LessTotal(a: Bytes, b: Bytes)
    ensures Less(a, b) || Less(b, a) || a == b
    ensures !(Less(a, b) && Less(b, a)) && !Less(a, a)
  {
    if a != [] && b != [] {
      LessTotal(a[1..], b[1..]);
      LessTotal(a[1..], a[1..]);
      assert a == [a[0]] + a[1..] && b == [b[0]] + b[1..];
    } else if a != [] {
      LessTotal(a[1..], a[1..]);
    }
  }

  lemma {:induction false} LessTransitive(a: Bytes, b: Bytes, c: Bytes)
    requires Less(a, b) && Less(b, c)
    ensures Less(a, c)
  {
    if a != [] && a[0] == b[0] == c[0] {
      LessTransitive(a[1..], b[1..], c[1..]);
    }
  }

  function Insert(e: Entry, sorted: seq<Entry>): (r: seq<Entry>)
    ensures |r| == |sorted| + 1
    ensures forall x :: x in r <==> x == e || x in sorted
  {
    if sorted == [] || Less(e.key, sorted[0].key) then [e] + sorted else [sorted[0]] + Insert(e, sorted[1..])
  }

  function SortByKey(entries: seq<Entry>): (r: seq<Entry>)
    ensures |r| == |entries|
    ensures forall x :: x in r <==> x in entries
  {
    if entries == [] then [] else Insert(entries[0], SortByKey(entries[1..]))
  }

  ghost predicate Ascending(entries: seq<Entry>) {
    forall i, j :: 0 <= i < j < |entries| ==> Less(entries[i].key, entries[j].key)
  }

  predicate DistinctKeys(entries: seq<Entry>) {
    forall i, j :: 0 <= i < j < |entries| ==> entries[i].key != entries[j].key
  }

  lemma {:induction false} InsertKeeps(e: Entry, sorted: seq<Entry>)
    requires Ascending(sorted) && forall x :: x in sorted ==> x.key != e.key
    ensures Ascending(Insert(e, sorted))
  {
    if sorted != [] {
      LessTotal(e.key, sorted[0].key);
      if Less(e.key, sorted[0].key) {
        forall i | 0 <= i < |sorted| ensures Less(e.key, sorted[i].key) {
          if i > 0 { LessTransitive(e.key, sorted[0].key, sorted[i].key); }
        }
      } else {
        InsertKeeps(e, sorted[1..]);
        var rest := Insert(e, sorted[1..]);
        forall k | 0 <= k < |rest| ensures Less(sorted[0].key, rest[k].key) {
          assert rest[k] in rest;
          if rest[k] != e {
            assert rest[k] in sorted[1..];
            var m :| 0 <= m < |sorted[1..]| && sorted[1..][m] == rest[k];
            assert sorted[m + 1] == rest[k];
          }
        }
      }
    }
  }

  lemma {:induction false} SortKeeps(entries: seq<Entry>)
    requires DistinctKeys(entries)
    ensures Ascending(SortByKey(entries))
  {
    if entries != [] {
      SortKeeps(entries[1..]);
      forall x | x in SortByKey(entries[1..]) ensures x.key != entries[0].key {
        var k :| 0 <= k < |entries[1..]| && entries[1..][k] == x;
        assert entries[k + 1] == x;
      }
      InsertKeeps(entries[0], SortByKey(entries[1..]));
    }
  }

  /** An ascending list is determined by its members. */
  lemma {:induction false} AscendingIsUnique(a: seq<Entry>, b: seq<Entry>)
    requires Ascending(a) && Ascending(b) && forall x :: x in a <==> x in b
    ensures a == b
    decreases |a|
  {
    if a == [] || b == [] {
      NoMembers(a, b);
    } else {
      SameFirst(a, b);
      SameRest(a, b);
      SameRest(b, a);
      AscendingIsUnique(a[1..], b[1..]);
      assert a == [a[0]] + a[1..] && b == [b[0]] + b[1..];
    }
  }

  lemma NoMembers(a: seq<Entry>, b: seq<Entry>)
    requires (a == [] || b == []) && forall x :: x in a <==> x in b
    ensures a == b
  {
    if a != [] {
      HasMember(a);
    } else if b != [] {
      HasMember(b);
    }
  }

  lemma HasMember(a: seq<Entry>)
    requires a != []
    ensures exists x :: x in a
  {
    assert a[0] in a;
  }

  lemma FirstIsLeast(a: seq<Entry>, x: Entry)
    requires Ascending(a) && x in a
    ensures x == a[0] || Less(a[0].key, x.key)
  {
    var k :| 0 <= k < |a| && a[k] == x;
  }

  lemma SameFirst(a: seq<Entry>, b: seq<Entry>)
    requires Ascending(a) && Ascending(b) && a != [] && b != [] && forall x :: x in a <==> x in b
    ensures a[0] == b[0]
  {
    FirstIsLeast(a, b[0]);
    FirstIsLeast(b, a[0]);
    LessTotal(a[0].key, b[0].key);
  }

  lemma SameRest(a: seq<Entry>, b: seq<Entry>)
    requires Ascending(a) && Ascending(b) && a != [] && b != [] && a[0] == b[0] && forall x :: x in a <==> x in b
    ensures forall x :: x in a[1..] ==> x in b[1..]
  {
    forall x | x in a[1..] ensures x in b[1..] {
      var k :| 0 <= k < |a[1..]| && a[1..][k] == x;
      assert x == a[k + 1] && Less(a[0].key, x.key);
      LessTotal(x.key, x.key);
      assert x in b;
      var m :| 0 <= m < |b| && b[m] == x;
      assert b[1..][m - 1] == x;
    }
  }

  function Normalised(bits: nat): nat {
    if bits == TWO_63 then 0 else bits
  }

  /** The bytes hashed for a value. */
  function Encode(v: Value): Bytes
    decreases v
  {
    match v
    case Null => [0]
    case Bool(b) => [if b then 2 else 1]
    case Negative(i) => [3] + BigEndian(if i < 0 && -i <= TWO_63 then TWO_64 + i else 0, 8)
    case Natural(n) => [4] + BigEndian(n, 8)
    case Float(bits) => [5] + BigEndian(Normalised(bits), 8)
    case Text(text) => [6] + EncodeBytes(text)
    case List(items) => [7] + BigEndian(|items|, 8) + EncodeItems(items)
    case Object(entries) =>
      assert forall e :: e in entries ==> e.value < e;
      [8] + BigEndian(|entries|, 8) + EncodeEntries(SortByKey(entries), v)
  }

  function EncodeBytes(s: Bytes): Bytes {
    BigEndian(|s|, 8) + s
  }

  function EncodeItems(items: seq<Value>): Bytes
    decreases items
  {
    if items == [] then [] else Encode(items[0]) + EncodeItems(items[1..])
  }

  /** Entries of the object `v`, in the order given. */
  function EncodeEntries(entries: seq<Entry>, ghost v: Value): Bytes
    requires forall e :: e in entries ==> e.value < v
    decreases v, |entries|
  {
    if entries == [] then []
    else
      assert entries[0] in entries;
      EncodeBytes(entries[0].key) + Encode(entries[0].value) + EncodeEntries(entries[1..], v)
  }

  /** The encoder appends to the hasher's input. */
  method EncodeCanonicalValue(v: Value, output: Bytes) returns (r: Bytes)
    ensures r == output + Encode(v)
    decreases v
  {
    match v {
      case Null => r := output + [0];
      case Bool(b) => r := output + [if b then 2 else 1];
      case Negative(i) => r := output + [3]; r := r + BigEndian(if i < 0 && -i <= TWO_63 then TWO_64 + i else 0, 8);
      case Natural(n) => r := output + [4]; r := r + BigEndian(n, 8);
      case Float(bits) =>
        var normalised := if bits == TWO_63 then 0 else bits;
        r := output + [5];
        r := r + BigEndian(normalised, 8);
      case Text(text) =>
        r := output + [6];
        r := AppendBytes(text, r);
      case List(items) =>
        r := output + [7];
        r := r + BigEndian(|items|, 8);
        r := EncodeList(items, r, v);
      case Object(entries) => r := EncodeObject(entries, output, v);
    }
  }

  method EncodeList(items: seq<Value>, output: Bytes, ghost v: Value) returns (r: Bytes)
    requires v == List(items)
    ensures r == output + EncodeItems(items)
    decreases v, 0
  {
    r := output;
    for k := 0 to |items|
      invariant r + EncodeItems(items[k..]) == output + EncodeItems(items)
    {
      ghost var before := r;
      r := EncodeCanonicalValue(items[k], r);
      assert before + (Encode(items[k]) + EncodeItems(items[k + 1..])) == r + EncodeItems(items[k + 1..]);
      assert items[k..][1..] == items[k + 1..];
    }
    assert items[|items|..] == [];
  }

  method EncodeObject(entries: seq<Entry>, output: Bytes, ghost v: Value) returns (r: Bytes)
    requires v == Object(entries)
    ensures r == output + Encode(v)
    decreases v, 1
  {
    r := output + [8];
    r := r + BigEndian(|entries|, 8);
    assert forall e :: e in entries ==> e.value < e;
    var sorted := SortByKey(entries);
    for k := 0 to |sorted|
      invariant forall e :: e in sorted[k..] ==> e.value < v
      invariant r + EncodeEntries(sorted[k..], v) == output + Encode(v)
    {
      var e := sorted[k];
      assert e in entries && e in sorted[k..];
      assert sorted[k..][1..] == sorted[k + 1..];
      EntriesHead(sorted[k..], v, r);
      r := EncodeEntry(e, r, v);
    }
    assert sorted[|sorted|..] == [];
  }

  lemma EntriesHead(entries: seq<Entry>, v: Value, before: Bytes)
    requires entries != [] && forall e :: e in entries ==> e.value < v
    ensures before + EncodeEntries(entries, v)
      == before + EncodeBytes(entries[0].key) + Encode(entries[0].value) + EncodeEntries(entries[1..], v)
  {
    Regroup(before, EncodeBytes(entries[0].key), Encode(entries[0].value), EncodeEntries(entries[1..], v));
  }

  lemma Regroup(a: Bytes, b: Bytes, c: Bytes, d: Bytes)
    ensures a + (b + c + d) == a + b + c + d
  {
  }

  method EncodeEntry(e: Entry, output: Bytes, ghost v: Value) returns (r: Bytes)
    requires e.value < v
    ensures r == output + EncodeBytes(e.key) + Encode(e.value)
    decreases v, 0
  {
    r := AppendBytes(e.key, output);
    r := EncodeCanonicalValue(e.value, r);
  }

  method AppendBytes(s: Bytes, output: Bytes) returns (r: Bytes)
    ensures r == output + EncodeBytes(s)
  {
    r := output + BigEndian(|s|, 8);
    r := r + s;
  }

  /** Numbers are in range, lengths fit 64 bits, and keys of one object are distinct. */
  ghost predicate WellFormed(v: Value)
    decreases v
  {
    match v
    case Null => true
    case Bool(_) => true
    case Negative(i) => 0 < -i <= TWO_63
    case Natural(n) => n < TWO_64
    case Float(bits) => bits < TWO_64
    case Text(text) => |text| < TWO_64
    case List(items) => |items| < TWO_64 && forall w :: w in items ==> WellFormed(w)
    case Object(entries) =>
      && |entries| < TWO_64 && DistinctKeys(entries)
      && forall e :: e in entries ==> |e.key| < TWO_64 && assert e.value < e; WellFormed(e.value)
  }

  /** The value with every object in key order and no negative zero. */
  function Canonical(v: Value): Value
    decreases v
  {
    match v
    case Float(bits) => Float(Normalised(bits))
    case List(items) => List(CanonicalItems(items))
    case Object(entries) => Object(SortByKey(CanonicalEntries(entries)))
    case _ => v
  }

  function CanonicalItems(items: seq<Value>): (r: seq<Value>)
    ensures |r| == |items|
    ensures forall i :: 0 <= i < |r| ==> r[i] == Canonical(items[i])
    decreases items
  {
    if items == [] then [] else [Canonical(items[0])] + CanonicalItems(items[1..])
  }

  function CanonicalEntries(entries: seq<Entry>): (r: seq<Entry>)
    ensures |r| == |entries|
    ensures forall i :: 0 <= i < |r| ==> r[i] == Entry(entries[i].key, Canonical(entries[i].value))
    decreases entries
  {
    if entries == [] then []
    else
      var e := entries[0];
      assert e.value < e;
      [Entry(e.key, Canonical(e.value))] + CanonicalEntries(entries[1..])
  }

  /** Reads one value off the front of a byte string. */
  function Decode(s: Bytes): (r: Option<(Value, Bytes)>)
    ensures r.Some? ==> |r.value.1| < |s|
    decreases |s|, 0
  {
    if s == [] then None
    else if s[0] == 0 then Some((Null, s[1..]))
    else if s[0] == 1 then Some((Bool(false), s[1..]))
    else if s[0] == 2 then Some((Bool(true), s[1..]))
    else if s[0] == 7 && |s| >= 9 then
      var items := DecodeItems(FromBigEndian(s[1..9]), s[9..]);
      if items.None? then None else Some((List(items.value.0), items.value.1))
    else if s[0] == 8 && |s| >= 9 then
      var entries := DecodeEntries(FromBigEndian(s[1..9]), s[9..]);
      if entries.None? then None else Some((Object(entries.value.0), entries.value.1))
    else if s[0] == 6 then
      var text := DecodeBytes(s[1..]);
      if text.None? then None else Some((Text(text.value.0), text.value.1))
    else if |s| < 9 then None
    else if s[0] == 3 then Some((Negative(FromBigEndian(s[1..9]) - TWO_64), s[9..]))
    else if s[0] == 4 then Some((Natural(FromBigEndian(s[1..9])), s[9..]))
    else if s[0] == 5 then Some((Float(FromBigEndian(s[1..9])), s[9..]))
    else None
  }

  function DecodeBytes(s: Bytes): (r: Option<(Bytes, Bytes)>)
    ensures r.Some? ==> |r.value.1| <= |s|
  {
    if |s| < 8 || |s| - 8 < FromBigEndian(s[..8]) then None
    else Some((s[8..][..FromBigEndian(s[..8])], s[8..][FromBigEndian(s[..8])..]))
  }

  function DecodeItems(n: nat, s: Bytes): (r: Option<(seq<Value>, Bytes)>)
    ensures r.Some? ==> |r.value.1| <= |s|
    decreases |s|, 1
  {
    if n == 0 then Some(([], s))
    else
      var first := Decode(s);
      if first.None? then None
      else
        var rest := DecodeItems(n - 1, first.value.1);
        if rest.None? then None else Some(([first.value.0] + rest.value.0, rest.value.1))
  }

  function DecodeEntries(n: nat, s: Bytes): (r: Option<(seq<Entry>, Bytes)>)
    ensures r.Some? ==> |r.value.1| <= |s|
    decreases |s|, 1
  {
    if n == 0 then Some(([], s))
    else
      var key := DecodeBytes(s);
      if key.None? then None
      else
        var first := Decode(key.value.1);
        if first.None? then None
        else
          var rest := DecodeEntries(n - 1, first.value.1);
          if rest.None? then None else Some(([Entry(key.value.0, first.value.0)] + rest.value.0, rest.value.1))
  }

  lemma WordAhead(n: nat, rest: Bytes)
    requires n < TWO_64
    ensures (BigEndian(n, 8) + rest)[..8] == BigEndian(n, 8) && (BigEndian(n, 8) + rest)[8..] == rest
    ensures FromBigEndian((BigEndian(n, 8) + rest)[..8]) == n
  {
    Word(n);
  }

  lemma BytesAhead(s: Bytes, rest: Bytes)
    requires |s| < TWO_64
    ensures DecodeBytes(EncodeBytes(s) + rest) == Some((s, rest))
  {
    WordAhead(|s|, s + rest);
    assert EncodeBytes(s) + rest == BigEndian(|s|, 8) + (s + rest);
    assert (s + rest)[..|s|] == s && (s + rest)[|s|..] == rest;
  }

  lemma TaggedWord(tag: byte, n: nat, more: Bytes, rest: Bytes)
    requires n < TWO_64
    ensures var s := [tag] + BigEndian(n, 8) + more + rest;
      && |s| >= 9 && s[0] == tag && FromBigEndian(s[1..9]) == n
      && s[9..] == more + rest && s[1..] == BigEndian(n, 8) + (more + rest)
  {
    var s := [tag] + BigEndian(n, 8) + more + rest;
    WordAhead(n, more + rest);
    assert s == [tag] + (BigEndian(n, 8) + (more + rest));
    assert s[1..9] == BigEndian(n, 8);
  }

  /** Decoding gives back the canonical form of the encoded value, and leaves the rest. */
  lemma {:induction false} DecodeEncode(v: Value, rest: Bytes)
    requires WellFormed(v)
    ensures Decode(Encode(v) + rest) == Some((Canonical(v), rest))
    decreases v
  {
    match v
    case Negative(i) => DecodeWord(3, TWO_64 + i, rest);
    case Natural(n) => DecodeWord(4, n, rest);
    case Float(bits) => DecodeWord(5, Normalised(bits), rest);
    case Text(text) => DecodeEncodeText(v, rest);
    case List(items) =>
      forall k | 0 <= k < |items| ensures RoundTrips(items[k]) {
        forall r: Bytes ensures Decode(Encode(items[k]) + r) == Some((Canonical(items[k]), r)) {
          DecodeEncode(items[k], r);
        }
      }
      DecodeEncodeList(v, rest);
    case Object(entries) => DecodeEncodeObject(v, rest);
    case _ =>
      assert (Encode(v) + rest)[1..] == rest;
  }

  lemma DecodeEncodeText(v: Value, rest: Bytes)
    requires v.Text? && WellFormed(v)
    ensures Decode(Encode(v) + rest) == Some((Canonical(v), rest))
  {
    BytesAhead(v.text, rest);
    TagAhead(6, EncodeBytes(v.text), rest);
    DecodesText([6] + EncodeBytes(v.text) + rest, v.text, rest);
  }

  lemma TagAhead(tag: byte, more: Bytes, rest: Bytes)
    ensures ([tag] + more + rest)[0] == tag && ([tag] + more + rest)[1..] == more + rest
  {
  }

  lemma DecodesText(s: Bytes, text: Bytes, rest: Bytes)
    requires s != [] && s[0] == 6 && DecodeBytes(s[1..]) == Some((text, rest))
    ensures Decode(s) == Some((Text(text), rest))
  {
  }

  lemma DecodeEncodeList(v: Value, rest: Bytes)
    requires v.List? && WellFormed(v) && forall k :: 0 <= k < |v.items| ==> RoundTrips(v.items[k])
    ensures Decode(Encode(v) + rest) == Some((Canonical(v), rest))
  {
    TaggedWord(7, |v.items|, EncodeItems(v.items), rest);
    ItemsRoundTrip(v.items, rest);
  }

  lemma DecodeWord(tag: byte, n: nat, rest: Bytes)
    requires tag in {3, 4, 5} && n < TWO_64
    ensures Decode([tag] + BigEndian(n, 8) + rest)
      == Some((if tag == 3 then Negative(n - TWO_64) else if tag == 4 then Natural(n) else Float(n), rest))
  {
    TaggedWord(tag, n, [], rest);
    assert [tag] + BigEndian(n, 8) + [] + rest == [tag] + BigEndian(n, 8) + rest && [] + rest == rest;
  }

  lemma {:induction false} DecodeEncodeObject(v: Value, rest: Bytes)
    requires v.Object? && WellFormed(v)
    ensures Decode(Encode(v) + rest) == Some((Canonical(v), rest))
    decreases v, |v.entries| + 1
  {
    assert forall e :: e in v.entries ==> e.value < e;
    var sorted := SortByKey(v.entries);
    TaggedWord(8, |v.entries|, EncodeEntries(sorted, v), rest);
    forall k | 0 <= k < |sorted| ensures RoundTrips(sorted[k].value) && |sorted[k].key| < TWO_64 {
      assert sorted[k] in v.entries;
      forall r: Bytes ensures Decode(Encode(sorted[k].value) + r) == Some((Canonical(sorted[k].value), r)) {
        DecodeEncode(sorted[k].value, r);
      }
    }
    EntriesRoundTrip(sorted, rest, v);
    SortCommutesCanonical(v.entries);
  }

  /** Decoding undoes encoding for this value, whatever follows it. */
  ghost predicate RoundTrips(w: Value) {
    forall rest: Bytes :: Decode(Encode(w) + rest) == Some((Canonical(w), rest))
  }

  lemma {:induction false} ItemsRoundTrip(items: seq<Value>, rest: Bytes)
    requires forall k :: 0 <= k < |items| ==> RoundTrips(items[k])
    ensures DecodeItems(|items|, EncodeItems(items) + rest) == Some((CanonicalItems(items), rest))
    decreases |items|
  {
    if items == [] {
      assert EncodeItems(items) + rest == rest;
    } else {
      var tail := EncodeItems(items[1..]) + rest;
      ItemsRoundTrip(items[1..], rest);
      ItemAhead(items, rest);
      FirstItem(|items|, EncodeItems(items) + rest, Canonical(items[0]), tail, CanonicalItems(items[1..]), rest);
    }
  }

  lemma ItemAhead(items: seq<Value>, rest: Bytes)
    requires items != [] && RoundTrips(items[0])
    ensures Decode(EncodeItems(items) + rest) == Some((Canonical(items[0]), EncodeItems(items[1..]) + rest))
  {
    assert EncodeItems(items) + rest == Encode(items[0]) + (EncodeItems(items[1..]) + rest);
  }

  lemma FirstItem(n: nat, s: Bytes, first: Value, tail: Bytes, others: seq<Value>, rest: Bytes)
    requires n > 0 && Decode(s) == Some((first, tail)) && DecodeItems(n - 1, tail) == Some((others, rest))
    ensures DecodeItems(n, s) == Some(([first] + others, rest))
  {
  }

  lemma {:induction false} EntriesRoundTrip(entries: seq<Entry>, rest: Bytes, v: Value)
    requires forall e :: e in entries ==> e.value < v
    requires forall k :: 0 <= k < |entries| ==> RoundTrips(entries[k].value) && |entries[k].key| < TWO_64
    ensures DecodeEntries(|entries|, EncodeEntries(entries, v) + rest) == Some((CanonicalEntries(entries), rest))
    decreases |entries|
  {
    if entries == [] {
      assert EncodeEntries(entries, v) + rest == rest;
    } else {
      var e, others := entries[0], entries[1..];
      assert RoundTrips(e.value);
      var tail := EncodeEntries(others, v) + rest;
      EntriesRoundTrip(others, rest, v);
      EntriesHead(entries, v, []);
      EntryAhead(e, EncodeEntries(entries, v), EncodeEntries(others, v), rest);
      FirstEntry(|entries|, EncodeBytes(e.key) + (Encode(e.value) + tail), e.key, Encode(e.value) + tail,
        Canonical(e.value), tail, CanonicalEntries(others), rest);
    }
  }

  lemma EntryAhead(e: Entry, all: Bytes, others: Bytes, rest: Bytes)
    requires [] + all == [] + EncodeBytes(e.key) + Encode(e.value) + others && |e.key| < TWO_64
    ensures all + rest == EncodeBytes(e.key) + (Encode(e.value) + (others + rest))
    ensures DecodeBytes(EncodeBytes(e.key) + (Encode(e.value) + (others + rest))) ==
      Some((e.key, Encode(e.value) + (others + rest)))
  {
    BytesAhead(e.key, Encode(e.value) + (others + rest));
    Flatten(EncodeBytes(e.key), Encode(e.value), others, rest, all);
  }

  lemma Flatten(a: Bytes, b: Bytes, c: Bytes, d: Bytes, all: Bytes)
    requires [] + all == [] + a + b + c
    ensures all + d == a + (b + (c + d))
  {
    assert [] + all == all && [] + a == a;
  }

  lemma FirstEntry(n: nat, s: Bytes, key: Bytes, s1: Bytes, first: Value, tail: Bytes, others: seq<Entry>, rest: Bytes)
    requires n > 0 && DecodeBytes(s) == Some((key, s1)) && Decode(s1) == Some((first, tail))
    requires DecodeEntries(n - 1, tail) == Some((others, rest))
    ensures DecodeEntries(n, s) == Some(([Entry(key, first)] + others, rest))
  {
  }

  lemma {:induction false} InsertCommutesCanonical(e: Entry, sorted: seq<Entry>)
    ensures CanonicalEntries(Insert(e, sorted)) == Insert(Entry(e.key, Canonical(e.value)), CanonicalEntries(sorted))
  {
    if sorted != [] && !Less(e.key, sorted[0].key) {
      InsertCommutesCanonical(e, sorted[1..]);
    }
  }

  lemma {:induction false} SortCommutesCanonical(entries: seq<Entry>)
    ensures SortByKey(CanonicalEntries(entries)) == CanonicalEntries(SortByKey(entries))
  {
    if entries != [] {
      SortCommutesCanonical(entries[1..]);
      InsertCommutesCanonical(entries[0], SortByKey(entries[1..]));
    }
  }

  predicate Zero(bits: nat) {
    bits == 0 || bits == TWO_63
  }

  /** The same JSON value: object entries may be listed in any order, and zero may carry a
      sign. */
  ghost predicate Same(v: Value, w: Value)
    decreases v
  {
    match v
    case Float(bits) => w.Float? && (bits == w.bits || (Zero(bits) && Zero(w.bits)))
    case List(items) => w.List? && |items| == |w.items| && forall i :: 0 <= i < |items| ==> Same(items[i], w.items[i])
    case Object(entries) =>
      && w.Object?
      && (forall e :: e in entries ==> Paired(e, w.entries))
      && (forall f :: f in w.entries ==> PairedBack(entries, f))
    case _ => v == w
  }

  /** An entry of the same key and value is among the others. */
  ghost predicate Paired(e: Entry, others: seq<Entry>)
    decreases e
  {
    exists f :: f in others && f.key == e.key && Same(e.value, f.value)
  }

  ghost predicate PairedBack(entries: seq<Entry>, f: Entry)
    decreases entries
  {
    exists e :: e in entries && f.key == e.key && assert e.value < e; Same(e.value, f.value)
  }

  ghost predicate Agree(v: Value, w: Value) {
    WellFormed(v) && WellFormed(w) ==> (Same(v, w) <==> Canonical(v) == Canonical(w))
  }

  lemma {:induction false} SameIsCanonical(v: Value, w: Value)
    ensures Agree(v, w)
    decreases v
  {
    if WellFormed(v) && WellFormed(w) {
      match v
      case List(items) =>
        if w.List? {
          forall i | 0 <= i < |items| && i < |w.items| ensures Agree(items[i], w.items[i]) {
            SameIsCanonical(items[i], w.items[i]);
          }
          ListsAgree(v, w);
        }
      case Object(entries) =>
        if w.Object? {
          forall e, f | e in entries && f in w.entries ensures Agree(e.value, f.value) {
            assert e.value < e;
            SameIsCanonical(e.value, f.value);
          }
          ObjectsAgree(v, w);
        }
      case _ =>
    }
  }

  lemma ListsAgree(v: Value, w: Value)
    requires v.List? && w.List? && WellFormed(v) && WellFormed(w)
    requires forall i :: 0 <= i < |v.items| && i < |w.items| ==> Agree(v.items[i], w.items[i])
    ensures Same(v, w) <==> Canonical(v) == Canonical(w)
  {
    var a, b := CanonicalItems(v.items), CanonicalItems(w.items);
    if a == b {
      forall i | 0 <= i < |v.items| ensures Same(v.items[i], w.items[i]) {
        assert a[i] == b[i] && Agree(v.items[i], w.items[i]);
      }
    }
    if Same(v, w) {
      forall i | 0 <= i < |a| ensures a[i] == b[i] {
        assert Agree(v.items[i], w.items[i]);
      }
    }
  }

  lemma CanonicalMember(entries: seq<Entry>, x: Entry)
    ensures x in CanonicalEntries(entries) <==> exists e :: e in entries && x == Entry(e.key, Canonical(e.value))
  {
    var c := CanonicalEntries(entries);
    if x in c {
      var k :| 0 <= k < |c| && c[k] == x;
      assert entries[k] in entries;
    }
    if e :| e in entries && x == Entry(e.key, Canonical(e.value)) {
      var k :| 0 <= k < |entries| && entries[k] == e;
      assert c[k] == x;
    }
  }

  lemma CanonicalAscends(entries: seq<Entry>)
    requires DistinctKeys(entries)
    ensures Ascending(SortByKey(CanonicalEntries(entries)))
  {
    SortKeeps(CanonicalEntries(entries));
  }

  lemma ObjectsAgree(v: Value, w: Value)
    requires v.Object? && w.Object? && WellFormed(v) && WellFormed(w)
    requires forall e, f :: e in v.entries && f in w.entries ==> Agree(e.value, f.value)
    ensures Same(v, w) <==> Canonical(v) == Canonical(w)
  {
    var a, b := CanonicalEntries(v.entries), CanonicalEntries(w.entries);
    CanonicalAscends(v.entries);
    CanonicalAscends(w.entries);
    if Same(v, w) {
      forall x ensures x in a <==> x in b {
        MembersAgree(v, w, x);
      }
      AscendingIsUnique(SortByKey(a), SortByKey(b));
    }
    if SortByKey(a) == SortByKey(b) {
      assert forall x :: x in a <==> x in SortByKey(a);
      assert forall x :: x in b <==> x in SortByKey(b);
      EntriesMatch(v, w);
    }
  }

  lemma MembersAgree(v: Value, w: Value, x: Entry)
    requires v.Object? && w.Object? && WellFormed(v) && WellFormed(w) && Same(v, w)
    requires forall e, f :: e in v.entries && f in w.entries ==> Agree(e.value, f.value)
    ensures x in CanonicalEntries(v.entries) <==> x in CanonicalEntries(w.entries)
  {
    if x in CanonicalEntries(v.entries) {
      CanonicalMember(v.entries, x);
      var e :| e in v.entries && x == Entry(e.key, Canonical(e.value));
      assert Paired(e, w.entries);
      var f :| f in w.entries && f.key == e.key && Same(e.value, f.value);
      MemberCarried(v, w, e, f);
    } else if x in CanonicalEntries(w.entries) {
      CanonicalMember(w.entries, x);
      var f :| f in w.entries && x == Entry(f.key, Canonical(f.value));
      assert PairedBack(v.entries, f);
      var e :| e in v.entries && f.key == e.key && Same(e.value, f.value);
      MemberCarried(v, w, e, f);
    }
  }

  lemma MemberCarried(v: Value, w: Value, e: Entry, f: Entry)
    requires v.Object? && w.Object? && WellFormed(v) && WellFormed(w)
    requires e in v.entries && f in w.entries && e.key == f.key && Agree(e.value, f.value) && Same(e.value, f.value)
    ensures Entry(e.key, Canonical(e.value)) == Entry(f.key, Canonical(f.value))
    ensures Entry(e.key, Canonical(e.value)) in CanonicalEntries(v.entries)
    ensures Entry(f.key, Canonical(f.value)) in CanonicalEntries(w.entries)
  {
    SameCanonical(e.value, f.value);
    CanonicalMember(v.entries, Entry(e.key, Canonical(e.value)));
    CanonicalMember(w.entries, Entry(f.key, Canonical(f.value)));
  }

  lemma SameCanonical(v: Value, w: Value)
    requires Agree(v, w) && Same(v, w) && WellFormed(v) && WellFormed(w)
    ensures Canonical(v) == Canonical(w)
  {
  }

  lemma EntriesMatch(v: Value, w: Value)
    requires v.Object? && w.Object? && WellFormed(v) && WellFormed(w)
    requires forall e, f :: e in v.entries && f in w.entries ==> Agree(e.value, f.value)
    requires forall x :: x in CanonicalEntries(v.entries) <==> x in CanonicalEntries(w.entries)
    ensures Same(v, w)
  {
    forall e | e in v.entries ensures Paired(e, w.entries) {
      var x := Entry(e.key, Canonical(e.value));
      CanonicalMember(v.entries, x);
      CanonicalMember(w.entries, x);
      var f :| f in w.entries && x == Entry(f.key, Canonical(f.value));
      assert Agree(e.value, f.value);
    }
    forall f | f in w.entries ensures PairedBack(v.entries, f) {
      var x := Entry(f.key, Canonical(f.value));
      CanonicalMember(v.entries, x);
      CanonicalMember(w.entries, x);
      var e :| e in v.entries && x == Entry(e.key, Canonical(e.value));
      assert Agree(e.value, f.value);
    }
  }

  /** A value and its canonical form are encoded alike. */
  lemma {:induction false} EncodeCanonical(v: Value)
    requires WellFormed(v)
    ensures Encode(Canonical(v)) == Encode(v)
    decreases v
  {
    match v
    case List(items) =>
      forall k | 0 <= k < |items| ensures Encode(Canonical(items[k])) == Encode(items[k]) {
        EncodeCanonical(items[k]);
      }
      ItemsAlike(items);
    case Object(entries) =>
      forall e | e in entries ensures Alike(e.value) {
        assert e.value < e;
        EncodeCanonical(e.value);
      }
      ObjectAlike(v);
    case _ =>
  }

  ghost predicate Alike(v: Value) {
    Encode(Canonical(v)) == Encode(v)
  }

  lemma ObjectAlike(v: Value)
    requires v.Object? && DistinctKeys(v.entries)
    requires forall e :: e in v.entries ==> Alike(e.value)
    ensures Encode(Canonical(v)) == Encode(v)
  {
    var sorted := SortByKey(v.entries);
    SortedCanonical(v.entries);
    assert forall e :: e in sorted ==> e in v.entries && e.value < e;
    EntriesBelow(v, CanonicalEntries(sorted));
    EntriesAlike(sorted, v, Canonical(v));
  }

  lemma EntriesBelow(v: Value, entries: seq<Entry>)
    requires v.Object? && Canonical(v).Object? && Canonical(v).entries == entries
    ensures forall e :: e in entries ==> e.value < Canonical(v)
  {
    forall e | e in entries ensures e.value < Canonical(v) {
      assert e in Canonical(v).entries && e.value < e;
    }
  }

  lemma SortedCanonical(entries: seq<Entry>)
    requires DistinctKeys(entries)
    ensures SortByKey(CanonicalEntries(entries)) == CanonicalEntries(SortByKey(entries))
    ensures SortByKey(SortByKey(CanonicalEntries(entries))) == SortByKey(CanonicalEntries(entries))
  {
    SortCommutesCanonical(entries);
    CanonicalAscends(entries);
    var sorted := SortByKey(CanonicalEntries(entries));
    AscendingIsDistinct(sorted);
    SortKeeps(sorted);
    AscendingIsUnique(SortByKey(sorted), sorted);
  }

  lemma AscendingIsDistinct(entries: seq<Entry>)
    requires Ascending(entries)
    ensures DistinctKeys(entries)
  {
    forall i, j | 0 <= i < j < |entries| ensures entries[i].key != entries[j].key {
      LessTotal(entries[i].key, entries[j].key);
    }
  }

  lemma {:induction false} ItemsAlike(items: seq<Value>)
    requires forall k :: 0 <= k < |items| ==> Encode(Canonical(items[k])) == Encode(items[k])
    ensures EncodeItems(CanonicalItems(items)) == EncodeItems(items)
  {
    if items != [] {
      ItemsAlike(items[1..]);
    }
  }

  lemma {:induction false} EntriesAlike(entries: seq<Entry>, v: Value, w: Value)
    requires forall e :: e in entries ==> e.value < v
    requires forall e :: e in entries ==> Alike(e.value)
    requires forall e :: e in CanonicalEntries(entries) ==> e.value < w
    ensures EncodeEntries(CanonicalEntries(entries), w) == EncodeEntries(entries, v)
  {
    if entries != [] {
      assert entries[0] in entries;
      assert CanonicalEntries(entries)[1..] == CanonicalEntries(entries[1..]);
      EntriesAlike(entries[1..], v, w);
    }
  }

  /** Two values are encoded alike exactly when they are the same JSON value. */
  lemma EncodedAlike(v: Value, w: Value)
    requires WellFormed(v) && WellFormed(w)
    ensures Encode(v) == Encode(w) <==> Same(v, w)
  {
    SameIsCanonical(v, w);
    EncodeCanonical(v);
    EncodeCanonical(w);
    DecodeEncode(v, []);
    DecodeEncode(w, []);
    assert Encode(v) + [] == Encode(v) && Encode(w) + [] == Encode(w);
  }

  /** The input of the hash: the domain, a zero byte, the encoding. */
  function Preimage(domain: Bytes, v: Value): Bytes {
    domain + [0] + Encode(v)
  }

  method DigestCanonicalValue(domain: Bytes, v: Value) returns (hashed: Bytes)
    ensures hashed == Preimage(domain, v)
  {
    hashed := domain;
    hashed := hashed + [0];
    hashed := EncodeCanonicalValue(v, hashed);
  }

  /** Domains without zero bytes keep their values apart. */
  lemma DomainsSeparate(d: Bytes, e: Bytes, v: Value, w: Value)
    requires WellFormed(v) && WellFormed(w) && 0 !in d && 0 !in e
    ensures Preimage(d, v) == Preimage(e, w) <==> d == e && Same(v, w)
  {
    EncodedAlike(v, w);
    if Preimage(d, v) == Preimage(e, w) {
      NotLonger(d, Encode(v), e, Encode(w));
      NotLonger(e, Encode(w), d, Encode(v));
      var a := Preimage(d, v);
      assert a[..|d|] == d && a[|d| + 1..] == Encode(v);
      assert a[..|e|] == e && a[|e| + 1..] == Encode(w);
    }
  }

  lemma NotLonger(d: Bytes, x: Bytes, e: Bytes, y: Bytes)
    requires d + [0] + x == e + [0] + y && 0 !in d
    ensures |d| <= |e|
  {
    assert (e + [0] + y)[|e|] == 0;
  }
}
