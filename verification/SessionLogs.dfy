/** The log of a session, bounded in bytes of serialized records. */
module SessionLogs {
  import opened Results
  import opened ByteStrings
  import Headers

  const CAPACITY: nat := 1024 * 1024
  const U64_MAX: nat := 0xFFFF_FFFF_FFFF_FFFF

  /** The bytes of a serialized record apart from its fields: braces, names, quotes,
      colons and commas. */
  const PUNCTUATION: nat := 91

  datatype Record = Record(
    sequence: nat,
    timestamp: Bytes,
    kind: Bytes,
    level: Bytes,
    message: Bytes,
    truncated: bool,
    omittedBytes: nat)

  const BACKSLASH: byte := 92

  function HexDigit(n: nat): (b: byte)
    requires n < 16
  {
    (if n < 10 then 48 + n else 87 + n) as byte
  }

  /** One byte of a JSON string (section 7 of RFC 8259): quotes, backslashes and the common
      control characters take two bytes, other control characters six. */
  function EscapeByte(b: byte): (t: Bytes)
    ensures t != []
  {
    if b == Headers.QUOTE || b == BACKSLASH then [BACKSLASH, b]
    else if b == 8 then [BACKSLASH, 98]
    else if b == 9 then [BACKSLASH, 116]
    else if b == 10 then [BACKSLASH, 110]
    else if b == 12 then [BACKSLASH, 102]
    else if b == 13 then [BACKSLASH, 114]
    else if b < 32 then [BACKSLASH, 117, 48, 48, HexDigit(b as nat / 16), HexDigit(b as nat % 16)]
    else [b]
  }

  function Escape(s: Bytes): Bytes {
    if s == [] then [] else EscapeByte(s[0]) + Escape(s[1..])
  }

  /** How many bytes one byte of a string takes. */
  function EscapedByte(b: byte): (n: nat)
    ensures n >= 1
  {
    if b == 34 || b == 92 || b == 8 || b == 9 || b == 10 || b == 12 || b == 13 then 2
    else if b < 32 then 6
    else 1
  }

  function Escaped(s: Bytes): (n: nat)
    ensures n >= |s|
  {
    if s == [] then 0 else EscapedByte(s[0]) + Escaped(s[1..])
  }

  lemma {:induction false} EscapedIsLength(s: Bytes)
    ensures Escaped(s) == |Escape(s)|
    decreases |s|
  {
    if s != [] {
      EscapedIsLength(s[1..]);
    }
  }

  /** What a reader makes of an escaped string. */
  function Unescape(t: Bytes): Bytes {
    if t == [] then []
    else if t[0] != BACKSLASH || |t| < 2 then [t[0]] + Unescape(t[1..])
    else if t[1] == 117 && |t| >= 6 then
      [((HexValue(t[4]) * 16 + HexValue(t[5])) % 256) as byte] + Unescape(t[6..])
    else [Named(t[1])] + Unescape(t[2..])
  }

  function HexValue(b: byte): nat {
    if 48 <= b < 58 then b as nat - 48 else if 97 <= b < 103 then b as nat - 87 else 0
  }

  function Named(b: byte): byte {
    if b == 98 then 8 else if b == 116 then 9 else if b == 110 then 10 else if b == 102 then 12
    else if b == 114 then 13 else b
  }

  lemma UnescapeOne(b: byte, t: Bytes)
    ensures Unescape(EscapeByte(b) + t) == [b] + Unescape(t)
  {
    var first := EscapeByte(b);
    assert (first + t)[|first|..] == t;
    if |first| == 6 {
      assert HexValue(HexDigit(b as nat / 16)) == b as nat / 16 && HexValue(HexDigit(b as nat % 16)) == b as nat % 16;
    }
  }

  /** Reading an escaped string gives the string back. */
  lemma {:induction false} UnescapeEscape(s: Bytes)
    ensures Unescape(Escape(s)) == s
    decreases |s|
  {
    if s != [] {
      UnescapeOne(s[0], Escape(s[1..]));
      UnescapeEscape(s[1..]);
    }
  }

  function Digits(n: nat): (d: nat)
    ensures d >= 1
  {
    if n < 10 then 1 else 1 + Digits(n / 10)
  }

  lemma {:induction false} DigitsAreLength(n: nat)
    ensures Digits(n) == |Headers.Decimal(n)|
    ensures n <= U64_MAX ==> Digits(n) <= 20
  {
    if n >= 10 {
      DigitsAreLength(n / 10);
    }
    if n <= U64_MAX {
      Headers.WordLength(n);
    }
  }

  function Labels(r: Record): nat {
    Escaped(r.timestamp) + Escaped(r.kind) + Escaped(r.level)
  }

  function Truth(b: bool): Bytes {
    if b then Headers.Ascii("true") else Headers.Ascii("false")
  }

  /** A record as JSON. */
  function Serialized(r: Record): Bytes {
    Headers.Ascii("{\"sequence\":") + Headers.Decimal(r.sequence)
    + Headers.Ascii(",\"timestamp\":\"") + Escape(r.timestamp)
    + Headers.Ascii("\",\"kind\":\"") + Escape(r.kind)
    + Headers.Ascii("\",\"level\":\"") + Escape(r.level)
    + Headers.Ascii("\",\"message\":\"") + Escape(r.message)
    + Headers.Ascii("\",\"truncated\":") + Truth(r.truncated)
    + Headers.Ascii(",\"omittedBytes\":") + Headers.Decimal(r.omittedBytes)
    + Headers.Ascii("}")
  }

  function SerializedSize(r: Record): nat {
    PUNCTUATION + Digits(r.sequence) + Labels(r) + Escaped(r.message)
      + (if r.truncated then 4 else 5) + Digits(r.omittedBytes)
  }

  /** The sizes the log adds up are the lengths of its records as JSON. */
  lemma SizeIsLength(r: Record)
    ensures SerializedSize(r) == |Serialized(r)|
  {
    DigitsAreLength(r.sequence);
    DigitsAreLength(r.omittedBytes);
    EscapedIsLength(r.timestamp);
    EscapedIsLength(r.kind);
    EscapedIsLength(r.level);
    EscapedIsLength(r.message);
  }

  /** Escaping adds no more to a suffix than to the whole. */
  lemma {:induction false} SuffixEscapesLess(s: Bytes, start: nat)
    requires start <= |s|
    ensures Escaped(s[start..]) - |s[start..]| <= Escaped(s) - |s|
    decreases start
  {
    if start == 0 {
      assert s[0..] == s;
    } else {
      SuffixEscapesLess(s[1..], start - 1);
      assert s[1..][start - 1..] == s[start..];
    }
  }

  /** The first character boundary that leaves at most `keep` bytes. */
  method Utf8SuffixStart(value: Bytes, keep: nat) returns (start: nat)
    ensures start <= |value| && IsCharBoundary(value, start) && |value| - start <= keep
    ensures forall i: nat :: i < start && |value| - i <= keep ==> !IsCharBoundary(value, i)
  {
    start := if |value| < keep then 0 else |value| - keep;
    while !IsCharBoundary(value, start)
      invariant start <= |value| && |value| - start <= keep
      invariant forall i: nat :: i < start && |value| - i <= keep ==> !IsCharBoundary(value, i)
      decreases |value| - start
    {
      start := start + 1;
    }
  }

  /** `kept` is `full` cut down to a suffix of its message. */
  ghost predicate CutDown(full: Record, kept: Record) {
    && kept.omittedBytes <= |full.message| && IsCharBoundary(full.message, kept.omittedBytes)
    && kept == full.(message := full.message[kept.omittedBytes..], truncated := true, omittedBytes := kept.omittedBytes)
  }

  /** The slack covers what truncation adds to the other fields, whatever needs escaping:
      `false` becomes `true` and one digit becomes up to twenty. */
  lemma CutFits(full: Record, kept: Record, keep: nat)
    requires !full.truncated && full.omittedBytes == 0 && |full.message| <= U64_MAX
    requires CutDown(full, kept) && |kept.message| <= keep
    requires
      var needed := SerializedSize(full) - |full.message| + 32;
      keep == if needed <= CAPACITY then CAPACITY - needed else 0
    requires PUNCTUATION + Digits(full.sequence) + Labels(full) + 24 <= CAPACITY
    ensures SerializedSize(kept) <= CAPACITY
  {
    DigitsAreLength(kept.omittedBytes);
    SuffixEscapesLess(full.message, kept.omittedBytes);
  }

  function TotalSize(records: seq<(nat, Record)>): nat {
    if records == [] then 0 else records[0].0 + TotalSize(records[1..])
  }

  lemma {:induction false} TotalAppend(records: seq<(nat, Record)>, last: (nat, Record))
    ensures TotalSize(records + [last]) == TotalSize(records) + last.0
  {
    if records == [] {
      assert ([] + [last])[1..] == [];
    } else {
      assert (records + [last])[1..] == records[1..] + [last];
      TotalAppend(records[1..], last);
    }
  }

  function Saturate(n: nat): nat {
    if n < U64_MAX then n else U64_MAX
  }

  /** Records with their sizes, numbered from `first` on. */
  ghost predicate Numbered(records: seq<(nat, Record)>, first: nat) {
    forall k :: 0 <= k < |records| ==> Sized(records[k], first + k)
  }

  ghost predicate Sized(entry: (nat, Record), number: nat) {
    entry.0 == SerializedSize(entry.1) && entry.1.sequence == Saturate(number)
  }

  lemma DropFirst(records: seq<(nat, Record)>, first: nat)
    requires records != [] && Numbered(records, first)
    ensures Numbered(records[1..], first + 1)
    ensures TotalSize(records) == records[0].0 + TotalSize(records[1..])
  {
    forall k | 0 <= k < |records[1..]| ensures Sized(records[1..][k], first + 1 + k) {
      assert Sized(records[k + 1], first + (k + 1));
    }
  }

  lemma AddLast(records: seq<(nat, Record)>, first: nat, last: (nat, Record))
    requires Numbered(records, first) && Sized(last, first + |records|)
    ensures Numbered(records + [last], first)
    ensures TotalSize(records + [last]) == TotalSize(records) + last.0
  {
    TotalAppend(records, last);
    forall k | 0 <= k < |records + [last]| ensures Sized((records + [last])[k], first + k) {
      if k < |records| {
        assert Sized(records[k], first + k);
      }
    }
  }

  lemma OneMoreEvicted(records: seq<(nat, Record)>, n: nat)
    requires n < |records|
    ensures records[n..][0] == records[n] && records[n..][1..] == records[n + 1..]
    ensures TotalSize(records[..n + 1]) == TotalSize(records[..n]) + records[n].0
  {
    assert records[..n + 1] == records[..n] + [records[n]];
    TotalAppend(records[..n], records[n]);
  }

  class SessionLog {
    var records: seq<(nat, Record)>
    var retainedBytes: nat
    var evictedRecords: nat
    var evictedBytes: nat
    var nextSequence: nat
    ghost var pushed: nat   // records pushed so far
    ghost var dropped: nat  // bytes evicted so far

    constructor ()
      ensures Valid() && records == [] && pushed == 0 && dropped == 0
    {
      records, retainedBytes, evictedRecords, evictedBytes, nextSequence := [], 0, 0, 0, 0;
      pushed, dropped := 0, 0;
    }

    /** The bytes retained are those of the records, never more than the capacity; records
        kept and evicted are all that were pushed, numbered in order; only the counters
        saturate. */
    ghost predicate Valid()
      reads this
    {
      && retainedBytes == TotalSize(records) <= CAPACITY
      && |records| <= pushed
      && nextSequence == Saturate(pushed)
      && evictedRecords == Saturate(pushed - |records|)
      && evictedBytes == Saturate(dropped)
      && Numbered(records, pushed - |records|)
    }

    method EvictOldest()
      requires Valid() && records != []
      modifies this`records, this`retainedBytes, this`evictedRecords, this`evictedBytes, this`dropped
      ensures Valid() && records == old(records)[1..] && dropped == old(dropped) + old(records)[0].0
    {
      ghost var first := pushed - |records|;
      DropFirst(records, first);
      var removed := records[0].0;
      records := records[1..];
      retainedBytes := retainedBytes - removed;
      evictedRecords := Saturate(evictedRecords + 1);
      evictedBytes := Saturate(evictedBytes + removed);
      dropped := dropped + removed;
      assert pushed - |records| == first + 1;
    }

    /** Evicts the oldest records until `size` more bytes fit, and no more than that. */
    method EvictFor(size: nat) returns (ghost evicted: nat)
      requires Valid() && size <= CAPACITY
      modifies this`records, this`retainedBytes, this`evictedRecords, this`evictedBytes, this`dropped
      ensures Valid() && retainedBytes + size <= CAPACITY
      ensures evicted <= |old(records)| && records == old(records)[evicted..]
      ensures dropped == old(dropped) + TotalSize(old(records)[..evicted])
      ensures evicted > 0 ==> TotalSize(old(records)[evicted - 1..]) + size > CAPACITY
    {
      evicted := 0;
      while retainedBytes + size > CAPACITY
        invariant Valid()
        invariant evicted <= |old(records)| && records == old(records)[evicted..]
        invariant dropped == old(dropped) + TotalSize(old(records)[..evicted])
        invariant evicted > 0 ==> TotalSize(old(records)[evicted - 1..]) + size > CAPACITY
        decreases |records|
      {
        assert records != [];
        OneMoreEvicted(old(records), evicted);
        EvictOldest();
        evicted := evicted + 1;
      }
    }

    method Append(size: nat, record: Record)
      requires Valid() && retainedBytes + size <= CAPACITY
      requires size == SerializedSize(record) && record.sequence == nextSequence
      modifies this`records, this`retainedBytes, this`nextSequence, this`pushed
      ensures Valid() && records == old(records) + [(size, record)] && pushed == old(pushed) + 1
    {
      ghost var first := pushed - |records|;
      AddLast(records, first, (size, record));
      nextSequence := if nextSequence < U64_MAX then nextSequence + 1 else U64_MAX;
      retainedBytes := retainedBytes + size;
      records := records + [(size, record)];
      pushed := pushed + 1;
      assert pushed - |records| == first;
    }

    method MakeRecord(timestamp: Bytes, kind: Bytes, level: Bytes, message: Bytes) returns (record: Record, size: nat)
      requires Valid() && |message| <= U64_MAX
      requires PUNCTUATION + 20 + Escaped(timestamp) + Escaped(kind) + Escaped(level) + 24 <= CAPACITY
      ensures size == SerializedSize(record) <= CAPACITY && record.sequence == nextSequence
      ensures var full := Record(nextSequence, timestamp, kind, level, message, false, 0);
        if SerializedSize(full) <= CAPACITY then record == full else CutDown(full, record)
    {
      record := Record(nextSequence, timestamp, kind, level, message, false, 0);
      DigitsAreLength(nextSequence);
      size := SerializedSize(record);
      if size > CAPACITY {
        ghost var full := record;
        var overhead := size - |record.message|;
        var keep := if overhead + 32 <= CAPACITY then CAPACITY - (overhead + 32) else 0;
        var start := Utf8SuffixStart(record.message, keep);
        record := record.(omittedBytes := start, message := record.message[start..], truncated := true);
        CutFits(full, record, keep);
        size := SerializedSize(record);
      }
    }

    /** Adds one record, cut down if it alone exceeds the capacity, and evicts the oldest
        records until everything fits. Labels are short. */
    method Push(
        timestamp: Bytes, kind: Bytes, level: Bytes, message: Bytes)
      returns (ghost record: Record, ghost evicted: nat)
      requires Valid() && |message| <= U64_MAX
      requires PUNCTUATION + 20 + Escaped(timestamp) + Escaped(kind) + Escaped(level) + 24 <= CAPACITY
      modifies this
      ensures Valid() && pushed == old(pushed) + 1
      ensures var full := Record(old(nextSequence), timestamp, kind, level, message, false, 0);
        if SerializedSize(full) <= CAPACITY then record == full else CutDown(full, record)
      ensures evicted <= |old(records)|
      ensures records == old(records)[evicted..] + [(SerializedSize(record), record)]
      ensures dropped == old(dropped) + TotalSize(old(records)[..evicted])
      ensures evicted > 0 ==> TotalSize(old(records)[evicted - 1..]) + SerializedSize(record) > CAPACITY
    {
      var added, size := MakeRecord(timestamp, kind, level, message);
      evicted := EvictFor(size);
      Append(size, added);
      record := added;
    }

    /** The last `tail` records, oldest first. */
    method Render(tail: nat) returns (rendered: seq<Record>)
      requires Valid()
      ensures |rendered| == if tail < |records| then tail else |records|
      ensures forall k :: 0 <= k < |rendered| ==>
        && rendered[k] == records[|records| - |rendered| + k].1
        && rendered[k].sequence == Saturate(pushed - |rendered| + k)
    {
      var skip := if |records| < tail then 0 else |records| - tail;
      rendered := [];
      assert forall k :: 0 <= k < |records| ==> Sized(records[k], pushed - |records| + k);
      for k := skip to |records|
        invariant |rendered| == k - skip
        invariant forall j :: 0 <= j < |rendered| ==> rendered[j] == records[skip + j].1
      {
        rendered := rendered + [records[k].1];
      }
    }
  }

  /** What is kept of a valid message is valid. */
  lemma KeptIsValid(full: Record, kept: Record)
    requires ValidUtf8(full.message) && CutDown(full, kept)
    ensures ValidUtf8(kept.message) && |kept.message| + kept.omittedBytes == |full.message|
  {
    CutValid(full.message, kept.omittedBytes);
  }
}
