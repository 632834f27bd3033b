/** Frames on a byte stream: what a reader makes of any bytes in any chunks, and what a
    writer that may be stopped anywhere leaves on the stream. */
module Framing {
  import opened Results
  import opened ByteStrings
  import opened Headers

  const HEADER_LIMIT: nat := 8 * 1024

  /** What a text is as JSON. */
  datatype Kind = Object | Array | OtherValue | Invalid

  datatype Outcome = End | Frame(header: Bytes, body: Bytes) | Failed(error: Error)

  datatype HeaderOutcome = NoHeader | Whole(header: Bytes) | Bad(error: Error)

  function Min(a: nat, b: nat): nat {
    if a < b then a else b
  }

  // What a stream reads as

  /** The header at the start of a stream: all up to the first blank line, which must come
      within the limit. */
  function HeaderOf(s: Bytes): HeaderOutcome {
    match Find(s[..Min(|s|, HEADER_LIMIT)], BLANK_LINE)
    case Some(i) => Whole(s[..i + 4])
    case None => if s == [] then NoHeader else if |s| < HEADER_LIMIT then Bad(TruncatedHeader) else Bad(HeaderTooLarge)
  }

  function HeaderTaken(s: Bytes): (n: nat)
    ensures n <= |s|
  {
    if HeaderOf(s).Whole? then |HeaderOf(s).header| else Min(|s|, HEADER_LIMIT)
  }

  function Judge(header: Bytes, body: Bytes, kind: Bytes -> Kind): Outcome {
    if !ValidUtf8(body) then Failed(NonUtf8Body)
    else match kind(body)
      case Object => Frame(header, body)
      case Array => Failed(BatchUnsupported)
      case OtherValue => Failed(MessageNotObject)
      case Invalid => Failed(InvalidJsonBody)
  }

  /** How many bytes of a stream one read takes. */
  ghost function Taken(s: Bytes, maxBody: nat): (n: nat)
    ensures n <= |s|
  {
    match HeaderOf(s)
    case Whole(header) => (
      match Parse(header)
      case Length(n) => if n > maxBody then |header| else Min(|s|, |header| + n)
      case Refused(_) => |header|
    )
    case _ => HeaderTaken(s)
  }

  ghost function Read(s: Bytes, maxBody: nat, kind: Bytes -> Kind): Outcome {
    match HeaderOf(s)
    case NoHeader => End
    case Bad(error) => Failed(error)
    case Whole(header) =>
      match Parse(header)
      case Refused(error) => Failed(error)
      case Length(n) =>
        if n > maxBody then Failed(InboundBodyTooLarge)
        else if |s| < |header| + n then Failed(ReadBody)
        else Judge(header, s[|header|..|header| + n], kind)
  }

  /** All frames of a stream, and what ends it. */
  ghost function ReadAll(s: Bytes, maxBody: nat, kind: Bytes -> Kind): (all: (seq<Bytes>, Outcome))
    decreases |s|
  {
    var outcome := Read(s, maxBody, kind);
    if outcome.Frame? && Taken(s, maxBody) > 0 then
      var rest := ReadAll(s[Taken(s, maxBody)..], maxBody, kind);
      ([outcome.body] + rest.0, rest.1)
    else ([], outcome)
  }

  function FrameOf(body: Bytes): Bytes {
    Header(|body|) + body
  }

  function Frames(bodies: seq<Bytes>): Bytes {
    if bodies == [] then [] else FrameOf(bodies[0]) + Frames(bodies[1..])
  }

  /** When a stream starts with a header, then a body of the length it declares. */
  ghost predicate StartsWith(s: Bytes, header: Bytes, body: Bytes, maxBody: nat, kind: Bytes -> Kind) {
    && HeaderOf(s) == Whole(header) && Parse(header) == Length(|body|)
    && CanSend(body, maxBody, kind) && header + body <= s
  }

  lemma StartIsRead(s: Bytes, header: Bytes, body: Bytes, maxBody: nat, kind: Bytes -> Kind)
    requires StartsWith(s, header, body, maxBody, kind)
    ensures Read(s, maxBody, kind) == Frame(header, body) && Taken(s, maxBody) == |header| + |body|
  {
    assert s[|header|..|header| + |body|] == (header + body)[|header|..] == body;
  }

  lemma ReadIsStart(s: Bytes, maxBody: nat, kind: Bytes -> Kind)
    requires Read(s, maxBody, kind).Frame?
    ensures
      var frame := Read(s, maxBody, kind);
      StartsWith(s, frame.header, frame.body, maxBody, kind)
  {
    var header := HeaderOf(s).header;
    var n := Parse(header).bytes;
    assert s == header + s[|header|..|header| + n] + s[|header| + n..];
  }

  /** A frame that is read is exactly the bytes taken and declares its own length; a
      stream that goes on differently after it reads the same. */
  lemma ReadIsLocal(s: Bytes, t: Bytes, maxBody: nat, kind: Bytes -> Kind)
    requires Read(s, maxBody, kind).Frame?
    requires s[..Taken(s, maxBody)] <= t
    ensures
      var frame := Read(s, maxBody, kind);
      && s[..Taken(s, maxBody)] == frame.header + frame.body && |frame.header| >= 4
      && Declares(frame.header, |frame.body|) && CanSend(frame.body, maxBody, kind)
    ensures Read(t, maxBody, kind) == Read(s, maxBody, kind) && Taken(t, maxBody) == Taken(s, maxBody)
  {
    var frame := Read(s, maxBody, kind);
    var header, body := frame.header, frame.body;
    ReadIsStart(s, maxBody, kind);
    StartIsRead(s, header, body, maxBody, kind);
    ParseMeans(header, |body|);
    assert s[..|header| + |body|] == header + body;
    assert t[..|header|] == (header + body)[..|header|] == header;
    HeaderIsLocal(s, t);
    StartIsRead(t, header, body, maxBody, kind);
  }

  lemma HeaderIsLocal(s: Bytes, t: Bytes)
    requires HeaderOf(s).Whole?
    requires |HeaderOf(s).header| <= |t| && t[..|HeaderOf(s).header|] == HeaderOf(s).header
    ensures HeaderOf(t) == HeaderOf(s)
  {
    var u, v := s[..Min(|s|, HEADER_LIMIT)], t[..Min(|t|, HEADER_LIMIT)];
    var i := Find(u, BLANK_LINE).value;
    var header := HeaderOf(s).header;
    assert |header| == i + 4 && i + 4 <= |u| && i + 4 <= |v|;
    assert u[..i + 4] == s[..i + 4] == header;
    assert v[..i + 4] == t[..i + 4] == header;
    FindIsLocal(u, v, i);
  }

  lemma FindIsLocal(u: Bytes, v: Bytes, i: nat)
    requires Find(u, BLANK_LINE) == Some(i)
    requires i + 4 <= |v| && v[..i + 4] == u[..i + 4]
    ensures Find(v, BLANK_LINE) == Some(i)
  {
    forall j: nat | j <= i ensures At(v, BLANK_LINE, j) == At(u, BLANK_LINE, j) {
      assert v[j..j + 4] == v[..i + 4][j..j + 4] == u[..i + 4][j..j + 4] == u[j..j + 4];
    }
    FindIs(v, BLANK_LINE, i);
  }

  /** Whether a header is read depends on where the first blank line of the whole stream ends:
      within 8192 bytes it is, behind them it is too large. */
  lemma HeaderWithinLimit(s: Bytes)
    ensures HeaderOf(s) ==
      match Find(s, BLANK_LINE)
      case Some(i) => if i + 4 <= 8192 then Whole(s[..i + 4]) else Bad(HeaderTooLarge)
      case None => if s == [] then NoHeader else if |s| < 8192 then Bad(TruncatedHeader) else Bad(HeaderTooLarge)
  {
    var window := s[..Min(|s|, HEADER_LIMIT)];
    if Find(window, BLANK_LINE).Some? {
      var i := Find(window, BLANK_LINE).value;
      assert s[..i + 4] == window[..i + 4];
      FindIsLocal(window, s, i);
    } else if Find(s, BLANK_LINE).Some? {
      var i := Find(s, BLANK_LINE).value;
      if i + 4 <= |window| {
        assert window[..i + 4] == s[..i + 4];
        FindIsLocal(s, window, i);
      }
    }
  }

  /** A written frame reads back as its body and nothing more is taken. */
  lemma FrameReads(body: Bytes, rest: Bytes, maxBody: nat, kind: Bytes -> Kind)
    requires |body| <= maxBody <= USIZE_MAX
    requires ValidUtf8(body) && kind(body) == Object
    ensures Read(FrameOf(body) + rest, maxBody, kind) == Frame(Header(|body|), body)
    ensures Taken(FrameOf(body) + rest, maxBody) == |FrameOf(body)|
  {
    var header, s := Header(|body|), FrameOf(body) + rest;
    assert s == header + (body + rest);
    HeaderReads(|body|, body + rest);
    HeaderDeclares(|body|);
    StartIsRead(s, header, body, maxBody, kind);
  }

  lemma HeaderReads(n: nat, rest: Bytes)
    requires n <= USIZE_MAX
    ensures HeaderOf(Header(n) + rest) == Whole(Header(n))
  {
    var s := Header(n) + rest;
    WordLength(n);
    assert |Header(n)| <= 40;
    var window := s[..Min(|s|, HEADER_LIMIT)];
    assert window == Header(n) + rest[..|window| - |Header(n)|];
    BlankLineEndsHeader(n, rest[..|window| - |Header(n)|]);
    assert s[..|Header(n)|] == Header(n);
  }

  /** How a stream ends that stops `k` bytes into a frame. */
  function BreakOff(body: Bytes, k: nat): Outcome {
    if k == 0 || k == |FrameOf(body)| then End
    else if k < |Header(|body|)| then Failed(TruncatedHeader)
    else Failed(ReadBody)
  }

  /** A frame that breaks off reads as the end of the stream before its first byte, as a
      truncated header or as a body cut short. */
  lemma PartialFrame(body: Bytes, k: nat, maxBody: nat, kind: Bytes -> Kind)
    requires |body| <= maxBody <= USIZE_MAX && k < |FrameOf(body)|
    ensures Read(FrameOf(body)[..k], maxBody, kind) == BreakOff(body, k)
  {
    var header, s := Header(|body|), FrameOf(body)[..k];
    if k >= |header| {
      assert s == header + body[..k - |header|];
      HeaderReads(|body|, body[..k - |header|]);
      HeaderDeclares(|body|);
    } else {
      WordLength(|body|);
      assert s == header[..k] && |header| <= 40;
      assert s[..Min(|s|, HEADER_LIMIT)] == s;
      assert header + [] == header;
      BlankLineEndsHeader(|body|, []);
      if Find(s, BLANK_LINE).Some? {
        PrefixPlace(header, s, Find(s, BLANK_LINE).value);
      }
    }
  }

  lemma PrefixPlace(s: Bytes, prefix: Bytes, i: nat)
    requires prefix <= s && At(prefix, BLANK_LINE, i)
    ensures At(s, BLANK_LINE, i)
  {
    assert s[i..i + 4] == prefix[i..i + 4];
  }

  function Prepend(bodies: seq<Bytes>, all: (seq<Bytes>, Outcome)): (seq<Bytes>, Outcome) {
    (bodies + all.0, all.1)
  }

  ghost predicate Sendable(bodies: seq<Bytes>, maxBody: nat, kind: Bytes -> Kind) {
    forall k :: 0 <= k < |bodies| ==> CanSend(bodies[k], maxBody, kind)
  }

  ghost predicate CanSend(body: Bytes, maxBody: nat, kind: Bytes -> Kind) {
    |body| <= maxBody && ValidUtf8(body) && kind(body) == Object
  }

  lemma SendableTail(bodies: seq<Bytes>, maxBody: nat, kind: Bytes -> Kind)
    requires bodies != [] && Sendable(bodies, maxBody, kind)
    ensures Sendable(bodies[1..], maxBody, kind) && CanSend(bodies[0], maxBody, kind)
  {
    forall k | 0 <= k < |bodies[1..]| ensures CanSend(bodies[1..][k], maxBody, kind) {
      assert CanSend(bodies[k + 1], maxBody, kind);
    }
  }

  lemma OneMoreFrame(body: Bytes, after: Bytes, maxBody: nat, kind: Bytes -> Kind)
    requires CanSend(body, maxBody, kind) && maxBody <= USIZE_MAX
    ensures ReadAll(FrameOf(body) + after, maxBody, kind) == Prepend([body], ReadAll(after, maxBody, kind))
  {
    FrameReads(body, after, maxBody, kind);
    assert (FrameOf(body) + after)[|FrameOf(body)|..] == after;
  }

  lemma PrependNothing(all: (seq<Bytes>, Outcome))
    ensures Prepend([], all) == all
  {
    assert [] + all.0 == all.0;
  }

  lemma PrependTwice(bodies: seq<Bytes>, all: (seq<Bytes>, Outcome))
    requires bodies != []
    ensures Prepend(bodies, all) == Prepend([bodies[0]], Prepend(bodies[1..], all))
  {
    assert bodies == [bodies[0]] + bodies[1..];
    assert bodies + all.0 == [bodies[0]] + (bodies[1..] + all.0);
  }

  lemma FirstFrame(bodies: seq<Bytes>, rest: Bytes)
    requires bodies != []
    ensures Frames(bodies) + rest == FrameOf(bodies[0]) + (Frames(bodies[1..]) + rest)
  {
  }

  /** Reading the frames of any bodies gives exactly those bodies, then what follows. */
  lemma {:induction false} FramesReadBack(bodies: seq<Bytes>, rest: Bytes, maxBody: nat, kind: Bytes -> Kind)
    requires Sendable(bodies, maxBody, kind) && maxBody <= USIZE_MAX
    ensures ReadAll(Frames(bodies) + rest, maxBody, kind) == Prepend(bodies, ReadAll(rest, maxBody, kind))
  {
    if bodies == [] {
      assert Frames(bodies) + rest == rest;
      PrependNothing(ReadAll(rest, maxBody, kind));
    } else {
      SendableTail(bodies, maxBody, kind);
      FramesReadBack(bodies[1..], rest, maxBody, kind);
      FirstFrame(bodies, rest);
      OneMoreFrame(bodies[0], Frames(bodies[1..]) + rest, maxBody, kind);
      PrependTwice(bodies, ReadAll(rest, maxBody, kind));
    }
  }

  // The reader

  function Flat(chunks: seq<Bytes>): Bytes {
    if chunks == [] then [] else chunks[0] + Flat(chunks[1..])
  }

  predicate EndsBlank(s: Bytes) {
    |s| >= 4 && s[|s| - 4..] == BLANK_LINE
  }

  lemma OneMore(s: Bytes, b: byte)
    requires Find(s, BLANK_LINE) == None && !EndsBlank(s + [b])
    ensures Find(s + [b], BLANK_LINE) == None
  {
    forall i: nat ensures !At(s + [b], BLANK_LINE, i) {
      if i + 4 <= |s| {
        assert (s + [b])[i..i + 4] == s[i..i + 4];
        assert !At(s, BLANK_LINE, i);
      } else if i + 4 == |s| + 1 {
        assert (s + [b])[i..i + 4] == (s + [b])[|s + [b]| - 4..];
      }
    }
  }

  lemma Complete(stream: Bytes, s: Bytes, b: byte)
    requires Find(s, BLANK_LINE) == None && EndsBlank(s + [b])
    requires |s| < HEADER_LIMIT && s + [b] <= stream
    ensures HeaderOf(stream) == Whole(s + [b])
  {
    var header := s + [b];
    var place := |header| - 4;
    forall i: nat | i < place ensures !At(header, BLANK_LINE, i) {
      assert header[i..i + 4] == s[i..i + 4];
      assert !At(s, BLANK_LINE, i);
    }
    assert header[place..place + 4] == header[place..];
    FindIs(header, BLANK_LINE, place);
    var window := stream[..Min(|stream|, HEADER_LIMIT)];
    assert window[..place + 4] == header[..place + 4];
    FindIsLocal(header, window, place);
  }

  /** What is known of the bytes read of a header. */
  predicate Pushed(stream: Bytes, header: Bytes, complete: bool) {
    if complete then HeaderOf(stream) == Whole(header) && |header| >= 4 else Find(header, BLANK_LINE) == None
  }

  lemma PushOne(stream: Bytes, header: Bytes, b: byte)
    requires Pushed(stream, header, false) && |header| < HEADER_LIMIT && header + [b] <= stream
    ensures Pushed(stream, header + [b], EndsBlank(header + [b]))
  {
    if EndsBlank(header + [b]) {
      Complete(stream, header, b);
    } else {
      OneMore(header, b);
    }
  }

  lemma Within(before: Bytes, buffer: Bytes, rest: Bytes, consumed: nat)
    requires consumed < |buffer|
    ensures before + buffer[..consumed] + [buffer[consumed]] == before + buffer[..consumed + 1]
    ensures before + buffer[..consumed + 1] <= before + (buffer + rest)
  {
    assert before + (buffer + rest) == before + buffer[..consumed + 1] + (buffer[consumed + 1..] + rest);
  }

  lemma Regroup(before: Bytes, buffer: Bytes, rest: Bytes, consumed: nat)
    requires consumed <= |buffer|
    ensures before + (buffer + rest) == before + buffer[..consumed] + (buffer[consumed..] + rest)
    ensures (buffer + rest)[consumed..] == buffer[consumed..] + rest
  {
  }

  lemma Unfinished(stream: Bytes, s: Bytes)
    requires Find(s, BLANK_LINE) == None && s == stream[..Min(|stream|, HEADER_LIMIT)]
    ensures HeaderOf(stream) == if s == [] then NoHeader else if |s| < HEADER_LIMIT then Bad(TruncatedHeader)
      else Bad(HeaderTooLarge)
    ensures HeaderTaken(stream) == |s|
  {
  }

  lemma BodyRead(stream: Bytes, header: Bytes, n: nat, maxBody: nat, kind: Bytes -> Kind)
    requires |header| >= 4 && HeaderOf(stream) == Whole(header) && Parse(header) == Length(n) && n <= maxBody
    ensures
      var rest := stream[|header|..];
      if n <= |rest| then
        Read(stream, maxBody, kind) == Judge(header, rest[..n], kind) && stream[Taken(stream, maxBody)..] == rest[n..]
      else Read(stream, maxBody, kind) == Failed(Error.ReadBody) && stream[Taken(stream, maxBody)..] == []
  {
    if n <= |stream[|header|..]| {
      assert stream[|header|..][..n] == stream[|header|..|header| + n];
    }
  }

  class FrameReader {
    var buffer: Bytes       // filled and not consumed yet
    var input: seq<Bytes>   // what the stream brings next, chunk by chunk
    const maxBody: nat
    const kind: Bytes -> Kind

    constructor (input: seq<Bytes>, maxBody: nat, kind: Bytes -> Kind)
      requires forall k :: 0 <= k < |input| ==> input[k] != []
      ensures Valid() && Remaining() == Flat(input) && this.maxBody == maxBody && this.kind == kind
    {
      this.buffer, this.input, this.maxBody, this.kind := [], input, maxBody, kind;
    }

    ghost predicate Valid()
      reads this
    {
      forall k :: 0 <= k < |input| ==> input[k] != []
    }

    ghost function Remaining(): Bytes
      reads this
    {
      buffer + Flat(input)
    }

    /** The bytes at hand, after reading a chunk if there are none; empty only at the end. */
    method FillBuf() returns (available: Bytes)
      requires Valid()
      modifies this
      ensures Valid() && Remaining() == old(Remaining()) && available == buffer
      ensures buffer == [] ==> Remaining() == []
    {
      if buffer == [] && input != [] {
        buffer, input := input[0], input[1..];
      }
      available := buffer;
    }

    method Consume(count: nat)
      requires Valid() && count <= |buffer|
      modifies this`buffer
      ensures Valid() && buffer == old(buffer)[count..] && Remaining() == old(Remaining())[count..]
    {
      buffer := buffer[count..];
    }

    /** All of the next `n` bytes. */
    method ReadExact(n: nat) returns (ok: bool, body: Bytes)
      requires Valid()
      modifies this
      ensures Valid() && ok == (n <= |old(Remaining())|)
      ensures ok ==> body == old(Remaining())[..n] && Remaining() == old(Remaining())[n..]
      ensures !ok ==> Remaining() == []
    {
      ghost var stream := Remaining();
      body := [];
      while |body| < n
        invariant Valid() && body + Remaining() == stream && |body| <= n
      {
        var available := FillBuf();
        if available == [] {
          return false, body;
        }
        var count := Min(|available|, n - |body|);
        assert body + available[..count] + (available[count..] + Flat(input)) == stream;
        body := body + available[..count];
        Consume(count);
      }
      assert body == stream[..n];
      return true, body;
    }

    method ReadBody(header: Bytes, ghost stream: Bytes) returns (outcome: Outcome)
      requires Valid() && |header| >= 4 && HeaderOf(stream) == Whole(header)
      requires Remaining() == stream[|header|..]
      modifies this
      ensures Valid()
      ensures outcome == Read(stream, maxBody, kind) && Remaining() == stream[Taken(stream, maxBody)..]
    {
      var parsed := ParseContentLength(header);
      if parsed.Refused? {
        return Failed(parsed.error);
      }
      if parsed.bytes > maxBody {
        return Failed(InboundBodyTooLarge);
      }
      var ok, body := ReadExact(parsed.bytes);
      BodyRead(stream, header, parsed.bytes, maxBody, kind);
      outcome := if ok then Judge(header, body, kind) else Failed(Error.ReadBody);
    }

    /** Moves bytes of the buffer to the header until the blank line or the limit. */
    method Push(before: Bytes, ghost stream: Bytes) returns (header: Bytes, complete: bool)
      requires Valid() && buffer != [] && before + Remaining() == stream
      requires |before| < HEADER_LIMIT && Pushed(stream, before, false)
      modifies this`buffer
      ensures Valid() && header + Remaining() == stream && |header| <= HEADER_LIMIT
      ensures |Remaining()| < old(|Remaining()|)
      ensures Pushed(stream, header, complete)
    {
      header, complete := before, false;
      var remaining := HEADER_LIMIT - |header|;
      var consumed := 0;
      while consumed < |buffer| && consumed < remaining && !complete
        invariant buffer == old(buffer) && Remaining() == old(Remaining())
        invariant consumed <= |buffer| && consumed <= remaining
        invariant header == before + buffer[..consumed]
        invariant complete ==> consumed > 0
        invariant Pushed(stream, header, complete)
      {
        Within(before, buffer, Flat(input), consumed);
        PushOne(stream, header, buffer[consumed]);
        header := header + [buffer[consumed]];
        consumed := consumed + 1;
        complete := EndsBlank(header);
      }
      Regroup(before, buffer, Flat(input), consumed);
      Consume(consumed);
    }

    method ReadBoundedHeader() returns (outcome: HeaderOutcome)
      requires Valid()
      modifies this
      ensures Valid()
      ensures outcome == HeaderOf(old(Remaining()))
      ensures outcome.Whole? ==> |outcome.header| >= 4
      ensures Remaining() == old(Remaining())[HeaderTaken(old(Remaining()))..]
    {
      ghost var stream := Remaining();
      var header: Bytes := [];
      while true
        invariant Valid() && header + Remaining() == stream
        invariant |header| < HEADER_LIMIT && Pushed(stream, header, false)
        decreases |Remaining()|
      {
        var available := FillBuf();
        if available == [] {
          assert header == stream[..Min(|stream|, HEADER_LIMIT)];
          Unfinished(stream, header);
          return if header == [] then NoHeader else Bad(TruncatedHeader);
        }
        var complete;
        header, complete := Push(header, stream);
        if complete {
          return Whole(header);
        }
        if |header| == HEADER_LIMIT {
          assert header == stream[..Min(|stream|, HEADER_LIMIT)];
          Unfinished(stream, header);
          return Bad(HeaderTooLarge);
        }
      }
    }

    /** Reads one frame: what is read and how much is taken depend on the bytes of the
        stream alone, not on the chunks they come in. */
    method ReadFrame() returns (outcome: Outcome)
      requires Valid()
      modifies this
      ensures Valid()
      ensures outcome == Read(old(Remaining()), maxBody, kind)
      ensures Remaining() == old(Remaining())[Taken(old(Remaining()), maxBody)..]
    {
      ghost var stream := Remaining();
      var read := ReadBoundedHeader();
      match read {
        case NoHeader => return End;
        case Bad(error) => return Failed(error);
        case Whole(header) => outcome := ReadBody(header, stream);
      }
    }
  }

  // The writer

  /** One call of the writer: the message, how many bytes of its frame the output takes
      before an error, the deadline or the caller stops it, and whether the flush then
      ends in time. */
  datatype Call = Call(isObject: bool, body: Bytes, accepted: nat, finished: bool)

  datatype Writer = Writer(output: Bytes, reusable: bool)

  predicate Accepts(w: Writer, call: Call, maxBody: nat) {
    w.reusable && call.isObject && |call.body| <= maxBody
  }

  predicate Completes(w: Writer, call: Call, maxBody: nat) {
    Accepts(w, call, maxBody) && call.accepted >= |FrameOf(call.body)| && call.finished
  }

  function Write(w: Writer, call: Call, maxBody: nat): Writer {
    if Completes(w, call, maxBody) then Writer(w.output + FrameOf(call.body), true)
    else if Accepts(w, call, maxBody) then
      Writer(w.output + FrameOf(call.body)[..Min(call.accepted, |FrameOf(call.body)|)], false)
    else w
  }

  function WriteError(w: Writer, call: Call, maxBody: nat): Option<Error> {
    if !w.reusable then Some(WriteFrame)
    else if !call.isObject then Some(MessageNotObject)
    else if |call.body| > maxBody then Some(OutboundBodyTooLarge)
    else if Completes(w, call, maxBody) then None
    else Some(WriteFrame)
  }

  class FrameWriter {
    var output: Bytes
    var reusable: bool
    const maxBody: nat

    constructor (maxBody: nat)
      ensures output == [] && reusable && this.maxBody == maxBody
    {
      output, reusable, this.maxBody := [], true, maxBody;
    }

    /** Writes until the output stops taking bytes. */
    method WriteAll(bytes: Bytes, accepted: nat) returns (taken: nat)
      modifies this`output
      ensures taken == Min(accepted, |bytes|) && output == old(output) + bytes[..taken]
    {
      taken := Min(accepted, |bytes|);
      output := output + bytes[..taken];
    }

    method WriteFrame(isObject: bool, body: Bytes, accepted: nat, finished: bool) returns (error: Option<Error>)
      modifies this
      ensures Writer(output, reusable) ==
        Write(old(Writer(output, reusable)), Call(isObject, body, accepted, finished), maxBody)
      ensures error == WriteError(old(Writer(output, reusable)), Call(isObject, body, accepted, finished), maxBody)
    {
      if !reusable {
        return Some(Error.WriteFrame);
      }
      if !isObject {
        return Some(MessageNotObject);
      }
      if |body| > maxBody {
        return Some(OutboundBodyTooLarge);
      }
      var header := Header(|body|);
      reusable := false;
      assert FrameOf(body)[..|header|] == header;
      var taken := WriteAll(header, accepted);
      if taken < |header| {
        assert FrameOf(body)[..taken] == header[..taken];
        return Some(Error.WriteFrame);
      }
      taken := WriteAll(body, accepted - |header|);
      assert FrameOf(body)[..|header| + taken] == header + body[..taken];
      if taken < |body| || !finished {
        return Some(Error.WriteFrame);
      }
      reusable := true;
      return None;
    }
  }

  function Run(calls: seq<Call>, maxBody: nat): Writer {
    if calls == [] then Writer([], true)
    else Write(Run(calls[..|calls| - 1], maxBody), calls[|calls| - 1], maxBody)
  }

  /** The bodies of the calls that returned without an error, in order. */
  function Sent(calls: seq<Call>, maxBody: nat): seq<Bytes> {
    if calls == [] then [] else
      var before, last := calls[..|calls| - 1], calls[|calls| - 1];
      if Completes(Run(before, maxBody), last, maxBody) then Sent(before, maxBody) + [last.body]
        else Sent(before, maxBody)
  }

  lemma {:induction false} FramesAppend(bodies: seq<Bytes>, last: Bytes)
    ensures Frames(bodies + [last]) == Frames(bodies) + FrameOf(last)
  {
    if bodies == [] {
      assert ([] + [last])[1..] == [];
    } else {
      assert (bodies + [last])[1..] == bodies[1..] + [last];
      FramesAppend(bodies[1..], last);
    }
  }

  /** Frames, then the first `k` bytes of another. */
  ghost predicate Emitted(w: Writer, sent: seq<Bytes>, body: Bytes, k: nat) {
    && k <= |FrameOf(body)| && w.output == Frames(sent) + FrameOf(body)[..k] && (w.reusable ==> k == 0)
  }

  lemma WriteEmits(w: Writer, sent: seq<Bytes>, body: Bytes, call: Call, maxBody: nat)
    requires w.reusable && Emitted(w, sent, body, 0)
    ensures
      var after := Write(w, call, maxBody);
      if Completes(w, call, maxBody) then Emitted(after, sent + [call.body], body, 0)
      else if Accepts(w, call, maxBody) then
        Emitted(after, sent, call.body, Min(call.accepted, |FrameOf(call.body)|))
      else Emitted(after, sent, body, 0)
  {
    assert FrameOf(body)[..0] == [] && w.output == Frames(sent);
    FramesAppend(sent, call.body);
  }

  /** However calls end, the output is the frames of the calls that succeeded and at most
      one prefix of another frame, and then the writer is spent. */
  lemma {:induction false} OutputIsFrames(calls: seq<Call>, maxBody: nat) returns (cut: Call, k: nat)
    ensures Emitted(Run(calls, maxBody), Sent(calls, maxBody), cut.body, k)
    ensures k > 0 ==> cut in calls && cut.isObject && |cut.body| <= maxBody
  {
    if calls == [] {
      cut, k := Call(false, [], 0, false), 0;
    } else {
      var before, last := calls[..|calls| - 1], calls[|calls| - 1];
      var w := Run(before, maxBody);
      cut, k := OutputIsFrames(before, maxBody);
      if w.reusable {
        WriteEmits(w, Sent(before, maxBody), cut.body, last, maxBody);
        if Accepts(w, last, maxBody) && !Completes(w, last, maxBody) {
          cut, k := last, Min(last.accepted, |FrameOf(last.body)|);
        }
      }
    }
  }

  /** Once a frame was stopped, nothing is written any more. */
  lemma {:induction false} NothingAfterStop(calls: seq<Call>, n: nat, maxBody: nat)
    requires n <= |calls| && !Run(calls[..n], maxBody).reusable
    ensures Run(calls, maxBody) == Run(calls[..n], maxBody) && Sent(calls, maxBody) == Sent(calls[..n], maxBody)
    decreases |calls|
  {
    if n == |calls| {
      assert calls[..n] == calls;
    } else {
      var before := calls[..|calls| - 1];
      assert before[..n] == calls[..n];
      NothingAfterStop(before, n, maxBody);
    }
  }

  ghost predicate Serialized(calls: seq<Call>, kind: Bytes -> Kind) {
    forall k :: 0 <= k < |calls| && calls[k].isObject ==> ValidUtf8(calls[k].body) && kind(calls[k].body) == Object
  }

  lemma {:induction false} SentIsSendable(calls: seq<Call>, maxBody: nat, kind: Bytes -> Kind)
    requires Serialized(calls, kind)
    ensures Sendable(Sent(calls, maxBody), maxBody, kind)
  {
    if calls != [] {
      SentIsSendable(calls[..|calls| - 1], maxBody, kind);
    }
  }

  lemma NothingReads(limit: nat, kind: Bytes -> Kind)
    ensures ReadAll([], limit, kind) == ([], End)
  {
    assert Read([], limit, kind) == End;
  }

  lemma NoFrame(s: Bytes, limit: nat, kind: Bytes -> Kind)
    requires !Read(s, limit, kind).Frame?
    ensures ReadAll(s, limit, kind) == ([], Read(s, limit, kind))
  {
  }

  lemma WholeReads(body: Bytes, limit: nat, kind: Bytes -> Kind)
    requires CanSend(body, limit, kind) && limit <= USIZE_MAX
    ensures ReadAll(FrameOf(body)[..|FrameOf(body)|], limit, kind) == ([body], End)
  {
    NothingReads(limit, kind);
    OneMoreFrame(body, [], limit, kind);
    NoRest(FrameOf(body));
    NoRest([body]);
  }

  lemma NoRest<T>(s: seq<T>)
    ensures s[..|s|] == s + [] == s
  {
  }

  /** What a reader makes of the first `k` bytes of a frame. */
  lemma RestReads(body: Bytes, k: nat, limit: nat, kind: Bytes -> Kind)
    requires k <= |FrameOf(body)| && (k > 0 ==> CanSend(body, limit, kind)) && limit <= USIZE_MAX
    ensures ReadAll(FrameOf(body)[..k], limit, kind) ==
      (if k == |FrameOf(body)| then [body] else [], BreakOff(body, k))
  {
    if k == |FrameOf(body)| {
      WholeReads(body, limit, kind);
    } else if k == 0 {
      assert FrameOf(body)[..k] == [];
      NothingReads(limit, kind);
    } else {
      PartialFrame(body, k, limit, kind);
      NoFrame(FrameOf(body)[..k], limit, kind);
    }
  }

  /** What a reader gets of what a writer left, however its calls ended: the bodies sent,
      in order, and the one that was stopped only if all its bytes got out; the stream
      then ends between frames, or inside a header or a body. */
  lemma DeliveredIsSent(calls: seq<Call>, maxBody: nat, limit: nat, kind: Bytes -> Kind) returns (cut: Call, k: nat)
    requires Serialized(calls, kind) && maxBody <= limit <= USIZE_MAX
    ensures k <= |FrameOf(cut.body)| && (k > 0 ==> cut in calls && !Run(calls, maxBody).reusable)
    ensures ReadAll(Run(calls, maxBody).output, limit, kind) ==
      (Sent(calls, maxBody) + if k == |FrameOf(cut.body)| then [cut.body] else [], BreakOff(cut.body, k))
  {
    cut, k := OutputIsFrames(calls, maxBody);
    SentIsSendable(calls, maxBody, kind);
    LargerLimit(Sent(calls, maxBody), maxBody, limit, kind);
    FramesReadBack(Sent(calls, maxBody), FrameOf(cut.body)[..k], limit, kind);
    RestReads(cut.body, k, limit, kind);
  }

  lemma LargerLimit(bodies: seq<Bytes>, maxBody: nat, limit: nat, kind: Bytes -> Kind)
    requires Sendable(bodies, maxBody, kind) && maxBody <= limit
    ensures Sendable(bodies, limit, kind)
  {
    forall i | 0 <= i < |bodies| ensures CanSend(bodies[i], limit, kind) {
      assert CanSend(bodies[i], maxBody, kind);
    }
  }
}
