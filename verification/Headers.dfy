/** The header of a frame and the length it declares. */
module Headers {
  import opened Results
  import opened ByteStrings

  const USIZE_MAX: nat := 0xFFFF_FFFF_FFFF_FFFF

  const LF: byte := 10
  const CR: byte := 13
  const SPACE: byte := 32
  const QUOTE: byte := 34
  const COLON: byte := 58
  const SEMICOLON: byte := 59
  const EQUALS: byte := 61

  const LINE_END: Bytes := [CR, LF]
  const BLANK_LINE: Bytes := [CR, LF, CR, LF]

  datatype Error =
    | TruncatedHeader | HeaderTooLarge | NonAsciiHeader | MalformedHeaderLine
    | MissingContentLength | DuplicateContentLength | InvalidContentLength
    | UnsupportedContentType | DuplicateContentType
    | InboundBodyTooLarge | ReadBody | NonUtf8Body | InvalidJsonBody | BatchUnsupported
    | MessageNotObject | OutboundBodyTooLarge | WriteFrame

  datatype Parsed = Length(bytes: nat) | Refused(error: Error)

  function Ascii(text: string): (bytes: Bytes)
    requires forall i :: 0 <= i < |text| ==> text[i] as int < 128
    ensures |bytes| == |text| && forall i :: 0 <= i < |text| ==> bytes[i] as int == text[i] as int
  {
    seq(|text|, i requires 0 <= i < |text| => text[i] as byte)
  }

  // Pieces of strings

  predicate At(s: Bytes, separator: Bytes, i: nat) {
    i + |separator| <= |s| && s[i..i + |separator|] == separator
  }

  /** The first place of a separator. */
  function Find(s: Bytes, separator: Bytes): (place: Option<nat>)
    ensures place.Some? ==> At(s, separator, place.value) && forall i: nat :: i < place.value ==> !At(s, separator, i)
    ensures place.None? ==> forall i: nat :: !At(s, separator, i)
  {
    FindFrom(s, separator, 0)
  }

  function FindFrom(s: Bytes, separator: Bytes, start: nat): (place: Option<nat>)
    requires start <= |s| + 1
    requires forall i: nat :: i < start ==> !At(s, separator, i)
    ensures place.Some? ==> At(s, separator, place.value) && forall i: nat :: i < place.value ==> !At(s, separator, i)
    ensures place.None? ==> forall i: nat :: !At(s, separator, i)
    decreases |s| + 1 - start
  {
    if start > |s| then None
    else if At(s, separator, start) then Some(start)
    else FindFrom(s, separator, start + 1)
  }

  lemma StartsAt(s: Bytes, separator: Bytes, i: nat)
    requires separator != []
    ensures At(s, separator, i) ==> i < |s| && s[i] == separator[0]
  {
    if At(s, separator, i) {
      assert s[i] == s[i..i + |separator|][0];
    }
  }

  lemma FindIs(s: Bytes, separator: Bytes, place: nat)
    requires At(s, separator, place) && forall i: nat :: i < place ==> !At(s, separator, i)
    ensures Find(s, separator) == Some(place)
  {
  }

  function Split(s: Bytes, separator: Bytes): (pieces: seq<Bytes>)
    requires separator != []
    ensures pieces != []
    decreases |s|
  {
    var place := Find(s, separator);
    if place.None? then [s] else [s[..place.value]] + Split(s[place.value + |separator|..], separator)
  }

  function Join(pieces: seq<Bytes>, separator: Bytes): Bytes
    requires pieces != []
  {
    if |pieces| == 1 then pieces[0] else pieces[0] + separator + Join(pieces[1..], separator)
  }

  /** Splitting loses nothing and leaves no separator. */
  lemma {:induction false} SplitJoins(s: Bytes, separator: Bytes)
    requires separator != []
    ensures Join(Split(s, separator), separator) == s
    ensures forall k :: 0 <= k < |Split(s, separator)| ==> Find(Split(s, separator)[k], separator) == None
    decreases |s|
  {
    var place := Find(s, separator);
    if place.Some? {
      var at := place.value;
      var rest := s[at + |separator|..];
      SplitJoins(rest, separator);
      assert s == s[..at] + s[at..at + |separator|] + rest;
      var pieces := Split(s, separator);
      assert pieces[1..] == Split(rest, separator);
      if Find(s[..at], separator).Some? {
        var i := Find(s[..at], separator).value;
        assert s[..at][i..i + |separator|] == s[i..i + |separator|];
        assert At(s, separator, i);
      }
      forall k | 0 <= k < |pieces| ensures Find(pieces[k], separator) == None {
        if k > 0 {
          assert pieces[k] == Split(rest, separator)[k - 1];
        }
      }
    }
  }

  predicate Whitespace(b: byte) {
    9 <= b <= 13 || b == SPACE
  }

  function TrimStart(s: Bytes): Bytes {
    if s != [] && Whitespace(s[0]) then TrimStart(s[1..]) else s
  }

  function TrimEnd(s: Bytes): Bytes {
    if s != [] && Whitespace(s[|s| - 1]) then TrimEnd(s[..|s| - 1]) else s
  }

  function Trim(s: Bytes): Bytes {
    TrimEnd(TrimStart(s))
  }

  function LowerByte(b: byte): byte {
    if 65 <= b <= 90 then b + 32 else b
  }

  function Lower(s: Bytes): (lower: Bytes)
    ensures |lower| == |s| && forall i :: 0 <= i < |s| ==> lower[i] == LowerByte(s[i])
  {
    seq(|s|, i requires 0 <= i < |s| => LowerByte(s[i]))
  }

  // Numbers

  predicate Digit(b: byte) {
    48 <= b <= 57
  }

  predicate Digits(s: Bytes) {
    s != [] && forall i :: 0 <= i < |s| ==> Digit(s[i])
  }

  function Number(s: Bytes): nat
    requires forall i :: 0 <= i < |s| ==> Digit(s[i])
  {
    if s == [] then 0 else
      assert Digit(s[|s| - 1]);
      Number(s[..|s| - 1]) * 10 + (s[|s| - 1] as int - 48)
  }

  function Decimal(n: nat): (s: Bytes)
    ensures Digits(s)
  {
    if n < 10 then [(48 + n) as byte] else Decimal(n / 10) + [(48 + n % 10) as byte]
  }

  /** Printing a number and reading it gives the number back. */
  lemma {:induction false} NumberOfDecimal(n: nat)
    ensures Number(Decimal(n)) == n
  {
    if n < 10 {
      assert Decimal(n)[..0] == [];
    } else {
      NumberOfDecimal(n / 10);
      assert Decimal(n)[..|Decimal(n)| - 1] == Decimal(n / 10);
    }
  }

  lemma {:induction false} DecimalLength(n: nat, k: nat, power: nat)
    requires n < power && power == PowerOfTen(k) && k >= 1
    ensures |Decimal(n)| <= k
    decreases k
  {
    if n >= 10 {
      DecimalLength(n / 10, k - 1, PowerOfTen(k - 1));
    }
  }

  function PowerOfTen(k: nat): nat {
    if k == 0 then 1 else 10 * PowerOfTen(k - 1)
  }

  lemma WordLength(n: nat)
    requires n <= USIZE_MAX
    ensures |Decimal(n)| <= 20
  {
    assert PowerOfTen(5) == 100000;
    assert PowerOfTen(10) == 10 * (10 * (10 * (10 * (10 * PowerOfTen(5)))));
    assert PowerOfTen(15) == 10 * (10 * (10 * (10 * (10 * PowerOfTen(10)))));
    assert PowerOfTen(20) == 10 * (10 * (10 * (10 * (10 * PowerOfTen(15)))));
    DecimalLength(n, 20, PowerOfTen(20));
  }

  // Content types

  predicate Charset(parameter: Bytes) {
    var place := Find(parameter, [EQUALS]);
    place.Some? && Lower(Trim(parameter[..place.value])) == Ascii("charset")
  }

  function Unquoted(value: Bytes): Bytes {
    if |value| >= 2 && value[0] == QUOTE && value[|value| - 1] == QUOTE then value[1..|value| - 1] else value
  }

  predicate Utf8Name(value: Bytes) {
    Lower(Unquoted(Trim(value))) == Ascii("utf-8") || Lower(Unquoted(Trim(value))) == Ascii("utf8")
  }

  predicate GoodParameter(parameter: Bytes) {
    var place := Find(parameter, [EQUALS]);
    && place.Some?
    && (Charset(parameter) ==> Utf8Name(parameter[place.value + 1..]))
  }

  predicate TwoCharsets(parts: seq<Bytes>, j: nat, k: nat) {
    1 <= j < k < |parts| && Charset(parts[j]) && Charset(parts[k])
  }

  ghost predicate GoodParameters(parts: seq<Bytes>, n: nat) {
    forall k :: 1 <= k < n && k < |parts| ==> GoodParameter(parts[k])
  }

  ghost predicate OneCharset(parts: seq<Bytes>) {
    forall j: nat, k: nat :: !TwoCharsets(parts, j, k)
  }

  /** The media type of the protocol, with well-formed parameters of which at most one
      names a character set, and that one UTF-8. */
  ghost predicate SupportedType(value: Bytes) {
    var parts := Split(value, [SEMICOLON]);
    && Lower(Trim(parts[0])) == Ascii("application/vscode-jsonrpc")
    && GoodParameters(parts, |parts|) && OneCharset(parts)
  }

  /** The one character set among the first `n` parts is at `seen`; none if that is 0. */
  ghost predicate CharsetAt(parts: seq<Bytes>, n: nat, seen: nat) {
    && (seen > 0 ==> seen < n && seen < |parts| && Charset(parts[seen]))
    && (forall k :: 1 <= k < n && k < |parts| && Charset(parts[k]) ==> k == seen)
  }

  ghost predicate ParametersRead(parts: seq<Bytes>, n: nat, seen: nat) {
    GoodParameters(parts, n) && CharsetAt(parts, n, seen)
  }

  lemma ParameterRead(parts: seq<Bytes>, n: nat, seen: nat)
    requires 1 <= n < |parts| && ParametersRead(parts, n, seen)
    requires GoodParameter(parts[n]) && (Charset(parts[n]) ==> seen == 0)
    ensures ParametersRead(parts, n + 1, if Charset(parts[n]) then n else seen)
  {
  }

  lemma ParameterRefused(parts: seq<Bytes>, n: nat, seen: nat)
    requires 1 <= n < |parts| && ParametersRead(parts, n, seen)
    requires !GoodParameter(parts[n]) || (Charset(parts[n]) && seen > 0)
    ensures !(GoodParameters(parts, |parts|) && OneCharset(parts))
  {
    if GoodParameter(parts[n]) {
      assert TwoCharsets(parts, seen, n);
    }
  }

  lemma ParametersEnd(parts: seq<Bytes>, n: nat, seen: nat)
    requires ParametersRead(parts, n, seen) && n >= |parts|
    ensures GoodParameters(parts, |parts|) && OneCharset(parts)
  {
  }

  method CheckParameter(parameter: Bytes, charsetSeen: bool) returns (ok: bool)
    ensures ok <==> GoodParameter(parameter) && !(Charset(parameter) && charsetSeen)
  {
    var place := Find(parameter, [EQUALS]);
    if place.None? {
      return false;
    }
    if Lower(Trim(parameter[..place.value])) == Ascii("charset") {
      if charsetSeen {
        return false;
      }
      return Utf8Name(parameter[place.value + 1..]);
    }
    return true;
  }

  method ValidateParameters(parts: seq<Bytes>) returns (ok: bool)
    ensures ok <==> GoodParameters(parts, |parts|) && OneCharset(parts)
  {
    var charsetSeen := false;
    ghost var seenAt: nat := 0;
    var n := 1;
    while n < |parts|
      invariant 1 <= n && ParametersRead(parts, n, seenAt) && charsetSeen == (seenAt > 0)
    {
      var ok := CheckParameter(parts[n], charsetSeen);
      if !ok {
        ParameterRefused(parts, n, seenAt);
        return false;
      }
      ParameterRead(parts, n, seenAt);
      if Charset(parts[n]) {
        charsetSeen, seenAt := true, n;
      }
      n := n + 1;
    }
    ParametersEnd(parts, n, seenAt);
    return true;
  }

  method ValidateContentType(value: Bytes) returns (ok: bool)
    ensures ok <==> SupportedType(value)
  {
    var parts := Split(value, [SEMICOLON]);
    if Lower(Trim(parts[0])) != Ascii("application/vscode-jsonrpc") {
      return false;
    }
    ok := ValidateParameters(parts);
  }

  // Header lines

  datatype Line = Malformed | LengthLine(length: Option<nat>) | TypeLine(value: Bytes) | OtherLine

  function ContentLength(value: Bytes): Option<nat> {
    if Digits(value) && Number(value) <= USIZE_MAX then Some(Number(value)) else None
  }

  function Classify(line: Bytes): Line {
    var place := Find(line, [COLON]);
    if place.None? then Malformed else
      var name := Trim(line[..place.value]);
      var value := Trim(line[place.value + 1..]);
      if name == [] then Malformed
      else if Lower(name) == Ascii("content-length") then LengthLine(ContentLength(value))
      else if Lower(name) == Ascii("content-type") then TypeLine(value)
      else OtherLine
  }

  ghost predicate LengthBefore(lines: seq<Bytes>, k: nat) {
    exists j :: 0 <= j < k && j < |lines| && Classify(lines[j]).LengthLine?
  }

  ghost predicate TypeBefore(lines: seq<Bytes>, k: nat) {
    exists j :: 0 <= j < k && j < |lines| && Classify(lines[j]).TypeLine?
  }

  /** What is wrong with the k-th line after the lines before it. */
  ghost function Fault(lines: seq<Bytes>, k: nat): Option<Error>
    requires k < |lines|
  {
    match Classify(lines[k])
    case Malformed => Some(MalformedHeaderLine)
    case LengthLine(value) =>
      if LengthBefore(lines, k) then Some(DuplicateContentLength)
      else if value.None? then Some(InvalidContentLength)
      else None
    case TypeLine(value) =>
      if TypeBefore(lines, k) then Some(DuplicateContentType)
      else if !SupportedType(value) then Some(UnsupportedContentType)
      else None
    case OtherLine => None
  }

  ghost function FirstFault(lines: seq<Bytes>, k: nat): (fault: Option<Error>)
    requires k <= |lines|
    decreases |lines| - k
  {
    if k == |lines| then None
    else if Fault(lines, k).Some? then Fault(lines, k)
    else FirstFault(lines, k + 1)
  }

  ghost function DeclaredLength(lines: seq<Bytes>): Option<nat> {
    if lines == [] then None
    else if Classify(lines[0]).LengthLine? then Classify(lines[0]).length
    else DeclaredLength(lines[1..])
  }

  predicate IsAscii(s: Bytes) {
    forall i :: 0 <= i < |s| ==> s[i] < 128
  }

  function Lines(header: Bytes): (lines: seq<Bytes>)
    requires |header| >= 4
  {
    Split(header[..|header| - 4], LINE_END)
  }

  /** The first fault of a header, or the length it declares. */
  ghost function Parse(header: Bytes): Parsed
    requires |header| >= 4
  {
    if IsAscii(header) then ParsedLines(Lines(header)) else Refused(NonAsciiHeader)
  }

  ghost function ParsedLines(lines: seq<Bytes>): Parsed {
    if FirstFault(lines, 0).Some? then Refused(FirstFault(lines, 0).value)
    else if DeclaredLength(lines).None? then Refused(MissingContentLength)
    else Length(DeclaredLength(lines).value)
  }

  lemma LengthInRest(lines: seq<Bytes>, k: nat)
    requires lines != []
    ensures LengthBefore(lines[1..], k) ==> LengthBefore(lines, k + 1)
  {
    if LengthBefore(lines[1..], k) {
      var j :| 0 <= j < k && j < |lines[1..]| && Classify(lines[1..][j]).LengthLine?;
      assert Classify(lines[j + 1]).LengthLine?;
    }
  }

  lemma {:induction false} LengthIsDeclared(lines: seq<Bytes>, k: nat)
    requires k < |lines| && Classify(lines[k]).LengthLine? && !LengthBefore(lines, k)
    ensures DeclaredLength(lines) == Classify(lines[k]).length
  {
    if k > 0 {
      assert !Classify(lines[0]).LengthLine?;
      LengthInRest(lines, k - 1);
      LengthIsDeclared(lines[1..], k - 1);
    }
  }

  lemma {:induction false} NothingDeclared(lines: seq<Bytes>)
    requires !LengthBefore(lines, |lines|)
    ensures DeclaredLength(lines) == None
  {
    if lines != [] {
      assert !Classify(lines[0]).LengthLine?;
      LengthInRest(lines, |lines[1..]|);
      NothingDeclared(lines[1..]);
    }
  }

  /** What the loop over the lines knows after `k` of them, none at fault. */
  ghost predicate LinesRead(lines: seq<Bytes>, k: nat, contentLength: Option<nat>, typeSeen: bool) {
    && k <= |lines| && FirstFault(lines, 0) == FirstFault(lines, k)
    && contentLength.Some? == LengthBefore(lines, k)
    && (contentLength.Some? ==> DeclaredLength(lines) == contentLength)
    && typeSeen == TypeBefore(lines, k)
  }

  lemma BeforeNext(lines: seq<Bytes>, k: nat)
    requires k < |lines|
    ensures LengthBefore(lines, k + 1) <==> LengthBefore(lines, k) || Classify(lines[k]).LengthLine?
    ensures TypeBefore(lines, k + 1) <==> TypeBefore(lines, k) || Classify(lines[k]).TypeLine?
  {
  }

  lemma LineRead(lines: seq<Bytes>, k: nat, contentLength: Option<nat>, typeSeen: bool)
    requires k < |lines| && LinesRead(lines, k, contentLength, typeSeen) && Fault(lines, k) == None
    ensures
      var line := Classify(lines[k]);
      LinesRead(lines, k + 1, if line.LengthLine? then line.length else contentLength, typeSeen || line.TypeLine?)
  {
    BeforeNext(lines, k);
    if Classify(lines[k]).LengthLine? {
      LengthIsDeclared(lines, k);
    }
  }

  lemma FaultStops(lines: seq<Bytes>, k: nat, contentLength: Option<nat>, typeSeen: bool)
    requires k < |lines| && LinesRead(lines, k, contentLength, typeSeen) && Fault(lines, k) != None
    ensures ParsedLines(lines) == Refused(Fault(lines, k).value)
  {
  }

  lemma LinesEnd(lines: seq<Bytes>, contentLength: Option<nat>, typeSeen: bool)
    requires LinesRead(lines, |lines|, contentLength, typeSeen)
    ensures ParsedLines(lines) == if contentLength.None? then Refused(MissingContentLength)
      else Length(contentLength.value)
  {
    if contentLength.None? {
      NothingDeclared(lines);
    }
  }

  method CheckLine(
      lines: seq<Bytes>, k: nat, contentLength: Option<nat>, contentTypeSeen: bool)
    returns (fault: Option<Error>)
    requires k < |lines| && LinesRead(lines, k, contentLength, contentTypeSeen)
    ensures fault == Fault(lines, k)
  {
    match Classify(lines[k]) {
      case Malformed => return Some(MalformedHeaderLine);
      case LengthLine(length) =>
        return if contentLength.Some? then Some(DuplicateContentLength)
          else if length.None? then Some(InvalidContentLength) else None;
      case TypeLine(value) =>
        if contentTypeSeen {
          return Some(DuplicateContentType);
        }
        var ok := ValidateContentType(value);
        return if ok then None else Some(UnsupportedContentType);
      case OtherLine => return None;
    }
  }

  method ParseLines(lines: seq<Bytes>) returns (parsed: Parsed)
    ensures parsed == ParsedLines(lines)
  {
    var contentLength: Option<nat> := None;
    var contentTypeSeen := false;
    for k := 0 to |lines|
      invariant LinesRead(lines, k, contentLength, contentTypeSeen)
    {
      var fault := CheckLine(lines, k, contentLength, contentTypeSeen);
      if fault.Some? {
        FaultStops(lines, k, contentLength, contentTypeSeen);
        return Refused(fault.value);
      }
      LineRead(lines, k, contentLength, contentTypeSeen);
      var line := Classify(lines[k]);
      contentLength := if line.LengthLine? then line.length else contentLength;
      contentTypeSeen := contentTypeSeen || line.TypeLine?;
    }
    LinesEnd(lines, contentLength, contentTypeSeen);
    return if contentLength.None? then Refused(MissingContentLength) else Length(contentLength.value);
  }

  method ParseContentLength(header: Bytes) returns (parsed: Parsed)
    requires |header| >= 4
    ensures parsed == Parse(header)
  {
    if !IsAscii(header) {
      return Refused(NonAsciiHeader);
    }
    parsed := ParseLines(Lines(header));
  }

  ghost predicate NoFaults(lines: seq<Bytes>) {
    forall k :: 0 <= k < |lines| ==> Fault(lines, k) == None
  }

  lemma {:induction false} FaultIsFound(lines: seq<Bytes>, k: nat)
    requires k <= |lines|
    ensures FirstFault(lines, k) == None <==> forall j :: k <= j < |lines| ==> Fault(lines, j) == None
    decreases |lines| - k
  {
    if k < |lines| {
      FaultIsFound(lines, k + 1);
    }
  }

  /** A header declares a length exactly when it is ASCII, every line is a named field, one
      line alone declares a length, that length, and at most one a content type, a
      supported one; in whatever order. */
  ghost predicate Declares(header: Bytes, n: nat)
    requires |header| >= 4
  {
    var lines := Lines(header);
    && IsAscii(header)
    && (forall k :: 0 <= k < |lines| ==> GoodLine(lines[k]))
    && (exists k :: 0 <= k < |lines| && Classify(lines[k]) == LengthLine(Some(n)))
    && (forall j: nat, k: nat :: !SameField(lines, j, k))
  }

  ghost predicate GoodLine(line: Bytes) {
    match Classify(line)
    case Malformed => false
    case LengthLine(value) => value.Some?
    case TypeLine(value) => SupportedType(value)
    case OtherLine => true
  }

  predicate SameField(lines: seq<Bytes>, j: nat, k: nat) {
    && j < k < |lines|
    && ((Classify(lines[j]).LengthLine? && Classify(lines[k]).LengthLine?)
        || (Classify(lines[j]).TypeLine? && Classify(lines[k]).TypeLine?))
  }

  lemma ParseMeans(header: Bytes, n: nat)
    requires |header| >= 4
    ensures Parse(header) == Length(n) <==> Declares(header, n)
  {
    var lines := Lines(header);
    FaultIsFound(lines, 0);
    FaultsAreBad(lines);
    if Declares(header, n) {
      var k :| 0 <= k < |lines| && Classify(lines[k]) == LengthLine(Some(n));
      if LengthBefore(lines, k) {
        var j: nat :| j < k && Classify(lines[j]).LengthLine?;
        assert SameField(lines, j, k);
      }
      LengthIsDeclared(lines, k);
    } else if Parse(header) == Length(n) {
      DeclaredIsSomewhere(lines);
    }
  }

  lemma SecondIsFault(lines: seq<Bytes>, j: nat, k: nat)
    requires SameField(lines, j, k)
    ensures Fault(lines, k) != None
  {
    assert LengthBefore(lines, k) || TypeBefore(lines, k);
  }

  lemma FaultsAreBad(lines: seq<Bytes>)
    ensures NoFaults(lines) <==>
      (forall k :: 0 <= k < |lines| ==> GoodLine(lines[k])) && (forall j: nat, k: nat :: !SameField(lines, j, k))
  {
    if NoFaults(lines) {
      forall k | 0 <= k < |lines| ensures GoodLine(lines[k]) {
        assert Fault(lines, k) == None;
      }
      forall j: nat, k: nat ensures !SameField(lines, j, k) {
        if SameField(lines, j, k) {
          SecondIsFault(lines, j, k);
        }
      }
    } else {
      var k: nat :| k < |lines| && Fault(lines, k) != None;
      if LengthBefore(lines, k) && Classify(lines[k]).LengthLine? {
        var j: nat :| j < k && Classify(lines[j]).LengthLine?;
        assert SameField(lines, j, k);
      } else if TypeBefore(lines, k) && Classify(lines[k]).TypeLine? {
        var j: nat :| j < k && Classify(lines[j]).TypeLine?;
        assert SameField(lines, j, k);
      } else {
        assert !GoodLine(lines[k]);
      }
    }
  }

  lemma {:induction false} DeclaredIsSomewhere(lines: seq<Bytes>)
    requires DeclaredLength(lines).Some?
    ensures exists k :: 0 <= k < |lines| && Classify(lines[k]) == LengthLine(DeclaredLength(lines))
  {
    if Classify(lines[0]).LengthLine? {
      assert Classify(lines[0]) == LengthLine(DeclaredLength(lines));
    } else {
      DeclaredIsSomewhere(lines[1..]);
      var k :| 0 <= k < |lines[1..]| && Classify(lines[1..][k]) == LengthLine(DeclaredLength(lines[1..]));
      assert Classify(lines[k + 1]) == LengthLine(DeclaredLength(lines));
    }
  }

  // The header that is written

  function HeaderLine(n: nat): Bytes {
    Ascii("Content-Length: ") + Decimal(n)
  }

  function Header(n: nat): Bytes {
    HeaderLine(n) + BLANK_LINE
  }

  lemma LineHasNoEnd(n: nat)
    ensures IsAscii(HeaderLine(n)) && forall i :: 0 <= i < |HeaderLine(n)| ==> HeaderLine(n)[i] != CR
  {
    var prefix := Ascii("Content-Length: ");
    forall i | 0 <= i < |HeaderLine(n)| ensures HeaderLine(n)[i] < 128 && HeaderLine(n)[i] != CR {
      if i < |prefix| {
        assert HeaderLine(n)[i] == prefix[i];
      } else {
        assert HeaderLine(n)[i] == Decimal(n)[i - |prefix|] && Digit(Decimal(n)[i - |prefix|]);
      }
    }
  }

  /** The blank line is first found at the end of the header, whatever follows. */
  lemma BlankLineEndsHeader(n: nat, rest: Bytes)
    ensures Find(Header(n) + rest, BLANK_LINE) == Some(|HeaderLine(n)|)
  {
    LineHasNoEnd(n);
    var s := Header(n) + rest;
    var end := |HeaderLine(n)|;
    assert s[end..end + 4] == BLANK_LINE;
    forall i: nat | i < end ensures !At(s, BLANK_LINE, i) {
      assert s[i] == HeaderLine(n)[i];
      StartsAt(s, BLANK_LINE, i);
    }
    FindIs(s, BLANK_LINE, end);
  }

  lemma NameIsTrimmed()
    ensures Trim(Ascii("Content-Length")) == Ascii("Content-Length")
    ensures Lower(Ascii("Content-Length")) == Ascii("content-length")
  {
    var name := Ascii("Content-Length");
    assert name[0] == 67 && name[|name| - 1] == 104;
    var lower, expected := Lower(name), "content-length";
    forall i | 0 <= i < |name| ensures lower[i] as int == expected[i] as int {
    }
    assert lower == Ascii(expected);
  }

  lemma LineClassified(n: nat)
    requires n <= USIZE_MAX
    ensures Classify(HeaderLine(n)) == LengthLine(Some(n))
  {
    var line, digits := HeaderLine(n), Decimal(n);
    assert line[14] == COLON && line[15] == SPACE;
    assert line[14..15] == [COLON];
    forall i: nat | i < 14 ensures !At(line, [COLON], i) {
      StartsAt(line, [COLON], i);
    }
    FindIs(line, [COLON], 14);
    assert line[..14] == Ascii("Content-Length");
    NameIsTrimmed();
    assert line[15..] == [SPACE] + digits && line[15..][1..] == digits;
    assert Digit(digits[0]) && Digit(digits[|digits| - 1]);
    assert TrimStart(line[15..]) == TrimStart(digits) == digits;
    assert Trim(line[15..]) == digits;
    NumberOfDecimal(n);
  }

  /** The written header declares the length it was written for. */
  lemma HeaderDeclares(n: nat)
    requires n <= USIZE_MAX
    ensures Parse(Header(n)) == Length(n)
  {
    var header, line := Header(n), HeaderLine(n);
    LineHasNoEnd(n);
    assert IsAscii(header);
    assert header[..|header| - 4] == line;
    forall i: nat ensures !At(line, LINE_END, i) {
      StartsAt(line, LINE_END, i);
    }
    assert Lines(header) == [line];
    LineClassified(n);
    assert Fault([line], 0) == None;
    assert FirstFault([line], 0) == FirstFault([line], 1) == None;
  }
}
