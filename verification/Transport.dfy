/** The framing of `src/transport.rs`: `encode_frame`, the buffer reader `decode_frame` and the stream reader
    `read_frame` (the Base Protocol of the Language Server Protocol specification 3.17). */
module Transport {
  import opened Common
  import opened FrameHeaders
  import Utf8

  datatype FrameError = HeadersTooLarge | BadHeader(error: HeaderError) | EofInHeaders | EofInBody

  const MAX_HEADER_BYTES: nat := 8192
  const MAX_BODY_BYTES: nat := 268_435_456

  /** `\r\n\r\n` */
  const TERMINATOR: seq<Byte> := [13, 10, 13, 10]

  predicate Terminated(buf: seq<Byte>, i: nat) {
    i + 4 <= |buf| && buf[i] == 13 && buf[i + 1] == 10 && buf[i + 2] == 13 && buf[i + 3] == 10
  }

  /** `find_headers_end` from `i` on: the first terminator. */
  function HeadersEnd(buf: seq<Byte>, i: nat): (r: Option<nat>)
    ensures r.Some? ==> i <= r.value && Terminated(buf, r.value)
    ensures r.Some? ==> forall j: nat :: i <= j < r.value ==> !Terminated(buf, j)
    ensures r.None? ==> forall j: nat :: i <= j ==> !Terminated(buf, j)
    decreases |buf| - i
  {
    if i + 4 > |buf| then None else if Terminated(buf, i) then Some(i) else HeadersEnd(buf, i + 1)
  }

  lemma FirstTerminator(buf: seq<Byte>, at: nat)
    requires Terminated(buf, at) && forall j: nat :: j < at ==> !Terminated(buf, j)
    ensures HeadersEnd(buf, 0) == Some(at)
  {
    assert !HeadersEnd(buf, 0).None?;
  }

  /** The length a header block declares, when it is UTF-8 and the length is acceptable. */
  function DeclaredLength(block: seq<Byte>): (r: Result<nat, HeaderError>)
    ensures r.Ok? ==> Utf8.Decode(block, 0).Some? && r.value <= MAX_BODY_BYTES
  {
    var text := Utf8.Decode(block, 0);
    if text.None? then Err(NotUtf8)
    else
      var length := ContentLength(text.value);
      if length.Ok? && length.value > MAX_BODY_BYTES then Err(BodyTooLarge) else length
  }

  function DecodeBody(block: seq<Byte>, rest: seq<Byte>): Option<Result<seq<Byte>, FrameError>> {
    var length := DeclaredLength(block);
    if length.Err? then Some(Err(BadHeader(length.error)))
    else if |rest| < length.value then None
    else Some(Ok(rest[..length.value]))
  }

  /** `decode_frame`: nothing until the frame is complete. */
  function DecodeFrame(buf: seq<Byte>): Option<Result<seq<Byte>, FrameError>> {
    var end := HeadersEnd(buf, 0);
    if end.None? then None
    else if end.value > MAX_HEADER_BYTES then Some(Err(HeadersTooLarge))
    else DecodeBody(buf[..end.value], buf[end.value + 4..])
  }

  // ---------- encoding ----------

  function Bytes(s: string): (b: seq<Byte>)
    requires forall i :: 0 <= i < |s| ==> s[i] < '\U{0080}'
    ensures |b| == |s| && Utf8.IsAscii(b) && Utf8.AsciiText(b) == s
  {
    seq(|s|, i requires 0 <= i < |s| => s[i] as Byte)
  }

  /** A header with any number of spaces before the length. */
  function PaddedHeader(spaces: nat, length: nat): (b: seq<Byte>)
    ensures Utf8.IsAscii(b) && Utf8.AsciiText(b) == HeaderLine(Spaces(spaces) + Decimal(length))
    ensures |b| == 15 + spaces + |Decimal(length)| && forall i :: 0 <= i < |b| ==> b[i] != 13 && b[i] != 10
  {
    var s := HeaderLine(Spaces(spaces) + Decimal(length));
    assert forall i :: 15 + spaces <= i < |s| ==> s[i] == Decimal(length)[i - 15 - spaces];
    Bytes(s)
  }

  function Header(length: nat): (b: seq<Byte>)
    ensures Utf8.IsAscii(b) && Utf8.AsciiText(b) == HeaderLine(" " + Decimal(length))
  {
    assert Spaces(1) == " ";
    PaddedHeader(1, length)
  }

  function Frame(body: seq<Byte>): seq<Byte> {
    Header(|body|) + TERMINATOR + body
  }

  /** `encode_frame` */
  method EncodeFrame(body: seq<Byte>) returns (out: seq<Byte>)
    ensures out == Frame(body)
  {
    out := Header(|body|) + TERMINATOR;
    out := out + body;
  }

  /** The bytes of a frame, written out. */
  lemma FrameText(body: seq<Byte>)
    ensures var head := "Content-Length: " + Decimal(|body|) + "\r\n\r\n";
            && |Frame(body)| == |head| + |body|
            && (forall i :: 0 <= i < |head| ==> head[i] < '\U{0080}' && Frame(body)[i] == head[i] as int)
            && Frame(body)[|head|..] == body
  {
    var header, text := Header(|body|), HeaderLine(" " + Decimal(|body|));
    var head := "Content-Length: " + Decimal(|body|) + "\r\n\r\n";
    assert text == "Content-Length: " + Decimal(|body|);
    assert forall i :: 0 <= i < |text| ==> header[i] == text[i] as int;
    assert head == text + BLANK;
  }

  lemma HeaderIsShort(length: nat)
    requires length < USIZE_LIMIT
    ensures |Header(length)| <= 36
  {
    assert Pow10(20) == 100_000_000_000_000_000_000 by {
      assert Pow10(10) == 10_000_000_000;
    }
    DecimalLength(length, 20);
  }

  lemma HeaderDeclares(spaces: nat, length: nat)
    requires length < USIZE_LIMIT
    ensures DeclaredLength(PaddedHeader(spaces, length)) ==
            if length > MAX_BODY_BYTES then Err(BodyTooLarge) else Ok(length)
  {
    var value := Spaces(spaces) + Decimal(length);
    Utf8.DecodeAscii(PaddedHeader(spaces, length), 0);
    assert HeaderLine(value)[0..] == HeaderLine(value);
    assert '\n' !in value by {
      assert forall i :: spaces <= i < |value| ==> value[i] == Decimal(length)[i - spaces];
    }
    LengthOfHeaderLine(value);
    TrimOfDecimal(spaces, length);
    ParseOfDecimal(length);
  }

  lemma FrameHeadersEnd(block: seq<Byte>, rest: seq<Byte>)
    requires forall i :: 0 <= i < |block| ==> block[i] != 13
    ensures HeadersEnd(block + TERMINATOR + rest, 0) == Some(|block|)
  {
    var buf := block + TERMINATOR + rest;
    assert forall j: nat :: j < |block| ==> buf[j] == block[j];
    assert Terminated(buf, |block|);
    FirstTerminator(buf, |block|);
  }

  lemma BlockIsFound(block: seq<Byte>, rest: seq<Byte>)
    requires (forall i :: 0 <= i < |block| ==> block[i] != 13) && |block| <= MAX_HEADER_BYTES
    ensures DecodeFrame(block + TERMINATOR + rest) == DecodeBody(block, rest)
  {
    var buf := block + TERMINATOR + rest;
    FrameHeadersEnd(block, rest);
    assert buf[..|block|] == block && buf[|block| + 4..] == rest;
  }

  /** A framed body is decoded whatever follows it, up to the largest accepted body; a longer one is refused. */
  lemma DecodeInvertsEncode(body: seq<Byte>, rest: seq<Byte>)
    requires |body| < 0x1_0000_0000_0000_0000
    ensures DecodeFrame(Frame(body) + rest) ==
            Some(if |body| <= 268_435_456 then Ok(body) else Err(BadHeader(BodyTooLarge)))
  {
    assert Frame(body) + rest == Header(|body|) + TERMINATOR + (body + rest);
    HeaderIsShort(|body|);
    BlockIsFound(Header(|body|), body + rest);
    HeaderDeclares(1, |body|);
    assert (body + rest)[..|body|] == body;
  }

  lemma PartOfHeader(body: seq<Byte>, part: seq<Byte>)
    requires part <= Frame(body) && |part| < |Header(|body|)| + 4
    ensures HeadersEnd(part, 0) == None
  {
    FrameHeadersEnd(Header(|body|), body);
    assert forall j: nat :: Terminated(part, j) ==> Terminated(Frame(body), j);
  }

  /** Every strict part of a frame asks for more. */
  lemma PrefixesAskForMore(body: seq<Byte>, part: seq<Byte>)
    requires |body| <= 268_435_456 && part < Frame(body)
    ensures DecodeFrame(part) == None
  {
    var header := Header(|body|);
    if |part| < |header| + 4 {
      PartOfHeader(body, part);
    } else {
      var rest := part[|header| + 4..];
      assert part == header + TERMINATOR + rest;
      HeaderIsShort(|body|);
      BlockIsFound(header, rest);
      HeaderDeclares(1, |body|);
    }
  }

  lemma EndStays(buf: seq<Byte>, more: seq<Byte>)
    requires HeadersEnd(buf, 0).Some?
    ensures HeadersEnd(buf + more, 0) == HeadersEnd(buf, 0)
  {
    assert forall j: nat :: j + 4 <= |buf| ==> Terminated(buf + more, j) == Terminated(buf, j);
    FirstTerminator(buf + more, HeadersEnd(buf, 0).value);
  }

  /** An answer does not change when more bytes arrive. */
  lemma AnswersAreFinal(buf: seq<Byte>, more: seq<Byte>)
    requires DecodeFrame(buf).Some?
    ensures DecodeFrame(buf + more) == DecodeFrame(buf)
  {
    EndStays(buf, more);
    var end := HeadersEnd(buf, 0).value;
    if end <= MAX_HEADER_BYTES {
      var rest := buf[end + 4..];
      assert (buf + more)[..end] == buf[..end] && (buf + more)[end + 4..] == rest + more;
      var length := DeclaredLength(buf[..end]);
      if length.Ok? {
        assert (rest + more)[..length.value] == rest[..length.value];
      }
    }
  }

  // ---------- the stream reader ----------

  /** What one call of `read_frame` gives. */
  datatype Read = Message(headers: string, body: seq<Byte>) | CleanEnd | Failed(error: FrameError)

  /** The body that follows a header block, and the bytes left after it. */
  function ReadBody(block: seq<Byte>, rest: seq<Byte>): (Read, seq<Byte>) {
    var length := DeclaredLength(block);
    if length.Err? then (Failed(BadHeader(length.error)), rest)
    else if |rest| < length.value then (Failed(EofInBody), [])
    else (Message(Utf8.Decode(block, 0).value, rest[..length.value]), rest[length.value..])
  }

  /** What `read_frame` gives on a stream holding `data`, and what is left of the stream. */
  function ReadOutcome(data: seq<Byte>): (Read, seq<Byte>) {
    var end := HeadersEnd(data, 0);
    if end.Some? && end.value + 4 <= MAX_HEADER_BYTES then ReadBody(data[..end.value + 4], data[end.value + 4..])
    else if |data| > MAX_HEADER_BYTES then (Failed(HeadersTooLarge), data[MAX_HEADER_BYTES + 1..])
    else (if data == [] then CleanEnd else Failed(EofInHeaders), [])
  }

  class Stream {
    var rest: seq<Byte>

    constructor (data: seq<Byte>)
      ensures rest == data
    {
      rest := data;
    }

    /** One byte, nothing at the end of the stream. */
    method ReadByte() returns (b: Option<Byte>)
      modifies this
      ensures old(rest) == [] ==> b == None && rest == []
      ensures old(rest) != [] ==> b == Some(old(rest)[0]) && rest == old(rest)[1..]
    {
      if rest == [] {
        return None;
      }
      b := Some(rest[0]);
      rest := rest[1..];
    }

    /** Exactly `n` bytes, nothing when the stream ends before. */
    method ReadExact(n: nat) returns (b: Option<seq<Byte>>)
      modifies this
      ensures |old(rest)| < n ==> b == None && rest == []
      ensures |old(rest)| >= n ==> b == Some(old(rest)[..n]) && rest == old(rest)[n..]
    {
      if |rest| < n {
        rest := [];
        return None;
      }
      b := Some(rest[..n]);
      rest := rest[n..];
    }
  }

  /** The header bytes read so far hold no terminator. */
  ghost predicate Reading(data: seq<Byte>, block: seq<Byte>, rest: seq<Byte>) {
    data == block + rest && |block| <= MAX_HEADER_BYTES && forall j: nat :: !Terminated(block, j)
  }

  predicate EndsTerminated(block: seq<Byte>) {
    |block| >= 4 && Terminated(block, |block| - 4)
  }

  lemma BlockEnds(data: seq<Byte>, block: seq<Byte>, rest: seq<Byte>, b: Byte)
    requires Reading(data, block, [b] + rest) && EndsTerminated(block + [b]) && |block| < MAX_HEADER_BYTES
    ensures ReadOutcome(data) == ReadBody(block + [b], rest)
  {
    var longer := block + [b];
    assert data == longer + rest;
    assert forall j: nat :: j + 4 <= |longer| ==> Terminated(data, j) == Terminated(longer, j);
    assert forall j: nat :: j + 4 <= |block| ==> Terminated(longer, j) == Terminated(block, j);
    FirstTerminator(data, |longer| - 4);
    assert data[..|longer|] == longer && data[|longer|..] == rest;
  }

  lemma BlockGrows(data: seq<Byte>, block: seq<Byte>, rest: seq<Byte>, b: Byte)
    requires Reading(data, block, [b] + rest) && !EndsTerminated(block + [b]) && |block| < MAX_HEADER_BYTES
    ensures Reading(data, block + [b], rest)
  {
    var longer := block + [b];
    assert forall j: nat :: j + 4 <= |block| ==> Terminated(longer, j) == Terminated(block, j);
    assert data == longer + rest;
  }

  lemma BlockTooLarge(data: seq<Byte>, block: seq<Byte>, rest: seq<Byte>, b: Byte)
    requires Reading(data, block, [b] + rest) && |block| == MAX_HEADER_BYTES
    ensures ReadOutcome(data) == (Failed(HeadersTooLarge), rest)
  {
    assert forall j: nat :: j + 4 <= |block| ==> Terminated(data, j) == Terminated(block, j);
    assert data[MAX_HEADER_BYTES + 1..] == rest;
  }

  /** `read_frame` */
  method ReadFrame(stream: Stream) returns (r: Read)
    modifies stream
    ensures (r, stream.rest) == ReadOutcome(old(stream.rest))
  {
    var block: seq<Byte> := [];
    ghost var data := stream.rest;
    while true
      invariant Reading(data, block, stream.rest)
      decreases |stream.rest|
    {
      ghost var before := stream.rest;
      var b := stream.ReadByte();
      if b.None? {
        assert data == block;
        return if block == [] then CleanEnd else Failed(EofInHeaders);
      }
      assert before == [b.value] + stream.rest;
      if |block| + 1 > MAX_HEADER_BYTES {
        BlockTooLarge(data, block, stream.rest, b.value);
        return Failed(HeadersTooLarge);
      }
      if EndsTerminated(block + [b.value]) {
        BlockEnds(data, block, stream.rest, b.value);
        block := block + [b.value];
        break;
      }
      BlockGrows(data, block, stream.rest, b.value);
      block := block + [b.value];
    }
    var length := DeclaredLength(block);
    if length.Err? {
      return Failed(BadHeader(length.error));
    }
    var headers := Utf8.Decode(block, 0);
    var body := stream.ReadExact(length.value);
    r := if body.None? then Failed(EofInBody) else Message(headers.value, body.value);
  }

  // ---------- whole streams ----------

  function Frames(bodies: seq<seq<Byte>>): seq<Byte> {
    if bodies == [] then [] else Frame(bodies[0]) + Frames(bodies[1..])
  }

  /** Everything a connection reads until a call gives no message. */
  function ReadAll(data: seq<Byte>): (seq<seq<Byte>>, Read)
    decreases |data|
  {
    var (first, rest) := ReadOutcome(data);
    if first.Message? then
      var (bodies, last) := ReadAll(rest);
      ([first.body] + bodies, last)
    else ([], first)
  }

  lemma BlankBlock(block: seq<Byte>)
    ensures DeclaredLength(block + TERMINATOR) == DeclaredLength(block)
    ensures var (whole, part) := (Utf8.Decode(block + TERMINATOR, 0), Utf8.Decode(block, 0));
            whole == if part.Some? then Some(part.value + BLANK) else None
  {
    Utf8.DecodeBeforeAscii(block, TERMINATOR, 0);
    assert Utf8.AsciiText(TERMINATOR) == BLANK;
    var text := Utf8.Decode(block, 0);
    if text.Some? { BlankLineAddsNothing(text.value); }
  }

  lemma BlockIsRead(block: seq<Byte>, rest: seq<Byte>)
    requires (forall i :: 0 <= i < |block| ==> block[i] != 13) && |block| + 4 <= MAX_HEADER_BYTES
    ensures ReadOutcome(block + TERMINATOR + rest) == ReadBody(block + TERMINATOR, rest)
  {
    var data := block + TERMINATOR + rest;
    FrameHeadersEnd(block, rest);
    assert data[..|block| + 4] == block + TERMINATOR && data[|block| + 4..] == rest;
  }

  lemma HeaderText(length: nat)
    ensures Utf8.Decode(Header(length) + TERMINATOR, 0) == Some(HeaderLine(" " + Decimal(length)) + BLANK)
  {
    var header := Header(length);
    BlankBlock(header);
    Utf8.DecodeAscii(header, 0);
    assert Utf8.AsciiText(header)[0..] == Utf8.AsciiText(header);
  }

  lemma BodyIsRead(block: seq<Byte>, text: string, body: seq<Byte>, rest: seq<Byte>)
    requires DeclaredLength(block) == Ok(|body|) && Utf8.Decode(block, 0) == Some(text)
    ensures ReadBody(block, body + rest) == (Message(text, body), rest)
  {
    assert (body + rest)[..|body|] == body && (body + rest)[|body|..] == rest;
  }

  lemma ReadsFrame(body: seq<Byte>, rest: seq<Byte>)
    requires |body| <= MAX_BODY_BYTES
    ensures ReadOutcome(Frame(body) + rest) == (Message(HeaderLine(" " + Decimal(|body|)) + BLANK, body), rest)
  {
    var header := Header(|body|);
    assert Frame(body) + rest == header + TERMINATOR + (body + rest);
    HeaderIsShort(|body|);
    HeaderDeclares(1, |body|);
    BlockIsRead(header, body + rest);
    BlankBlock(header);
    HeaderText(|body|);
    BodyIsRead(header + TERMINATOR, HeaderLine(" " + Decimal(|body|)) + BLANK, body, rest);
  }

  /** A stream of frames is read back as its bodies, in order, and then a clean end. */
  lemma {:induction false} StreamIsReadBack(bodies: seq<seq<Byte>>)
    requires forall i :: 0 <= i < |bodies| ==> |bodies[i]| <= 268_435_456
    ensures ReadAll(Frames(bodies)) == (bodies, CleanEnd)
  {
    if bodies != [] {
      ReadsFrame(bodies[0], Frames(bodies[1..]));
      StreamIsReadBack(bodies[1..]);
      assert [bodies[0]] + bodies[1..] == bodies;
    }
  }

  // ---------- the two readers compared ----------

  /** The stream reader gives what the buffer reader gives: the same body, the same error, or the end of the
      stream where the buffer reader asks for more. */
  predicate SameAnswer(decoded: Option<Result<seq<Byte>, FrameError>>, read: Read) {
    match read
    case Message(_, body) => decoded == Some(Ok(body))
    case CleanEnd => decoded == None
    case Failed(error) => decoded == if error == EofInHeaders || error == EofInBody then None else Some(Err(error))
  }

  lemma BodiesAgree(block: seq<Byte>, rest: seq<Byte>)
    ensures SameAnswer(DecodeBody(block, rest), ReadBody(block + TERMINATOR, rest).0)
  {
    BlankBlock(block);
  }

  /** The cases in which the stream reader has counted more header bytes than it allows, and the buffer reader
      has not: the four bytes of the terminator, or more than 8192 bytes without any. */
  predicate OnlyStreamTooLarge(data: seq<Byte>) {
    var end := HeadersEnd(data, 0);
    if end.Some? then end.value <= 8192 < end.value + 4 else |data| > 8192
  }

  /** On every input both readers give the same answer, except exactly where only the stream reader finds the
      headers too large. */
  lemma ReadersAgree(data: seq<Byte>)
    ensures SameAnswer(DecodeFrame(data), ReadOutcome(data).0) <==> !OnlyStreamTooLarge(data)
    ensures OnlyStreamTooLarge(data) ==> ReadOutcome(data).0 == Failed(HeadersTooLarge)
  {
    var end := HeadersEnd(data, 0);
    if end.Some? && end.value + 4 <= MAX_HEADER_BYTES {
      var block := data[..end.value];
      assert data[..end.value + 4] == block + TERMINATOR;
      BodiesAgree(block, data[end.value + 4..]);
    }
  }

  /** Whatever the body: with a header of 8189 to 8192 bytes the buffer reader decodes it and the stream reader does
      not. */
  lemma BoundaryHeaders(spaces: nat, body: seq<Byte>, rest: seq<Byte>)
    requires |body| <= 268_435_456 && 8189 <= |PaddedHeader(spaces, |body|)| <= 8192
    ensures var data := PaddedHeader(spaces, |body|) + TERMINATOR + body + rest;
            && OnlyStreamTooLarge(data)
            && DecodeFrame(data) == Some(Ok(body))
            && ReadOutcome(data).0 == Failed(HeadersTooLarge)
  {
    var header := PaddedHeader(spaces, |body|);
    var data := header + TERMINATOR + body + rest;
    assert data == header + TERMINATOR + (body + rest);
    FrameHeadersEnd(header, body + rest);
    BlockIsFound(header, body + rest);
    HeaderDeclares(spaces, |body|);
    assert (body + rest)[..|body|] == body;
  }

  /** Such a header exists for every body. */
  lemma BoundaryHeaderExists(body: seq<Byte>)
    requires |body| <= 268_435_456
    ensures exists spaces: nat :: |PaddedHeader(spaces, |body|)| == 8192
  {
    HeaderIsShort(|body|);
    var spaces := MAX_HEADER_BYTES - 15 - |Decimal(|body|)|;
    assert |PaddedHeader(spaces, |body|)| == MAX_HEADER_BYTES;
  }
}
