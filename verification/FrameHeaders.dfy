/** `parse_content_length` of `src/transport.rs`: the declared length of a header block (the "Header Part" of
    the Base Protocol in the Language Server Protocol specification 3.17). */
module FrameHeaders {
  import opened Common

  /** What can be wrong with a complete header block. */
  datatype HeaderError = NotUtf8 | MissingLength | InvalidLength | BodyTooLarge

  const USIZE_LIMIT: nat := 0x1_0000_0000_0000_0000

  function TrimStart(s: string): string {
    if s != "" && IsWhite(s[0]) then TrimStart(s[1..]) else s
  }

  /** `str::trim`. */
  function Trim(s: string): string {
    TrimStart(TrimEnd(s))
  }

  function Lower(c: char): char {
    if 'A' <= c <= 'Z' then c + ('a' - 'A') else c
  }

  predicate EqIgnoreCase(s: string, t: string) {
    |s| == |t| && forall i :: 0 <= i < |s| ==> Lower(s[i]) == Lower(t[i])
  }

  function Upper(c: char): char {
    if 'a' <= c <= 'z' then c - ('a' - 'A') else c
  }

  /** The header name is found in any mixture of cases, and no other name is. */
  lemma AnyCaseIsEqual(s: string, t: string)
    requires forall i :: 0 <= i < |t| ==> t[i] == Lower(t[i])
    ensures EqIgnoreCase(s, t) <==> |s| == |t| && forall i :: 0 <= i < |s| ==> s[i] == t[i] || s[i] == Upper(t[i])
  {
  }

  /** `str::parse::<usize>`: digits after an optional `+`, below 2^64. */
  function ParseUsize(s: string): Option<nat> {
    var digits := if s != "" && s[0] == '+' then s[1..] else s;
    if digits != "" && AllDigits(digits) && DecimalValue(digits) < USIZE_LIMIT then Some(DecimalValue(digits)) else None
  }

  /** What one header line says of the length; nothing when it is another header. */
  function LineLength(line: string): Option<Result<nat, HeaderError>> {
    var colon := Find(line, ':', 0);
    if colon < |line| && EqIgnoreCase(Trim(line[..colon]), "content-length") then
      var value := ParseUsize(Trim(line[colon + 1..]));
      Some(if value.Some? then Ok(value.value) else Err(InvalidLength))
    else None
  }

  /** The line before `end` without its line end: `\n` or `\r\n`. */
  function LineOf(s: string, end: nat): string
    requires end <= |s|
  {
    if end < |s| && end > 0 && s[end - 1] == '\r' then s[..end - 1] else s[..end]
  }

  /** What `read` says of the first line that it says something of. */
  function FirstLine<T>(s: string, read: string -> Option<T>): Option<T> {
    if s == "" then None
    else
      var end := Find(s, '\n', 0);
      var found := read(LineOf(s, end));
      if found.Some? || end == |s| then found else FirstLine(s[end + 1..], read)
  }

  /** `parse_content_length` */
  function ContentLength(headers: string): Result<nat, HeaderError> {
    var found := FirstLine(headers, LineLength);
    if found.Some? then found.value else Err(MissingLength)
  }

  // ---------- a padded number is read back ----------

  function Spaces(n: nat): (s: string)
    ensures |s| == n && forall i :: 0 <= i < n ==> s[i] == ' '
  {
    seq(n, i => ' ')
  }

  predicate AllWhite(s: string) {
    forall i :: 0 <= i < |s| ==> IsWhite(s[i])
  }

  lemma {:induction false} TrimFront(white: string, s: string)
    requires AllWhite(white) && (s != "" ==> !IsWhite(s[0]))
    ensures TrimStart(white + s) == s
  {
    if white == "" {
      assert white + s == s;
    } else {
      TrimFront(white[1..], s);
      assert (white + s)[1..] == white[1..] + s;
    }
  }

  lemma {:induction false} TrimBack(s: string, white: string)
    requires AllWhite(white) && (s != "" ==> !IsWhite(s[|s| - 1]))
    ensures TrimEnd(s + white) == s
  {
    if white == "" {
      assert s + white == s;
    } else {
      var shorter := white[..|white| - 1];
      TrimBack(s, shorter);
      assert (s + white)[..|s + white| - 1] == s + shorter;
    }
  }

  /** White space around a text goes, and nothing of the text. */
  lemma TrimAround(before: string, s: string, after: string)
    requires AllWhite(before) && AllWhite(after) && s != "" && !IsWhite(s[0]) && !IsWhite(s[|s| - 1])
    ensures Trim(before + s + after) == s
  {
    TrimBack(before + s, after);
    TrimFront(before, s);
  }

  /** Digits are not white space. */
  lemma TrimOfDecimal(spaces: nat, n: nat)
    ensures Trim(Spaces(spaces) + Decimal(n)) == Decimal(n)
  {
    var digits := Decimal(n);
    assert !IsWhite(digits[0]) && !IsWhite(digits[|digits| - 1]);
    TrimAround(Spaces(spaces), digits, "");
    assert Spaces(spaces) + digits + "" == Spaces(spaces) + digits;
  }

  /** A number is read exactly when it fits 64 bits. */
  lemma ParseOfDecimal(n: nat)
    ensures ParseUsize(Decimal(n)) == if n < 0x1_0000_0000_0000_0000 then Some(n) else None
  {
    DecimalIsReadBack(n);
  }

  lemma {:induction false} DecimalLength(n: nat, k: nat)
    requires k > 0 && n < Pow10(k)
    ensures |Decimal(n)| <= k
    decreases k
  {
    if n >= 10 {
      assert k > 1;
      DecimalLength(n / 10, k - 1);
    }
  }

  function Pow10(k: nat): nat {
    if k == 0 then 1 else 10 * Pow10(k - 1)
  }

  function HeaderLine(value: string): string {
    "Content-Length:" + value
  }

  lemma NameIsFound(value: string)
    ensures Find(HeaderLine(value), ':', 0) == 14
    ensures HeaderLine(value)[..14] == "Content-Length" && HeaderLine(value)[15..] == value
  {
    var s := HeaderLine(value);
    assert s[..14] == s[0..14] == "Content-Length";
    FindFirst(s, ':', 0, 14);
  }

  lemma NameMatches()
    ensures EqIgnoreCase(Trim("Content-Length"), "content-length")
  {
    assert TrimEnd("Content-Length") == "Content-Length";
    assert TrimStart("Content-Length") == "Content-Length";
  }

  /** What a line naming the length says: the value after its colon. */
  lemma HeaderLineSays(value: string)
    ensures LineLength(HeaderLine(value)) ==
            var parsed := ParseUsize(Trim(value)); Some(if parsed.Some? then Ok(parsed.value) else Err(InvalidLength))
  {
    NameIsFound(value);
    NameMatches();
  }

  /** A line that names another header, or none, says nothing of the length. */
  lemma OtherHeaderSays(name: string, value: string)
    requires ':' !in name
    ensures !EqIgnoreCase(Trim(name), "content-length") ==> LineLength(name + ":" + value) == None
    ensures LineLength(name) == None
  {
    var line := name + ":" + value;
    assert line[0..|name|] == name && name[0..] == name;
    FindFirst(line, ':', 0, |name|);
    FindFirst(name, ':', 0, |name|);
    assert line[..|name|] == name;
  }

  // ---------- the lines of a header block ----------

  function JoinLines(lines: seq<string>): string {
    if lines == [] then "" else lines[0] + "\r\n" + JoinLines(lines[1..])
  }

  /** The first line is asked first. */
  lemma OneLine<T>(line: string, rest: string, read: string -> Option<T>)
    requires '\n' !in line
    ensures FirstLine(line + "\r\n" + rest, read) == if read(line).Some? then read(line) else FirstLine(rest, read)
  {
    var s := line + "\r\n" + rest;
    assert s[0..|line| + 1] == line + "\r";
    FindFirst(s, '\n', 0, |line| + 1);
    assert LineOf(s, |line| + 1) == line && s[|line| + 2..] == rest;
  }

  lemma {:induction false} SilentLines<T>(lines: seq<string>, rest: string, read: string -> Option<T>)
    requires forall i :: 0 <= i < |lines| ==> '\n' !in lines[i] && read(lines[i]) == None
    ensures FirstLine(JoinLines(lines) + rest, read) == FirstLine(rest, read)
  {
    if lines == [] {
      assert JoinLines(lines) + rest == rest;
    } else {
      var others := JoinLines(lines[1..]);
      assert JoinLines(lines) + rest == lines[0] + "\r\n" + (others + rest);
      OneLine(lines[0], others + rest, read);
      SilentLines(lines[1..], rest, read);
    }
  }

  /** The first line that names the length decides, whatever the lines after it. */
  lemma FirstLengthCounts(lines: seq<string>, value: string, rest: string)
    requires forall i :: 0 <= i < |lines| ==> '\n' !in lines[i] && LineLength(lines[i]) == None
    requires '\n' !in value
    ensures ContentLength(JoinLines(lines) + (HeaderLine(value) + "\r\n" + rest)) ==
            var parsed := ParseUsize(Trim(value)); if parsed.Some? then Ok(parsed.value) else Err(InvalidLength)
  {
    HeaderLineSays(value);
    NoLineEnd(value);
    SilentLines(lines, HeaderLine(value) + "\r\n" + rest, LineLength);
    OneLine(HeaderLine(value), rest, LineLength);
  }

  lemma NoLineEnd(value: string)
    requires '\n' !in value
    ensures '\n' !in HeaderLine(value)
  {
    var s := HeaderLine(value);
    assert forall i :: 15 <= i < |s| ==> s[i] == value[i - 15];
    assert forall i :: 0 <= i < 15 ==> s[i] == "Content-Length:"[i] && s[i] != '\n';
  }

  /** Without such a line the length is missing. */
  lemma NoLengthIsMissing(lines: seq<string>)
    requires forall i :: 0 <= i < |lines| ==> '\n' !in lines[i] && LineLength(lines[i]) == None
    ensures ContentLength(JoinLines(lines)) == Err(MissingLength)
  {
    SilentLines(lines, "", LineLength);
    assert JoinLines(lines) + "" == JoinLines(lines);
  }

  /** A single line naming the length gives the value after its colon. */
  lemma LengthOfHeaderLine(value: string)
    requires '\n' !in value
    ensures ContentLength(HeaderLine(value)) ==
            var parsed := ParseUsize(Trim(value)); if parsed.Some? then Ok(parsed.value) else Err(InvalidLength)
  {
    var s := HeaderLine(value);
    HeaderLineSays(value);
    NoLineEnd(value);
    assert s[0..|s|] == s;
    FindFirst(s, '\n', 0, |s|);
    assert LineOf(s, |s|) == s;
  }

  // ---------- with and without the blank line ----------

  const BLANK: string := "\r\n\r\n"

  lemma {:induction false} FindBeforeBlank(h: string, i: nat)
    requires i <= |h|
    ensures var (whole, part) := (Find(h + BLANK, '\n', i), Find(h, '\n', i));
            whole == if part < |h| then part else |h| + 1
    decreases |h| - i
  {
    if i < |h| { FindBeforeBlank(h, i + 1); }
  }

  lemma NothingInLineEnd<T>(read: string -> Option<T>)
    requires read("") == None
    ensures FirstLine("\r\n", read) == None
  {
    OneLine("", "", read);
    assert "" + "\r\n" + "" == "\r\n";
  }

  lemma OnlyLine<T>(h: string, read: string -> Option<T>)
    requires '\n' !in h && read("") == None
    ensures FirstLine(h, read) == read(h)
  {
    assert h[0..|h|] == h;
    FindFirst(h, '\n', 0, |h|);
    assert LineOf(h, |h|) == h;
  }

  /** The last line of `h` is the same with the blank line behind it. */
  lemma LastLine<T>(h: string, read: string -> Option<T>)
    requires '\n' !in h && read("") == None
    ensures FirstLine(h + BLANK, read) == FirstLine(h, read)
  {
    OnlyLine(h, read);
    OneLine(h, "\r\n", read);
    NothingInLineEnd(read);
    assert h + "\r\n" + "\r\n" == h + BLANK;
  }

  /** An ended line is the same whatever follows. */
  lemma EndedLine<T>(h: string, s: string, end: nat, read: string -> Option<T>)
    requires h != "" && s != "" && end == Find(h, '\n', 0) == Find(s, '\n', 0) && end < |h| && end < |s|
    requires h[..end] == s[..end]
    requires FirstLine(s[end + 1..], read) == FirstLine(h[end + 1..], read)
    ensures FirstLine(s, read) == FirstLine(h, read)
  {
    assert LineOf(s, end) == LineOf(h, end) by {
      if end > 0 { assert h[end - 1] == h[..end][end - 1] == s[end - 1] && h[..end][..end - 1] == s[..end][..end - 1]; }
    }
  }

  lemma {:induction false} BlankLineReadsNothing<T>(h: string, read: string -> Option<T>)
    requires read("") == None
    ensures FirstLine(h + BLANK, read) == FirstLine(h, read)
    decreases |h|
  {
    var end := Find(h, '\n', 0);
    if end == |h| {
      assert h[0..|h|] == h;
      LastLine(h, read);
    } else {
      var s := h + BLANK;
      FindBeforeBlank(h, 0);
      assert s[..end] == h[..end] && s[end + 1..] == h[end + 1..] + BLANK;
      BlankLineReadsNothing(h[end + 1..], read);
      EndedLine(h, s, end, read);
    }
  }

  /** Reading the header block with its blank line, as the stream reader does, or without it, as the buffer
      reader does, finds the same length or the same error. */
  lemma BlankLineAddsNothing(h: string)
    ensures ContentLength(h + BLANK) == ContentLength(h)
  {
    assert LineLength("") == None;
    BlankLineReadsNothing(h, LineLength);
  }
}
