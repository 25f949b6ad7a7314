/// Reading one request from the input stream: the request line
/// (`readreq_line`, `upcase`), the header block (`read_header` and the loop
/// of `readreq` that builds the header list), and the body whose length
/// `content_length` derives from the `Content-Length` header.
module Requests {
  import opened Common
  import opened Ascii
  import opened Streams
  import opened Headers

  /** The three fields of a request line, method already upper-cased. */
  datatype RequestLine = RequestLine(methodName: string, path: string, minor: int)

  /** The abstract value of a `struct HTTPreq` once `readreq` has filled it.
      `headers` is in store order (most recently read first). */
  datatype Request = Request(
    minor: int,
    methodName: string,
    path: string,
    headers: seq<Header>,
    body: Option<string>,
    length: nat)

  const VERSION_PREFIX: string := "HTTP/1."

  // ---------------------------------------------------------------- request line

  predicate NoSpace(s: string) {
    forall k :: 0 <= k < |s| ==> s[k] != ' '
  }

  /** The parsing half of `readreq_line`: the method runs up to the first
      space, the path up to the second, and the rest must start with
      `HTTP/1.` in any case; the minor version is `atoi` of what follows. */
  function ParseRequestLine(line: string): Result<RequestLine> {
    match SplitAt(line, ' ')
    case None => Fail(RequestLineSyntax(1, line))
    case Some((m, rest)) =>
      match SplitAt(rest, ' ')
      case None => Fail(RequestLineSyntax(2, m))
      case Some((path, version)) =>
        if !HasPrefixIgnoreCase(version, VERSION_PREFIX) then Fail(RequestLineSyntax(3, m))
        else Ok(RequestLine(UpperAscii(m), path, Atoi(version[|VERSION_PREFIX|..])))
  }

  /** A line without a space fails on the first field. */
  lemma RequestLineWithoutSpace(line: string)
    requires NoSpace(line)
    ensures ParseRequestLine(line) == Fail(RequestLineSyntax(1, line))
  {
  }

  /** A line with exactly one space fails on the second field. */
  lemma RequestLineWithOneSpace(m: string, rest: string)
    requires NoSpace(m) && NoSpace(rest)
    ensures ParseRequestLine(m + " " + rest) == Fail(RequestLineSyntax(2, m))
  {
    SplitAtFirst(m, ' ', rest);
  }

  /** Every other line splits at its first two spaces into method text, path
      and version token. It parses exactly when the token starts with
      `HTTP/1.` in any case; the method is then its text upper-cased (same
      length, equal ignoring case), the path is verbatim and the minor
      version is `atoi` of the rest of the token. */
  lemma RequestLineFields(m: string, path: string, version: string)
    requires NoSpace(m) && NoSpace(path)
    ensures var r := ParseRequestLine(m + " " + path + " " + version);
      && (r.Ok? <==> HasPrefixIgnoreCase(version, VERSION_PREFIX))
      && (r.Fail? ==> r.error == RequestLineSyntax(3, m))
      && (r.Ok? ==>
            && r.value.path == path
            && r.value.methodName == UpperAscii(m)
            && EqualsIgnoreCase(r.value.methodName, m)
            && r.value.minor == Atoi(version[|VERSION_PREFIX|..]))
  {
    var rest := path + [' '] + version;
    assert m + " " + path + " " + version == m + [' '] + rest;
    SplitAtFirst(m, ' ', rest);
    SplitAtFirst(path, ' ', version);
    UpperAsciiMatches(m);
  }

  /** The request line a client sends: `METHOD SP PATH SP HTTP/1.<n> CR LF`. */
  function RequestLineText(m: string, p: string, proto: string, n: nat): string {
    m + " " + p + " " + proto + NatToDecimal(n) + "\r\n"
  }

  /** A request line in the usual shape parses to its three fields: the
      method upper-cased, the path verbatim and the minor version printed. */
  lemma RequestLineRoundTrip(m: string, p: string, proto: string, n: nat)
    requires NoSpace(m) && NoSpace(p)
    requires EqualsIgnoreCase(proto, VERSION_PREFIX)
    ensures ParseRequestLine(RequestLineText(m, p, proto, n)) == Ok(RequestLine(UpperAscii(m), p, n))
  {
    var digits := NatToDecimal(n) + "\r\n";
    var version := proto + digits;
    assert RequestLineText(m, p, proto, n) == m + " " + p + " " + version;
    RequestLineFields(m, p, version);
    assert version[..|VERSION_PREFIX|] == proto && version[|VERSION_PREFIX|..] == digits;
    AtoiOfDecimal(n, "\r\n");
  }

  /** `fgets` then the parse: no line at all is fatal. */
  function RequestLineFrom(input: string): Result<(RequestLine, string)> {
    match FGets(input)
    case None => Fail(NoRequestLine)
    case Some((line, rest)) =>
      var rl :- ParseRequestLine(line);
      Ok((rl, rest))
  }

  // ---------------------------------------------------------------- header block

  /** `read_header`: one line; end of input is fatal, an end line gives `None`. */
  function NextHeader(input: string): (r: Result<(Option<Header>, string)>)
    ensures r.Ok? ==> |r.value.1| < |input|
  {
    match FGets(input)
    case None => Fail(HeaderReadFailed)
    case Some((line, rest)) =>
      var h :- ParseHeaderLine(line);
      Ok((h, rest))
  }

  /** The loop of `readreq`: read fields until the end line, putting each one
      in front of the store `acc` built so far. */
  function ReadHeaders(input: string, acc: seq<Header>): Result<(seq<Header>, string)>
    decreases |input|
  {
    var next :- NextHeader(input);
    match next.0
    case None => Ok((acc, next.1))
    case Some(h) => ReadHeaders(next.1, [h] + acc)
  }

  /** The header block as it arrives, in wire order. */
  function WireHeaders(input: string): Result<(seq<Header>, string)>
    decreases |input|
  {
    var next :- NextHeader(input);
    match next.0
    case None => Ok(([], next.1))
    case Some(h) => Consed(h, WireHeaders(next.1))
  }

  /** One more field in front of a block read in wire order. */
  function Consed(h: Header, block: Result<(seq<Header>, string)>): Result<(seq<Header>, string)> {
    match block
    case Fail(e) => Fail(e)
    case Ok((hs, rest)) => Ok(([h] + hs, rest))
  }

  /** The store the loop builds from a block read in wire order: the block
      reversed, in front of `acc`; failures pass through unchanged. */
  function Prepended(wire: Result<(seq<Header>, string)>, acc: seq<Header>): Result<(seq<Header>, string)> {
    match wire
    case Fail(e) => Fail(e)
    case Ok((hs, rest)) => Ok((Reverse(hs) + acc, rest))
  }

  /** Prepending in the loop leaves the wire order reversed in front of the
      initial store; the loop fails, with the same error, exactly when reading
      the block does. */
  lemma {:induction false} ReadHeadersReversesWire(input: string, acc: seq<Header>)
    ensures ReadHeaders(input, acc) == Prepended(WireHeaders(input), acc)
    decreases |input|
  {
    match NextHeader(input)
    case Fail(_) =>
    case Ok((None, _)) =>
      assert Reverse([]) + acc == acc;
    case Ok((Some(h), rest)) =>
      ReadHeadersReversesWire(rest, [h] + acc);
      PrependedConsed(h, WireHeaders(rest), acc);
  }

  lemma PrependedConsed(h: Header, block: Result<(seq<Header>, string)>, acc: seq<Header>)
    ensures Prepended(Consed(h, block), acc) == Prepended(block, [h] + acc)
  {
    if block.Ok? {
      ReverseCons(h, block.value.0);
      assert Reverse(block.value.0) + [h] + acc == Reverse(block.value.0) + ([h] + acc);
    }
  }

  // ---------------------------------------------------------------- body

  /** `content_length`: 0 without the header, fatal when `atoi` of its value
      is negative, otherwise that value. */
  function ContentLengthOf(store: seq<Header>): Result<nat> {
    match Lookup(store, "Content-Length")
    case None => Ok(0)
    case Some(v) =>
      var len := Atoi(v);
      if len < 0 then Fail(NegativeContentLength) else Ok(len)
  }

  /** The body step of `readreq`: no body for length 0; more than 1 MiB is
      fatal; otherwise exactly `len` octets, an early end of input being fatal. */
  function ReadBody(len: nat, input: string): Result<(Option<string>, string)> {
    if len != 0 then
      if len > MAX_REQUEST_BODY_LENGTH then Fail(BodyTooLarge)
      else if |input| < len then Fail(BodyReadFailed)
      else Ok((Some(input[..len]), input[len..]))
    else Ok((None, input))
  }

  /** `readreq` as a whole: the request and the input left behind it. */
  function ParseRequest(input: string): Result<(Request, string)> {
    var line :- RequestLineFrom(input);
    var block :- ReadHeaders(line.1, []);
    var len :- ContentLengthOf(block.0);
    var body :- ReadBody(len, block.1);
    Ok((Request(line.0.minor, line.0.methodName, line.0.path, block.0, body.0, len), body.1))
  }

  /** The body invariant of a parsed request: present exactly when the length
      is not 0, then exactly that long, and never over 1 MiB. */
  lemma ParsedBodyInvariant(input: string)
    ensures ParseRequest(input).Ok? ==>
      var req := ParseRequest(input).value.0;
      && req.length <= MAX_REQUEST_BODY_LENGTH
      && (req.body.None? <==> req.length == 0)
      && (req.body.Some? ==> |req.body.value| == req.length)
  {
    if ParseRequest(input).Ok? {
      var line := RequestLineFrom(input).value;
      var block := ReadHeaders(line.1, []).value;
      var len := ContentLengthOf(block.0).value;
      assert ParseRequest(input).value.0.length == len;
      assert ParseRequest(input).value.0.body == ReadBody(len, block.1).value.0;
      ReadBodyShape(len, block.1);
    }
  }

  /** What `fread` leaves in the body: present exactly for a non-zero
      length, then of that length, which is never over 1 MiB. */
  lemma ReadBodyShape(len: nat, input: string)
    ensures ReadBody(len, input).Ok? ==>
      var body := ReadBody(len, input).value.0;
      && len <= MAX_REQUEST_BODY_LENGTH
      && (body.None? <==> len == 0)
      && (body.Some? ==> |body.value| == len)
  {
  }

  /** The length rules seen from the store: a missing header and one whose
      value reads as 0 both mean no body; a negative value is fatal; a value
      over 1 MiB is fatal; a shorter input than announced is fatal. */
  lemma BodyLengthRules(store: seq<Header>, input: string)
    ensures Lookup(store, "Content-Length").None? ==>
      ContentLengthOf(store) == Ok(0) && ReadBody(0, input) == Ok((None, input))
    ensures Lookup(store, "Content-Length").Some? && Atoi(Lookup(store, "Content-Length").value) == 0 ==>
      ContentLengthOf(store) == Ok(0)
    ensures Lookup(store, "Content-Length").Some? && Atoi(Lookup(store, "Content-Length").value) < 0 ==>
      ContentLengthOf(store) == Fail(NegativeContentLength)
    ensures ContentLengthOf(store).Ok? && ContentLengthOf(store).value > MAX_REQUEST_BODY_LENGTH ==>
      ReadBody(ContentLengthOf(store).value, input) == Fail(BodyTooLarge)
    ensures ContentLengthOf(store).Ok? && 0 < ContentLengthOf(store).value <= MAX_REQUEST_BODY_LENGTH ==>
      (ReadBody(ContentLengthOf(store).value, input).Ok? <==> ContentLengthOf(store).value <= |input|)
  {
  }

  /** A `Content-Length` value made of white space, an optional sign and
      digits, then the line terminator or other non-digit text: a negative
      number is fatal, and any other gives its value (`-0` gives 0). */
  lemma ContentLengthOfNumber(store: seq<Header>, ws: string, sign: string, d: string, t: string)
    requires forall i :: 0 <= i < |ws| ==> IsSpace(ws[i])
    requires sign == "" || sign == "+" || sign == "-"
    requires d != [] && AllDigits(d)
    requires t == [] || !IsDigit(t[0])
    requires Lookup(store, "Content-Length") == Some(ws + sign + d + t)
    ensures sign == "-" && DigitsValue(d) > 0 ==> ContentLengthOf(store) == Fail(NegativeContentLength)
    ensures !(sign == "-" && DigitsValue(d) > 0) ==> ContentLengthOf(store) == Ok(DigitsValue(d))
  {
    AtoiOfNumber(ws, sign, d, t);
  }

  // ---------------------------------------------------------------- round trip

  /** A header field a client can send on one line: a name without colon or
      newline, one space after the colon, and a value that keeps its CR LF,
      holds no other newline, does not start with a blank and fits the line
      buffer. */
  predicate SendableField(h: Header) {
    && (forall k :: 0 <= k < |h.name| ==> h.name[k] != ':')
    && NoNewline(h.name)
    && 2 <= |h.value| && h.value[|h.value| - 2..] == "\r\n"
    && NoNewline(h.value[..|h.value| - 1])
    && !IsBlank(h.value[0])
    && |h.name| + 2 + |h.value| <= LINE_BUF_SIZE - 1
  }

  /** The line a sendable field is sent on. */
  function FieldLine(h: Header): string {
    h.name + ": " + h.value
  }

  /** The header block on the wire: each field on its line, then CR LF. */
  function HeaderBlock(wire: seq<Header>): string {
    if wire == [] then "\r\n" else FieldLine(wire[0]) + HeaderBlock(wire[1..])
  }

  /** `read_header` reads a sendable field back from its line. */
  lemma SendableFieldReadsBack(h: Header, more: string)
    requires SendableField(h)
    ensures NextHeader(FieldLine(h) + more) == Ok((Some(h), more))
  {
    FieldLineText(h);
    FGetsWholeLine(h.name + ": " + h.value[..|h.value| - 1], more);
    FieldLineParses(h);
  }

  /** A sendable field's line is one newline-free text, then the newline. */
  lemma FieldLineText(h: Header)
    requires SendableField(h)
    ensures var text := h.name + ": " + h.value[..|h.value| - 1];
      && FieldLine(h) == text + "\n"
      && NoNewline(text)
      && |text| < LINE_BUF_SIZE - 1
  {
    var v := h.value[..|h.value| - 1];
    assert h.value == v + "\n";
    NoNewlineConcat(h.name, ": ");
    NoNewlineConcat(h.name + ": ", v);
  }

  lemma FieldLineParses(h: Header)
    requires SendableField(h)
    ensures ParseHeaderLine(FieldLine(h)) == Ok(Some(h))
  {
    ParseHeaderLineRoundTrip(h.name, " ", h.value);
    assert h.name + ":" + " " + h.value == FieldLine(h);
  }

  /** `read_header` sees the end of the block in a bare CR LF. */
  lemma EndLineReadsBack(more: string)
    ensures NextHeader("\r\n" + more) == Ok((None, more))
  {
    FGetsWholeLine("\r", more);
    assert "\r" + "\n" == "\r\n";
  }

  /** A header block of sendable fields reads back as those fields, in wire
      order, leaving what follows it untouched. */
  lemma {:induction false} WireHeadersRoundTrip(wire: seq<Header>, more: string)
    requires forall i :: 0 <= i < |wire| ==> SendableField(wire[i])
    ensures WireHeaders(HeaderBlock(wire) + more) == Ok((wire, more))
  {
    if wire == [] {
      EndLineReadsBack(more);
    } else {
      var h, tail := wire[0], wire[1..];
      assert forall i :: 0 <= i < |tail| ==> SendableField(tail[i]) by {
        assert forall i :: 0 <= i < |tail| ==> tail[i] == wire[i + 1];
      }
      WireHeadersRoundTrip(tail, more);
      assert [h] + tail == wire;
      WireHeadersStep(h, tail, more);
    }
  }

  /** One sendable field in front of a block that reads back. */
  lemma WireHeadersStep(h: Header, tail: seq<Header>, more: string)
    requires SendableField(h)
    requires WireHeaders(HeaderBlock(tail) + more) == Ok((tail, more))
    ensures WireHeaders(HeaderBlock([h] + tail) + more) == Ok(([h] + tail, more))
  {
    assert ([h] + tail)[1..] == tail;
    HeaderBlockCons([h] + tail, more);
    WireHeadersCons(h, HeaderBlock(tail) + more);
  }

  /** The first field line of a block, regrouped; a lemma of its own so that
      the round-trip proof does not carry the concatenation reasoning. */
  lemma HeaderBlockCons(wire: seq<Header>, more: string)
    requires wire != []
    ensures HeaderBlock(wire) + more == FieldLine(wire[0]) + (HeaderBlock(wire[1..]) + more)
  {
  }

  /** One sendable field in front of the rest of a block. */
  lemma WireHeadersCons(h: Header, rest: string)
    requires SendableField(h)
    ensures WireHeaders(FieldLine(h) + rest) == Consed(h, WireHeaders(rest))
  {
    SendableFieldReadsBack(h, rest);
  }

  /** A version token matching `HTTP/1.` ignoring case holds no newline. */
  lemma VersionPrefixNoNewline(proto: string)
    requires EqualsIgnoreCase(proto, VERSION_PREFIX)
    ensures NoNewline(proto)
  {
    forall k | 0 <= k < |proto| ensures proto[k] != '\n' {
      assert ToLower(proto[k]) == ToLower(VERSION_PREFIX[k]);
    }
  }

  /** `fgets` reads a request line that fits the buffer whole. */
  lemma RequestLineReadsBack(m: string, p: string, proto: string, n: nat, more: string)
    requires NoSpace(m) && NoNewline(m) && NoSpace(p) && NoNewline(p)
    requires EqualsIgnoreCase(proto, VERSION_PREFIX)
    requires |RequestLineText(m, p, proto, n)| <= LINE_BUF_SIZE - 1
    ensures RequestLineFrom(RequestLineText(m, p, proto, n) + more)
         == Ok((RequestLine(UpperAscii(m), p, n), more))
  {
    var digits := NatToDecimal(n);
    var text := m + " " + p + " " + proto + digits + "\r";
    assert RequestLineText(m, p, proto, n) + more == text + "\n" + more;
    VersionPrefixNoNewline(proto);
    NoNewlineConcat(m, " ");
    NoNewlineConcat(m + " ", p);
    NoNewlineConcat(m + " " + p, " ");
    NoNewlineConcat(m + " " + p + " ", proto);
    NoNewlineConcat(m + " " + p + " " + proto, digits);
    NoNewlineConcat(m + " " + p + " " + proto + digits, "\r");
    FGetsWholeLine(text, more);
    assert text + "\n" == RequestLineText(m, p, proto, n);
    RequestLineRoundTrip(m, p, proto, n);
  }

  /** The whole request read back: a request line, a header block of
      sendable fields whose last `Content-Length` (if any) announces the body's
      size, then the body, parses to the upper-cased method, the verbatim path,
      the minor version, the fields in reversed order and that body; whatever
      follows is left unread. */
  lemma ParseRequestRoundTrip(m: string, p: string, proto: string, n: nat,
                              wire: seq<Header>, body: string, rest: string)
    requires NoSpace(m) && NoNewline(m) && NoSpace(p) && NoNewline(p)
    requires EqualsIgnoreCase(proto, VERSION_PREFIX)
    requires |RequestLineText(m, p, proto, n)| <= LINE_BUF_SIZE - 1
    requires forall i :: 0 <= i < |wire| ==> SendableField(wire[i])
    requires |body| <= MAX_REQUEST_BODY_LENGTH
    requires LastOnWire(wire, "Content-Length") == Some(NatToDecimal(|body|) + "\r\n")
          || (body == [] && LastOnWire(wire, "Content-Length").None?)
    ensures ParseRequest(RequestLineText(m, p, proto, n) + HeaderBlock(wire) + body + rest)
         == Ok((Request(n, UpperAscii(m), p, Reverse(wire), if body == [] then None else Some(body), |body|), rest))
  {
    var line := RequestLineText(m, p, proto, n);
    var afterLine := HeaderBlock(wire) + (body + rest);
    ConcatAssoc(line, HeaderBlock(wire), body, rest);
    var input := line + afterLine;
    RequestLineReadsBack(m, p, proto, n, afterLine);
    assert RequestLineFrom(input) == Ok((RequestLine(UpperAscii(m), p, n), afterLine));
    HeaderBlockReadsBack(wire, body + rest);
    assert ReadHeaders(afterLine, []) == Ok((Reverse(wire), body + rest));
    ContentLengthAnnounces(wire, body);
    assert ContentLengthOf(Reverse(wire)) == Ok(|body|);
    BodyReadsBack(body, rest);
    assert ReadBody(|body|, body + rest) == Ok((if body == [] then None else Some(body), rest));
  }

  /** Regrouping the four parts of a request text, kept apart from the
      round-trip proof to keep its proof obligation small. */
  lemma ConcatAssoc(a: string, b: string, c: string, d: string)
    ensures a + b + c + d == a + (b + (c + d))
  {
  }

  /** The body step reads an announced body of at most 1 MiB exactly. */
  lemma BodyReadsBack(body: string, rest: string)
    requires |body| <= MAX_REQUEST_BODY_LENGTH
    ensures ReadBody(|body|, body + rest) == Ok((if body == [] then None else Some(body), rest))
  {
    assert (body + rest)[..|body|] == body && (body + rest)[|body|..] == rest;
  }

  /** The loop of `readreq` turns a block of sendable fields into the
      reversed store. */
  lemma HeaderBlockReadsBack(wire: seq<Header>, more: string)
    requires forall i :: 0 <= i < |wire| ==> SendableField(wire[i])
    ensures ReadHeaders(HeaderBlock(wire) + more, []) == Ok((Reverse(wire), more))
  {
    WireHeadersRoundTrip(wire, more);
    ReadHeadersReversesWire(HeaderBlock(wire) + more, []);
    assert Reverse(wire) + [] == Reverse(wire);
  }

  /** The last `Content-Length` on the wire decides the body length. */
  lemma ContentLengthAnnounces(wire: seq<Header>, body: string)
    requires LastOnWire(wire, "Content-Length") == Some(NatToDecimal(|body|) + "\r\n")
          || (body == [] && LastOnWire(wire, "Content-Length").None?)
    ensures ContentLengthOf(Reverse(wire)) == Ok(|body|)
  {
    LookupIsLastOnWire(wire, "Content-Length");
    if LastOnWire(wire, "Content-Length").Some? {
      AtoiOfDecimal(|body|, "\r\n");
    }
  }

  // ---------------------------------------------------------------- the C side

  /** `upcase`: upper-case a character buffer in place. */
  method Upcase(a: array<char>)
    modifies a
    ensures a[..] == UpperAscii(old(a[..]))
  {
    var i := 0;
    while i < a.Length
      invariant 0 <= i <= a.Length
      invariant forall k :: 0 <= k < i ==> a[k] == ToUpper(old(a[k]))
      invariant forall k :: i <= k < a.Length ==> a[k] == old(a[k])
    {
      a[i] := ToUpper(a[i]);
      i := i + 1;
    }
  }

  /** `manage_memory`, `strcpy` and `upcase` of the method field: a fresh
      buffer holding the text, upper-cased in place. */
  method UpcasedCopy(text: string) returns (s: string)
    ensures s == UpperAscii(text)
  {
    var buf := new char[|text|](k requires 0 <= k < |text| => text[k]);
    assert buf[..] == text;
    Upcase(buf);
    s := buf[..];
  }

  /** `read_header`: one header line from the stream. */
  method ReadHeader(stream: InputStream) returns (r: Result<Option<Header>>)
    modifies stream
    ensures var spec := NextHeader(old(stream.rest));
      && (r.Fail? <==> spec.Fail?)
      && (r.Fail? ==> r.error == spec.error)
      && (r.Ok? ==> r.value == spec.value.0 && stream.rest == spec.value.1)
  {
    var buf := stream.GetLine();
    if buf.None? {
      return Fail(HeaderReadFailed);
    }
    var line := buf.value;
    if IsEndOfHeaders(line) {
      return Ok(None);
    }
    var colon := SplitAt(line, ':');
    if colon.None? {
      return Fail(HeaderSyntax(line));
    }
    var (name, p) := colon.value;
    p := SkipBlanks(p);
    return Ok(Some(Header(name, p)));
  }

  /** A `struct HTTPreq`, filled field by field as the request is read. */
  class HttpRequest {
    var protocolMinorVersion: int
    var methodName: string
    var path: string
    var headers: seq<Header>
    var body: Option<string>
    var length: nat

    constructor ()
      ensures methodName == [] && path == [] && headers == [] && body.None? && length == 0
    {
      protocolMinorVersion, methodName, path := 0, [], [];
      headers, body, length := [], None, 0;
    }

    /** The request as a value. */
    function Snapshot(): Request
      reads this
    {
      Request(protocolMinorVersion, methodName, path, headers, body, length)
    }

    /** `readreq_line`: read the request line into the method, path and minor
        version fields. */
    method ReadRequestLine(stream: InputStream) returns (r: Result<()>)
      modifies this, stream
      ensures var spec := RequestLineFrom(old(stream.rest));
        && (r.Fail? <==> spec.Fail?)
        && (r.Fail? ==> r.error == spec.error)
        && (r.Ok? ==>
              && methodName == spec.value.0.methodName
              && path == spec.value.0.path
              && protocolMinorVersion == spec.value.0.minor
              && stream.rest == spec.value.1)
      ensures headers == old(headers) && body == old(body) && length == old(length)
    {
      ghost var input := stream.rest;
      var buf := stream.GetLine();
      if buf.None? {
        return Fail(NoRequestLine);
      }
      assert FGets(input) == Some((buf.value, stream.rest));
      r := SplitRequestLine(buf.value);
    }

    /** The splitting half of `readreq_line`: the method up to the first
        space, upper-cased; the path up to the next; then `HTTP/1.` in any
        case and the minor version. */
    method SplitRequestLine(line: string) returns (r: Result<()>)
      modifies this
      ensures var spec := ParseRequestLine(line);
        && (r.Fail? <==> spec.Fail?)
        && (r.Fail? ==> r.error == spec.error)
        && (r.Ok? ==>
              && methodName == spec.value.methodName
              && path == spec.value.path
              && protocolMinorVersion == spec.value.minor)
      ensures headers == old(headers) && body == old(body) && length == old(length)
    {
      var sp := SplitAt(line, ' ');
      if sp.None? {
        return Fail(RequestLineSyntax(1, line));
      }
      var (text, rest) := sp.value;
      methodName := UpcasedCopy(text);
      sp := SplitAt(rest, ' ');
      if sp.None? {
        return Fail(RequestLineSyntax(2, text));
      }
      var version;
      path, version := sp.value.0, sp.value.1;
      if !HasPrefixIgnoreCase(version, VERSION_PREFIX) {
        return Fail(RequestLineSyntax(3, text));
      }
      protocolMinorVersion := Atoi(version[|VERSION_PREFIX|..]);
      return Ok(());
    }

    /** `lookup_header`: walk the store from its head. */
    method LookupHeader(name: string) returns (v: Option<string>)
      ensures v == Lookup(headers, name)
    {
      var i := 0;
      while i < |headers|
        invariant 0 <= i <= |headers|
        invariant Lookup(headers[i..], name) == Lookup(headers, name)
      {
        if EqualsIgnoreCase(headers[i].name, name) {
          return Some(headers[i].value);
        }
        assert headers[i..][1..] == headers[i + 1..];
        i := i + 1;
      }
      return None;
    }

    /** `content_length`. */
    method ContentLength() returns (r: Result<nat>)
      ensures r == ContentLengthOf(headers)
    {
      var val := LookupHeader("Content-Length");
      if val.None? {
        return Ok(0);
      }
      var len := Atoi(val.value);
      if len < 0 {
        return Fail(NegativeContentLength);
      }
      return Ok(len);
    }

    /** The body part of `readreq`: nothing for length 0, otherwise one
        `fread` of exactly `len` octets, fatal when the length is over 1 MiB
        or the input ends first. */
    method ReadEntityBody(stream: InputStream, len: nat) returns (r: Result<()>)
      modifies this, stream
      ensures var spec := ReadBody(len, old(stream.rest));
        && (r.Fail? <==> spec.Fail?)
        && (r.Fail? ==> r.error == spec.error)
        && (r.Ok? ==> body == spec.value.0 && stream.rest == spec.value.1)
      ensures length == len
      ensures methodName == old(methodName) && path == old(path)
      ensures protocolMinorVersion == old(protocolMinorVersion) && headers == old(headers)
    {
      length := len;
      if length != 0 {
        if length > MAX_REQUEST_BODY_LENGTH {
          return Fail(BodyTooLarge);
        }
        var item := stream.ReadItem(length);
        if item.None? {
          return Fail(BodyReadFailed);
        }
        body := item;
      } else {
        body := None;
      }
      return Ok(());
    }

    /** The header loop of `readreq`: start from an empty store and prepend
        every field `read_header` returns until the end line. */
    method ReadHeaderFields(stream: InputStream) returns (r: Result<()>)
      modifies this, stream
      ensures var spec := ReadHeaders(old(stream.rest), []);
        && (r.Fail? <==> spec.Fail?)
        && (r.Fail? ==> r.error == spec.error)
        && (r.Ok? ==> headers == spec.value.0 && stream.rest == spec.value.1)
      ensures methodName == old(methodName) && path == old(path)
      ensures protocolMinorVersion == old(protocolMinorVersion) && body == old(body) && length == old(length)
    {
      headers := [];
      ghost var start := stream.rest;
      while true
        invariant ReadHeaders(stream.rest, headers) == ReadHeaders(start, [])
        invariant methodName == old(methodName) && path == old(path)
        invariant protocolMinorVersion == old(protocolMinorVersion) && body == old(body) && length == old(length)
        decreases |stream.rest|
      {
        var h := ReadHeader(stream);
        match h
        case Fail(e) =>
          return Fail(e);
        case Ok(None) =>
          return Ok(());
        case Ok(Some(field)) =>
          headers := [field] + headers;
      }
    }
  }

  /** `readreq`: the request line, then header lines prepended to the store
      until the end line, then the body. */
  method ReadRequest(stream: InputStream) returns (r: Result<HttpRequest>)
    modifies stream
    ensures var spec := ParseRequest(old(stream.rest));
      && (r.Fail? <==> spec.Fail?)
      && (r.Fail? ==> r.error == spec.error)
      && (r.Ok? ==> fresh(r.value) && r.value.Snapshot() == spec.value.0 && stream.rest == spec.value.1)
  {
    var req := new HttpRequest();
    var status := req.ReadRequestLine(stream);
    if status.Fail? {
      return Fail(status.error);
    }
    var fields := req.ReadHeaderFields(stream);
    if fields.Fail? {
      return Fail(fields.error);
    }
    var len := req.ContentLength();
    if len.Fail? {
      return Fail(len.error);
    }
    var body := req.ReadEntityBody(stream, len.value);
    if body.Fail? {
      return Fail(body.error);
    }
    return Ok(req);
  }
}
