/// Writing the one response: the header block every response starts with
/// (`output_common_header`), the file response with its block-copy loop
/// (`file_response`), the fixed 404, 405 and 501 responses, and the method
/// switch of `respond_to`. Every `fprintf` of the server writes one line ended
/// by CR LF, so the text of a response is a list of lines, an empty line, and
/// a body.
module Responses {
  import opened Common
  import opened Ascii
  import opened Streams
  import opened Files
  import opened Requests

  const CRLF: string := "\r\n"

  /** Lines written one after the other, each followed by CR LF. */
  function Lines(ls: seq<string>): string {
    if ls == [] then [] else ls[0] + CRLF + Lines(ls[1..])
  }

  lemma {:induction false} LinesAppend(a: seq<string>, b: seq<string>)
    ensures Lines(a + b) == Lines(a) + Lines(b)
  {
    if a != [] {
      assert (a + b)[1..] == a[1..] + b;
      LinesAppend(a[1..], b);
    } else {
      assert a + b == b;
    }
  }

  /** Writing one more line extends the written lines by it. */
  lemma SendLine(start: string, sent: seq<string>, l: string)
    ensures start + Lines(sent) + (l + CRLF) == start + Lines(sent + [l])
  {
    LinesAppend(sent, [l]);
    assert Lines([l]) == l + CRLF + Lines([]);
  }

  /** A message on the wire: header lines, the empty line, then the body. */
  function Message(head: seq<string>, body: string): string {
    Lines(head + [""]) + body
  }

  // ---------------------------------------------------------------- fixed texts

  function StatusLine(status: string): string {
    "HTTP/1." + NatToDecimal(HTTP_MINOR_VERSION) + " " + status
  }

  /** `output_common_header`: status line, date, server and connection. */
  function CommonHeaderLines(status: string, date: string): seq<string> {
    [StatusLine(status), "Date: " + date, "Server: " + SERVER_NAME + "/" + SERVER_VERSION, "Connection: close"]
  }

  function FileHeadLines(info: FileInfo, date: string): seq<string> {
    CommonHeaderLines("200 OK", date)
      + ["Content-Length: " + NatToDecimal(info.size), "Content-Type: " + GuessContentType(info)]
  }

  function NotFoundHeadLines(date: string): seq<string> {
    CommonHeaderLines("404 Not Found", date) + ["Content-Type: text/html"]
  }

  const NOT_FOUND_BODY: seq<string> :=
    ["<html>", "<header><title>Not Found</title></header>", "<body><p>File not found</p></body>", "</html>"]

  function MethodNotAllowedHeadLines(date: string): seq<string> {
    CommonHeaderLines("405 Method Not Allowed", date) + ["Content-Type: text/html"]
  }

  function MethodNotAllowedBody(methodName: string): seq<string> {
    ["<html>", "<header>", "<title>405 Method Not Allowed</title>", "<header>", "<body>",
     "<p>The request method " + methodName + " is not allowed</p>", "</body>", "</html>"]
  }

  /** The 501 response spells its content-type header `Content-type`. */
  function NotImplementedHeadLines(date: string): seq<string> {
    CommonHeaderLines("501 Not Implemented", date) + ["Content-type: text/html"]
  }

  /** The 501 page, typos of the C source included. */
  function NotImplementedBody(methodName: string): seq<string> {
    ["<html>", "<header>", "<title>501 Not Implemeted</title>", "<header>", "<body>",
     "<p>The request method " + methodName + " is not implemented</>", "</body>", "</html>"]
  }

  // ---------------------------------------------------------------- responses

  /** The octets written before the process ends, and the fatal error that
      ended it early, if one did. */
  datatype Emission = Emission(text: string, fatal: Option<Fatal>)

  /** `not_found`: no page for `HEAD`. */
  function NotFoundResponse(methodName: string, date: string): string {
    Message(NotFoundHeadLines(date), if methodName != "HEAD" then Lines(NOT_FOUND_BODY) else [])
  }

  /** `method_not_allowed`: the page is always sent. */
  function MethodNotAllowedResponse(methodName: string, date: string): string {
    Message(MethodNotAllowedHeadLines(date), Lines(MethodNotAllowedBody(methodName)))
  }

  /** `not_implemented`: the page is always sent. */
  function NotImplementedResponse(methodName: string, date: string): string {
    Message(NotImplementedHeadLines(date), Lines(NotImplementedBody(methodName)))
  }

  /** `file_response`: 404 unless the path is a regular file; otherwise the
      200 header block, then (except for `HEAD`) the file's octets, or an
      abort after the headers when the file cannot be opened. */
  function FileResponseOf(req: Request, docroot: string, fs: FileSystem, date: string): Emission {
    var info := GetFileInfo(docroot, req.path, fs);
    if !info.ok then Emission(NotFoundResponse(req.methodName, date), None)
    else
      var head := Message(FileHeadLines(info, date), []);
      if req.methodName == "HEAD" then Emission(head, None)
      else if !fs[info.path].readable then Emission(head, Some(FileOpenFailed(info.path)))
      else Emission(head + fs[info.path].data, None)
  }

  /** `respond_to`: the method alone picks the response. */
  function Respond(req: Request, docroot: string, fs: FileSystem, date: string): Emission {
    if req.methodName == "GET" then FileResponseOf(req, docroot, fs, date)
    else if req.methodName == "HEAD" then FileResponseOf(req, docroot, fs, date)
    else if req.methodName == "POST" then Emission(MethodNotAllowedResponse(req.methodName, date), None)
    else Emission(NotImplementedResponse(req.methodName, date), None)
  }

  /** Every message ends its head with at least the empty line. */
  lemma MessageNotEmpty(head: seq<string>, body: string)
    ensures |Message(head, body)| >= |CRLF|
  {
    assert (head + [""])[0] + CRLF + Lines((head + [""])[1..]) == Lines(head + [""]);
  }

  /** Whatever the request, something is written. */
  lemma RespondWrites(req: Request, docroot: string, fs: FileSystem, date: string)
    ensures |Respond(req, docroot, fs, date).text| >= |CRLF|
  {
    var info := GetFileInfo(docroot, req.path, fs);
    MessageNotEmpty(FileHeadLines(info, date), []);
    MessageNotEmpty(NotFoundHeadLines(date), if req.methodName != "HEAD" then Lines(NOT_FOUND_BODY) else []);
    MessageNotEmpty(MethodNotAllowedHeadLines(date), Lines(MethodNotAllowedBody(req.methodName)));
    MessageNotEmpty(NotImplementedHeadLines(date), Lines(NotImplementedBody(req.methodName)));
  }

  /** The one response that ends in an abort: `GET` of a regular file that
      cannot be opened, after its 200 header block has gone out. */
  lemma RespondAborts(req: Request, docroot: string, fs: FileSystem, date: string)
    ensures var p := BuildFilePath(docroot, req.path);
      (Respond(req, docroot, fs, date).fatal.Some? <==>
         req.methodName == "GET" && p in fs && fs[p].Regular? && !fs[p].readable)
    ensures var p := BuildFilePath(docroot, req.path);
      Respond(req, docroot, fs, date).fatal.Some? ==>
        Respond(req, docroot, fs, date).fatal == Some(FileOpenFailed(p))
  {
  }

  // ---------------------------------------------------------------- the client's view

  predicate NoCR(s: string) {
    forall k :: 0 <= k < |s| ==> s[k] != '\r'
  }

  lemma NoCRConcat(a: string, b: string)
    requires NoCR(a) && NoCR(b)
    ensures NoCR(a + b)
  {
    assert forall k :: |a| <= k < |a + b| ==> (a + b)[k] == b[k - |a|];
  }

  /** A header line a client can read back: not empty, no CR. */
  predicate IsHeadLine(l: string) {
    l != [] && NoCR(l)
  }

  /** The text up to the first CR LF and what follows it. */
  function NextLine(s: string): (r: Option<(string, string)>)
    ensures r.Some? ==> s == r.value.0 + CRLF + r.value.1
  {
    if |s| < 2 then None
    else if s[0] == '\r' && s[1] == '\n' then Some(([], s[2..]))
    else match NextLine(s[1..])
      case None => None
      case Some((l, rest)) =>
        assert s == [s[0]] + s[1..];
        Some(([s[0]] + l, rest))
  }

  /** How a client splits a response (section 2.1 of RFC 9112): lines ended by
      CR LF up to the first empty one, then the body. */
  function ParseHead(s: string): Option<(seq<string>, string)>
    decreases |s|
  {
    match NextLine(s)
    case None => None
    case Some((l, rest)) =>
      if l == [] then Some(([], rest))
      else match ParseHead(rest)
        case None => None
        case Some((ls, body)) => Some(([l] + ls, body))
  }

  lemma {:induction false} NextLineOf(l: string, rest: string)
    requires NoCR(l)
    ensures NextLine(l + CRLF + rest) == Some((l, rest))
  {
    if l != [] {
      assert (l + CRLF + rest)[1..] == l[1..] + CRLF + rest;
      NextLineOf(l[1..], rest);
      assert [l[0]] + l[1..] == l;
    } else {
      assert (l + CRLF + rest)[2..] == rest;
    }
  }

  /** Every message of readable header lines splits back into those lines and
      its body: exactly one empty line separates them. */
  lemma {:induction false} MessageReadsBack(head: seq<string>, body: string)
    requires forall i :: 0 <= i < |head| ==> IsHeadLine(head[i])
    ensures ParseHead(Message(head, body)) == Some((head, body))
  {
    if head == [] {
      assert head + [""] == [""];
      assert Lines([""]) == "" + CRLF + Lines([]);
      assert Message(head, body) == "" + CRLF + body;
      NextLineOf("", body);
    } else {
      var more := Message(head[1..], body);
      assert (head + [""])[1..] == head[1..] + [""];
      assert Message(head, body) == head[0] + CRLF + more;
      NextLineOf(head[0], more);
      MessageReadsBack(head[1..], body);
      assert [head[0]] + head[1..] == head;
    }
  }

  lemma CommonHeaderLinesReadable(status: string, date: string)
    requires status != [] && NoCR(status) && NoCR(date)
    ensures forall i :: 0 <= i < 4 ==> IsHeadLine(CommonHeaderLines(status, date)[i])
  {
    NoCRConcat("HTTP/1." + NatToDecimal(HTTP_MINOR_VERSION) + " ", status);
    NoCRConcat("Date: ", date);
  }

  lemma DecimalNoCR(n: nat)
    ensures NoCR(NatToDecimal(n))
  {
  }

  lemma FileHeadLinesReadable(info: FileInfo, date: string)
    requires NoCR(date)
    ensures forall i :: 0 <= i < |FileHeadLines(info, date)| ==> IsHeadLine(FileHeadLines(info, date)[i])
  {
    CommonHeaderLinesReadable("200 OK", date);
    DecimalNoCR(info.size);
    NoCRConcat("Content-Length: ", NatToDecimal(info.size));
  }

  /** The header lines of a found file, as the client reads them. */
  function ExpectedFileHead(size: nat, date: string): seq<string> {
    ["HTTP/1.0 200 OK", "Date: " + date, "Server: sysproHTTP/1.0", "Connection: close",
     "Content-Length: " + NatToDecimal(size), "Content-Type: text/plain"]
  }

  /** Minor version 0 and the server's name, written out. */
  lemma CommonHeaderLinesAre(status: string, date: string)
    ensures CommonHeaderLines(status, date)
         == ["HTTP/1.0 " + status, "Date: " + date, "Server: sysproHTTP/1.0", "Connection: close"]
  {
    assert NatToDecimal(HTTP_MINOR_VERSION) == "0";
    assert "HTTP/1." + "0" + " " == "HTTP/1.0 ";
    assert "Server: " + SERVER_NAME + "/" + SERVER_VERSION == "Server: sysproHTTP/1.0";
  }

  lemma FileHeadLinesAre(info: FileInfo, date: string)
    ensures FileHeadLines(info, date) == ExpectedFileHead(info.size, date)
  {
    CommonHeaderLinesAre("200 OK", date);
    assert "HTTP/1.0 " + "200 OK" == "HTTP/1.0 200 OK";
    assert "Content-Type: " + GuessContentType(info) == "Content-Type: text/plain";
  }

  /** `GET` of a readable regular file: the 200 header block announcing the
      file's size, then exactly the file's octets; the announced length reads
      back as the body's length. */
  lemma GetServesFile(req: Request, docroot: string, fs: FileSystem, date: string)
    requires NoCR(date)
    requires req.methodName == "GET"
    requires BuildFilePath(docroot, req.path) in fs
    requires fs[BuildFilePath(docroot, req.path)].Regular? && fs[BuildFilePath(docroot, req.path)].readable
    ensures var e := Respond(req, docroot, fs, date);
      var data := fs[BuildFilePath(docroot, req.path)].data;
      && e.fatal.None?
      && ParseHead(e.text) == Some((ExpectedFileHead(|data|, date), data))
      && Atoi(ExpectedFileHead(|data|, date)[4][|"Content-Length: "|..]) == |data|
  {
    var info := GetFileInfo(docroot, req.path, fs);
    var data := fs[info.path].data;
    FileHeadLinesReadable(info, date);
    FileHeadLinesAre(info, date);
    MessageReadsBack(FileHeadLines(info, date), data);
    assert Message(FileHeadLines(info, date), []) + data == Message(FileHeadLines(info, date), data);
    assert ExpectedFileHead(|data|, date)[4][|"Content-Length: "|..] == NatToDecimal(|data|) + [];
    AtoiOfDecimal(|data|, []);
  }

  /** `HEAD` of a regular file: the very header block `GET` sends, and no
      body octet, whether or not the file could be opened. */
  lemma HeadSendsHeadersOnly(req: Request, docroot: string, fs: FileSystem, date: string)
    requires NoCR(date)
    requires req.methodName == "HEAD"
    requires BuildFilePath(docroot, req.path) in fs && fs[BuildFilePath(docroot, req.path)].Regular?
    ensures var e := Respond(req, docroot, fs, date);
      && e.fatal.None?
      && ParseHead(e.text) == Some((ExpectedFileHead(|fs[BuildFilePath(docroot, req.path)].data|, date), []))
  {
    var info := GetFileInfo(docroot, req.path, fs);
    FileHeadLinesReadable(info, date);
    FileHeadLinesAre(info, date);
    MessageReadsBack(FileHeadLines(info, date), []);
  }

  /** `GET` of a regular file that cannot be opened: the 200 header block has
      gone out already, and the process aborts before any body octet. */
  lemma UnopenableFileAborts(req: Request, docroot: string, fs: FileSystem, date: string)
    requires NoCR(date)
    requires req.methodName == "GET"
    requires BuildFilePath(docroot, req.path) in fs
    requires fs[BuildFilePath(docroot, req.path)].Regular? && !fs[BuildFilePath(docroot, req.path)].readable
    ensures var e := Respond(req, docroot, fs, date);
      && e.fatal == Some(FileOpenFailed(BuildFilePath(docroot, req.path)))
      && ParseHead(e.text) == Some((ExpectedFileHead(|fs[BuildFilePath(docroot, req.path)].data|, date), []))
  {
    var info := GetFileInfo(docroot, req.path, fs);
    FileHeadLinesReadable(info, date);
    FileHeadLinesAre(info, date);
    MessageReadsBack(FileHeadLines(info, date), []);
  }

  /** The fixed error responses: the common lines, one content-type line,
      the empty line, then the page. */
  lemma FixedHeadReadsBack(status: string, statusLine: string, ct: string, date: string, body: string)
    requires status != [] && NoCR(status) && NoCR(date) && IsHeadLine(ct)
    requires statusLine == "HTTP/1.0 " + status
    ensures ParseHead(Message(CommonHeaderLines(status, date) + [ct], body))
         == Some(([statusLine, "Date: " + date, "Server: sysproHTTP/1.0", "Connection: close", ct], body))
  {
    var head := CommonHeaderLines(status, date) + [ct];
    CommonHeaderLinesReadable(status, date);
    assert forall i :: 0 <= i < |head| ==> IsHeadLine(head[i]);
    MessageReadsBack(head, body);
    CommonHeaderLinesAre(status, date);
    assert head == [statusLine, "Date: " + date, "Server: sysproHTTP/1.0", "Connection: close", ct];
  }

  /** The three error status lines, written out: each literal equality in a
      lemma of its own keeps it out of the read-back proofs, where it would
      otherwise make the solver expand every string literal at once. */
  lemma NotFoundStatusLine()
    ensures "HTTP/1.0 " + "404 Not Found" == "HTTP/1.0 404 Not Found"
  {
  }

  lemma MethodNotAllowedStatusLine()
    ensures "HTTP/1.0 " + "405 Method Not Allowed" == "HTTP/1.0 405 Method Not Allowed"
  {
  }

  lemma NotImplementedStatusLine()
    ensures "HTTP/1.0 " + "501 Not Implemented" == "HTTP/1.0 501 Not Implemented"
  {
  }

  lemma NotFoundReadsBack(methodName: string, date: string)
    requires NoCR(date)
    ensures ParseHead(NotFoundResponse(methodName, date)) == Some((
              ["HTTP/1.0 404 Not Found", "Date: " + date, "Server: sysproHTTP/1.0", "Connection: close",
               "Content-Type: text/html"],
              if methodName == "HEAD" then [] else Lines(NOT_FOUND_BODY)))
  {
    NotFoundStatusLine();
    FixedHeadReadsBack("404 Not Found", "HTTP/1.0 404 Not Found", "Content-Type: text/html", date,
                       if methodName == "HEAD" then [] else Lines(NOT_FOUND_BODY));
  }

  lemma MethodNotAllowedReadsBack(methodName: string, date: string)
    requires NoCR(date)
    ensures ParseHead(MethodNotAllowedResponse(methodName, date)) == Some((
              ["HTTP/1.0 405 Method Not Allowed", "Date: " + date, "Server: sysproHTTP/1.0",
               "Connection: close", "Content-Type: text/html"],
              Lines(MethodNotAllowedBody(methodName))))
  {
    MethodNotAllowedStatusLine();
    FixedHeadReadsBack("405 Method Not Allowed", "HTTP/1.0 405 Method Not Allowed", "Content-Type: text/html", date,
                       Lines(MethodNotAllowedBody(methodName)));
  }

  lemma NotImplementedReadsBack(methodName: string, date: string)
    requires NoCR(date)
    ensures ParseHead(NotImplementedResponse(methodName, date)) == Some((
              ["HTTP/1.0 501 Not Implemented", "Date: " + date, "Server: sysproHTTP/1.0",
               "Connection: close", "Content-type: text/html"],
              Lines(NotImplementedBody(methodName))))
  {
    NotImplementedStatusLine();
    FixedHeadReadsBack("501 Not Implemented", "HTTP/1.0 501 Not Implemented", "Content-type: text/html", date,
                       Lines(NotImplementedBody(methodName)));
  }

  /** `GET` or `HEAD` of a path that does not exist or is not a regular file:
      404, with the page exactly when the method is not `HEAD`. */
  lemma MissingFileIsNotFound(req: Request, docroot: string, fs: FileSystem, date: string)
    requires NoCR(date)
    requires req.methodName == "GET" || req.methodName == "HEAD"
    requires BuildFilePath(docroot, req.path) !in fs || fs[BuildFilePath(docroot, req.path)].Special?
    ensures var e := Respond(req, docroot, fs, date);
      && e.fatal.None?
      && ParseHead(e.text) == Some((
           ["HTTP/1.0 404 Not Found", "Date: " + date, "Server: sysproHTTP/1.0", "Connection: close",
            "Content-Type: text/html"],
           if req.methodName == "HEAD" then [] else Lines(NOT_FOUND_BODY)))
  {
    assert Respond(req, docroot, fs, date) == Emission(NotFoundResponse(req.methodName, date), None);
    NotFoundReadsBack(req.methodName, date);
  }

  /** `POST`, whatever the path: 405 and its page. */
  lemma PostIsNotAllowed(req: Request, docroot: string, fs: FileSystem, date: string)
    requires NoCR(date)
    requires req.methodName == "POST"
    ensures var e := Respond(req, docroot, fs, date);
      && e.fatal.None?
      && ParseHead(e.text) == Some((
           ["HTTP/1.0 405 Method Not Allowed", "Date: " + date, "Server: sysproHTTP/1.0",
            "Connection: close", "Content-Type: text/html"],
           Lines(MethodNotAllowedBody("POST"))))
  {
    assert Respond(req, docroot, fs, date) == Emission(MethodNotAllowedResponse("POST", date), None);
    MethodNotAllowedReadsBack("POST", date);
  }

  /** Any method other than `GET`, `HEAD` and `POST`: 501 and its page,
      naming the method. */
  lemma OtherMethodIsNotImplemented(req: Request, docroot: string, fs: FileSystem, date: string)
    requires NoCR(date)
    requires req.methodName != "GET" && req.methodName != "HEAD" && req.methodName != "POST"
    ensures var e := Respond(req, docroot, fs, date);
      && e.fatal.None?
      && ParseHead(e.text) == Some((
           ["HTTP/1.0 501 Not Implemented", "Date: " + date, "Server: sysproHTTP/1.0",
            "Connection: close", "Content-type: text/html"],
           Lines(NotImplementedBody(req.methodName))))
  {
    assert Respond(req, docroot, fs, date) == Emission(NotImplementedResponse(req.methodName, date), None);
    NotImplementedReadsBack(req.methodName, date);
  }

  // ---------------------------------------------------------------- writing the response

  /** One `fprintf` of a line: the line, then CR LF. */
  method WriteLine(out: OutputStream, ghost start: string, ghost sent: seq<string>, l: string)
    requires out.written == start + Lines(sent)
    modifies out
    ensures out.written == start + Lines(sent + [l])
  {
    out.Write(l + CRLF);
    SendLine(start, sent, l);
  }

  /** `output_common_header`: the status line and the three headers every
      response carries; `date` is the formatted current time. */
  method OutputCommonHeader(out: OutputStream, status: string, date: string)
    modifies out
    ensures out.written == old(out.written) + Lines(CommonHeaderLines(status, date))
  {
    ghost var start := out.written;
    assert out.written == start + Lines([]);
    var ls := CommonHeaderLines(status, date);
    WriteLine(out, start, [], "HTTP/1." + NatToDecimal(HTTP_MINOR_VERSION) + " " + status);
    assert [] + [ls[0]] == ls[..1];
    WriteLine(out, start, ls[..1], "Date: " + date);
    assert ls[..1] + [ls[1]] == ls[..2];
    WriteLine(out, start, ls[..2], "Server: " + SERVER_NAME + "/" + SERVER_VERSION);
    assert ls[..2] + [ls[2]] == ls[..3];
    WriteLine(out, start, ls[..3], "Connection: close");
    assert ls[..3] + [ls[3]] == ls;
  }

  /** Writes `ls` line by line after what `out` holds. */
  method WriteLines(out: OutputStream, ls: seq<string>)
    modifies out
    ensures out.written == old(out.written) + Lines(ls)
  {
    ghost var start := out.written;
    assert out.written == start + Lines(ls[..0]);
    var i := 0;
    while i < |ls|
      invariant 0 <= i <= |ls|
      invariant out.written == start + Lines(ls[..i])
    {
      assert ls[..i + 1] == ls[..i] + [ls[i]];
      WriteLine(out, start, ls[..i], ls[i]);
      i := i + 1;
    }
    assert ls[..i] == ls;
  }

  /** The header block written so far followed by more header lines and the
      empty line is the message's head. */
  lemma HeadOfMessage(start: string, common: seq<string>, more: seq<string>, body: string)
    ensures start + Lines(common) + Lines(more + [""]) + body == start + Message(common + more, body)
  {
    LinesAppend(common, more + [""]);
    assert common + (more + [""]) == common + more + [""];
  }

  /** `not_found`. */
  method NotFound(req: HttpRequest, out: OutputStream, date: string)
    modifies out
    ensures out.written == old(out.written) + NotFoundResponse(req.methodName, date)
  {
    ghost var start := out.written;
    OutputCommonHeader(out, "404 Not Found", date);
    WriteLines(out, ["Content-Type: text/html", ""]);
    if req.methodName != "HEAD" {
      WriteLines(out, NOT_FOUND_BODY);
    }
    HeadOfMessage(start, CommonHeaderLines("404 Not Found", date), ["Content-Type: text/html"],
                  if req.methodName != "HEAD" then Lines(NOT_FOUND_BODY) else []);
  }

  /** `method_not_allowed`. */
  method MethodNotAllowed(req: HttpRequest, out: OutputStream, date: string)
    modifies out
    ensures out.written == old(out.written) + MethodNotAllowedResponse(req.methodName, date)
  {
    ghost var start := out.written;
    OutputCommonHeader(out, "405 Method Not Allowed", date);
    WriteLines(out, ["Content-Type: text/html", ""]);
    WriteLines(out, MethodNotAllowedBody(req.methodName));
    HeadOfMessage(start, CommonHeaderLines("405 Method Not Allowed", date), ["Content-Type: text/html"],
                  Lines(MethodNotAllowedBody(req.methodName)));
  }

  /** `not_implemented`. */
  method NotImplemented(req: HttpRequest, out: OutputStream, date: string)
    modifies out
    ensures out.written == old(out.written) + NotImplementedResponse(req.methodName, date)
  {
    ghost var start := out.written;
    OutputCommonHeader(out, "501 Not Implemented", date);
    WriteLines(out, ["Content-type: text/html", ""]);
    WriteLines(out, NotImplementedBody(req.methodName));
    HeadOfMessage(start, CommonHeaderLines("501 Not Implemented", date), ["Content-type: text/html"],
                  Lines(NotImplementedBody(req.methodName)));
  }

  /** The copy loop of `file_response`: `read` blocks of at most
      `BLOCK_BUF_SIZE` octets into one buffer and write each out, until
      `read` returns 0. The blocks written make up the file, and every block
      but the last is a full buffer. */
  method CopyFile(fd: FileDescriptor, out: OutputStream) returns (ghost blocks: seq<string>)
    requires fd.offset == 0
    modifies fd, out
    ensures out.written == old(out.written) + fd.data
    ensures fd.offset == |fd.data|
    ensures Flatten(blocks) == fd.data
    ensures forall i :: 0 <= i < |blocks| ==> 0 < |blocks[i]| <= BLOCK_BUF_SIZE
    ensures forall i :: 0 <= i < |blocks| - 1 ==> |blocks[i]| == BLOCK_BUF_SIZE
  {
    ghost var start := out.written;
    var buf := new char[BLOCK_BUF_SIZE];
    blocks := [];
    while true
      invariant fd.offset <= |fd.data|
      invariant out.written == start + fd.data[..fd.offset]
      invariant Flatten(blocks) == fd.data[..fd.offset]
      invariant forall i :: 0 <= i < |blocks| ==> 0 < |blocks[i]| <= BLOCK_BUF_SIZE
      invariant forall i :: 0 <= i < |blocks| - 1 ==> |blocks[i]| == BLOCK_BUF_SIZE
      invariant blocks == [] || |blocks[|blocks| - 1]| == BLOCK_BUF_SIZE || fd.offset == |fd.data|
      decreases |fd.data| - fd.offset
    {
      ghost var before := fd.offset;
      var n := fd.Read(buf);
      if n == 0 {
        break;
      }
      out.Write(buf[..n]);
      assert fd.data[..fd.offset] == fd.data[..before] + fd.data[before..fd.offset];
      ghost var prev := blocks;
      blocks := prev + [buf[..n]];
      assert blocks[..|blocks| - 1] == prev;
    }
    assert fd.data[..fd.offset] == fd.data;
  }

  /** The header block of `file_response`: the common lines, the size and
      the content type, then the empty line. */
  method OutputFileHead(out: OutputStream, info: FileInfo, date: string)
    modifies out
    ensures out.written == old(out.written) + Message(FileHeadLines(info, date), [])
  {
    ghost var start := out.written;
    OutputCommonHeader(out, "200 OK", date);
    WriteLines(out, ["Content-Length: " + NatToDecimal(info.size), "Content-Type: " + GuessContentType(info), ""]);
    HeadOfMessage(start, CommonHeaderLines("200 OK", date),
                  ["Content-Length: " + NatToDecimal(info.size), "Content-Type: " + GuessContentType(info)], []);
  }

  /** `file_response`: the 404 page when the path is not a regular file;
      otherwise the 200 header block and, except for `HEAD`, the file's
      octets. An `open` failure ends the process after the headers. */
  method FileResponse(req: HttpRequest, out: OutputStream, docroot: string, fs: FileSystem, date: string)
    returns (fatal: Option<Fatal>)
    modifies out
    ensures var e := FileResponseOf(req.Snapshot(), docroot, fs, date);
      out.written == old(out.written) + e.text && fatal == e.fatal
  {
    var info := GetFileInfo(docroot, req.path, fs);
    if !info.ok {
      NotFound(req, out, date);
      return None;
    }
    OutputFileHead(out, info, date);
    if req.methodName != "HEAD" {
      if !fs[info.path].readable {
        return Some(FileOpenFailed(info.path));
      }
      var fd := new FileDescriptor(fs[info.path].data);
      ghost var blocks := CopyFile(fd, out);
    }
    return None;
  }

  /** `respond_to`. */
  method RespondTo(req: HttpRequest, out: OutputStream, docroot: string, fs: FileSystem, date: string)
    returns (fatal: Option<Fatal>)
    modifies out
    ensures var e := Respond(req.Snapshot(), docroot, fs, date);
      out.written == old(out.written) + e.text && fatal == e.fatal
  {
    if req.methodName == "GET" {
      fatal := FileResponse(req, out, docroot, fs, date);
    } else if req.methodName == "HEAD" {
      fatal := FileResponse(req, out, docroot, fs, date);
    } else if req.methodName == "POST" {
      MethodNotAllowed(req, out, date);
      fatal := None;
    } else {
      NotImplemented(req, out, date);
      fatal := None;
    }
  }
}
