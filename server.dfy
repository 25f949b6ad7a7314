/// `service`: read the one request from the input stream, then answer it on
/// the output stream. A fatal error while reading ends the process before a
/// single octet of response is written.
module Server {
  import opened Common
  import opened Ascii
  import opened Streams
  import opened Headers
  import opened Files
  import opened Requests
  import opened Responses

  /** What the process writes for the input `input`. */
  function Serve(input: string, docroot: string, fs: FileSystem, date: string): (r: Emission)
    ensures r.text == [] <==> ParseRequest(input).Fail?
    ensures ParseRequest(input).Fail? ==> r.fatal == Some(ParseRequest(input).error)
  {
    match ParseRequest(input)
    case Fail(e) => Emission([], Some(e))
    case Ok((req, _)) =>
      RespondWrites(req, docroot, fs, date);
      Respond(req, docroot, fs, date)
  }

  /** `service`. */
  method Service(stream: InputStream, out: OutputStream, docroot: string, fs: FileSystem, date: string)
    returns (fatal: Option<Fatal>)
    modifies stream, out
    ensures var e := Serve(old(stream.rest), docroot, fs, date);
      out.written == old(out.written) + e.text && fatal == e.fatal
  {
    var r := ReadRequest(stream);
    if r.Fail? {
      return Some(r.error);
    }
    fatal := RespondTo(r.value, out, docroot, fs, date);
  }

  /** A framed response: header lines up to an empty line, five or six of
      them, the first one of the four HTTP/1.0 status lines the server
      knows. */
  predicate Framed(text: string) {
    match ParseHead(text)
    case None => false
    case Some((head, _)) =>
      && (|head| == 5 || |head| == 6)
      && head[0] in {"HTTP/1.0 200 OK", "HTTP/1.0 404 Not Found",
                     "HTTP/1.0 405 Method Not Allowed", "HTTP/1.0 501 Not Implemented"}
  }

  /** Every response, whatever the request, is framed; it is complete unless
      it is the 200 header block of a file that cannot be opened, after which
      the process aborts. */
  lemma RequestIsAnswered(req: Request, docroot: string, fs: FileSystem, date: string)
    requires NoCR(date)
    ensures Framed(Respond(req, docroot, fs, date).text)
    ensures var p := BuildFilePath(docroot, req.path);
      (Respond(req, docroot, fs, date).fatal.Some? <==>
         req.methodName == "GET" && p in fs && fs[p].Regular? && !fs[p].readable)
  {
    RespondAborts(req, docroot, fs, date);
    if req.methodName == "GET" || req.methodName == "HEAD" {
      FileRequestIsAnswered(req, docroot, fs, date);
    } else if req.methodName == "POST" {
      PostIsNotAllowed(req, docroot, fs, date);
    } else {
      OtherMethodIsNotImplemented(req, docroot, fs, date);
    }
  }

  lemma FileRequestIsAnswered(req: Request, docroot: string, fs: FileSystem, date: string)
    requires NoCR(date)
    requires req.methodName == "GET" || req.methodName == "HEAD"
    ensures Framed(Respond(req, docroot, fs, date).text)
  {
    var path := BuildFilePath(docroot, req.path);
    if path in fs && fs[path].Regular? {
      if req.methodName == "HEAD" {
        HeadSendsHeadersOnly(req, docroot, fs, date);
      } else if fs[path].readable {
        GetServesFile(req, docroot, fs, date);
      } else {
        UnopenableFileAborts(req, docroot, fs, date);
      }
    } else {
      MissingFileIsNotFound(req, docroot, fs, date);
    }
  }

  /** End to end: a well-formed `GET` request (its method in any case, no
      body) for a readable regular file is answered with the 200 header block
      announcing the file's size, then exactly the file's octets. */
  lemma GetRequestIsServed(m: string, p: string, proto: string, n: nat,
                                              wire: seq<Header>, rest: string,
                                              docroot: string, fs: FileSystem, date: string)
    requires NoSpace(m) && NoNewline(m) && NoSpace(p) && NoNewline(p)
    requires UpperAscii(m) == "GET"
    requires EqualsIgnoreCase(proto, VERSION_PREFIX)
    requires |RequestLineText(m, p, proto, n)| <= LINE_BUF_SIZE - 1
    requires forall i :: 0 <= i < |wire| ==> SendableField(wire[i])
    requires LastOnWire(wire, "Content-Length").None?
    requires NoCR(date)
    requires BuildFilePath(docroot, p) in fs
    requires fs[BuildFilePath(docroot, p)].Regular? && fs[BuildFilePath(docroot, p)].readable
    ensures var e := Serve(RequestLineText(m, p, proto, n) + HeaderBlock(wire) + rest, docroot, fs, date);
      var data := fs[BuildFilePath(docroot, p)].data;
      && e.fatal.None?
      && ParseHead(e.text) == Some((ExpectedFileHead(|data|, date), data))
  {
    ParseRequestRoundTrip(m, p, proto, n, wire, [], rest);
    assert RequestLineText(m, p, proto, n) + HeaderBlock(wire) + [] + rest
        == RequestLineText(m, p, proto, n) + HeaderBlock(wire) + rest;
    var req := Request(n, UpperAscii(m), p, Reverse(wire), None, 0);
    GetServesFile(req, docroot, fs, date);
  }
}
