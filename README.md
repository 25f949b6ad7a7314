# sysproHTTP/1.0 in Dafny

This is a model of the one-shot HTTP/1.x server `httpserver2.c`. The server:

- reads a single request from its standard input,
- answers it on its standard output from a document root, and
- exits.

The model covers the whole path from input octets to output octets:

- **Request line** (`readreq_line`, `upcase`). It is split at its first two spaces. The method is upper-cased, the path is taken verbatim, and a `HTTP/1.` prefix is required in any case. The minor version is read with `atoi`.
- **Header block** (`read_header`, and the loop in `readreq`). Lines are read with `fgets` until a bare newline or CR LF. Each field is split at its first colon, and leading blanks are skipped in the value, which keeps its line terminator. Each field is prepended to the store, so the store is the wire order reversed.
- **Header lookup** (`lookup_header`). It is a case-insensitive walk from the head of the store.
- **Body** (`content_length`, and the rest of `readreq`):
  - A missing header means length 0 and no body.
  - A negative value is fatal.
  - More than 1 MiB is fatal.
  - Otherwise one `fread` of exactly that many octets is done, and a short input is fatal.
- **Responses** (`respond_to`, `file_response`, `output_common_header`, `not_found`, `method_not_allowed`, `not_implemented`, `build_filepath`, `get_fileinfo`, `guess_content_type`):
  - `GET` and `HEAD` are answered from the file system.
  - `POST` gets 405.
  - Any other method gets 501.
  - A path that is not a regular file gets 404.
  - A file is copied in blocks of at most 1024 octets.
  - Every status line says `HTTP/1.0`.

A call to `err_log` ends the process. In the model it is a `Fail` result carrying a `Fatal` value that names the error. For a response, the model returns an `Emission`: the octets written before the end, and the fatal error if there was one.

The parts of the source that change state in place stay imperative:

- The streams are classes. `InputStream` holds what `fgets`/`fread` have not consumed yet. `OutputStream` holds everything written so far.
- The request is a class `HttpRequest` whose fields the reading methods fill.
- `upcase` works in place on an `array<char>`.
- The header loop and the lookup are `while` loops.
- The file copy loop reads into one `BLOCK_BUF_SIZE` array.

Each such method is proved against a pure function of the input: `ParseRequest`, `Lookup`, `ContentLengthOf`, `Respond` and so on. The properties the server promises are proved as lemmas about those functions.

The modules are:

- `Common`: the constants, `Option`, `Result` and `Fatal`.
- `Ascii`: `toupper`, the `strcasecmp` family, `atoi` and `%ld`.
- `Streams`: `fgets`, `fread` and the output stream.
- `Headers`: header lines and the store.
- `Requests`: the request line, the header block, the body, and the `HttpRequest` class.
- `Files`: the file system, paths and descriptors.
- `Responses`: the response texts and writers, and a client's reading of the response head.
- `Server`: `service`.

The file system is a map from path to `Regular(data, readable)` or `Special`. The current date is a parameter.

## Model

| member | source | states |
|---|---|---|
| Ascii.ToUpper | httpserver2.c:218 | `toupper` in the "C" locale: a lower-case letter becomes upper case, every other character is unchanged, and the result is never lower-case |
| Ascii.EqualsIgnoreCase | httpserver2.c:239 | no contract of its own: `strcasecmp(a, b) == 0`, equal length and equal character by character after `tolower`; `EqualsIgnoreCaseEquivalence` and `LookupIgnoresCase` characterise it |
| Ascii.EqualsIgnoreCaseEquivalence | httpserver2.c:239 | comparing names ignoring case is reflexive, symmetric and transitive |
| Ascii.HasPrefixIgnoreCase | httpserver2.c:184 | no contract of its own: `strncasecmp(p, "HTTP/1.", 7) == 0`, true iff the token has at least 7 characters and they equal the prefix ignoring case (a shorter token meets its NUL first, which matches no prefix character); `RequestLineFields` uses it |
| Ascii.UpperAscii | httpserver2.c:214-220 | `upcase` keeps the length and applies `toupper` to every character |
| Ascii.UpperAsciiMatches | httpserver2.c:214-220 | the upper-cased method has the original length, equals the original ignoring case, and holds no lower-case letter |
| Ascii.UpperAsciiIdempotent | httpserver2.c:214-220 | upper-casing twice is the same as upper-casing once |
| Ascii.AtoiOfDecimal | httpserver2.c:187 | `atoi` reads back the minor version or length `%ld` printed, whatever non-digit text follows |
| Ascii.AtoiNoDigits | httpserver2.c:187 | `atoi` is 0 when no digit follows the leading white space and the optional sign, as for `HTTP/1.\r\n`, `-x`, `+` or ` x` |
| Ascii.AtoiOfDigits | httpserver2.c:187 | `atoi` of a run of digits, leading zeros allowed, followed by a non-digit is the value of the run, so `HTTP/1.01` gives 1 |
| Ascii.Atoi | httpserver2.c:187 | no contract of its own: glibc `atoi` (white space, optional sign, digits); `AtoiOfNumber` gives its value when digits follow the white space and sign, and `AtoiNoDigits` when none do |
| Ascii.AtoiOfNumber | httpserver2.c:229 | white space, an optional `+` or `-`, a run of digits (leading zeros allowed), then a non-digit: `atoi` is the run's value, negated after `-`; so `-5\r\n` gives -5 and ` 7` gives 7 |
| Ascii.NatToDecimal | httpserver2.c:290 | `%ld` of a size: nonempty, all digits, no leading zero; `DecimalRoundTrip` gives its value back |
| Ascii.DecimalRoundTrip | httpserver2.c:290 | the digits `%ld` prints denote the number printed |
| Streams.LineLength | httpserver2.c:166 | how much one `fgets` takes: at most what remains and what fits; something whenever both are nonzero; no newline before its last character; it stops at a newline, at the end, or at a full buffer |
| Streams.FGets | httpserver2.c:166 | `fgets` yields nothing exactly at end of input; otherwise it yields a nonempty line of at most 4095 octets, and line plus rest is the input |
| Streams.FGetsWholeLine | httpserver2.c:195 | a newline-terminated line that fits the 4096-octet buffer is read whole, terminator included |
| Streams.InputStream.GetLine | httpserver2.c:166 | the stream consumes exactly the line `fgets` returns |
| Streams.OutputStream.Write | httpserver2.c:326-329 | one `fprintf` or `fwrite` appends exactly its octets to what was written |
| Streams.InputStream.ReadItem | httpserver2.c:137 | `fread` of one item of n octets returns the next n octets, or fails when fewer remain |
| Headers.SplitAt | httpserver2.c:168-171 | `strchr` split: none iff the character is absent; otherwise the text before its first occurrence, then the text after it |
| Headers.SplitAtFirst | httpserver2.c:200-201 | a text without the character, the character, then anything, splits exactly there |
| Headers.SkipBlanks | httpserver2.c:207 | `strspn(p, " \t")` skipping: a suffix of the input, not starting with a blank, with only blanks removed |
| Headers.SkipBlanksOf | httpserver2.c:207 | skipping a run of blanks in front of text not starting with one leaves exactly that text |
| Headers.IsEndOfHeaders | httpserver2.c:197 | no contract of its own: a line starting with a newline, or exactly CR LF; `ParseHeaderLineFields` and `EndLineReadsBack` characterise its use |
| Headers.ParseHeaderLine | httpserver2.c:197-209 | no contract of its own: the parsing half of `read_header`; `ParseHeaderLineFields` and `ParseHeaderLineRoundTrip` characterise it |
| Headers.ParseHeaderLineFields | httpserver2.c:197-209 | an end line gives no field; a line without a colon that is not an end line is fatal and nothing else is; otherwise the line is name, colon, blanks and value, with no colon in the name and no blank heading the value |
| Headers.ParseHeaderLineRoundTrip | httpserver2.c:197-209 | `name: value` lines read back as that field, the value keeping its terminator |
| Headers.Lookup | httpserver2.c:235-243 | not found iff no field has the name ignoring case; otherwise the value of the first such field in store order |
| Headers.LookupIgnoresCase | httpserver2.c:239 | names equal ignoring case give the same lookup result |
| Headers.LookupAppend | httpserver2.c:238-242 | a lookup in a concatenated store finds the front part's match first |
| Headers.Reverse | httpserver2.c:128-131 | the store order: the wire order reversed, index by index |
| Headers.LookupIsLastOnWire | httpserver2.c:235-243 | on the reversed store, `lookup_header` returns the value of the name's last occurrence on the wire |
| Headers.DuplicateLastWins | httpserver2.c:128-131 | of two fields with the same name, the one sent later is found |
| Requests.ParseRequestLine | httpserver2.c:168-187 | no contract of its own: the splitting half of `readreq_line`; `RequestLineWithoutSpace`, `RequestLineWithOneSpace`, `RequestLineFields` and `RequestLineRoundTrip` characterise it |
| Requests.RequestLineFrom | httpserver2.c:162-188 | no contract of its own: `fgets` and then `ParseRequestLine`, no line being fatal; `RequestLineReadsBack` characterises it |
| Requests.NextHeader | httpserver2.c:190-212 | a successful `read_header` consumes at least one octet, so the loop of `readreq` ends; `SendableFieldReadsBack` and `EndLineReadsBack` say what it returns |
| Requests.ReadHeaders | httpserver2.c:127-131 | no contract of its own: the prepend loop; `ReadHeadersReversesWire` and `HeaderBlockReadsBack` characterise it |
| Requests.ContentLengthOf | httpserver2.c:222-233 | no contract of its own: `content_length`; `BodyLengthRules` and `ContentLengthAnnounces` characterise it |
| Requests.ReadBody | httpserver2.c:132-141 | no contract of its own: the body step of `readreq`; `ReadBodyShape` and `BodyLengthRules` characterise it |
| Requests.ParseRequest | httpserver2.c:121-143 | no contract of its own: `readreq` as a whole; `ParsedBodyInvariant` and `ParseRequestRoundTrip` characterise it |
| Requests.RequestLineWithoutSpace | httpserver2.c:168-170 | a line without a space is fatal error (1), which shows the whole line |
| Requests.RequestLineWithOneSpace | httpserver2.c:177-179 | a line with exactly one space is fatal error (2), which shows the method text |
| Requests.RequestLineFields | httpserver2.c:168-187 | a line with two spaces parses iff the version token starts with `HTTP/1.` ignoring case, and otherwise is fatal error (3). On success the method is the upper-cased first field, the path is the second field verbatim, and the minor version is `atoi` of the token's rest |
| Requests.RequestLineRoundTrip | httpserver2.c:162-188 | `METHOD SP PATH SP HTTP/1.n CR LF` parses to the upper-cased method, the path and n |
| Requests.RequestLineReadsBack | httpserver2.c:166-187 | such a line that fits the buffer is read and parsed, leaving the rest of the input untouched |
| Requests.ReadHeadersReversesWire | httpserver2.c:128-131 | the prepend loop gives the block's wire order reversed in front of the initial store, and fails with the same error exactly when reading the block does |
| Requests.SendableFieldReadsBack | httpserver2.c:190-212 | `read_header` returns a well-formed field line as that field and consumes exactly its line |
| Requests.EndLineReadsBack | httpserver2.c:197-198 | `read_header` ends the block at a bare CR LF |
| Requests.WireHeadersRoundTrip | httpserver2.c:128-131 | a block of well-formed field lines and CR LF reads back as those fields in wire order |
| Requests.HeaderBlockReadsBack | httpserver2.c:127-131 | the `readreq` loop turns such a block into the reversed field list |
| Requests.ContentLengthOfNumber | httpserver2.c:226-232 | a `Content-Length` value that is white space, a sign and digits: fatal when the number is negative, otherwise the length is its value (`-0` gives 0) |
| Requests.BodyLengthRules | httpserver2.c:222-233 | no header: length 0, no body; `atoi` 0: length 0; negative: fatal; over 1 MiB: fatal; otherwise the read succeeds iff enough input remains |
| Requests.ContentLengthAnnounces | httpserver2.c:222-233 | the last `Content-Length` sent decides the length |
| Requests.ParsedBodyInvariant | httpserver2.c:132-141 | a parsed request's length is at most 1 MiB, its body is absent iff the length is 0, and a present body is exactly that long |
| Requests.ReadBodyShape | httpserver2.c:133-141 | the same three facts, for the body step alone |
| Requests.ParseRequestRoundTrip | httpserver2.c:121-143 | a request built from a request line, well-formed fields and a body whose length the last `Content-Length` announces parses to exactly those parts, with the fields reversed and the rest of the input untouched |
| Requests.Upcase | httpserver2.c:214-220 | the array afterwards is `UpperAscii` of its old contents |
| Requests.UpcasedCopy | httpserver2.c:172-174 | a fresh buffer holding the method text, upper-cased |
| Requests.ReadHeader | httpserver2.c:190-212 | the method agrees with `NextHeader`: the same result or error, and the same input consumed |
| Requests.HttpRequest.ReadRequestLine | httpserver2.c:162-188 | fills method, path and minor version as `RequestLineFrom` does, or fails with its error; the other fields do not change |
| Requests.HttpRequest.SplitRequestLine | httpserver2.c:168-187 | the same for the splitting half, against `ParseRequestLine` |
| Requests.HttpRequest.LookupHeader | httpserver2.c:235-243 | the list walk returns `Lookup` of the store |
| Requests.HttpRequest.ContentLength | httpserver2.c:222-233 | returns `ContentLengthOf` of the store |
| Requests.HttpRequest.ReadHeaderFields | httpserver2.c:127-131 | the loop leaves the store and stream as `ReadHeaders` from an empty store says, or fails with its error |
| Requests.HttpRequest.ReadEntityBody | httpserver2.c:132-141 | sets length, body and stream as `ReadBody` says, or fails with its error |
| Requests.ReadRequest | httpserver2.c:121-143 | a fresh request whose fields are `ParseRequest` of the input, the stream left after it; otherwise the same error |
| Files.BuildFilePath | httpserver2.c:260-266 | the path is the document root, one `/`, then the URL path, with no normalisation |
| Files.BuildFilePathInjective | httpserver2.c:260-266 | distinct URL paths under one root give distinct paths |
| Files.GetFileInfo | httpserver2.c:245-259 | `ok` iff the path exists and is a regular file; the size is then the file's length |
| Files.GuessContentType | httpserver2.c:380-382 | no contract of its own: every file is `text/plain`; `FileHeadLinesAre` shows the `Content-Type` line it gives |
| Files.FileDescriptor.Read | httpserver2.c:302 | `read` puts the next min(buffer length, remaining) octets of the file at the front of the buffer and advances the offset by that many; 0 only at end of file or for an empty buffer |
| Responses.MessageReadsBack | httpserver2.c:289-292 | lines each ended by CR LF and then an empty line split back into exactly those lines and the body |
| Responses.NotFoundResponse | httpserver2.c:362-373 | no contract of its own: the 404 text; `NotFoundReadsBack` characterises it |
| Responses.MethodNotAllowedResponse | httpserver2.c:332-345 | no contract of its own: the 405 text; `MethodNotAllowedReadsBack` characterises it |
| Responses.NotImplementedResponse | httpserver2.c:347-360 | no contract of its own: the 501 text; `NotImplementedReadsBack` characterises it |
| Responses.FileResponseOf | httpserver2.c:280-314 | no contract of its own: `file_response`; `GetServesFile`, `HeadSendsHeadersOnly`, `UnopenableFileAborts` and `MissingFileIsNotFound` characterise it |
| Responses.Respond | httpserver2.c:268-277 | no contract of its own: `respond_to`; `PostIsNotAllowed`, `OtherMethodIsNotImplemented`, `RespondAborts` and `Server.RequestIsAnswered` characterise it |
| Responses.RespondWrites | httpserver2.c:268-277 | every dispatch writes at least two octets |
| Responses.RespondAborts | httpserver2.c:298-300 | a response ends in an abort iff it is `GET` of a regular file that cannot be opened, and the error then names the file's path |
| Responses.StatusLine | httpserver2.c:326 | no contract of its own: `HTTP/1.%d %s` with the minor version constant 0; `CommonHeaderLinesAre` writes it out |
| Responses.CommonHeaderLines | httpserver2.c:326-329 | no contract of its own: the four `fprintf` lines of `output_common_header`; `CommonHeaderLinesAre` writes them out |
| Responses.CommonHeaderLinesAre | httpserver2.c:316-330 | the header block every response starts with: `HTTP/1.0 <status>`, `Date`, `Server: sysproHTTP/1.0`, `Connection: close` |
| Responses.FileHeadLinesAre | httpserver2.c:289-291 | a file head adds `Content-Length: <size>` and `Content-Type: text/plain` |
| Responses.GetServesFile | httpserver2.c:280-314 | `GET` of a readable regular file: the 200 head announcing its size, then exactly its octets, the announced length reading back as the body's length |
| Responses.HeadSendsHeadersOnly | httpserver2.c:289-293 | `HEAD` of a regular file: the same head and no body octet, even when the file cannot be opened |
| Responses.UnopenableFileAborts | httpserver2.c:298-300 | a file that cannot be opened aborts after the 200 head, before any body octet |
| Responses.MissingFileIsNotFound | httpserver2.c:283-288 | `GET`/`HEAD` of a missing or non-regular path: 404, with the page iff the method is not `HEAD` |
| Responses.NotFoundReadsBack | httpserver2.c:362-373 | the 404 response's head lines and its body |
| Responses.MethodNotAllowedReadsBack | httpserver2.c:332-345 | the 405 response's head lines and its page |
| Responses.NotImplementedReadsBack | httpserver2.c:347-360 | the 501 response's head lines, `Content-type` spelling included, and its page |
| Responses.PostIsNotAllowed | httpserver2.c:274-275 | `POST`, whatever the path: 405 and its page |
| Responses.OtherMethodIsNotImplemented | httpserver2.c:276-277 | any method other than `GET`, `HEAD` and `POST`: 501 and its page naming the method |
| Responses.OutputCommonHeader | httpserver2.c:316-330 | appends exactly the four common lines |
| Responses.NotFound | httpserver2.c:362-373 | appends exactly `NotFoundResponse` |
| Responses.MethodNotAllowed | httpserver2.c:332-345 | appends exactly `MethodNotAllowedResponse` |
| Responses.NotImplemented | httpserver2.c:347-360 | appends exactly `NotImplementedResponse` |
| Responses.CopyFile | httpserver2.c:301-310 | the block loop writes exactly the file's octets. The blocks written make up the file, each holds 1 to 1024 octets, and all but the last are full |
| Responses.OutputFileHead | httpserver2.c:289-292 | appends the 200 head and the empty line |
| Responses.FileResponse | httpserver2.c:280-314 | appends what `FileResponseOf` says and returns its fatal error |
| Responses.RespondTo | httpserver2.c:268-277 | appends what `Respond` says and returns its fatal error |
| Server.Serve | httpserver2.c:114-119 | nothing is written iff the request cannot be read; the outcome is then that reading's error |
| Server.Service | httpserver2.c:114-119 | the stream receives what `Serve` says, and the method returns its fatal error |
| Server.RequestIsAnswered | httpserver2.c:268-277 | every readable request gets one framed response. Its head has five or six lines, the first one of the four HTTP/1.0 status lines. The response ends in an abort iff the request is a `GET` of a regular file that cannot be opened; `UnopenableFileAborts` shows that this response is the 200 head announcing the size, with no body |
| Server.FileRequestIsAnswered | httpserver2.c:280-314 | every `GET` or `HEAD` response is framed (the abort condition is not part of this lemma) |
| Server.GetRequestIsServed | httpserver2.c:114-119 | end to end: a well-formed bodiless `GET` for a readable regular file gets the 200 head and the file's octets |

## Left out

- `main`, argument checking, `sigpipe`, `trap_signal` and `signal_exit`: process and signal plumbing with no effect on the request or the response.
- `manage_memory`, `freereq` and `free_fileinfo`: allocation and release only. An allocation failure is not modelled.
- `err_log` prints its message on the standard error before exiting. The model keeps which error it was, and for the request-line errors the text shown, but not the message wording.
- The clock: `time`, `gmtime` and `strftime` are replaced by the `date` parameter. A `gmtime` failure is not modelled.
- Octets are modelled as `char`. An embedded NUL is not modelled: in the source it would cut the C strings short after `fgets` has read them.
- Read and write failures on the streams and on the file descriptor are not modelled. Writes always succeed, and `read` on a regular file returns as much as fits and remains.
- `lstat` becomes a lookup in the file-system map. A path that is absent stands for every `lstat` failure, and `Special` stands for every non-regular file type. `open` fails exactly on entries marked unreadable.
- `fread` of a body longer than the remaining input consumes all of it. The process ends right after that, so nothing can observe the difference.
- `atoi` overflow is not modelled, because C leaves it undefined. Numbers are unbounded integers.
- `Responses.OutputCommonHeader` takes the date text from its caller instead of formatting the clock.
- `fflush` of the output is not modelled: everything written is in `OutputStream.written` at once.
