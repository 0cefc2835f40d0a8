# proxy_http: resumable parsers, chunk codec and selector tables

`proxy_http` is an HTTP proxy written in C. It reads from non-blocking sockets, so its request and
response parsers may run out of input after any byte and are called again when more arrives. They
keep no position inside a token. Instead they write a canonical form of what they had consumed
*backwards* into a reserved zone in front of the input buffer (an upper-cased keyword, a re-printed
number, the host read so far, or a fake chunk such as `1\r\n1`), and read it again on the next call
without copying it to the output a second time. This project models the buffer, the token readers,
both parsers, the chunk encoder and the selector, and proves that this protocol does what it is for.

## How it is modelled

* `Buffers.Buffer` is the C buffer: an array and two indices, with every operation of
  `buffer/buffer.c`. Its ghost field `pending` is a pair of queues, `held` (pushed back, not to be
  copied again) and `wire` (fresh), and `Valid` ties it to the array. A second ghost field, `offered`,
  collects everything written forward since the buffer was last empty, so that contracts can say what
  a parser outputs; `Buffer.KeptAll` turns it into the contents as long as there was room, since
  `buffer_write` drops a byte that does not fit.
* The two parsers are methods over these buffers and a mutable record, case by case and loop by loop as
  in C (`ResponseHeaders`, `ResponseBody`, `ResponseParser`, `RequestParser`).
* Beside them stand two reference machines (`ResponseMachine`, `RequestMachine`) which are handed one
  byte at a time, remember where they are inside a token, and never push anything back. `Run` is the
  meaning of a text. Records, places and tokens differ between the two, so the lemmas about running occur
  once for each. Each C-shaped method is proved to do with the pending bytes what `Run` does with
  them, and to suspend with exactly `PushedBack(place)` in the reserved zone.
* `ResponseFragments` and `RequestFragments` prove that reading the push-back again restores the place
  (`Rehearse`), hence that any sequence of fragments gives what a single run over their concatenation
  gives (`Feed`, around the drive loop of the client).
* `ChunkMeaning`, `HeaderMeaning`, `ResponseMeaning`, `RequestMeaning`, `OriginForm` and `AbsoluteForm` say
  what `Run` computes, for every well-formed chunked body, header block, response and request, without
  reference to the machine. `HeaderText` does so for single header lines, whatever they hold.
  `ResponseErrors` and `RequestErrors` do so for what is rejected: which error, how much came out, and in
  front of which byte the parser stops.
* The vocabulary (digits, letters, spaces, verbs, header names, values, the lines that are added, interests)
  is written out once more in these statements, as texts and numbers, and not read back from the tables of
  the machines.
* `Cuts` shows where fragmentation does matter, with the exact condition.
* `SelectorTable` and `Selector` model the descriptor table as what a history of events leaves. Handlers
  are arbitrary: a handler may register, unregister or change any descriptor any number of times, and
  `handle_close` may do so inside `selector_unregister_fd`.

Conventions. A byte is the `char` with its code; `ctype` is ASCII. `getNumber` and `getHexNumber` are one
method with a base, `writeDecToBufReverse` and `writeHexToBufReverse` another; `extractHost` and
`checkUriForHost` share `ReadHost(absolute)`. The place `Outside` stands for what the parsers do not
handle uniformly (a NUL in framing, which also means "empty"; a number of 2^31 or more; in requests also
userinfo, a bad host in an absolute target, and a `host:port` longer than the reserved
zone): contracts about a run say nothing once it gets there. `NoSize` and `NoPort` mark a chunk size or a
port without a digit; a single call is specified there too, but fragments are not equivalent, see `Cuts`.
`NoHost` marks a Host value without a host; whether the call returns is specified there.
The reserve that contracts ask for is 17 bytes for responses (`TRANSFER-ENCODING`) and 255 for requests.

Places where the code differs from what its names or comments suggest, kept as they are: header names are
found anywhere in a line, some are passed over and some mistaken (the lemmas of `HeaderText` from
`NameInsideLine` on say when); a line that ends in `CONTENT-` hides its own CR (`NothingFound`, `MissedEnd`);
a CR that follows CR LF but no LF is not forwarded; a first request header that begins with X suppresses
`X-LOCALHOST: TRUE`; POUT and POSUT are taken for PUT (`OriginForm.PutRun`); a Host value without a host can keep `checkRequestInner` from returning
(`OriginForm.ParseNoHost`); a response without any body makes the call report failure once, with the parser
already in its final state; the guard of `selector_register` misses the descriptor that equals the current
table size.

## Model

| member | source | states |
|---|---|---|
| Buffers.Buffer.constructor | proxy_http/src/buffer/buffer.c:23-36 | a new buffer holds nothing and sits at the inner limit |
| Buffers.Buffer.Write | proxy_http/src/buffer/buffer.c:143-150 | appends to the fresh queue if there is room, and drops the byte otherwise |
| Buffers.Buffer.WriteReverse | proxy_http/src/buffer/buffer.c:134-141 | puts the byte in front of the unread ones: in the reserved zone it joins the held queue, else the fresh one; at the start of the array it is lost |
| Buffers.Buffer.Read | proxy_http/src/buffer/buffer.c:89-100 | takes the head of the pair of queues; an empty buffer gives 0 and is unchanged |
| Buffers.Buffer.Peek | proxy_http/src/buffer/buffer.c:103-107 | the head, or 0 both for an empty buffer and for a NUL |
| Buffers.Buffer.IsReserved | proxy_http/src/buffer/buffer.c:117-121 | the next byte is a held one |
| Buffers.Buffer.ReadAdv | proxy_http/src/buffer/buffer.c:75-87 | drops that many bytes from the front; the emptied buffer returns to the inner limit |
| Buffers.Buffer.Compact | proxy_http/src/buffer/buffer.c:152-166 | moves the unread bytes without changing the contents |
| Buffers.Buffer.Fill | proxy_http/src/buffer/buffer.c:44-73 | bytes written through the write pointer are appended to the fresh queue |
| Buffers.Buffer.EmptyAtLimit | proxy_http/src/buffer/buffer.c:75-87 | an empty buffer always sits at the inner limit, so push-back lands in the reserved zone |
| Buffers.Buffer.KeptAll | proxy_http/src/buffer/buffer.c:143-150 | with room, everything offered is in the buffer, in order |
| Forwarding.Interleave | proxy_http/src/myParserUtils/myParserUtils.c:6-39 | for any interleaving of arrivals, copying reads and push-backs on an empty buffer, the real buffers follow the abstract queues and the output grows by the abstract copies |
| Forwarding.ExactlyOnce | proxy_http/src/myParserUtils/myParserUtils.c:6-39 | the bytes copied, followed by what is still fresh, are exactly the bytes that arrived, in order, each once, however often they were read again |
| ParserUtils.ReadAndWrite | proxy_http/src/myParserUtils/myParserUtils.c:6-19 | takes the head and copies it unless it was held or NUL |
| ParserUtils.ReadAndWriteWithZero | proxy_http/src/myParserUtils/myParserUtils.c:21-39 | the same with NUL as data, and reports an empty buffer |
| ParserUtils.MoveThroughSpaces | proxy_http/src/myParserUtils/myParserUtils.c:41-50 | drops exactly the leading spaces and tabs |
| ParserUtils.SpaceTable | proxy_http/src/myParserUtils/myParserUtils.c:41-50 | the bytes that are skipped are the space and the tab |
| Bytes.LetterTable | proxy_http/src/myParserUtils/myParserUtils.c:137-162 | the case of exactly the 26 letters is ignored |
| ParserUtils.WriteToBufReverse | proxy_http/src/myParserUtils/myParserUtils.c:63-70 | the text stands in front of what was held, without its first bytes if there is no room for them |
| ParserUtils.WriteNumberReverse | proxy_http/src/myParserUtils/myParserUtils.c:72-96 | the canonical numeral stands in front of what was held |
| Numbers.PrintValue | proxy_http/src/myParserUtils/myParserUtils.c:72-96 | reading what the reverse writers print gives the number back |
| Numbers.PrintFits | proxy_http/src/myParserUtils/myParserUtils.c:72-96 | an int prints in at most 10 decimal or 8 hexadecimal digits |
| Numbers.DigitTable | proxy_http/src/myParserUtils/myParserUtils.c:281-297 | each of the 22 hexadecimal digits, in either case, has its value, and each value its upper-case digit; the ten decimal digits likewise |
| Numbers.OnlyDigits | proxy_http/src/myParserUtils/myParserUtils.c:191-279 | no other byte is a digit |
| Numbers.PositionalValue | proxy_http/src/myParserUtils/myParserUtils.c:191-279 | one more digit multiplies what was read by the base and adds its value |
| Numbers.IntLimit | proxy_http/src/myParserUtils/myParserUtils.c:191-279 | the bound from which numbers leave the model is that of a C int of 32 bits |
| ParserUtils.MatchFormat | proxy_http/src/myParserUtils/myParserUtils.c:137-162 | consumes and copies exactly the longest match, in any case; succeeds iff it is the whole format; on starvation the buffer holds exactly prefix and matched part |
| ParserUtils.SimpleMatchFormat | proxy_http/src/myParserUtils/myParserUtils.c:164-189 | the same without copying |
| ParserUtils.GetNumber | proxy_http/src/myParserUtils/myParserUtils.c:191-249 | the positional value of all digits, copied as they came; on starvation the buffer holds prefix and canonical numeral, `0` when there was no digit |
| ParserUtils.SimpleGetHexNumber | proxy_http/src/myParserUtils/myParserUtils.c:251-279 | the same in base 16 without copying |
| ParserUtils.WriteToTransfBufWithZero | proxy_http/src/myParserUtils/myParserUtils.c:114-129 | moves as many bytes as are wanted and there, NULs included, and counts what is missing |
| ResponseLemmas.RunPush | proxy_http/src/response_parser/responseParser.c:68-214 | input that comes later continues the run where it stopped |
| ResponseLemmas.WordOutcome | proxy_http/src/myParserUtils/myParserUtils.c:137-162 | a whole matching call is the run of the machine through that word, for every input |
| ResponseLemmas.NumberOutcome | proxy_http/src/myParserUtils/myParserUtils.c:191-249 | a whole number-reading call is the run of the machine through the digits, for every input |
| ResponseLemmas.Rehearse | proxy_http/src/response_parser/responseParser.c:281-600 | from the state that is stored, reading the push-back of any place leads to that place again and forwards nothing, for every token, number and fake chunk |
| ResponseLemmas.PushedBackFits | proxy_http/src/response_parser/responseParser.c:281-385 | no place pushes back more than 17 bytes, and `TRANSFER-ENCODING` needs them |
| ResponseLemmas.RunLive | proxy_http/src/response_parser/responseParser.c:68-214 | the invariant that suspension relies on holds at every place of every run |
| ResponseHeaders.MatchWord | proxy_http/src/response_parser/responseParser.c:281-340 | matching a header word, with its prefix, is the run through that word |
| ResponseHeaders.CheckSpaces | proxy_http/src/response_parser/responseParser.c:216-225 | any number of spaces becomes one |
| ResponseHeaders.ExtractHttpVersion | proxy_http/src/response_parser/responseParser.c:229-255 | reads the version as the machine does, suspends with it given back, or reports the version error |
| ResponseHeaders.ReadNumber | proxy_http/src/response_parser/responseParser.c:257-268 | reads the status or the length as the machine does |
| ResponseHeaders.CheckHeaders | proxy_http/src/response_parser/responseParser.c:281-385 | copies headers up to the next value of interest or the end of the headers as the machine does, consuming at least one byte, or suspends at its place |
| ResponseHeaders.CheckConnection | proxy_http/src/response_parser/responseParser.c:414-433 | swallows the value and writes `close` in its place |
| ResponseHeaders.CheckEncoding | proxy_http/src/response_parser/responseParser.c:394-402 | recognises gzip as the machine does |
| ResponseHeaders.CheckChunked | proxy_http/src/response_parser/responseParser.c:404-412 | recognises chunked as the machine does |
| ResponseBody.ExtractChunkedBody | proxy_http/src/response_parser/responseParser.c:475-525 | reads a chunked body as the machine does, copying sizes and frames; suspends with size, `1\r\n1` or `0\r\n` given back |
| ResponseBody.ExtractChunkedBodyTransf | proxy_http/src/response_parser/responseParser.c:550-600 | the same, with only the chunk data forwarded |
| ResponseBody.ExtractBody | proxy_http/src/response_parser/responseParser.c:446-473 | chunked first, then a counted body, then until close for status 200, else no body |
| ResponseBody.ExtractBodyTransf | proxy_http/src/response_parser/responseParser.c:527-548 | the same into the transformation buffer |
| ResponseParser.CheckResponseInner | proxy_http/src/response_parser/responseParser.c:68-214 | one call does with the pending bytes what one run does, with the same record, state and outputs, and suspends with the push-back of its place; it terminates on every input |
| ResponseFragments.NextFragment | proxy_http/src/response_parser/responseParser.c:68-214 | a call that finds the last push-back and a new fragment ends where an uninterrupted run ends, with the same bytes unread |
| ResponseFragments.Deliver | proxy_http/src/client/remote_handlers.c:20-45 | one fragment, one call, outputs sent on: the parser, and once it is done its input, stay where the run over all text so far is |
| ResponseFragments.Feed | proxy_http/src/response_parser/responseParser.c:68-214 | for every way of cutting a response, the record, the parser state, both outputs and, at the end, the unread bytes are those of one run over the whole text |
| ChunkMeaning.SizeOfDigit | proxy_http/src/myParserUtils/myParserUtils.c:281-288 | a chunk size of one hexadecimal digit, in either case |
| ChunkMeaning.SizeGrows | proxy_http/src/myParserUtils/myParserUtils.c:251-279 | a further digit, in either case, makes 16 times the size plus its value |
| ChunkMeaning.ChunkedBody | proxy_http/src/response_parser/responseParser.c:475-600 | every well-formed chunked body (section 4.1 of RFC 7230, no extensions or trailers) is read to its last byte and no further; it is forwarded byte for byte, or exactly its data is transformed |
| ChunkMeaning.SuspendsUntilLastByte | proxy_http/src/response_parser/responseParser.c:475-600 | on every proper prefix of a chunked body the parser suspends |
| ChunkEncoder.WriteEmptyChunk | proxy_http/src/client/chunks.c:10-23 | writes the last chunk and the empty line, or nothing when there is no room |
| ChunkEncoder.DumpChunk | proxy_http/src/client/chunks.c:25-55 | appends one chunk with size in upper-case hex for the bytes read; it always fits, for reads below 2^28 bytes |
| ChunkEncoder.EncodeStream | proxy_http/src/client/chunks.c:10-55 | one chunk for each non-empty block that is read and the last chunk at the end |
| ChunkEncoder.DecodesWhatWasEncoded | proxy_http/src/client/chunks.c:25-55 | the decoder gives back exactly the blocks that were encoded |
| HeaderText.PassedOver | proxy_http/src/response_parser/responseParser.c:281-340 | where the search looks afresh, what it passed over has come out unchanged and the rest is treated as a line of its own |
| HeaderText.NamedEnds | proxy_http/src/response_parser/responseParser.c:281-340 | the parser only acts where a name with its colon stands (for Connection, the end of the name) |
| HeaderText.QuietLine | proxy_http/src/response_parser/responseParser.c:281-340 | a line without such a name comes out unchanged and means nothing; only CONTENT- at its end can hide its CR |
| HeaderText.NothingFound | proxy_http/src/response_parser/responseParser.c:281-340 | a line in which the search finds no name is forwarded with the record unchanged, and its end is missed iff it ends in a CONTENT- whose C the search looks at |
| HeaderText.FlagsOfLine | proxy_http/src/response_parser/responseParser.c:281-440 | the flags after a line say exactly whether a Connection field or a chunked coding was found in it |
| HeaderText.NameLook | proxy_http/src/response_parser/responseParser.c:281-340 | each name of interest, in any case, is found where the search looks afresh |
| HeaderText.FieldLine | proxy_http/src/response_parser/responseParser.c:281-440 | a field comes out with its name, one space and its value, `close` for Connection, and has the effect of its value |
| HeaderText.ContentLengthLine | proxy_http/src/response_parser/responseParser.c:281-392 | a line `Content-Length:` in any case, spaces and digits gives bodyLength their value |
| HeaderText.ContentEncodingLine | proxy_http/src/response_parser/responseParser.c:281-402 | a line `Content-Encoding:` is gzip iff its value begins so, in any case |
| HeaderText.ContentTypeLine | proxy_http/src/response_parser/responseParser.c:281-340 | a line `Content-Type:` changes nothing |
| HeaderText.ConnectionLine | proxy_http/src/response_parser/responseParser.c:281-433 | a line `Connection:` comes out as `Connection: close`, whatever its value |
| HeaderText.TransferEncodingLine | proxy_http/src/response_parser/responseParser.c:281-412 | a line `Transfer-Encoding:` is chunked iff its value begins so, in any case |
| HeaderText.LengthOfLine | proxy_http/src/response_parser/responseParser.c:281-392 | a line without a Content-Length leaves the length alone |
| HeaderText.NoColonQuiet | proxy_http/src/response_parser/responseParser.c:281-340 | text without a colon holds no name |
| HeaderText.PassesQuiet | proxy_http/src/response_parser/responseParser.c:281-340 | after any text without a name whose last byte is in no name, such as a space, the search looks afresh |
| HeaderText.PrefixedField | proxy_http/src/response_parser/responseParser.c:281-340 | `Proxy-Connection` and `X-Content-Length` have the effect of Connection and Content-Length |
| HeaderText.SwallowedAfterDash | proxy_http/src/response_parser/responseParser.c:281-340 | the byte behind CONTENT- is compared only, so a name that begins there is passed over |
| HeaderText.SwallowedTransfer | proxy_http/src/response_parser/responseParser.c:281-340 | `Content-Transfer-Encoding` is forwarded untouched |
| HeaderText.SwallowedInside | proxy_http/src/response_parser/responseParser.c:281-340 | `CONTRANSFER-ENCODING:` is missed, since its T is compared with CONTENT- |
| HeaderText.MistakenForConnection | proxy_http/src/response_parser/responseParser.c:281-340 | `CONTNECTION:` is taken for Connection |
| HeaderMeaning.LookRun | proxy_http/src/response_parser/responseParser.c:281-340 | one look of the search, as text, is the run of the machine |
| HeaderText.NameInsideLine | proxy_http/src/response_parser/responseParser.c:281-340 | wherever in a line the search looks afresh, a name with its value has the effect of the field |
| HeaderMeaning.ValueRun | proxy_http/src/response_parser/responseParser.c:387-440 | what is read of each value, what it means, and where the search goes on |
| HeaderMeaning.ConnectionRun | proxy_http/src/response_parser/responseParser.c:414-433 | whatever the value of Connection is, `close` comes out |
| HeaderMeaning.LengthRun | proxy_http/src/response_parser/responseParser.c:387-392 | the leading digits of Content-Length are forwarded and stored |
| HeaderMeaning.LineRun | proxy_http/src/response_parser/responseParser.c:281-440 | every line without CR and NUL, whatever it holds: what comes out, what the record becomes, and whether its end is seen |
| HeaderMeaning.MissedEnd | proxy_http/src/response_parser/responseParser.c:281-377 | the shortest header block whose end is missed |
| HeaderMeaning.LoneCr | proxy_http/src/response_parser/responseParser.c:341-377 | inside a line, a CR without LF is forwarded, and the next byte is looked at afresh |
| HeaderMeaning.LostCr | proxy_http/src/response_parser/responseParser.c:341-377 | at the start of a line, a CR without LF is lost |
| HeaderMeaning.HeaderBlock | proxy_http/src/response_parser/responseParser.c:281-377 | a block of any lines: each is rewritten in its place; if the CR of the last is seen, the added lines with the empty line come once, at the end, and if not, the headers go on behind it |
| HeaderMeaning.FlagsOfBlock | proxy_http/src/response_parser/responseParser.c:341-377 | the lines are added exactly when no Connection field, and when transforming and no chunked coding, was found in the block |
| ResponseMeaning.StatusRun | proxy_http/src/response_parser/responseParser.c:229-268 | the status line: version and code are stored, one space between the words, the reason treated like a header line |
| ResponseMeaning.WholeHead | proxy_http/src/response_parser/responseParser.c:68-214 | what the client gets for the head of any response, and exactly when its end is seen |
| ResponseMeaning.TrailerTable | proxy_http/src/response_parser/responseParser.c:346-364 | the lines that are added, in each of the four cases |
| ResponseMeaning.FreshTable | proxy_http/src/response_parser/responseParser.c:25-38 | the record that every run and every feed starts from |
| ResponseMeaning.LengthHead | proxy_http/src/response_parser/responseParser.c:281-392 | a head whose only length is a `Content-Length:` line that says N has bodyLength N |
| ResponseMeaning.ChunkedResponse | proxy_http/src/response_parser/responseParser.c:446-600 | a whole chunked response, whatever Content-Length says (section 3.3.3 of RFC 7230) |
| ResponseMeaning.CountedResponse | proxy_http/src/response_parser/responseParser.c:446-473 | exactly the first N body bytes are forwarded, bodyLength is what is still missing, later bytes stay |
| ResponseMeaning.FeedChunked | proxy_http/src/response_parser/responseParser.c:475-600 | the whole chunked response in any fragments, and what follows it is not read |
| ResponseMeaning.FeedCounted | proxy_http/src/response_parser/responseParser.c:446-473 | the response with a Content-Length in any fragments: the first N bytes, what bodyLength says is missing, and the bytes left over |
| ResponseMeaning.FeedLength | proxy_http/src/response_parser/responseParser.c:446-473 | a response with a line `Content-Length:`, in any case, that says N, in any fragments: N bytes are forwarded and later ones are not read |
| ResponseMeaning.FeedOpen | proxy_http/src/response_parser/responseParser.c:446-473 | a response without a length, in any fragments: with status 200 or a transformation everything is its body, else it has none |
| ResponseMeaning.FeedEncoded | proxy_http/src/client/chunks.c:10-55 | encoder and decoder undo each other over any fragments |
| ResponseErrors.BadProtocol | proxy_http/src/response_parser/responseParser.c:229-255 | a text that leaves HTTP/1. at any byte is a version error in front of that byte |
| ResponseErrors.BadVersion | proxy_http/src/response_parser/responseParser.c:229-255 | a version other than 1.0 and 1.1 is a version error, and its digit is consumed |
| ResponseErrors.NoStatus | proxy_http/src/response_parser/responseParser.c:257-268 | a version without a status code behind it is a status error |
| ResponseErrors.BrokenBody | proxy_http/src/response_parser/responseParser.c:475-600 | a chunked body that breaks off (no size, an extension behind a size, no CR LF behind data, a trailer): what came before is delivered, and the parser stops with a chunk error in front of the byte |
| RequestLemmas.Rehearse | proxy_http/src/request_parser/requestParser.c:217-469 | reading the push-back of any place leads to that place again and forwards nothing, host and port included |
| RequestLemmas.PushedBackFits | proxy_http/src/request_parser/requestParser.c:457-463 | an invariant of runs that stay within the model: what is pushed back, a host with its port included, fits the reserved zone |
| RequestParser.PushBackHost | proxy_http/src/request_parser/requestParser.c:457-463 | for any host and port: if both do not fit the reserved zone, the first bytes of the host are lost, as many as do not fit, and otherwise nothing |
| RequestLemmas.HostOutcome | proxy_http/src/request_parser/requestParser.c:435-469 | what each byte does to a host: continue, colon, end, or error |
| RequestLemmas.PortOutcome | proxy_http/src/request_parser/requestParser.c:452-468 | what each digit string and the byte after it does to a port |
| RequestParser.ExtractHttpMethod | proxy_http/src/request_parser/requestParser.c:219-249 | the table of methods, PUT after POST, is the run of the machine; other methods than GET, HEAD and POST are errors |
| OriginForm.VerbRun | proxy_http/src/request_parser/requestParser.c:219-249 | GET, HEAD and POST, in any case, lead on to the target |
| OriginForm.UnsupportedVerb | proxy_http/src/request_parser/requestParser.c:219-249 | CONNECT, DELETE, OPTIONS, PUT and TRACE, in any case, are stored and reported as unsupported |
| OriginForm.PutRun | proxy_http/src/request_parser/requestParser.c:219-249 | after `P` and up to two bytes of `OST`, a text goes on as PUT: POUT and POSUT are taken for it |
| OriginForm.NoMethod | proxy_http/src/request_parser/requestParser.c:219-249 | a text that leaves the name of a method at any byte is a method error in front of that byte |
| OriginForm.NoMethodAtAll | proxy_http/src/request_parser/requestParser.c:219-249 | a first byte that begins no method is a method error, and is consumed |
| RequestParser.CheckUri | proxy_http/src/request_parser/requestParser.c:251-277 | an absolute target gives the host, any other is passed over, with all three suspension points |
| RequestParser.ReadHost | proxy_http/src/request_parser/requestParser.c:297-334 | a host with or without a port as the machine reads it; what was read is given back in front of the port; and, for a Host field, what happens when there is no host |
| RequestParser.CheckLocalHost | proxy_http/src/request_parser/requestParser.c:374-394 | marks the request or finds the mark |
| RequestParser.CheckHostHeader | proxy_http/src/request_parser/requestParser.c:396-433 | searches as the machine does, and suspends at its place |
| RequestParser.EmptyTurnSpins | proxy_http/src/request_parser/requestParser.c:435-469 | a try that finds neither a host nor an error either consumed a port, or is at a byte where every further try is the same |
| RequestParser.CheckRequestInner | proxy_http/src/request_parser/requestParser.c:53-204 | one call does with the pending bytes what one run does, callback calls included; it does not return exactly when the run meets a Host value without a host that `SpinsOn`: ports, then a byte that is neither consumed nor accepted |
| OriginForm.WholeNoHost | proxy_http/src/request_parser/requestParser.c:147-155 | a request whose Host value does not begin with a host gets exactly there |
| OriginForm.ParseNoHost | proxy_http/src/request_parser/requestParser.c:147-155 | one call on such a request does not return iff its Host value, as text, `SpinsOn` |
| OriginForm.StuckAtSlash | proxy_http/src/request_parser/requestParser.c:147-155 | the shortest such input: in the state of the host, a slash |
| OriginForm.Returns | proxy_http/src/request_parser/requestParser.c:147-155 | empty values, ports alone, and values that begin with a host return |
| RequestFragments.NextFragment | proxy_http/src/request_parser/requestParser.c:53-204 | a call that finds the last push-back and a new fragment ends where an uninterrupted run ends, with the same bytes unread |
| RequestFragments.HostGrows | proxy_http/src/request_parser/requestParser.c:435-469 | the host read by earlier calls is a prefix of the host of the run, so the array is never left with stale bytes |
| RequestFragments.Feed | proxy_http/src/request_parser/requestParser.c:53-204 | for every way of cutting a request, the record with the callback calls, the state, the output and, once the host is known, the unread bytes are those of one run |
| RequestMeaning.HostSearch | proxy_http/src/request_parser/requestParser.c:396-433 | the search stops exactly at the first `host:` in any case or the first empty line, whichever is complete first, and misses none by restarting at the byte that differs |
| RequestMeaning.AuthorityRun | proxy_http/src/request_parser/requestParser.c:435-469 | host and port of a Host value: one call with the lower-cased host and the number, the byte after it left alone |
| OriginForm.TargetRun | proxy_http/src/request_parser/requestParser.c:251-295 | a target that is not absolute is forwarded, also when it begins like one |
| OriginForm.HeadersRun | proxy_http/src/request_parser/requestParser.c:374-433 | the header of the proxy is inserted unless the first header begins with X, and giving up on X-LOCALHOST loses no Host field |
| OriginForm.WholeRequest | proxy_http/src/request_parser/requestParser.c:53-204 | every GET, HEAD or POST request in origin form with a valid Host: the callback once with lower-cased host and port; out come the single-spaced request line, the inserted header and the headers through the host |
| OriginForm.WholeLoop | proxy_http/src/request_parser/requestParser.c:374-394 | a request that carries the mark is recognised as a loop, with an empty host |
| OriginForm.FeedRequest | proxy_http/src/request_parser/requestParser.c:53-204 | the same in any fragments, with exactly one callback, and the rest of the request left unread |
| AbsoluteForm.AbsoluteRun | proxy_http/src/request_parser/requestParser.c:251-334 | from the target on: `http://` in any case, host and port call back once with the lower-cased host and the number, and the byte after them and all later ones are not read |
| AbsoluteForm.WholeAbsolute | proxy_http/src/request_parser/requestParser.c:53-204 | the same from the first byte of the request, for GET, HEAD and POST |
| AbsoluteForm.FeedAbsolute | proxy_http/src/request_parser/requestParser.c:53-204 | the same in any fragments |
| OriginForm.ValueStart | proxy_http/src/request_parser/requestParser.c:396-433 | a request up to its Host value, single-spaced, whatever the value is |
| RequestErrors.BadProtocol | proxy_http/src/request_parser/requestParser.c:336-362 | a version text that leaves HTTP/1. at any byte is a version error in front of that byte |
| RequestErrors.BadVersion | proxy_http/src/request_parser/requestParser.c:336-362 | a version other than 1.0 and 1.1 is a version error, and its digit is consumed |
| RequestErrors.BadLineEnd | proxy_http/src/request_parser/requestParser.c:364-368 | a request line without CR LF is an error in front of the byte that differs |
| RequestErrors.NoHostHeader | proxy_http/src/request_parser/requestParser.c:396-433 | headers that end before any `host:` are a host error, behind the empty line |
| RequestErrors.BadHost | proxy_http/src/request_parser/requestParser.c:435-469 | a host that is followed by anything but a space, a tab, CR or a port is a host error in front of that byte |
| RequestErrors.LongHost | proxy_http/src/request_parser/requestParser.c:435-469 | the 255th byte of a host is a host error and is consumed |
| RequestErrors.MissingPort | proxy_http/src/request_parser/requestParser.c:435-469 | a colon without a digit is a host error |
| RequestErrors.BadPortEnd | proxy_http/src/request_parser/requestParser.c:435-469 | a port that is followed by anything but a space, a tab or CR is stored and is a host error |
| EmptySize.HarmlessCut | proxy_http/src/myParserUtils/myParserUtils.c:85-96 | a cut before a chunk size is harmless for everything that may follow iff the next byte is a digit, or is not CR and bodyLength is 0 |
| EmptySize.EmptyLineIsZero | proxy_http/src/response_parser/responseParser.c:475-525 | the input that shows the difference: an empty size line is an error uncut, and the end of the body after a cut |
| EmptyPort.HarmlessCut | proxy_http/src/myParserUtils/myParserUtils.c:72-83 | a cut before a port is harmless iff a digit follows, or a byte that spoils the host while the port was 0 |
| EmptyPort.EmptyPortIsZero | proxy_http/src/request_parser/requestParser.c:452-463 | the input that shows the difference: `name:` is an error uncut, and port 0 after a cut |
| Selectors.NextCapacity | proxy_http/src/selector/selector.c:179-196 | one more than the least power of two above n, capped; always above n for n up to FD_SETSIZE |
| Selectors.Selector.EnsureCapacity | proxy_http/src/selector/selector.c:257-300 | success means that n is a slot; old items are kept and new ones are unused |
| Selectors.SelectorNew | proxy_http/src/selector/selector.c:302-320 | a new selector is empty and valid, and 1024 elements give room for every descriptor |
| Selectors.Selector.ItemsMaxFd | proxy_http/src/selector/selector.c:217-233 | the greatest descriptor in use, 0 if there is none, though it looks no further than the old maximum |
| Selectors.Selector.ItemsUpdateFdsetForFd | proxy_http/src/selector/selector.c:235-250 | the descriptor is in the read set iff the lowest bit of the interest is set, in the write set iff the third is, and no other descriptor moves |
| Selectors.Selector.MakeRoom | proxy_http/src/selector/selector.c:359-366 | the guard makes a slot for a descriptor exactly if this is not the current size |
| Selectors.Selector.Register | proxy_http/src/selector/selector.c:349-388 | adds exactly this entry, or fails with the right status and changes nothing; sets and maximum stay exact |
| Selectors.Selector.SetInterest | proxy_http/src/selector/selector.c:424-442 | changes exactly this interest; afterwards 5 puts the descriptor in both sets, 1 and 4 in one, 0 in none |
| Selectors.Selector.UnregisterFd | proxy_http/src/selector/selector.c:390-422 | the entry is gone and sets and maximum are exact, also when `handle_close` changes other descriptors or unregisters them, to any depth |
| Selectors.Selector.Callback | proxy_http/src/selector/selector.c:406-411 | no sequence of operations that a handler performs breaks table, sets or maximum |
| Selectors.Selector.HandleIteration | proxy_http/src/selector/selector.c:462-495 | a pass visits the descriptors in order; each gets its read handler if due, then its write handler if still due; whatever handlers do, table, sets and maximum stay exact; it stops early only at an event that is due and has no handler, after a pass over the descriptors before it |
| Selectors.Selector.Select | proxy_http/src/selector/selector.c:549-592 | the pass over what the system call reports |
| SelectorTable.InterestBits | proxy_http/src/include/selector/selector.h:90-101 | wanting to read is the lowest bit of an interest, wanting to write the third |
| SelectorTable.InterestUnion | proxy_http/src/include/selector/selector.h:90-101 | a union of interests wants what either of them wants |
| SelectorTable.RunsOnRequest | proxy_http/src/selector/selector.c:462-495 | a handler only runs for a registered descriptor that has it and whose interest has its bit |
| SelectorTable.SilentAfterUnregister | proxy_http/src/selector/selector.c:462-495 | once a descriptor is unregistered, no handler runs for it unless it was registered again |
| SelectorTable.ExactlyOnce | proxy_http/src/selector/selector.c:462-495 | a handler that is due and whose descriptor nobody touches runs exactly once in a pass, with its data; one that is not due does not run |
| SelectorTable.RunsAtTurns | proxy_http/src/selector/selector.c:462-495 | a read or write handler only runs in the turn of its descriptor and only if ready and wanted at that moment |

## Left out

- ResponseParser.CheckResponseInner: does not say what stays in the input buffer after a rejected chunk, because the parser is not called again then.
- RequestParser.CheckRequestInner: does not say what stays in the input buffer after a rejected host, for the same reason.
- RequestFragments.Feed: nothing is stated for targets with userinfo, bad hosts in absolute targets, Host values without a host, and `host:port` texts that do not fit the reserved zone, where calls are not uniform.
- RequestParser.CheckUri: userinfo and bad or overlong hosts in absolute targets are not described.
- RequestParser.ReadHost: the same, and a host with a port that does not fit the reserved zone is described only by `PushBackHost`.
- Buffers.Buffer.Compact: unread reserved bytes are excluded, with which the move could run past the end; the source never calls it so.
- ParserUtils.MatchFormat: what is given back in front of a NUL is not stated; a NUL in framing is outside the model.
- ParserUtils.SimpleMatchFormat: the same.
- ParserUtils.SimpleGetHexNumber: numbers are unbounded, as in `GetNumber`.
- ResponseBody.ExtractChunkedBody: does not say what stays in the input buffer after a malformed chunk.
- ResponseBody.ExtractChunkedBodyTransf: the same.
- ResponseBody.ExtractBody: the same.
- ResponseBody.ExtractBodyTransf: the same.
- ParserUtils.GetNumber: numbers are unbounded here; the parser contracts exclude values of 2^31 and more, which overflow the C int.
- Selectors.Selector.Register: requires that the descriptor is not the current table size, which `MakeRoom` shows to be exactly the case the guard misses.
- Selectors.Selector.SetInterest: requires a slot for the descriptor; the source reads past the table without one.
- Selectors.Selector.Select: the errors of `pselect` and the block notifications are not modelled.
- Selectors.Selector.UnregisterFd: a close handler never unregisters a descriptor whose close handler is running, since that would recurse without end, and every descriptor has a slot, as with the 1024 elements that the proxy asks for.
- Selectors.Selector.HandleIteration: the assertion for an event without a handler, which stops the program, is a result here.
- ChunkEncoder.DumpChunk: the byte NUL that `sprintf` writes behind the text is not modelled, nor is a failing `malloc`.
- The wrappers `checkRequest`, which resets the version before every call, and `checkResponse`.
- The drain loops of the client handlers, which may also send pushed-back bytes; `Deliver` models writing one fragment, one call and sending the outputs.
- The NUL in framing, and numbers of 2^31 and more; chunk extensions and trailers are rejected (`ResponseErrors.BrokenBody`).
- `writeToTransfBuf` and `writeToStdout`, which nothing that is modelled calls.
- `selector_destroy`, blocking jobs, the selector thread, signals and the error reports of `pselect`.
- Sockets, DNS, transformation processes, logging, argument parsing, configuration, metrics, serializers and the SCTP administration protocol: I/O or simple members.
