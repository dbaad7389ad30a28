# Verified model of MiniNginx

MiniNginx is a small epoll-driven HTTP server and reverse proxy in C++. This project models
its five algorithmic components in Dafny and proves what they are for:

* **Routing** (`Routes`, `RouteTree`, `RouteTable`, `RouteText`, `RouteTheorems`,
  `RouteBuilding`). `StateTree` is a class whose trie grows in place; pointers into the trie
  are paths of child indices. `parseURL` is proved to agree with a dispatch that knows no
  tree, only the table of registered routes, and narrows that table segment by segment
  (`Routes.Dispatch`).
* **Workers** (`Workers`, `WorkersInvariant`, `WorkersTheorems`, `ServerConnections`,
  `ReverseProxy`). All workers with their connection tables and proxy tables are a state
  machine over one kernel. Every step makes at most one access to what the workers share: a
  call on the descriptor table, the accept lock, a read or a write of the id counter (so the
  increment is two steps). `accept` and `socket` may return any number that is not open, and
  the rest of the process may open and close files at any time. The serial number of a
  connection is history that the code never sees; safety is stated with it.
* **Requests on a connection** (`ChunkedBody`, `PendingRequest`, `ClientConnection`,
  `ClientReads`, `RequestServing`). The chunked loop and the Content-Length branch edit the connection buffer
  in place and may stop at any byte; `handle_client` adds what has been read, has a pending
  request handled, and searches for the end of the next head. `RequestServing` follows a
  request from its first byte to the handler.
* **HTTP** (`Url`, `UrlTheorems`, `HttpRequest`, `HttpReading`, `HttpRoundTrip`,
  `HttpResponse`, `ResponseFraming`). Percent decoding, the request parser on heads written in
  any way, the generator, and the framing of responses.
* **Configuration** (`ConfigText`, `ConfigTree`, `ConfigTheorems`, `ConfigLookup`). The
  tokenizer, the stack machine that builds the tree in place, and the lookup.

`Text` and `Numbers` hold searching and number texts; what a digit is, is said there by the two
alphabets "0123456789abcdef" and "0123456789ABCDEF". Methods follow the loops of the source
and are proved against functions; the promises are lemmas about those functions. Characters
stand for bytes. `dafny verify dfyconfig.toml` checks everything.

## Where the code and its promises differ

* The length guard of the chunked loop (src/server.cpp:322) mixes `int` with `size_t`, so in
  C++ it never stops the loop. `Decode` uses the integers its comment means; `DecodeCompiled`
  is the loop as compiled. `ChunkedBody.ReadsBehindExactly` says exactly for which bytes that
  one reads behind its buffer, `ChunkedBody.CompiledResumes` for which cuts it can be resumed,
  and "5\r\nab" is an input on which it fails.
* The bad-size branch (src/server.cpp:316-321) goes on after closing the connection. The model
  returns there.
* `handle_client` searches the bytes of a pending body for the end of a head, within bounds
  fixed before the body was handled (src/server.cpp:202-245). How the network cuts a body
  therefore does matter: `ClientReads.ReadsFollowExactly` says exactly when reads do what
  handling the pending request would, `ClientReads.DisturbedWithinOneRead` says it in terms of
  the reads, and `ClientReads.BodyClosesClient`, `ServedThenClosed` and `ServedAndKept` show
  one body of nine bytes that is lost, served and then closed, or served, by its cuts alone.
  For the same reason a head cut inside its final CR LF CR LF is never noticed
  (`ClientReads.CutHeadIsMissed`).
* The header promises `EmptyNodeName` for a chain with an empty literal name
  (headers/route_states.h:89). `RouteBuilding.EmptyNameReported` says exactly when that is
  so, `RouteBuilding.EmptyNameCanSucceed` gives a chain for which it is not.
* The correction of the '?' offset (src/http_parser.cpp:41) is wrong for an escape that is not
  accepted. `UrlTheorems.MainPathIsExact` (with a '?') and `UrlTheorems.WholePathIsExact`
  (without) say exactly when the main path is right, and the latter and
  `UrlTheorems.ViewLeavesBufferExactly` when it is a view that ends outside its buffer. "/%GG"
  has an empty main path, that of "a%%%%" leaves the buffer.
* `TRACE` as `generate_to` writes it is not recognised: six bytes are compared, so only a
  token with a zero byte behind it is. A minor version 0 is not written and then read back as
  the default, and version numbers from 1000 on are not written at all:
  `HttpRoundTrip.GeneratedIsParsed` covers these cases too.
* `remove_unescapes` (src/route_states.cpp:153-170) takes one backslash off a run of any
  length, and none at the end of the text. `RouteText.UnescapeIsLiteral` says exactly which
  texts it reads as usual, `RouteText.FourBackslashesMisread` gives two that it does not, and
  `RouteText.UnescapeEscaped` the writing it inverts.
* `send_message` adds its length next to whatever the handler has set. A transfer coding or
  another length spoils the framing: `ResponseFraming.SentIsReceived` says exactly when.

## Model

| member | source | states |
|---|---|---|
| RouteTree.StateTree.AddNewHandler | src/route_states.cpp:5-70 | On every builder chain and every tree, result and new root are those of `AddTo`; without a handler nothing changes |
| RouteTree.StateTree.ParseURL | src/route_states.cpp:79-151 | Terminates on subtree height, ids on literals included; an empty path is `EmptyURL`, otherwise handler, values and id index are those of the walk, or `Node404` |
| RouteTree.StateTree.ClearTree | src/route_states.cpp:72-77 | Leaves the childless root, which satisfies the trie invariant |
| RouteTable.AddRefinesInsert | src/route_states.cpp:5-70 | Registering a route keeps the trie invariant and is insert-if-absent on the route table: a conflict changes nothing, success adds exactly that key, and ids of shared prefixes stay those first registered |
| RouteTheorems.WalkIsDispatch | src/route_states.cpp:91-148 | From any node on, the walk below it and the dispatch over its table end alike, on every remaining path |
| RouteTheorems.ParseIsDispatch | src/route_states.cpp:79-151 | On every well-formed trie and path the walk finds exactly the route, handler, ids, values and remainder that the dispatch over the table finds, and nothing when it finds nothing |
| RouteTheorems.GrownTable | src/route_states.cpp:28-67 | After any sequence of registrations the table holds exactly the registered keys, each with the handler registered first |
| RouteTheorems.OrderDoesNotMatter | src/route_states.cpp:5-70 | Pairwise distinct routes registered in any order give trees with the same answer, handler and captured values on every path |
| RouteTheorems.LiteralRouteAnswers | src/route_states.cpp:104-125 | A route of literals answers its own path with its first handler, captures the literals, and no other registration changes that |
| RouteTheorems.SlashInFront | src/route_states.cpp:84 | A path that does not begin with '/' is answered as the same path with '/' in front |
| RouteTheorems.CapturedSpellsPath | src/route_states.cpp:97-148 | Joined captured values are the path in the catch-all case; otherwise they add only trailing '/' or drop a remainder that is "/" or starts with "//"; where "/" is the route taken there are no values |
| RouteTheorems.ParamIsFirstSegment | headers/route_states.h:52-56 | `get_param` finds nothing unless the matched route publishes the id; then it is the text bound by the first segment, literal or wildcard, with that id, extended by the rest if that segment is last in a catch-all |
| RouteTheorems.ParamIsFirstWildcard | src/route_states.cpp:191-207 | When every registered route comes from a text, the segment that answers is a wildcard |
| RouteText.RemoveUnescapes | src/route_states.cpp:153-170 | The loop writes what the state-machine reading of the text says |
| RouteText.UnescapeEscaped | src/route_states.cpp:153-170 | Unescaping undoes the writing that adds one backslash to each run of backslashes not at the end |
| RouteText.UnescapeIsLiteral | src/route_states.cpp:153-170 | Unescaping is the usual reading, where a backslash makes the next character literal, iff the text has no three backslashes in a row and does not end with two |
| RouteText.ParseFromStr | src/route_states.cpp:172-216 | Returns -1 on the empty text, -2 iff a section is empty, else 0 with one link per section and an end link, a chain fit for registration with ids on wildcards only |
| RouteText.TextIsRead | src/route_states.cpp:172-216 | Every chain of links without '/' and with trimmed ids has a text that is parsed back to it, with or without '/' in front and at the end, and with white space around the ids |
| RouteTree.SlashIsOptional | src/route_states.cpp:83-84 | One '/' in front of a path or a route text is dropped, whatever follows, and nothing else is |
| RouteBuilding.RegisterText | src/application_module.cpp:32-33 | Parsing a route text and registering it is insert-if-absent on the table of the tree, or leaves the tree alone if the text is refused |
| RouteBuilding.EmptyNameReported | headers/route_states.h:89 | `EmptyNodeName` is returned iff the part of the chain before its first empty name is not a registered route, or there is a second empty name |
| RouteBuilding.EmptyNameCanSucceed | headers/route_states.h:89 | With "/" registered, a chain with an empty name succeeds and breaks the trie invariant |
| WorkersInvariant.StepKeepsInv | src/server.cpp:115-136 | Every step of every worker keeps the invariant of tables, descriptors, ids, lock and deliveries |
| WorkersTheorems.DeliveriesAreSafe | headers/modules/reverse_proxy.h:119-146 | In every reachable state every forwarded block went to the very connection whose request opened the upstream connection |
| WorkersTheorems.ForwardMeetsLiveClient | src/modules/reverse_proxy.cpp:61-80 | Whenever a worker can forward, the target is open and is, in its own table and no other, the client with the entry's id |
| WorkersTheorems.DescriptorsPartition | src/server.cpp:115-136 | In every reachable state the descriptors opened are the disjoint union of listeners, clients, the one connection being accepted, and upstream sockets; no two workers share a listener |
| WorkersTheorems.EveryDescriptorHasOneHolder | src/server.cpp:249-262 | Each epoll set is the listener and the client table; no client or upstream descriptor has two holders |
| WorkersTheorems.ClientIdsAreUnique | headers/client.h:44-49 | Equal ids mean the same worker and the same descriptor |
| WorkersTheorems.ClientIdsAreNeverReused | headers/client.h:39-49 | Over any run an id stays with its connection, and no connection gets two |
| WorkersTheorems.AcceptExcludes | src/server.cpp:120-135 | The accept lock keeps two workers from interleaving the halves of the id increment |
| WorkersTheorems.ForwardsAreLogged | src/modules/reverse_proxy.cpp:61-80 | Over any run every forwarded block is among the deliveries, with the connection whose request opened the upstream and what the target was at that moment, and nothing else is |
| WorkersTheorems.CloseLeadsToCleanup | src/server.cpp:383-387 | After a handler's reverse client asks to close, or cannot connect, its worker's next step is the cleanup of that client; the timer goes on |
| WorkersTheorems.TimerTurnsToAll | headers/modules/reverse_proxy.h:119-129 | No run gets past an entry the timer has found without turning to it |
| WorkersTheorems.StaleEntriesOccur | headers/modules/reverse_proxy.h:131-146 | A reachable state has an entry that outlived its client while its descriptor number serves another: the pruning is needed |
| ServerConnections.Server.CleanupConnection | src/server.cpp:249-262 | Does to table, epoll set and kernel what the step `Cleanup` does, or reports that the client is not there and changes nothing |
| ReverseProxy.ModReverseProxy.ClearUnusedConnections | headers/modules/reverse_proxy.h:131-146 | Keeps exactly the entries keyed by the id of a connected client and closes exactly the sockets of the others |
| ReverseProxy.ModReverseProxy.FindOrMake | src/modules/reverse_proxy.cpp:22-26 | Does to the entries what the step `Request` does: an existing entry of the client is kept |
| ReverseProxy.ModReverseProxy.ConnectServer | src/modules/reverse_proxy.cpp:45-59 | Does nothing when connected; otherwise closes the old socket, keeps the new one, and reports whether it is connected |
| ReverseProxy.ConnectIsSteps | src/modules/reverse_proxy.cpp:45-59 | The steps of a worker on an unconnected entry add up to `connect_server`, even if the kernel reuses the number just closed |
| ReverseProxy.PruneStepTowards | headers/modules/reverse_proxy.h:141-145 | Dropping one entry, at any point of an interleaving, leads to the same pruned table and the same closed sockets |
| ChunkedBody.DecodeResumes | src/server.cpp:310-342 | With the guard its comment means, decoding a prefix, stopping and resuming with more bytes gives verdict, body and leftover of decoding all at once |
| ChunkedBody.DecodedChunks | src/server.cpp:310-342 | With that guard, however decoding ends, the bytes received are the wire form of the chunks taken plus the leftover, and the body is their data |
| ChunkedBody.DecodeIsExact | src/server.cpp:310-342 | Decoding is done with a body and a leftover iff the bytes are chunks carrying that body, a last chunk, and that leftover |
| ChunkedBody.DecodeUndoesEncode | src/server.cpp:310-342 | Decoding the chunk encoding of any non-empty parts, with size lines in hexadecimal digits of either case and any extensions, yields their concatenation and leaves what follows |
| ChunkedBody.CompiledIsDecode | src/server.cpp:322-341 | The loop as compiled does the same unless it should wait inside a chunk: then it reads behind the buffer, or finds a wrong byte behind the data one byte early |
| ChunkedBody.ReadsBehindExactly | src/server.cpp:322-333 | The loop as compiled reads behind the buffer iff the bytes are whole chunks, a complete size line, and then no more than the data, or the data and a CR |
| ChunkedBody.WaitsExactly | src/server.cpp:313-314 | It waits iff the bytes are whole chunks and the beginning of a size line |
| ChunkedBody.CompiledResumes | src/server.cpp:310-342 | For the loop as compiled, stopping and going on equals decoding all at once iff the first part alone stays inside the buffer or even the whole does not |
| ChunkedBody.ShortChunkReadsBehind | src/server.cpp:322-341 | "5\r\nab" is read behind its end; with "cde\r\n" behind it, it is decoded |
| PendingRequest.ReadBoundariesDoNotMatter | src/server.cpp:296-366 | However the bytes of a body are divided among repeated calls of `handle_pending_request`, for every framing, answer, body and leftover are the same |
| ClientConnection.ClientInfo.ReadChunk | src/server.cpp:311-341 | One turn takes size line, data and four bytes off the buffer, or says why not; data without a terminator is in the body already |
| ClientConnection.ClientInfo.ReadChunks | src/server.cpp:310-342 | The loop terminates and leaves buffer, body and verdict of `Decode` |
| ClientConnection.ClientInfo.ReadChunkCompiled | src/server.cpp:311-341 | One turn with the guard on unsigned numbers of 64 bits: the turn of the compiled loop, or None where it reads behind the buffer |
| ClientConnection.ClientInfo.ReadChunksCompiled | src/server.cpp:310-342 | That loop leaves buffer, body and verdict of `DecodeCompiled`, or None |
| ClientConnection.ClientInfo.HandlePendingRequest | src/server.cpp:264-369 | The answer, the new buffer and body, and the bytes left behind the buffer, for every method and framing; pending ends exactly when the handler may run |
| ClientConnection.ClientInfo.HandleClient | src/server.cpp:198-246 | The fate of the client and its new state for any bytes read: the pending request handled first, then the search over the storage as it was bounded before, then a new head parsed and handled |
| ClientConnection.ReadHead | src/server.cpp:215-231 | `parse` on a new request makes of a head, from its first capital letter on, what `HandleClient` takes it for |
| RequestServing.BodilessAnswer | src/server.cpp:277-294 | A GET, HEAD, OPTIONS, CONNECT or TRACE is rejected if it has a Transfer-Encoding or a Content-Length, and else served at once |
| RequestServing.CodedAnswer | src/server.cpp:296-344 | For a PUT, PATCH, DELETE or POST "Transfer-Encoding: chunked" is decoded even beside a Content-Length, another coding is ignored for ever, and neither header means served at once |
| RequestServing.LengthAnswer | src/server.cpp:345-362 | For these, a Content-Length that starts with the number n takes exactly n bytes, or waits with fewer |
| RequestServing.NoLengthAnswer | src/server.cpp:347-360 | A Content-Length that starts with no digit is as good as none |
| RequestServing.HeadEndsAtItsEnd | src/server.cpp:209-212 | The first CR LF CR LF in front of any bytes is the end of the head |
| RequestServing.HeadIsHandled | src/server.cpp:209-242 | When a read completes a head, the client is closed if it cannot be parsed, and else its request is handled with exactly the bytes behind it |
| RequestServing.LengthIsServed | src/server.cpp:209-368 | A request with a length is served with exactly that many bytes and leaves the rest; with fewer it waits and loses none |
| RequestServing.ChunksAreServed | src/server.cpp:209-368 | A chunked request is served with the data of its chunks and leaves the rest |
| RequestServing.CutChunksWait | src/server.cpp:209-342 | Cut inside a size line it waits with the data of its whole chunks |
| RequestServing.BodilessIsServed | src/server.cpp:209-294 | A request without a body is served at once and leaves what follows; one that announces a body closes the client |
| RequestServing.RestOfBodyIsServed | src/server.cpp:202-368 | A waiting request is served with its bytes when undisturbed reads bring them, however they are cut |
| ClientReads.ReadIsFeed | src/server.cpp:202-245 | One read does what one more call of `handle_pending_request` would iff that closes the client or the searched text holds no CR LF CR LF |
| ClientReads.AstrayExactly | src/server.cpp:211-238 | The head found lies partly behind the buffer iff handling the pending request has taken so many bytes off it |
| ClientReads.ReadsFollowExactly | src/server.cpp:202-245 | Over any number of reads the client follows its pending request iff no search before it is closed finds a CR LF CR LF |
| ClientReads.UndisturbedCutsAgree | src/server.cpp:202-245 | Two ways of cutting the same bytes into reads, both undisturbed, leave the client in the same place |
| ClientReads.DisturbedWithinOneRead | src/server.cpp:202-245 | While nothing is taken off the buffer, a client is disturbed, or a head noticed, iff a CR LF CR LF lies within one read, or within the unsearched bytes and the first |
| ClientReads.CutHeadIsMissed | src/server.cpp:209-245 | A head cut into two reads inside its CR LF CR LF is never noticed |
| ClientReads.BodyClosesClient | src/server.cpp:209-222 | A blank line in the first read of a nine-byte body closes the client that waits for the rest |
| ClientReads.ServedThenClosed | src/server.cpp:202-222 | The same body in one read is served, and the client closed because the erased bytes are searched |
| ClientReads.ServedAndKept | src/server.cpp:202-245 | The same body cut inside the blank line is served, and the client stays |
| Url.URL.ParseRawUrl | src/http_parser.cpp:7-58 | Full path, end of the main path and raw path on every text, malformed escapes included |
| UrlTheorems.FullPathIsDecoding | src/http_parser.cpp:29-51 | On accepted escapes the full path is the percent decoding of the text |
| UrlTheorems.MainPathIsExact | src/http_parser.cpp:14-56 | With a '?', the main path is the decoding of the part before the first raw '?' iff every escape before it is accepted |
| UrlTheorems.WholePathIsExact | src/http_parser.cpp:29-56 | Without a '?', the main path is the full path iff the unread '%'s exceed the rejected escapes plus twice the accepted ones by nothing, or by one more than the full path is long; it leaves the buffer iff by more still |
| UrlTheorems.WholePathIsMain | src/http_parser.cpp:53-56 | Without a '?', the main path of a well-escaped text is its whole decoding |
| UrlTheorems.ViewLeavesBufferExactly | src/http_parser.cpp:37-55 | With a '?', the main path leaves the buffer iff twice the faulty '%'s before it, less one for a '%' right in front of it, exceed the decoding of what follows |
| UrlTheorems.ViewLeavesBuffer | src/http_parser.cpp:37-55 | "a%%%%" has full path "a" and a main path that ends outside it |
| UrlTheorems.MalformedEscapeEmptiesMainPath | src/http_parser.cpp:39-43 | "/%GG" has a non-empty full path and an empty main path |
| UrlTheorems.EncodedPathIsMain | src/http_parser.cpp:7-58 | Any path, '?' and '%' included, written with escapes of either case, with '+' for blanks or plainly, in front of any query or of none, is the main path |
| UrlTheorems.HexIsStrtol | src/http_parser.cpp:33-39 | Two characters are read as `strtol` in base 16 reads a text of these two |
| HttpRequest.HTTPRequest.Parse | src/http_parser.cpp:68-174 | The code, and on success method, URL, version and headers, on every text whose version numbers do not start with a sign or blanks |
| HttpRequest.HTTPRequest.ReadHeaderLines | src/http_parser.cpp:129-173 | The header loop on every text: first value of a name wins, the empty line must end the text |
| HttpRequest.HTTPRequest.GenerateTo | src/http_parser.cpp:183-229 | The bytes written for any order of the header map |
| HttpReading.LineIsRead | src/http_parser.cpp:142-167 | A token, ':', a run of blanks or tabs and a value are read as name and value iff the run is no longer than 33, and else there are too many spaces |
| HttpReading.LineIsExact | src/http_parser.cpp:142-167 | A line is read as a field iff it is written so |
| HttpReading.BadLineCodes | src/http_parser.cpp:144-146 | Lines that start with a blank, and lines without a colon, are refused with their own codes |
| HttpReading.LinesAreParsed | src/http_parser.cpp:130-169 | Any number of lines are read, names repeated included: what was there stays, then the first line of a name counts |
| HttpReading.HeadersAreFirst | src/http_parser.cpp:163-167 | The headers so stated are those of the first line of each name |
| HttpReading.MethodIsPrefix | src/http_parser.cpp:231-247 | A token is a method iff it starts with its name, CONNECT by five letters, TRACE with a zero byte |
| HttpReading.VersionTail | src/http_parser.cpp:99-131 | Behind a version CR and one more byte, whatever it is, are skipped; CR as the last byte throws; anything else is refused |
| HttpReading.NoTargetIsParsed | src/http_parser.cpp:79-89 | Without a second blank the rest of the text is target and version at once |
| HttpReading.WrittenIsParsed | src/http_parser.cpp:68-174 | Any head of a method, a target without blanks, a version and header lines, with any blanks behind the colons and any names repeated, is read as just that, unless the method is TRACE or a run of blanks is too long |
| HttpReading.MethodNameIsRead | src/http_parser.cpp:231-268 | Every method name is read back as its method, except TRACE, which is read as invalid |
| HttpRoundTrip.GeneratedIsParsed | src/http_parser.cpp:68-229 | Parsing a generated request succeeds iff the method is valid and not TRACE, the version numbers are below 1000 and there is no body; then method, URL text, version and the whole header map come back for any map order |
| HttpRoundTrip.ParseGenerated | src/http_parser.cpp:68-229 | The same of the objects; the raw path of the parsed URL is the generated one iff that begins with '/' |
| HttpResponse.HTTPResponse.CheckoutData | src/http_parser.cpp:333-346 | In length mode the Content-Length header becomes the body length, other headers stay |
| HttpResponse.HTTPResponse.GenerateTo | src/http_parser.cpp:288-331 | The bytes written for any order of the header map |
| HttpResponse.HTTPResponse.SendMessage | src/server.cpp:411-416 | What is sent is the response text with the length of its body in it |
| ResponseFraming.SentIsReceived | src/server.cpp:411-416 | A receiver after section 6.3 of RFC 9112 takes exactly version, code, reason and body off the stream, whatever follows, iff the status code has three digits and either the response is of a kind without a body and has none, or no other header is a transfer coding, a different length, or malformed |
| ResponseFraming.StreamIsReceived | src/server.cpp:411-416 | Any number of such responses on one connection are told apart again |
| ConfigText.Tokenize | src/config.cpp:7-78 | The tokens are those of the character machine |
| ConfigText.TokensAreRead | src/config.cpp:7-78 | Bare, quoted and mark tokens, in any writing of the quoted ones and with any white space that keeps tokens apart, are read back |
| ConfigText.QuotedIsRead | src/config.cpp:22-54 | A backslash makes a backslash or a quote literal and stands for itself elsewhere; characters right in front of the quotes join the token |
| ConfigTree.Config.AnalyseWords | src/config.cpp:80-146 | The stack of pointers into the tree under construction gives result and tree of the machine on open nodes |
| ConfigTree.Config.LoadFromBuffer | src/config.cpp:7-78 | Result and tree of loading a text; the empty text is `EOFTooEarly` |
| ConfigTheorems.LoadUndoesWrite | src/config.cpp:7-146 | Any forest of named nodes, in any writing of its tokens and with any such white space, loads as exactly that forest; only the empty text does not load |
| ConfigTheorems.SemicolonAfterBlock | src/config.cpp:103-132 | In any text a ';' behind a '}' outside quotes changes nothing |
| ConfigTheorems.SemicolonBeforeBlockEnd | src/config.cpp:91-132 | In any text a ';' in front of a '}' outside quotes changes nothing: a last statement needs none |
| ConfigTheorems.WrongIsExact | src/config.cpp:91-139 | The stack holds the open depth plus two entries, and the run fails iff some token is wrong |
| ConfigTheorems.WrongGrammarIsExact | src/config.cpp:91-139 | Loading fails iff some '{' has no name before it or some prefix closes more blocks than it opened |
| ConfigTheorems.LoadedNodesAreNamed | src/config.cpp:141-145 | In a loaded tree every node is named iff all blocks are closed or the text ends inside a statement |
| ConfigLookup.GetNodeRecursive | src/config.cpp:148-190 | The nested loops terminate and return what the recursive search finds |
| ConfigLookup.FindIsExact | src/config.cpp:148-190 | The search finds a path iff it leads along the location: the first child of each name, at the last level the k-th or else the last one; it finds nothing iff none does |

## Left out

- Sockets, epoll calls, name resolution and errno: only their effect on the descriptor table and a non-deterministic outcome are modelled.
- ClientConnection.ClientInfo.HandlePendingRequest: waits inside a chunk, as the guard is meant; `ReadChunksCompiled` is the loop as compiled, and `CompiledIsDecode` the exact difference.
- ClientConnection.ClientInfo.ReadChunks: the same.
- ClientConnection.ClientInfo.ReadChunk: the same.
- ClientConnection.ClientInfo.HandleClient: handles chunked bodies with that guard; the events of epoll, the reading loop and the size limit (src/server.cpp:138-196) come before it, and a handler that closes the client ends it early. Bytes that erasing left behind the end of the buffer are read as they stand, which C++ leaves undefined.
- HttpRequest.HTTPRequest.Parse: a version number with blanks or a sign in front, which `strtol` takes, is refused.
- Uses of a client after its own cleanup (src/server.cpp:387-395): closing a client ends the step of that client.
- Number texts that start with blanks, a sign or `0x`: `strtol` reads them, `Numbers.Leading` does not; numbers are not bounded to machine width.
- A wildcard with a non-empty blank id, such as `{ }`: the source builds an inverted range (src/route_states.cpp:194-202), `ParseFromStr` excludes it.
- Addresses: trie and configuration nodes are held by value as in the source, pointers are paths of child indices, and vectors that move their elements are not visible.
- The accept loop, the ping sweep and the timer loop as loops: they are sequences of `Accept`, `Cleanup` and `SweepNext` steps, so that other workers can come in between.
- Sending the 400 and 404 responses, calling the handler and `HandleResult`: the model stops where the request is passed on.
- Trailer fields after the last chunk (section 7.1.2 of RFC 9112): the code refuses them, and so does the model.
- Case-insensitive header names: the header maps of the source compare names exactly.
- The file proxy, logger, clock, command line, configuration values and their units, reloading, and shutting down: input and output, or one-branch members.
- Memory pools, string_view lifetimes and thread-local caches: values are used instead.
