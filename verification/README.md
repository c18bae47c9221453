# RApp in Dafny

A model of the stateful core of RApp, the C web application container, with proofs of what that core keeps
over whole runs. What the modelled C code does to its objects step by step are methods here, most of them of a
class for that object, proved against specification functions on values; the properties are lemmas about those
functions.

- `EventLoop.dfy`: the watch list of `src/eloop.c`, a hand-linked list that shadows the kernel's epoll set,
  refines a map from descriptor and kind to handler.
- `Lifecycle.dfy`: the life of a connection across `src/httpserver.c`, `src/httpconnection.c`,
  `src/tcpconnection.c`, `src/collector.c` and the dispatch loop. A descriptor is closed at once, the object
  freed later; descriptor numbers are reused, so each open file also has a serial number that is not.
  `Server.Run` is the whole loop; `EveryRunIsSafe` is about every interleaving.
- `Lifetimes.dfy`: what a whole run does to one connection, in terms of what the kernel reports: why it is
  scheduled, when it is closed, and that no byte of its responses is lost, doubled or reordered.
- `Response.dfy`: the response buffer as a byte queue, the HTTP/1.1 printer, and an independent reader in the
  terms of RFC 7230 that reads the printed pages back.
- `Router.dfy`: chained packs of bindings refine a flat list; the two match modes.
- `ConfigStore.dfy`, `ValueTexts.dfy`, `ConfigYaml.dfy`, `YamlReader.dfy`, `ConfigEnv.dfy`, `CommandLine.dfy`, `Names.dfy`,
  `Layering.dfy`, `StartUp.dfy`: the configuration store, its three sources, and how they are layered at
  start-up. `ConfigYaml` reads tokens by recursion on values and has the theorems, among them exactly which token
  streams are accepted; `YamlReader` has the source's loops over a token parser, equal to it.
- `RequestQueue.dfy`, `RequestTokens.dfy`, `QueueObject.dfy`: parser callbacks that store ranges into a buffer
  which is later copied and shifted. The first has the callbacks as steps, what every sequence of events keeps,
  and exactly when all of them are in range; the second, that requests which arrive in pieces read back; the
  third, the object in memory.
- `Prelude.dfy`, `Buffers.dfy`: what several files share.

List nodes, route packs and connection objects that C code reaches through pointers live in maps from
addresses to records, one map for each kind of object, held by the object that owns them; a freed object is
absent from its map. Ghost fields record what the C code cannot see: the kernel's interest set, the file
behind a descriptor, how often each file was closed and each object freed, every byte ever appended to a
response.

What the outside world does is a parameter: kernel events and the answers of `accept4` and `recv`, the tokens
of libyaml, the events of `http_parser` and argp, the environment, the formatted date, the answers of
containers.

## Where the code does less than its words say

- `src/httprouter.c:233-236` says that the scan in LONGEST mode keeps the longest match. It keeps the last one.
  `Router.LongestExactly` gives the exact condition on the bindings under which the two agree for every URL, and
  `Router.LongestCanFail` a table on which they do not.
- Error pages carry a body for every code. Under section 3.3.3 of RFC 7230 a reader does not look for one after
  1xx, 204 and 304, so a stream with such a page does not read back; measured by Content-Length alone every
  stream does. `Response.StreamReadsBack` states both, exactly; `NoContentDoesNotReadBack` is an instance.
- `yaml_skip_section` has no way out but a block end: a stream that ends inside an unknown section keeps the
  reader scanning for ever. `ConfigYaml.DocumentHaltsExactly` gives the exact condition, `ReadingCanHang` an
  instance.
- `src/config/common.c:158-159` stores, for a boolean text, whether an expression compiles; the stored value is 1
  for every text recognised as a boolean. Nothing is claimed here about true and false. Which texts are
  recognised follows the expression as written, where only the first alternative is anchored at the start and
  only the last at the end.
- Boolean options get no argument on the command line (`src/config/commandline.c:109-118`) and the handler
  rejects a missing argument, so no boolean can be set there: `CommandLine.BooleansStay`.
- Only the flag 1 lets an option take a list from its variable (`src/config/env.c:77`), while the store holds
  several values under any flag but 0. `ConfigEnv.ListReadsBack` is exact, `FlagTwoKeepsText` an instance.
- The hundredth request is marked last, but nothing in the queue stops the parser there: the next message is
  written behind the slots (`RequestTokens.ConnectionReadsBack`). A body in the append that ends its head is read
  behind the place it was moved to (`RequestQueue.BodyBesideHead`), and one without an announced positive length
  is copied to where nothing was reserved (`UnannouncedBodyFaults`). `InRangeExactly` is the exact condition, over
  whole connections, for what the callbacks index and read. Where they would be out of range, the model stops with
  the verdict `Faults`.
- The bytes of a body stay in the buffer, and the next request's header copy misses as many at its end:
  `RequestTokens.LeftoverExactly` says which of its ranges are still right.
- An option row far enough down the table would have one of argp's own keys; `CommandLine.KeysInvert` says that
  these are the only keys that do not lead back to their option, and `ArgpOwnsKey` has such a table.
- Names of options in different sections can coincide outside (`Names.NamesCanCollide`).

## Model

| member | source | states |
|---|---|---|
| EventLoop.LastCallDecides | src/eloop.c:156-231 | Over every sequence of add and remove calls, a descriptor and kind is watched exactly when the last call about it added it, with that call's handler; a descriptor without handlers is not in the table. |
| EventLoop.Replay | src/eloop.c:156-231 | Any calls on a loop that watches nothing leave exactly the watches, and for each descriptor and kind the handler, that LastCallDecides speaks of. |
| EventLoop.MaskUpdate | src/eloop.c:134-154 | Setting or clearing one kind's epoll bit moves the mask as setting or clearing that kind's callback does; the mask is zero exactly when no callback is left. |
| EventLoop.Entry.Uninstall | src/eloop.c:213-219 | After a kind is uninstalled the mask still has exactly the bits of the remaining callbacks, and it is zero exactly when there are none. |
| EventLoop.WithoutKeepsOthers | src/eloop.c:222-225 | Dropping one position of a repetition-free chain leaves exactly the other nodes, each once. |
| EventLoop.LinkedUnlinkInner | src/eloop.c:222-226 | Bridging the predecessor over an inner node and freeing it leaves a well-linked list of exactly the other nodes. |
| EventLoop.LinkedUnlinkHead | src/eloop.c:222-226 | The same for the head of the list. |
| EventLoop.MirroredRegister | src/eloop.c:183-190 | Registering a node with the mask of its callbacks keeps kernel set and list equal. |
| EventLoop.MirroredFree | src/eloop.c:219-230 | Freeing a node and deregistering its descriptor keeps kernel set and list equal, and drops exactly that descriptor from the watches. |
| EventLoop.ELoop.FindCallbackByFd | src/eloop.c:114-132 | The search finds the node of the descriptor together with its predecessor, or there is none in memory. |
| EventLoop.ELoop.AddFdWatch | src/eloop.c:156-195 | The list and the kernel set come to mean the old watches with this one handler installed; ADD is issued exactly for an unregistered descriptor, MOD for a registered one; no other node goes away. |
| EventLoop.ELoop.RemoveFdWatch | src/eloop.c:197-231 | Fails exactly for a descriptor without entry; otherwise the watches lose exactly that handler, and the node is freed and DEL issued exactly when it was the last one. |
| EventLoop.ELoop.OneEntryPerFd | src/eloop.c:114-132 | There is exactly one node for each watched descriptor and none for any other. |
| Lifecycle.EveryRunIsSafe | src/eloop.c:84-103 | Over every interleaving of kernel events (any descriptor, any answers of the system calls) and frees: nothing is freed or closed twice, and whenever the collector is empty every freed connection was closed exactly once, every live one still owns the very file it was accepted for, and every watch but the listener's is a live connection's. |
| Lifecycle.StepKeepsInv | src/httpconnection.c:42-110 | One event or one free keeps the invariant that relates connections, collector, watch table and kernel descriptors, and leaves nobody closed but unscheduled. |
| Lifecycle.BetweenPasses | src/eloop.c:102 | With an empty collector the invariant gives the facts that hold between passes. |
| Lifecycle.DestroyClosesOwnFile | src/tcpconnection.c:58-80 | A deferred destroy closes its own file or nothing: whatever the kernel has since opened under the same descriptor number stays open; it takes exactly the head off the collector's list. |
| Lifecycle.AcceptKeepsInv | src/tcpserver.c:88-118 | Accepting on any descriptor number that is not open, used before or not, keeps the invariant, and that number has no watch left. |
| Lifecycle.CloseKeepsInv | src/tcpconnection.c:68-80 | Closing a connection, already closed or not, keeps the invariant. |
| Lifecycle.FreeKeepsInv | src/collector.c:93-101 | Freeing the closed head of the collector's list keeps the invariant. |
| Lifecycle.ReadKeepsInv | src/httpconnection.c:42-70 | The read handler keeps the invariant however many requests it serves and whether or not it finishes the connection. |
| Lifecycle.HandlerOwner | src/tcpconnection.c:130-160 | A watch's handler is the listener's, or the right one of three of a live connection on that descriptor. |
| Lifecycle.CloseFinishSettles | src/httpconnection.c:98-110 | Closing and then finishing leaves no closed connection unscheduled, and its descriptor unwatched. |
| Lifecycle.ThreeAdds | src/tcpconnection.c:139-155 | Adding the three watches one after the other gives exactly the connection's handlers. |
| Lifecycle.ThreeRemoves | src/tcpconnection.c:74-76 | Removing them one after the other leaves the descriptor unwatched. |
| Lifecycle.AnsweredIs | src/httpconnection.c:112-135 | Serving requests appends their texts in order and leaves the mark of the last one. |
| Lifecycle.ReadDoes | src/httpconnection.c:42-70 | A read that brings data appends the texts of the served requests and takes over the last mark; it schedules the connection exactly after a hard error or rejected data, and changes nothing else. |
| Lifecycle.WriteDoes | src/httpconnection.c:72-96 | A write hands over a non-empty front of what is pending and keeps the rest; with nothing pending it does nothing unless the response is marked last. |
| Lifecycle.CloseDoes | src/httpconnection.c:98-110 | Closing takes the descriptor and its watches away, closes the connection's own file, keeps the response, and schedules the connection. |
| Lifecycle.Collector.ScheduleFree | src/collector.c:57-84 | An object is put in front of the list unless it is already scheduled. |
| Lifecycle.Server.TcpConnectionClose | src/tcpconnection.c:68-80 | Removes the three watches and closes the file the connection was made for, once; a second close does nothing. |
| Lifecycle.Server.OnRequestFinish | src/httpserver.c:31-42 | Schedules the connection at most once, however often it finishes. |
| Lifecycle.Server.OnRead | src/httpconnection.c:42-70 | Finishes the connection on a read error other than EAGAIN or on rejected data, and otherwise only serves the requests in the data, in order. |
| Lifecycle.Server.OnNewRequest | src/httpconnection.c:112-135 | The response is marked last as the request is, and the container's text is appended to it. |
| Lifecycle.Server.OnWrite | src/httpconnection.c:72-96 | Hands over at most one buffer from the front of the response; closes and finishes only when nothing is pending and the response is marked last. |
| Lifecycle.Server.OnPeerClose | src/httpconnection.c:98-110 | Closes the connection at once and schedules its memory. |
| Lifecycle.Server.OnIncoming | src/tcpserver.c:88-118 | A new connection owns a fresh file under its descriptor number and is watched for all three kinds; a failed accept changes nothing. |
| Lifecycle.Server.SetCallbacks | src/tcpconnection.c:130-160 | An unwatched descriptor comes to be watched for exactly the connection's three kinds. |
| Lifecycle.Server.DestroyFirst | src/httpconnection.c:173-188 | Destroying the head of the list closes it if it is still open, then frees it and its TCP connection. |
| Lifecycle.Server.Collect | src/collector.c:86-102 | Frees exactly the scheduled connections, each once, and leaves the collector empty. |
| Lifecycle.Server.Invoke | src/eloop.c:88-100 | Runs the handler that is installed for the entry and kind, if any; an entry already removed in this pass has none. |
| Lifecycle.Server.Dispatch | src/eloop.c:88-100 | One event: close, then read, then write, each if flagged and still installed. |
| Lifecycle.Server.Run | src/eloop.c:76-106 | Over any number of passes with any batches: every event is delivered, in order and kind by kind, the collector is drained after each pass, and at the end the world is at rest. |
| Lifetimes.EventDoes | src/eloop.c:88-100 | One event on a connection's descriptor, over the fields: what was pending and what the served requests wrote is handed over first in, first out; the connection is closed if and only if the peer closed or a write finds it drained and marked last; it is scheduled if and only if that happened, or a hard error, or rejected data. |
| Lifetimes.EventSpares | src/eloop.c:88-100 | An event on any other descriptor leaves a connection, its descriptor and its place in the collector alone. |
| Lifetimes.FreeSpares | src/collector.c:86-102 | A free takes exactly the head of the collector's list away and leaves every other connection alone. |
| Lifetimes.ScheduledForCause | src/httpconnection.c:42-110 | Over every run a connection enters the collector's list only by an event on its own descriptor: a peer close, a hard error, rejected data, or a write that finds it drained and marked last. |
| Lifetimes.BytesAreConserved | src/httpconnection.c:72-96 | Over every run, for a connection still live at its end: what was handed over to the socket followed by what is pending is what was pending followed by all texts of the requests served for it. |
| Lifetimes.ListenerEvent | src/tcpserver.c:88-118 | An event on the listener makes one new connection on a descriptor that was not open, with nothing pending and not marked last, if it is readable and accept answers one; otherwise it does nothing. |
| Lifetimes.GoneStaysGone | src/collector.c:86-102 | A freed connection stays freed over every run. |
| Response.StreamReadsBack | src/httpresponse.c:319-382 | Error pages for any known codes, written one after another, read back as exactly those codes, reasons, headers and bodies, if and only if no code is one whose body the reader's framing ignores (1xx, 204, 304 under section 3.3.3 of RFC 7230). |
| Response.StreamsAreUnique | src/httpresponse.c:319-382 | With Content-Length framing two lists of pages with equal text have equal contents. |
| Response.NoContentDoesNotReadBack | src/httpresponse.c:319-382 | The smallest stream that does not read back: the error page of code 204, read by section 3.3.3. |
| Response.WriteErrorPages | src/httpresponse.c:319-382 | Writing one error page after another, each marked last or not, appends exactly the stream that StreamReadsBack reads, and the returned totals add up to its length. |
| Response.MessageReadsBack | src/httpresponse.c:319-382 | One page followed by anything reads back as its code, reason, fields and body, and leaves exactly what follows. |
| Response.PageFieldFacts | src/httpresponse.c:236-240 | The Content-Length field is the length of the body, Content-Type, Server and Date are there with their values, and a Connection field with value Close is there exactly when the page is marked last. |
| Response.StatusLineReadsBack | src/httpresponse.c:161-185 | No status line of the table is truncated by the 36 byte limit, and each reads back as its code and reason. |
| Response.DecimalReadsBack | src/httpresponse.c:339 | Reading a printed number gives the number. |
| Response.FieldsReadBack | src/httpresponse.c:187-206 | Printed header fields read back up to surrounding blanks, and the reader stops at the empty line. |
| Response.BodyShowsMessage | src/httpresponse.c:106-115 | Without its tags an error page's body is the status message twice, as title and as heading. |
| Response.LineReadsBack | src/httpresponse.c:175-185 | A line without CR or LF is read up to exactly its own CRLF. |
| Response.MessageFacts | src/httpresponse.c:44-104 | Every message of the status table fits its line, has a three-digit code and no line break. |
| Response.StatusMessageByCode | src/httpresponse.c:148-159 | The scan finds the message of the first row with the code, or none. |
| Response.HTTPResponse.AppendData | src/httpresponse.c:249-268 | Appends exactly the data; all bytes ever appended stay equal to those read followed by those buffered. |
| Response.HTTPResponse.ReadData | src/httpresponse.c:270-300 | Moves exactly the front of the buffer out, as much as is there and fits, keeps the rest in order, and keeps the same conservation law over every interleaving of appends and reads. |
| Buffers.MoveDown | src/httpresponse.c:292 | The overlapping move keeps every remaining byte. |
| Response.HTTPResponse.WriteStatusLineByCode | src/httpresponse.c:161-173 | Fails exactly for an unknown code, without touching the buffer. |
| Response.HTTPResponse.WriteHeader | src/httpresponse.c:187-206 | Appends one header line and returns the growth of the buffer. |
| Response.HTTPResponse.EndHeaders | src/httpresponse.c:208-247 | Appends Server, Date, Connection when last, and the empty line, and returns the growth; without a date it fails after Server. |
| Response.HTTPResponse.WriteErrorByCode | src/httpresponse.c:319-382 | Appends exactly the page that MessageReadsBack reads, and returns exactly the growth of the buffer; fails for an unknown code or a missing date. |
| Router.LongestExactly | src/httprouter.c:220-241 | LONGEST mode picks a longest matching route for every URL if and only if no route is bound after a longer route of which it is a proper prefix, unless that longer route is bound again later. |
| Router.LongestCanFail | src/httprouter.c:233-236 | A table of two routes on which LONGEST mode picks the shorter match. |
| Router.MatchesFormChain | src/httprouter.c:227 | All routes that match one URL are prefixes of one another. |
| Router.CommonPrefixIsMatch | src/httprouter.c:226-227 | A common prefix as long as the route means that the route is a prefix of the URL. |
| Router.Strmatch | src/httprouter.c:182-196 | The loop returns the length of the longest common prefix of the URL and the stored route, never reading past either. |
| Router.AppendToTail | src/httprouter.c:119-131 | Writing a binding into a tail with room appends it to the flat list and keeps every other binding. |
| Router.AppendNewPack | src/httprouter.c:116-118 | The same when the tail is full and a new pack is linked behind it. |
| Router.HTTPRouter.RoutePackBind | src/httprouter.c:107-133 | Binds in the pack, or in one new pack behind it, and returns the pack that was used. |
| Router.HTTPRouter.Bind | src/httprouter.c:158-180 | Fails exactly for routes longer than 1023; otherwise the pack chain means the old list with exactly this binding behind it, only the tail has room and the tail pointer is the tail. |
| Router.HTTPRouter.SetDefaultContainer | src/httprouter.c:146-156 | Sets the container that is asked first. |
| Router.HTTPRouter.Covers | src/httprouter.c:226-227 | A binding is chosen exactly when its route is a prefix of the URL. |
| Router.ScanStep | src/httprouter.c:225-237 | Looking at one more binding extends the choice so far by that binding. |
| Router.HTTPRouter.Select | src/httprouter.c:220-239 | FIRST mode selects the least index whose route is a prefix of the URL, LONGEST mode the greatest, and the null container if there is none. |
| Router.HTTPRouter.Serve | src/httprouter.c:199-242 | The default container is asked first and alone if it answers 0; otherwise the selected container is asked and its answer returned. |
| ConfigStore.ValuesHaveOrigins | src/config/common.c:62-101 | Over every sequence of operations on a new option: the counter equals the list length, every value was stored by one call, in call order, and every integer was inside the range in force when it was accepted. |
| ConfigStore.NthReadsAt | src/config/api.c:166-253 | Reading a position answers the value there, if the option may have several or the position is the first; without values the default, at position 0 only; and nothing in every other case. |
| ConfigStore.AddedDoes | src/config/api.c:93-127 | An added option is at the end of the first section of its name, or in a new section at the end; every other option stays as and where it was. |
| ConfigStore.ValidNameExactly | src/config/api.c:18-46 | A name is valid exactly if it is a lower case letter, lower case letters or underscores, and a lower case letter. |
| ConfigStore.SingleStaysSingle | src/config/common.c:70-71 | An option that is never made multivalued never holds more than one value. |
| ConfigStore.CallStores | src/config/common.c:132-205 | Each operation clears the values, or keeps them and stores at most one more that the option accepts. |
| ConfigStore.AddedIsSound | src/config/api.c:72-130 | Adding a validly named option keeps the option counters, names and sections sound. |
| ConfigStore.RappConfig.SectionGet | src/config/common.c:249-262 | Finds the first section of that name. |
| ConfigStore.RappConfig.GetOptionFromSection | src/config/common.h:23-38 | Finds the first option of that name. |
| ConfigStore.RappConfig.OptAdd | src/config/api.c:72-130 | Fails exactly for an invalid name; otherwise one option more, of the given name, type and help, without values, default or lock, at the end of its section, and every other option stays. |
| ConfigStore.RappConfig.OptAddValueInt | src/config/common.c:62-80 | Stores the value behind the others exactly if type, room and range allow it. |
| ConfigStore.RappConfig.OptAddValueString | src/config/common.c:82-101 | Stores the text behind the others exactly if type and room allow it. |
| ConfigStore.RappConfig.AddValueFromString | src/config/common.c:132-191 | Reports exactly unreadable text; the value that the text stands for is stored behind the others if there is room, and dropped in silence otherwise. |
| ConfigStore.RappConfig.RemoveAllValues | src/config/common.c:193-205 | Empties the list and brings the counter down with it. |
| ConfigStore.RappConfig.SetRangeInt | src/config/api.c:132-151 | Sets the range exactly for an integer option and a minimum below the maximum. |
| ConfigStore.RappConfig.SetMultivalued | src/config/api.c:153-164 | Sets the flag of exactly the named option, if there is one. |
| ConfigStore.RappConfig.SetDefault | src/config/api.c:267-299 | Sets the default of exactly the named option, if there is one, apart from its values. |
| ConfigStore.RappConfig.GetNth | src/config/api.c:166-253 | Reads the value at the position as indexing the sequence does, of an option of the wanted type; the default is read at position 0 of an option without values only; None in every other case. |
| ValueTexts.ReadLongExactly | src/config/common.c:175-188 | A text is read as n if and only if it is empty and n is zero, or it is blanks, a sign, leading zeros and the decimal of n, to its very end, and n is within a long. |
| ValueTexts.NumberIsStored | src/config/common.c:175-188 | An integer option reads the decimal of a number exactly if it is in its range, and with room stores that number behind its values. |
| ValueTexts.PrintedIsRead | src/config/common.c:177-181 | Reading the signed decimal of a number gives the number, or nothing if it is not within a long. |
| ValueTexts.Eighty | src/config/common.c:177 | The texts 80 and -80 are read as those numbers, in base ten. |
| ValueTexts.TrailingIsRejected | src/config/common.c:180 | A text with something behind its digits is not an integer. |
| ValueTexts.BoolTextExactly | src/config/common.c:22-23 | A text is a boolean if and only if some alternative of the expression, anchored as written, is found somewhere in it. |
| ValueTexts.NotesAreBooleans | src/config/common.c:22-23 | Texts that the expression takes although they are none of its words. |
| ConfigYaml.DocumentKeeps | src/config/yaml.c:276-321 | No token stream on which the parser returns, accepted or rejected, changes the values or the lock of a locked option, or anything but values of any other. |
| ConfigYaml.DocumentApplies | src/config/yaml.c:276-321 | An accepted stream does to the store exactly what applying its mentions in order does. |
| ConfigYaml.LastMentionDecides | src/config/yaml.c:189-212 | After any mentions an unlocked option holds exactly the values of its last one, a locked option what it held before. |
| ConfigYaml.DocumentReadsBack | src/config/yaml.c:233-321 | Print and parse: a document of known sections in block or flow style, with scalar or list entries, and of skipped sections, followed by anything, is accepted if and only if every entry names an option of its section and carries values that the option takes; then it is read to its end and has the effect of folding its entries in order. |
| ConfigYaml.DocumentAcceptedExactly | src/config/yaml.c:276-321 | The parser accepts any token stream at all if and only if it starts with the print of such a document. |
| ConfigYaml.EntryReadsBack | src/config/yaml.c:120-217 | One printed entry is accepted exactly if it is good, and is then read to its end and yields its own mention. |
| ConfigYaml.EntryHasSyntax | src/config/yaml.c:120-217 | Whatever is accepted as an entry is the print of one. |
| ConfigYaml.ItemsReadBack | src/config/yaml.c:77-118 | A printed list is accepted exactly if the option takes all its items, and is then read to its end and yields them. |
| ConfigYaml.ItemsAppend | src/config/yaml.c:88-111 | The items of an accepted list end up, in order, behind the values that were there. |
| ConfigYaml.SectionsReadBack | src/config/yaml.c:288-316 | Printed sections are accepted exactly if they are all good, whatever earlier ones did to the store. |
| ConfigYaml.SkipExactly | src/config/yaml.c:219-230 | The skipping loop stops behind the first block end; without one it never stops. |
| ConfigYaml.DocumentHaltsExactly | src/config/yaml.c:219-230 | Parsing halts on a finite stream if and only if each name it reads that no section has is followed, later, by a block end. |
| ConfigYaml.ClosedNamesReturn | src/config/yaml.c:219-230 | If every scalar that directly follows a key and names no section has a later block end, parsing halts. |
| ConfigYaml.ReadingCanHang | src/config/yaml.c:224-228 | The smallest stream on which parsing does not halt. |
| YamlReader.YamlParseInit | src/config/yaml.c:32-63 | Succeeds exactly if stream, document and block mapping start in this order, reading up to the first that does not. |
| YamlReader.SetValueFromScalar | src/config/yaml.c:65-75 | Leaves a locked option alone and succeeds; otherwise adds the text's value. |
| YamlReader.SetValueFromList | src/config/yaml.c:77-118 | The loop equals the recursive list reader: same answer, same store, same tokens left. |
| YamlReader.YamlParseKeyValue | src/config/yaml.c:120-217 | Equals the recursive reader of one entry, including which failures mean the end of the section. |
| YamlReader.YamlSkipSection | src/config/yaml.c:219-230 | Leaves what follows the first block end. |
| YamlReader.YamlParseSection | src/config/yaml.c:233-274 | The loop over entries equals the recursive reader of a section. |
| YamlReader.ConfigParseMain | src/config/yaml.c:276-321 | The loop over sections equals the recursive reader that the theorems above are about. |
| Names.SharedNames | src/config/env.c:15-28 | Two validly named options share a command-line name exactly when they share an environment name. |
| Names.NamesOfOneSection | src/config/commandline.c:84-105 | Different names in one section never share either. |
| Names.NamesCanCollide | src/config/commandline.c:84-107 | Names of different sections can, with the core section and without. |
| Names.NamesRenderJoined | src/config/commandline.c:94-107 | Both outside names are letter by letter renderings of the same joined name. |
| Names.OutsideNamesUndone | src/config/commandline.c:94-107 | The joined name can be read off either outside name: the command line's has dashes for its underscores and none left, the environment's is all upper case behind RAPP_. |
| Names.ReplaceUnderscores | src/config/commandline.c:59-69 | The in-place loop maps every character of the string and leaves the rest of the buffer. |
| Names.Uppercase | src/config/common.c:282-291 | The same for upper-casing. |
| ConfigEnv.ListReadsBack | src/config/env.c:77-85 | A non-empty list of non-empty colon-free strings, joined by colons, comes back as exactly that list in an empty unlocked string option, and locks it, if and only if it has one element or the option's flag is 1; otherwise the text is kept in one piece. |
| ConfigEnv.FlagTwoKeepsText | src/config/env.c:77 | Under flag 2, which lets the store hold several values, the variable a:b gives a single one. |
| ConfigEnv.PiecesAreNonEmptyParts | src/config/env.c:43-47 | The tokens are the colon-separated parts that are not empty, in order. |
| ConfigEnv.SplitJoins | src/config/env.c:43-47 | Those parts, joined again, are the text, and none has a colon. |
| ConfigEnv.PiecesOfJoined | src/config/env.c:43-47 | Tokenising undoes joining. |
| ConfigEnv.AddTextsAppends | src/config/env.c:44-47 | A multivalued option takes exactly the readable pieces, in order, behind what it has. |
| ConfigEnv.StrtokR | src/config/env.c:43-46 | The scan yields the next token and where to go on. |
| ConfigEnv.AddValueFromEnvList | src/config/env.c:30-51 | The loop adds the tokens in order. |
| ConfigEnv.GetEnvForOpt | src/config/env.c:53-89 | Skips locked options, reads a list only into an option whose flag is 1, and locks the option exactly when the value was read. |
| ConfigEnv.ConfigReadEnv | src/config/env.c:91-107 | Every option is read from its own variable, and an unreadable one stops nothing. |
| CommandLine.IndexInjective | src/config/commandline.c:94-132 | Different options have different rows, inside the counted allocation, and no option's row is a title. |
| CommandLine.OptionAtInverts | src/config/commandline.c:170-189 | A row leads back to exactly its option; title rows lead to none. |
| CommandLine.KeysInvert | src/config/commandline.c:204-240 | An option's key leads back to exactly that option, if and only if it is not one of argp's own keys. |
| CommandLine.ArgpOwnsKey | src/config/commandline.c:204-221 | A table whose last option has the key that argp uses for the end of the arguments. |
| CommandLine.BooleansStay | src/config/commandline.c:242-245 | No boolean option can be set on the command line: an event with its key, unless argp uses that key itself, makes the command line fail, and an accepted one leaves the option as it was. |
| CommandLine.ArglessIsBoolean | src/config/commandline.c:109-118 | Exactly the rows of boolean options have no argument name. |
| CommandLine.OthersUntouched | src/config/commandline.c:195-260 | For any integer key and any argument, no option changes but the one whose own key it is. |
| CommandLine.LookupIsOptionAt | src/config/commandline.c:227-240 | The filled map answers every lookup as the row arithmetic does. |
| CommandLine.RowsLeadBack | src/config/commandline.c:104-124 | In the filled table the key in each option's row leads the handler back to exactly that option, unless it is one of argp's own; no two options' rows share a key; title rows lead nowhere. |
| CommandLine.RowsShowOptions | src/config/commandline.c:94-122 | Each option's row has its name with dashes, its argument name unless it is a boolean, its help and its section's group. |
| CommandLine.RowsShowTitles | src/config/commandline.c:172-180 | Each title row names its section, is marked as documentation and stands in the group of its options. |
| CommandLine.GivenDecides | src/config/commandline.c:195-260 | Options given by the keys in their rows: an accepted command line gives every option exactly the arguments that were given to it, in order, and locks exactly the options that got one. |
| CommandLine.HandlesExactly | src/config/commandline.c:195-260 | The handler accepts an event if and only if it is one of argp's own but the error, an early option, or the key of an option with a text that the option can read. |
| CommandLine.RunDecides | src/config/commandline.c:251-258 | An accepted command line gives every option exactly its own arguments, in order, and locks exactly the options that got one. |
| CommandLine.FillTitle | src/config/commandline.c:170-180 | Filling in a title row keeps the rows before it and the zero rows behind it. |
| CommandLine.FillOption | src/config/commandline.c:104-131 | Filling in an option's row and its map entry does too. |
| CommandLine.CommandTable.CountRows | src/config/commandline.c:157-164 | The count is one row for each title and option and one for the end. |
| CommandLine.CommandTable.GenerateArgpForSection | src/config/commandline.c:71-138 | The loop fills exactly the section's rows and map entries, from the running index on. |
| CommandLine.CommandTable.GenerateCommandline | src/config/commandline.c:140-193 | Refuses to run twice; otherwise every title and option row is written inside the allocation and everything behind them stays zero. |
| CommandLine.CommandTable.WriteRow | src/config/commandline.c:105-124 | A row gets key, dashed name, argument name (none for booleans, the upper-cased name by default), group and help. |
| CommandLine.CommandTable.CopyEarlyOptions | src/config/commandline.c:277-284 | The early options, without their flags, go right behind the generated rows and one zero row remains. |
| CommandLine.CommandTable.ParseCommandlineOpt | src/config/commandline.c:195-260 | The handler fails exactly for unknown keys, missing arguments and unreadable values, and otherwise adds the value and locks its option. |
| CommandLine.CommandTable.ConfigParseCommandline | src/config/commandline.c:262-293 | Hands events to the handler up to the first failure, keeping what earlier ones did. |
| Layering.SourcesAreLayered | src/main.c:94-123 | After any accepted command line, then environment, then any accepted documents, every option holds exactly what the first source that locked it gave it, else exactly the values of its last mention; every position reads as that list says, and an empty one as the default, at position 0 only. |
| Layering.OptionIsLayered | src/config/env.c:60-88 | The same for one option, from what each source gives it. |
| Layering.AddTextsTakes | src/config/common.c:62-101 | An empty option takes all readable texts if it is multivalued and exactly the first otherwise. |
| Layering.AfterEnvironment | src/config/env.c:60-88 | What the environment does to an option that the command line left alone. |
| Layering.AllApply | src/main.c:103-123 | Several documents do what all their mentions in order do. |
| StartUp.ReadSources | src/main.c:94-123 | The three sources read in turn, stopping at the first that is rejected; on success every option is layered as SourcesAreLayered says, and a failure means that the command line or a document was rejected. |
| StartUp.EverySourceIsLayered | src/main.c:94-123 | SourcesAreLayered for all options of the store at once. |
| RequestQueue.EventsKeepInv | src/httprequestqueue.c:40-183 | Over every sequence of arriving data and parser events in order, however they are split across appends, as far as it gets: the two header counters agree and stay at most a hundred, every completion hands out one request, in completion order, and the hundredth is marked last. Nothing is assumed of positions, lengths or the number of messages. |
| RequestQueue.InRangeExactly | src/httprequestqueue.c:40-183 | Over every such sequence every callback finds its slot, its index and the bytes it reads in range if and only if there are slots for all messages that begin, what the callbacks read is in the buffer when they read it, and no body exceeds its announced positive length; only the events up to the first refused one matter. |
| RequestQueue.RunEnds | src/httprequestqueue.c:40-183 | Such a sequence faults at its first event without room, stops at its first refused event, whichever comes first, and otherwise gets to its end. |
| RequestQueue.ReadyExactly | src/httprequestqueue.c:78-95 | One event in order is in range exactly if it has room, and then stops the parser exactly if it is a URL that does not parse or a key for a full table. |
| RequestQueue.BodyBesideHead | src/httprequestqueue.c:130-164 | A body in the append that ends its head goes through if and only if at least as many bytes as the head follow it, since it is read a head's length behind the place it was moved to; what is then stored are the bytes there. |
| RequestQueue.UnannouncedBodyFaults | src/httprequestqueue.c:144-164 | A body of which no positive length was announced has no memory reserved, and faults even in an append of its own. |
| RequestQueue.StepKeepsInv | src/httprequestqueue.c:78-113 | A callback that comes in order and goes through keeps the counters equal and at most a hundred. |
| RequestQueue.StepDelivers | src/httprequestqueue.c:166-183 | Exactly a completion hands out a request, the current one, marked last if it is the hundredth. |
| Prelude.SameIgnoringCaseExactly | src/httprequest.c:205 | Names agree if and only if they differ in nothing but the cases of letters. |
| RequestQueue.GetHeaderValueRange | src/httprequest.c:184-214 | Answers the value range of the first header whose name agrees ignoring case, or that there is none. |
| RequestTokens.ConnectionReadsBack | src/httprequestqueue.c:237-272 | Any number of requests of whole tokens, one after the other, header sections split across any appends, bodies in appends of their own: as many as there are slots are handed out in order, each with the tokens and the body that were sent, and the next one, if any, faults at its first callback. |
| RequestTokens.RequestReadsBack | src/httprequestqueue.c:237-272 | One such request behind anything left in the buffer: exactly if there is a slot, it is handed out, every URL, URL field, key and value range cuts the original token out of what was in the buffer, and its body is exactly the bytes that arrived. |
| RequestTokens.LeftoverExactly | src/httprequestqueue.c:127-138 | Behind leftover bytes the header copy misses as many at its end: a key or value range cuts its token out of the copy if and only if the token ends at least that many bytes before the end of the section. |
| RequestTokens.OwnCopy | src/httprequest.c:66-82 | With nothing left over, the copy is exactly the header section, and every stored range cuts its token out of it. |
| RequestTokens.BodylessLeaveNothing | src/httprequestqueue.c:130-135 | Requests without bodies leave the buffer as empty as they found it, so that each next one finds nothing left over. |
| RequestTokens.BodyReadsBack | src/httprequest.c:252-263 | A body of the announced length, in appends of its own, is read from the buffer piece by piece and handed out as exactly the bytes that arrived, which stay in the buffer. |
| RequestTokens.HeaderReadsBack | src/httprequest.c:184-214 | On a request that was handed out, looking a name up and cutting its range out of the header copy gives the value token behind the first key token that agrees with the name ignoring case. |
| RequestTokens.KeysAreInside | src/httprequest.c:197-203 | On such a request every stored key range is inside the header copy. |
| RequestTokens.TokenRecorded | src/httprequestqueue.c:51-113 | A token stored at its position is cut out by its range, and the ranges stored before keep cutting out theirs. |
| RequestTokens.UrlRecords | src/httprequestqueue.c:67-73 | The URL's field ranges, shifted to where the URL is, cut the fields out of the text. |
| RequestTokens.SegmentsRecord | src/httprequestqueue.c:237-272 | All tokens of one append, behind those of earlier appends, are recorded. |
| RequestTokens.HeadEnds | src/httprequestqueue.c:115-148 | The end of the headers copies as many bytes as the section has from the buffer's start, keeps the others, and reserves what was announced of the body. |
| RequestTokens.BodyArrives | src/httprequestqueue.c:150-164 | A piece of the body is read where it arrived in the buffer and ends up behind those before it. |
| RequestTokens.RequestEnds | src/httprequestqueue.c:166-183 | The end of the message hands the request out behind the earlier ones. |
| RequestTokens.AfterSplits | src/httprequestqueue.c:259-262 | Events in two groups do what they do in one. |
| QueueObject.HTTPRequestQueue.OnMessageBegin | src/httprequestqueue.c:40-49 | Puts a fresh request into the incoming slot, and changes nothing else; faults exactly if there is no such slot. |
| QueueObject.HTTPRequestQueue.OnUrl | src/httprequestqueue.c:51-76 | Stores the URL range and shifts the fields that are set by its position, leaving the others; stops exactly for a URL that does not parse, and faults exactly for one that is not in the buffer, or without a request. |
| QueueObject.HTTPRequestQueue.OnHeaderField | src/httprequestqueue.c:78-95 | Stores the key range at the current header; stops exactly when a hundred are stored. |
| QueueObject.HTTPRequestQueue.OnHeaderValue | src/httprequestqueue.c:97-113 | Stores the value range and moves both counters on; faults exactly when a hundred are stored, or without a request. |
| QueueObject.HTTPRequestQueue.OnHeadersComplete | src/httprequestqueue.c:115-148 | Copies the header section into the request, reserves the body, and moves the rest of the buffer to its front; faults exactly for an empty section, one longer than the buffer, or no request. |
| QueueObject.HTTPRequestQueue.OnBody | src/httprequestqueue.c:150-164 | Appends the bytes at the position to the request's body; faults exactly for no bytes, bytes that are not in the buffer or exceed the memory reserved, or without a request. |
| QueueObject.HTTPRequestQueue.OnMessageComplete | src/httprequestqueue.c:166-183 | Moves on to the next slot, marks the hundredth request last and hands the next request out; faults exactly without a request to complete or to hand out. |
| QueueObject.HTTPRequestQueue.GetNextRequest | src/httprequestqueue.c:274-280 | Answers what is in the outgoing slot and moves that index on, or that there is no such slot. |
| QueueObject.HTTPRequestQueue.Extend | src/httprequestqueue.c:244-257 | Puts the data behind those in the buffer; faults exactly for none. |
| QueueObject.HTTPRequestQueue.AppendData | src/httprequestqueue.c:237-272 | For any data and any callbacks: appends the data, runs the callbacks up to the first that does not go through, and leaves the queue exactly as those that did leave it. |
| QueueObject.Receive | src/httprequestqueue.c:237-272 | Any appends, one after the other, do what all their events do, up to the first that does not go through. |
| QueueObject.Serve | src/httprequestqueue.c:237-272 | Whole requests on a connection: as many as there are slots are handed out as ConnectionReadsBack says, and it faults exactly if there are more. |

## Left out

- Logger, signal handling, container loading, version, the hello container and the build: plumbing with easy facts only.
- Sockets, epoll, signalfd, files and the clock: parameters or ghost state, as said above. `config_scan_directory` and `config_parse` are reduced to the token streams of the files they open.
- Failing allocations and failing epoll calls, with the leak that `src/eloop.c:192` admits: both always succeed here.
- Addresses are not reused in the model, so what happens to an entry whose memory is handed out again during the pass in which it was removed is not modelled: a removed entry has no handlers for the rest of that pass (`src/eloop.c:213-214`).
- Connection objects, list nodes, route packs and HTTP requests are records in maps or sequences of the object that owns them, not separate heap objects; the collector's list is a sequence. Aliasing between them is by address only.
- Lifecycle.Server.OnWrite: conservation ends with the hand-over to the socket, because `src/httpconnection.c:85-88` ignores how much was sent.
- Lifecycle.Server.OnNewRequest: has no NULL request, because the line before the NULL test already asserts that there is none; what a container writes is a parameter.
- Lifecycle.Server.Collect: free functions that schedule more work while collecting are not modelled; `http_connection_destroy`, the only one in use, does not.
- Lifecycle.Server.Run: the loop's flag `running` and a failing `epoll_wait` are the end of the given list of passes.
- Router.HTTPRouter.Select: URLs are taken to be without NUL and no longer than an int, as `strmatch` counts in an int; requests are reduced to their header buffer and URL range.
- Response.StreamReadsBack: server name and date are texts without CR or LF.
- RequestTokens.ConnectionReadsBack: tokens are not split across appends, a request starts with an append of its own, and so does its body; the buffer handling has no clean statement there (`src/httprequestqueue.c:110`, `src/httprequestqueue.c:130-142`).
- RequestQueue.InRangeExactly: positions are counted from the start of the buffer, as if the shrinking `realloc` at `src/httprequestqueue.c:138` left it in its place. What http_parser itself reads of its input after a callback has moved the buffer is not judged.
- RequestQueue.EventsKeepInv: http_parser's order of events is an assumption.
- ConfigYaml.DocumentReadsBack: an unknown section is what the skipping loop takes for one, the tokens up to the first block end (`src/config/yaml.c:219-230`); one in flow style or with nested block lists is not skipped as a whole. The reader does not compare how a list or a section starts with how it ends, and neither does the syntax here; what it leaves behind of a rejected stream is not stated beyond DocumentKeeps.
- ConfigStore.RappConfig.SetDefault: covers both setters; the refusal of a NULL string and of a boolean default other than 0 and 1 is not modelled, nor is reading a default of one type as another, which the C union allows. The boolean getter's cast from int to long is not modelled.
- ConfigStore.RappConfig.OptAdd: `num_sections` is never updated by the code and is not modelled.
- ConfigEnv.StrtokR: yields tokens without writing NULs into the copied text.
- CommandLine.CommandTable.GenerateCommandline: row indices are unbounded integers; tables too large for an int are not distinguished. Duplicated strings always exist.
- CommandLine.CommandTable.ConfigParseCommandline: argp is a list of events; the early command line is not part of this model.
- StartUp.ReadSources: takes the documents as a list; in `src/main.c` their paths are themselves values of two options.
