# A verified model of adbus

adbus is a D-Bus client library and bus server in C. This project models its
protocol code and proves what that code is for, over all inputs, all streams and
all runs.

Each part has a specification as functions on values and, where the C code works by
changing state, a class whose methods follow the C functions step by step and are
proved to compute the specification. The theorems are about the specification.

- **Marshaling.** `Signature` is the signature grammar of `adbus_nextarg`.
  `Codec` and `CodecLaws` are the wire format (D-Bus Specification, "Marshaling (Wire
  Format)"): alignment, back-patched array lengths, variants that switch the signature
  cursor. `Buffer` is the writer and `Iterator` the reader. `WireFormat` gives the format in
  numbers, letter by letter, and `ReaderLaws` what the readers demand of any memory.
- **Messages.** `Header`, `Message`, `MessageParse` and `MessageBuild` are the header
  of a message, `adbus_parse` and `adbus_msg_build`, and `MessageFormat` its layout and
  codes in numbers.
- **The server's stream.** `HeaderRewrite` is `FixHeaders`, which deletes the sender
  fields from the buffer it iterates over and appends the true sender. `HeaderScan` says
  what it does to a header of any content, and `Outside` when an iterator looks behind
  its memory; `ParseOutside` says it of `adbus_parse`. `Authentic` and `Overshoot`, with
  `Retrace`, `Turns` and `Extend`, say which sender the message parser finds behind the
  rewrite, and `Hidden` holds two headers behind which it does not find the true one.
  `StreamParser` is the resumable parser around it, `StreamCases` its foreign and refused
  messages. `EndToEnd` puts factory, server,
  parser and iterator behind each other. `Framing` is the client's side, where the predicted
  size of a message is too small for half of the header lengths.
- **The bus.** `BusNames` and `BusServer` are the owner queues, the service lists of
  the remotes and the ownership signals; `BusOrder` says in which order names pass on.
  `MatchRule` is the text of match rules, and `MatchText` its form.
- **The client.** `PathTree` and `PathServer` are the tree of object paths, `Replies`
  and `ReplyServer` the two-level index of pending replies, and `ReplyRouting` which
  message a reply waits for.
- **Authentication.** `Auth` and `AuthPeer` are the SASL line automata of both ends,
  `AuthCommands` says what every command does. `Sha1` and `Sha1State` are the hash that
  answers cookie challenges (FIPS 180-4), `Sha1Vector` its digest of a known message.
- `Bytes`, `Scan` and `Sequences` hold alignment, words, character search and lists.

The code is modelled as it is. Where it does not do what it evidently means to, a
theorem gives the exact condition under which it does, and another gives an input or a
run on which it does not:

- `adbus_parse_size` (adbus/parse.c:220) adds the 12 byte header instead of the 16
  byte one: `Framing.SizePrediction`, `Framing.CutExactIff`, `Framing.UnframedMessage`.
- `adbus_iter_endarray` (include/c/adbus-iterator.h:542-547) jumps by the declared length
  of an array without a look at the size, and `FixHeaders` (adbus/server-parse.c:175-181)
  deletes up to there. A sender field with an overlong array is deleted past the end of
  the buffer: the assertion in `dv_remove` (include/c/dmem/vector.h:111) fails, and
  without assertions nothing more is defined. `HeaderScan.FixIsScan` and
  `StreamParser.LeavesBufferIff` say exactly when, `HeaderScan.OverlongLeaves` and
  `StreamParser.OverlongStream` are an input, and `HeaderScan.WellFormedFits` excludes
  the well-formed headers.
- The same jump in a field that is kept takes the message parser over the sender that
  `FixHeaders` appends, and it may take it into the body, where the parser then reads
  fields. For headers of any content and any body `Authentic.SenderAuthentic` says when
  the sender read is the true one and when it is absent, and `Overshoot.SenderOpenIff`
  says that it is up to the body if and only if the last kept field jumps there.
  `Hidden.SenderHidden` is a message without a sender, `Hidden.SenderFromBody` one whose
  sender comes from its body.
- The same jump inside a struct makes `adbus_parse` look outside of the message:
  `ParseOutside.ArrayLeadsOut`. `ParseOutside.WellFormedInside` excludes the well-formed
  messages.
- The scan of the queue in `adbusI_serv_releasename` (adbus/server.c:434) tests the
  head instead of the scanned entry, and the replacing branch of
  `adbusI_serv_requestname` (adbus/server.c:355-365) does not record the service with
  the new owner: `BusNames.ReleaseLinksIff`, `BusNames.RequestLinksIff`, and for the
  disconnect `BusNames.DisconnectGoneIff` and `BusNames.DisconnectLinksIff`; with the runs
  `BusNames.AsWrittenBreaksLinks` and `BusNames.LeavingBreaksLinks`. The functions of `BusNames` take a flag `repaired`;
  `BusServer` is the code as written, `repaired == false`.
- `%*s` (adbus/misc.c:585-597) is a minimum width and does not cut a value at its size:
  `MatchRule.PrintedAsMeantIff`, and `MatchRule.UnderstoodAsMeantIff` for a whole match,
  with `MatchRule.CutNotUnderstood`.
- The byte count of a SHA-1 hash is kept in 32 bits (adbus/sha1.c:114, 139-140):
  `Sha1.LengthFieldIff`, `Sha1.FourGigabytes`.
- A NameOwnerChanged signal that arrives before the answer to GetNameOwner violates the
  assertion at adbus/client-service.c:95: `Replies.AnswerExpectedIff`,
  `Replies.AnswerTooLate`.
- A bind of a builtin interface to a path that is not registered leaves that path
  behind without a user: `PathTree.BindKeepsIff`, `PathTree.BuiltinBindStays`.
- `adbus_auth_line` (adbus/auth.c:707) looks at the byte before a line that is only a line
  feed: `Auth.ParseIsLines`, `Auth.EmptyLineStrays`.

`adbus_buf_enddictentry` (adbus/rbuffer.c:698) asserts the opening bracket at every end of a
dict entry; it is modelled as the cursor advance that it is without assertions.

## Model

| member | source | states |
|---|---|---|
| `Bytes.AlignUpRounds` | include/c/adbus-iterator.h:275-277 | rounding up gives the least multiple of the boundary that is not below the offset |
| `Bytes.WordRoundTrip` | adbus/rbuffer.c:500-526 | a word stored in little-endian order is loaded back when it fits its width |
| `Signature.NextArg` | adbus/misc.c:424-475 | the scan ends on every signature; it succeeds exactly when some prefix is a complete type (empty structs and bare dict entries included) and returns the text behind that prefix |
| `Signature.ParseShow` | adbus/misc.c:424-475 | the text of every type is recognised as that type in front of any text: the grammar is unambiguous and needs no look-ahead |
| `Signature.RestUnique` | adbus/misc.c:424-475 | the prefix that is a complete type is unique |
| `Signature.ScanStable` | adbus/misc.c:424-475 | the result of the scan does not depend on what follows the type |
| `Buffer.Buffer.BeginArray` | adbus/rbuffer.c:655-667 | a zero length word, the element padding, and the positions and signature ends that closing the array needs |
| `Buffer.Buffer.EndArray` | adbus/rbuffer.c:683-688 | only the length word changes, to the bytes since the first element; the cursor stands behind the element type |
| `Buffer.PatchedArray` | adbus/rbuffer.c:655-688 | header, elements and patched length together are the encoding of the array |
| `Buffer.Buffer.BeginVariant` | adbus/rbuffer.c:629-645 | the signature value is appended and the cursor switches to the variant's own signature |
| `Buffer.Buffer.PutText` | adbus/rbuffer.c:584-612 | a string or object path appends its aligned length, its bytes and a NUL |
| `Buffer.Buffer.Write` | adbus/rbuffer.c:414-708 | writing a whole well-formed value appends exactly its encoding at that offset and moves the cursor over exactly its type |
| `Iterator.Iterator.Value` | adbus/riterator.c:32-107 | the skip ends, and stops where the specification `Skip` stops |
| `Iterator.Iterator.ReadValue` | include/c/adbus-iterator.h:279-616 | the sequence of reader calls for one value yields the value and the iterator of the specification `Read`, failing when it fails |
| `CodecLaws.RoundTrip` | adbus/rbuffer.c:414-708 | a well-formed value written at any offset reads back as the same value from any address of the same residue modulo 8, ending at the byte and the signature letter where the writer stopped |
| `CodecLaws.ReadEncode` | include/c/adbus-iterator.h:279-616 | in front of an encoding the reader returns the value and stands behind it |
| `CodecLaws.EncodeModulo8` | adbus/rbuffer.c:414-495 | the encoding of a value depends on its offset only modulo 8 |
| `CodecLaws.BeginArrayHeld` | include/c/adbus-iterator.h:503-527 | in front of an array header the reader finds the data length and stands on the first element, behind the padding that the length does not count |
| `CodecLaws.AtVariant` | include/c/adbus-iterator.h:587-616 | beginvariant in front of a variant stands in front of its contents, with the variant's signature |
| `CodecLaws.SkipAgrees` | adbus/riterator.c:32-107 | on any memory, when the element by element read succeeds the skip succeeds and stops at the same data and signature positions |
| `CodecLaws.SkipEncode` | adbus/riterator.c:32-107 | over an encoding the skip stops right behind it |
| `WireFormat.Letters` | include/c/adbus.h:99-116 | the letters of the types |
| `WireFormat.NumberBytes` | adbus/rbuffer.c:500-567 | at every offset a number is zeros up to a boundary of 1, 2, 4 or 8 and as many bytes, the i-th being n / 256^i modulo 256 |
| `WireFormat.TextBytes` | adbus/rbuffer.c:570-612 | a string is a length of four bytes on a boundary of four, its text and a NUL; a signature has a length of one byte on any boundary |
| `WireFormat.VariantBytes` | adbus/rbuffer.c:629-645 | a variant is the signature of its value on any boundary, and the value |
| `WireFormat.ArrayBytes` | adbus/rbuffer.c:655-688 | an array is the number of its data bytes on a boundary of four, zeros up to the boundary of its element's letter, and the elements |
| `WireFormat.MembersBytes` | adbus/rbuffer.c:690-708 | structs and dict entries start on a boundary of eight, and their members follow each other |
| `WireFormat.StartsOnBoundary` | adbus/rbuffer.c:426-460 | every value starts with zeros up to the boundary that is tabled for the first letter of its type |
| `ReaderLaws.TextReadIff` | include/c/adbus-iterator.h:279-430 | on any memory a string is read if and only if its length, its text without a NUL and a NUL lie there within the size; then the iterator is behind them |
| `ReaderLaws.SkipTakesOneType` | adbus/riterator.c:32-107 | a skip that succeeds goes over exactly one complete type of the signature |
| `ReaderLaws.VariantHoldsOne` | adbus/riterator.c:32-107 | it succeeds over a variant only if the signature in it is one complete type and nothing else |
| `ReaderLaws.FieldHoldsOne` | adbus/server-parse.c:157-171 | so do the loops over the header fields |
| `ReaderLaws.ArrayLimit` | include/c/adbus-iterator.h:503-527 | no array of more than 2^26 bytes is begun |
| `Header.AtField` | adbus/server-parse.c:157-171 | in front of a header field the prefix calls read its code and stop in front of the variant's contents, and the field ends behind them |
| `Header.BodyIsChunks` | adbus/message.c:269-286 | the marshaled field array, padded to eight, is the row of its fields each padded to eight |
| `HeaderRewrite.StripLoopKeeps` | adbus/server-parse.c:139-182 | the loop that deletes from the buffer it iterates over removes every sender field, with the last field's padding, and keeps all others in order |
| `HeaderRewrite.FixMeaning` | adbus/server-parse.c:109-201 | a well-formed native header becomes the header of its fields that are not senders, in order, and one sender with the remote's name, with a right length field and padding |
| `HeaderRewrite.FixFitsReserve` | adbus/server-parse.c:109-122 | on every header on which FixHeaders stays in its buffer, well-formed or not, the result fits the bytes that were reserved |
| `Outside.SkipSees` | adbus/riterator.c:32-107 | a skip that stays in its memory does the same wherever that memory lies and whatever lies behind it, and is then known to stay in it |
| `Outside.OutsideFails` | adbus/riterator.c:32-107 | a skip that looks behind its memory has no result within it |
| `HeaderScan.FixIsScan` | adbus/server-parse.c:109-201 | for every header of any content, the loop that deletes while it iterates does what one pass over the intact header says: the bytes the pass keeps and the sender, or a refusal; and it leaves its buffer if and only if the pass meets a sender that ends behind the header or a field it would have to look at behind it |
| `HeaderScan.WellFormedFits` | adbus/server-parse.c:109-201 | on a well-formed header it does not |
| `HeaderScan.OverlongLeaves` | adbus/server-parse.c:175-181 | on a 32 byte header with one sender field it does |
| `StreamParser.FixSize` | adbus/server-parse.c:184-201 | the rewritten header has the size that its length field gives |
| `StreamParser.RunSplit` | adbus/server-parse.c:275-346 | a call on a stream is a call on a prefix and then one on what it left and the rest |
| `StreamParser.ChunkingIndependence` | adbus/server-parse.c:275-346 | for every stream and every way to cut it, calls after each chunk dispatch the same messages in the same order, end in the same parse state, partial message and leftover bytes as one call, and refuse at the same place |
| `StreamParser.AssertsHold` | adbus/server-parse.c:300-335 | on every stream the assertions at 147, 310 and 330 hold as long as FixHeaders has not left its buffer, and a call that neither refuses a message nor leaves the buffer ends in a state that the next can start from |
| `StreamParser.LeavesBufferIff` | adbus/server-parse.c:275-346 | from a message boundary, the parser leaves its buffer if and only if some complete header of the stream reaches beyond itself, unless it refuses an earlier message |
| `StreamParser.OverlongStream` | adbus/server-parse.c:275-346 | every stream that starts with the overlong header makes it do so |
| `StreamParser.MessageDispatched` | adbus/server-parse.c:275-346 | a well-formed message at the front of a stream is dispatched once, with its fields rewritten and its body unchanged, and parsing goes on behind it |
| `StreamParser.StreamDispatched` | adbus/server-parse.c:275-346 | a stream of well-formed messages that the server takes, followed by less than a header: each is dispatched once, in order, with the true sender, and what follows is left |
| `StreamCases.ForeignDispatched` | adbus/server-parse.c:109-201 | a message of the other byte order that flips to a well-formed header is dispatched once, as foreign, with the flipped header rewritten and its body as it came |
| `StreamCases.HeaderRefused` | adbus/server-parse.c:275-346 | at a header that does not flip or does not parse the parser stops: nothing is dispatched for it or behind it |
| `StreamParser.Remote.StripSenders` | adbus/server-parse.c:156-182 | the loop on the buffer and the iterator leaves the bytes of the specification, or tells that it refuses or goes beyond the buffer |
| `StreamParser.Remote.FixHeaders` | adbus/server-parse.c:109-201 | the assertion at 147 holds, and unless it refuses or goes beyond the buffer, that holds the rewritten header and `parsedMsgSize` is its size plus the old body |
| `StreamParser.Remote.Move` | adbus/server-parse.c:254-268 | takes exactly what is needed, or all there is |
| `StreamParser.Remote.Parse` | adbus/server-parse.c:275-346 | one call dispatches, keeps and leaves what the specification `Run` says, or tells that it refuses or goes beyond the buffer |
| `Message.ReadFieldMeaning` | adbus/parse.c:287-359 | in front of a field's contents the switch stores exactly what the field says, or fails exactly when its type is wrong |
| `Message.LoopMeaning` | adbus/parse.c:269-367 | the loop over the fields applies them in order |
| `Message.ParseMeaning` | adbus/parse.c:242-386 | on every well-formed message at an aligned address the parser returns exactly what its fixed part, fields and arguments say, including its required-field checks |
| `Message.AssertedSize` | adbus/parse.c:245 | a well-formed message is longer than 16 bytes, as asserted, if and only if it has a field or an argument; one without either is not accepted anyway |
| `Message.RewriteMeaning` | adbus/server-parse.c:109-201 | a well-formed message that parses before the sender rewrite parses after it and says the same, except that the sender is the true one |
| `MessageFormat.FieldCodes` | adbus/misc.h:246-254 | the codes 1 to 8, their types and the members of the message that they set |
| `MessageFormat.TypesRight` | adbus/parse.c:287-359 | the fields are accepted if and only if none has code 0 and those of codes 1 to 8 have their types |
| `MessageFormat.AcceptedIff` | adbus/parse.c:366-386 | a well-formed message of type 1 to 4 is accepted if and only if the field types are right and the header carries what the type requires: 1 and 3, 5, 4, or 2 and 3, and 8 with arguments; other types but 0 are ignored |
| `MessageFormat.EitherOrder` | adbus/server-parse.c:238-252 | a word of a header with the mark 'l' has its lowest byte first, with any other mark its highest |
| `Retrace.BothSkip` | adbus/riterator.c:32-107 | two skips over the same bytes, in memories and with sizes that differ elsewhere, stop at the same place when both succeed |
| `Authentic.SenderAuthentic` | adbus/server-parse.c:109-201 | for every header of any content that is rewritten, in front of any body, and a message that then parses: the sender read is the true one if every kept field ends inside the header; if one does not, no sender is read, unless it jumps into the body: it ends in the last block of eight bytes of the appended field, in front of the end of that field, which the header and the length of the name decide |
| `Authentic.SenderTrueIff` | adbus/parse.c:242-386 | for a message without a body the sender read is the true one if and only if every kept field ends inside the header, and there is none otherwise |
| `Overshoot.SenderOpenIff` | adbus/parse.c:269-364 | for every rewritten header whose kept fields otherwise make a complete message: some body makes the parser read a sender that is neither the true one nor absent if and only if the last kept field jumps into the body |
| `Overshoot.BodyRead` | adbus/parse.c:269-364 | a body that begins with a sender field is one that does |
| `Hidden.SenderHidden` | adbus/server-parse.c:109-201 | a method call whose last field declares an array that is not there: for every name it is rewritten and parses, without a sender |
| `Hidden.SenderFromBody` | adbus/server-parse.c:109-201 | one that declares 16 bytes: for every name of four to seven characters its jump ends at the body, and the sender is read from there |
| `Extend.ExtendsLoop` | adbus/parse.c:269-364 | when the loop over the fields succeeds, more memory behind them and more size change nothing |
| `ParseOutside.InsideAnywhere` | adbus/parse.c:242-386 | a message that is parsed without a look outside of it is accepted, refused or ignored alike and says the same at every aligned address, whatever lies around it |
| `ParseOutside.OutsideRefused` | adbus/parse.c:269-364 | a message that makes the parser look outside of it is not accepted for what it holds: the loop over the fields ends without a result |
| `ParseOutside.WellFormedInside` | adbus/parse.c:242-386 | no well-formed message makes the parser look outside of it, whether it is accepted or not |
| `ParseOutside.ArrayLeadsOut` | adbus/parse.c:352-356 | a message of 32 bytes that does |
| `MessageParse.HeaderFields` | adbus/parse.c:278-364 | the loop with the iterator computes the specification |
| `MessageParse.ParseMessage` | adbus/parse.c:242-386 | the parser as a procedure computes the specification `Parse` |
| `MessageBuild.BuildParse` | adbus/message.c:239-335 | for every factory that passes the checks, parsing the built bytes gives back the type, flags, serial, reply serial, header strings, signature and argument bytes |
| `MessageBuild.MsgFactory.Build` | adbus/message.c:239-335 | building succeeds exactly when the required fields are set and leaves the bytes of the message |
| `MessageBuild.MsgFactory.AppendText` | adbus/message.c:165-205 | one more string field behind those written, none for an empty string |
| `MessageFormat.FirstSixteen` | adbus/message.c:239-335 | the first sixteen bytes of a built message: 'l', type, flags, version 1, body length, serial, length of the fields |
| `MessageFormat.DraftCarries` | adbus/message.c:239-335 | the header carries exactly the fields that are set, under their codes and with allowed types |
| `MessageFormat.BuildsWhatParses` | adbus/message.c:239-262 | the factory builds a draft with a serial if and only if the parser accepts what it describes |
| `EndToEnd.ReadArgsEncode` | adbus/riterator.c:122-127 | reading all arguments in front of their encoding returns them |
| `EndToEnd.ArgsAligned` | adbus/message.c:284-297 | the argument buffer, spliced in behind any header, keeps its alignment and reads as written |
| `EndToEnd.Direct` | adbus/parse.c:242-386 | a message built with a list of argument values is received with all its fields and the same values |
| `EndToEnd.ThroughTheServer` | adbus/server-parse.c:275-346 | sent through the server, it is dispatched once and received with the same fields and values, and the remote's own name as sender |
| `Framing.SizePrediction` | adbus/parse.c:213-221 | the predicted size is the message's size when the field length modulo 8 is 0, 5, 6 or 7, and exactly 8 less otherwise |
| `Framing.CutExactIff` | adbus/connection.c:563-600 | a stream of messages is cut at their boundaries if and only if each has such a field length |
| `Framing.BuiltIsPacket` | adbus/message.c:239-335 | a built message is one of these messages |
| `Framing.UnframedMessage` | adbus/parse.c:213-221 | a method call of member A on path / is cut too short |
| `Framing.Client.Parse` | adbus/connection.c:563-600 | the loop hands on the pieces of the specification in order, up to the first that is refused, and keeps the rest |
| `PathTree.IsValidObjectPath` | adbus/misc.c:150-186 | the validator accepts exactly the rooted paths without empty components |
| `PathTree.ParentPath` | adbus/misc.c:518-550 | the backward scan finds the path of which this one is the child: the path is the parent, a slash and a name without one; there is none if and only if the path is "/" |
| `PathTree.ParentIsPath` | adbus/misc.c:518-550 | only the root has no parent |
| `PathTree.ParentIff` | adbus/misc.c:518-550 | `r` is the parent of a path if and only if the path is `r`, a slash unless `r` is the root, and a name without a slash |
| `PathTree.AncestorIsPrefix` | adbus/misc.c:518-550 | the paths reached by going to the parent are the path itself, the root, and every path that it starts with up to a slash |
| `PathTree.GetKeeps` | adbus/bind.c:289-332 | registering a path keeps the links, and nobody's binds change |
| `PathTree.CheckKeeps` | adbus/bind.c:218-251 | pruning restores the invariant that every registered path has a use, and nobody's binds change |
| `PathTree.BindKeeps` | adbus/bind.c:336-347 | a bind of a user interface keeps the tree, adds exactly that bind, and fails exactly when it is there |
| `PathTree.UnbindKeeps` | adbus/bind.c:255-264 | an unbind keeps the tree and removes exactly that bind |
| `PathTree.BindKeepsIff` | adbus/bind.c:336-347 | a bind keeps the tree if and only if its interface is not builtin or its path is registered |
| `PathTree.BuiltinBindStays` | adbus/bind.c:336-347 | such a bind on an empty tree |
| `PathTree.RegisteredExactly` | adbus/bind.c:157-332 | a path is registered if and only if it is "/", or a path with a user bind is it or starts with it and a slash, and there is a user bind |
| `PathTree.EveryHistory` | adbus/bind.c:157-332 | after every sequence of binds and unbinds the children lists are exact and without duplicates, and the binds in place are those that the sequence leaves |
| `PathTree.RegisteredAfter` | adbus/bind.c:157-332 | from the empty table, a path is registered after a sequence if and only if the sequence leaves a bind at it or below it, by the text of the paths |
| `PathServer.Paths.GetObject` | adbus/bind.c:289-332 | the recursion up the path ends and computes the specification |
| `PathServer.Paths.CheckRemoveObject` | adbus/bind.c:218-251 | the recursion that prunes ends and computes the specification, whatever the node of the pruned leaf |
| `PathServer.Paths.BindInterface` | adbus/bind.c:157-185 | the new table, and on a table in order exactly one more bind |
| `PathServer.Paths.UnbindInterface` | adbus/bind.c:255-264 | the new table, and on a table in order exactly one bind less |
| `PathServer.Paths.HasInterface` | adbus/bind.c:412-444 | a user interface is found exactly where it is bound, a builtin one exactly at and above the binds |
| `BusNames.ReleaseKeeps` | adbus/server.c:399-441 | a release keeps the signals and links right and takes exactly that name off that remote's list |
| `BusNames.RequestKeeps` | adbus/server.c:322-394 | a request keeps the signals and links right |
| `BusNames.EveryRun` | adbus/server.c:322-441 | over every run, replaying NameOwnerChanged gives the head of each queue with every old owner right, acquired minus lost signals are 1 for the owner and 0 otherwise, queues are not empty, and lists name only live services that queue the remote, each once |
| `BusNames.Disconnect` | adbus/server.c:142-172 | the loop over the services ends with the list empty |
| `BusNames.ReleaseLinksIff` | adbus/server.c:399-441 | a release keeps queues and lists in two-way correspondence if and only if the code is repaired or the remote does not wait in the queue |
| `BusNames.RequestLinksIff` | adbus/server.c:322-394 | a request does if and only if the code is repaired, or it neither replaces the owner nor gives up a place in the queue |
| `BusNames.DisconnectLinks` | adbus/server.c:142-172 | in the repaired code no queue mentions a remote that has left |
| `BusNames.DisconnectGoneIff` | adbus/server.c:142-172 | as written, in every reachable state, no queue mentions a remote that has left if and only if it was queued only for names that it listed and owned, and not twice |
| `BusNames.DisconnectLinksIff` | adbus/server.c:142-172 | as written, the disconnect keeps queues and lists in two-way correspondence if and only if the remote waits in no queue |
| `BusNames.LeavingBreaksLinks` | adbus/server.c:142-172 | two requests after which the second remote only has to leave to stay queued |
| `BusNames.EveryRepairedRun` | adbus/server.c:322-452 | over every run of the repaired code the correspondence holds and no remote is queued twice |
| `BusNames.AsWrittenBreaksLinks` | adbus/server.c:399-441 | a run of the code as written after which a remote that has left is still queued |
| `BusOrder.RequestCode` | adbus/server.c:322-394 | a request returns 1 if and only if the remote became the owner, 4 if it was, otherwise 2, or 3 with flag 4; it becomes the owner of a name without one, and with flag 2 of one whose owner set flag 1; the signals of a change are NameOwnerChanged, NameLost, NameAcquired in this order |
| `BusOrder.WaitsInLine` | adbus/server.c:358-385 | a new remote comes to wait behind the whole old queue; one that waits keeps its place, and only its own permission changes |
| `BusOrder.OthersStay` | adbus/server.c:322-394 | the queues of other names do not change |
| `BusOrder.TurnedDown` | adbus/server.c:387-391 | a remote that is turned down is still queued if and only if the code is as written and it was queued |
| `BusOrder.ReleaseEffect` | adbus/server.c:399-441 | a release returns 2 for an unknown name and 1 for the owner, whose name goes to the next in the queue with the signals; otherwise 3, unless the repaired code finds the remote |
| `BusOrder.LongestWaits` | adbus/server.c:399-441 | at any time of any run, a name that its owner gives up goes to a remote that has waited longest: it has waited since every operation since which anybody has |
| `BusOrder.LeavesInOrder` | adbus/server.c:142-172 | a remote that leaves gives up its names in the order in which it listed them |
| `BusServer.Bus.ReleaseName` | adbus/server.c:399-441 | the code as written computes the specification, signals and return code included |
| `BusServer.Bus.RequestName` | adbus/server.c:322-394 | likewise |
| `BusServer.Bus.OwnerChanged` | adbus/server-bus.c:333-368 | NameOwnerChanged, then NameLost to the old and NameAcquired to the new owner |
| `BusServer.Bus.Leave` | adbus/server.c:142-172 | likewise for the disconnect |
| `Replies.FindIsSearch` | adbus/reply.c:371-386 | the index by sender and serial finds what a search of the flat list of replies finds |
| `Replies.MovesExactly` | adbus/client-service.c:32-81 | moving the replies of a service changes the sender of exactly those that wait for it; none is lost or duplicated |
| `Replies.MoveFindsFreeSerials` | adbus/client-service.c:63-69 | the assertion on a free serial holds when waiting replies have distinct serials |
| `Replies.AddSucceeds` | adbus/reply.c:234-239 | a reply under a serial of its own is always registered |
| `Replies.DrawYields` | adbus/connection.c:461-466 | the k-th serial drawn is 1 + k modulo 2^32 - 2 |
| `ReplyRouting.AddFound` | adbus/reply.c:198-242 | a reply is found under the known owner of its service, otherwise under the name asked for; it is turned down if and only if that name is empty or has the serial; a service is looked up |
| `ReplyRouting.AnswerFires` | adbus/reply.c:357-427 | over every run: a return or an error from the owner that was known at the request, or else the first one told afterwards, with the serial of the request, fires exactly its reply, unless that has fired or was removed |
| `Replies.AnswerExpectedIff` | adbus/client-service.c:83-102 | over every run, the assertion at 95 holds for a service if and only if neither an answer nor a NameOwnerChanged came for it before |
| `Replies.AnswerTooLate` | adbus/client-service.c:83-125 | a run of two steps after which the answer violates it |
| `Replies.FiredIsWaiting` | adbus/reply.c:357-427 | a message fires only a reply that waits for its sender and serial, one that has not fired, and with the callback of its type |
| `Replies.StepFlat` | adbus/reply.c:189-427 | every step does to the index what it does to the flat list |
| `Replies.EveryRun` | adbus/reply.c:189-427 | over every run of draws, lookups, adds, removes, dispatches and resolutions the index and the flat list agree |
| `Replies.RegistryAgrees` | adbus/reply.c:189-427 | from a new connection: same answers, no empty remote, distinct waiting serials, and no reply fires twice |
| `ReplyServer.Connection.AddReply` | adbus/reply.c:189-263 | the registry of the specification; the reply is found under the owner of the service if that is known, and otherwise under the name asked for |
| `ReplyServer.Connection.FreeReply` | adbus/reply.c:267-331 | the reply leaves the index and the list, and its remote goes when it was the last |
| `ReplyServer.Connection.FireReply` | adbus/reply.c:357-408 | exactly the waiting reply of that sender and serial fires, or nothing changes |
| `ReplyServer.Connection.CallbackDone` | adbus/reply.c:417-424 | the reply is freed unless the callback has freed it |
| `ReplyServer.Connection.OwnerAnswered` | adbus/client-service.c:83-102 | tells whether the assertion at 95 holds; the service has this owner and its replies wait for it |
| `ReplyServer.Connection.OwnerChanged` | adbus/client-service.c:104-125 | the service has this owner and its replies wait for it |
| `ReplyServer.Connection.MoveReplies` | adbus/client-service.c:32-81 | the loop between the two tables computes the specification, and its assertion holds in every round |
| `Sha1.OrForms` | adbus/sha1.c:74-88 | the forms with OR compute Ch and Maj of section 4.1.1 of FIPS 180-4 |
| `Sha1.LrotRotates` | adbus/sha1.c:19-22 | the shifts compute the rotations used |
| `Sha1.HashBlocksConcat` | adbus/sha1.c:109-133 | hashing is incremental at block boundaries |
| `Sha1.BytesSpell` | adbus/sha1.c:25-32 | big-endian bytes spell the number they come from |
| `Sha1.LengthFieldIff` | adbus/sha1.c:139-157 | the length field is that of section 5.1.1 if and only if the message is shorter than 2^32 bytes |
| `Sha1.FourGigabytes` | adbus/sha1.c:139-157 | the length field of a message of 2^32 bytes is that of an empty one |
| `Sha1State.State.Process` | adbus/sha1.c:53-106 | the five-variable loop over the 80 words hashes the buffered block as section 6.1.2 does |
| `Sha1State.State.AddBytes` | adbus/sha1.c:109-133 | the bytes are appended to the input, whatever the buffer held |
| `Sha1State.State.GetDigest` | adbus/sha1.c:136-170 | the digest of all bytes added, one or two padding blocks included |
| `Sha1State.PadCount` | adbus/sha1.c:144-159 | the zeros appended, in one portion or two, are those of section 5.1.1 |
| `Sha1State.HashChunks` | adbus/sha1.c:37-170 | for every cut of a message below 2^32 bytes into chunks the digest is that of the standard |
| `Sha1Vector.KnownDigest` | adbus/sha1.c:37-170 | the digest of "abc" is that of the example of the standard |
| `Auth.HexRoundTrip` | adbus/auth.c:256-310 | decoding an encoded byte string gives the string back |
| `AuthCommands.Digits` | adbus/auth.c:256-310 | the digits written are 0-9 and a-f, and those read are these and A-F |
| `AuthCommands.DecodingStops` | adbus/auth.c:256-286 | decoding stops at a pair that is not two digits, and an odd number of characters decodes to nothing |
| `Auth.EncodeHex` | adbus/auth.c:290-310 | the loop computes the encoding |
| `Auth.DecodeHex` | adbus/auth.c:256-286 | the loop decodes up to the first bad pair, and nothing of an odd length |
| `Auth.ServerSafe` | adbus/auth.c:565-599 | on any lines the server returns 1 only if the callback, or its absence, accepts the identity stored |
| `Auth.ServerLineKeeps` | adbus/auth.c:703-770 | a line makes the server return 1 exactly when it is BEGIN after an OK that stands |
| `Auth.ServerTriesOnce` | adbus/auth.c:591-599 | once an identity was turned down, or an OK dropped, the server never returns 1 |
| `Auth.ClientTriesOnce` | adbus/auth.c:664-690 | on any lines the client tries each mechanism at most once |
| `Auth.Agreement` | adbus/auth.c:565-770 | run against each other both ends return 1 when the callback accepts the client's identity; otherwise the client returns -1 after exactly two rejections and the server never returns 1 |
| `AuthCommands.ServerCommands` | adbus/auth.c:703-770 | on a server, what CANCEL, BEGIN, ERROR, AUTH without data and any other command send, return and change: CANCEL sends REJECTED and takes the OK back, and nothing else changes |
| `AuthCommands.ServerOnData` | adbus/auth.c:565-599 | AUTH with data stores the identity, and sends OK if and only if EXTERNAL is untried and the identity accepted |
| `AuthCommands.OkStandsIff` | adbus/auth.c:703-770 | a server that has sent its OK returns 1 on a sequence of lines if and only if a BEGIN comes before any CANCEL, ERROR or AUTH with data |
| `AuthCommands.SucceedsIff` | adbus/auth.c:703-770 | a new server returns 1 if and only if the first identity offered is accepted, no error comes before, and a BEGIN follows before anything takes the OK back |
| `AuthCommands.CancelEnds` | adbus/auth.c:749-750 | once EXTERNAL is tried, no lines behind a CANCEL make the server return 1 |
| `AuthCommands.ClientCommands` | adbus/auth.c:664-770 | on a client, what each command sends, returns and changes, with the text of the next mechanism |
| `AuthCommands.ChallengeRefused` | adbus/auth.c:606-623 | a challenge without its parts or with an unknown cookie ends the exchange |
| `AuthCommands.LineParts` | adbus/auth.c:705-721 | the command is the text before the first space, with any line end, and the argument the text behind it |
| `AuthCommands.LinesAre` | adbus/rbuffer.c:362-372 | the lines of a buffer each end at their one line feed and are what the buffer starts with |
| `Auth.CookieVerifies` | adbus/auth.c:606-661 | the answer to a cookie challenge decodes to the client's challenge and to the SHA-1 hash of both challenges and the cookie |
| `Auth.ParseIsLines` | adbus/auth.c:780-791 | a buffer is handled as its complete lines, in order; it goes astray if and only if it has a line of only a line feed and no line before it ends the exchange |
| `Auth.BeginEnds` | adbus/auth.c:752-753 | a server that has sent its OK is done at BEGIN, with every byte behind it left over, whatever it is |
| `Auth.EmptyLineStrays` | adbus/auth.c:705-708 | an empty line where a line is waited for goes astray |
| `Auth.LeftOver` | adbus/rbuffer.c:362-372 | the bytes left are those behind the completing line, or hold no line, or start with the line feed that went astray |
| `Auth.ChunkingIndependence` | adbus/auth.c:780-791 | for every stream and every chunking the same lines are handled with the same answers, the leftover bytes with the later chunks are the stream behind the completing line, and it goes astray at the same place |
| `Auth.ServerSafeOnStream` | adbus/auth.c:780-791 | the safety of the server on a byte stream, however it arrives |
| `AuthPeer.Peer.Line` | adbus/auth.c:703-770 | one line on the object computes the specification; a server that returns 1 has had its identity accepted |
| `AuthPeer.Peer.Answer` | adbus/auth.c:628-645 | the answer of the specification, by way of the incremental hash |
| `AuthPeer.Peer.Parse` | adbus/auth.c:780-791 | the loop over the buffer computes the specification, or tells that it goes astray |
| `MatchRule.PairReads` | adbus/server.c:222-238 | a printed pair is read back with its comma or without |
| `MatchText.PairIff` | adbus/server.c:222-238 | a pair is taken off a text if and only if that starts with a key, an equals sign and a value in quotes, and ends there or goes on behind a comma |
| `MatchText.KnownKeys` | adbus/server.c:243-265 | the part of the rule that each key sets, and the four types; any other type is an error |
| `MatchText.ArgKeyIff` | adbus/server.c:184-210 | the argument keys are arg0 to arg63, and arg00 to arg09 |
| `MatchText.UnknownIgnored` | adbus/server.c:240-290 | a pair with any other key, anywhere in a rule, changes nothing |
| `MatchText.PrintedText` | adbus/misc.c:578-605 | the text printed for a signal match with a member and an argument |
| `MatchRule.ParseTexts` | adbus/server.c:223-290 | parsing printed pairs sets them one by one |
| `MatchRule.ArgKeyNumber` | adbus/server.c:184-210 | a printed argument number is understood exactly up to 63 |
| `MatchRule.RoundTrip` | adbus/server.c:212-301 | for values without quotes the server reads the printed rule as its type, values and first 64 arguments up to trailing absent ones; it rejects exactly the types without a name |
| `MatchRule.PrintedAsMeantIff` | adbus/misc.c:554-561 | the printed value is the value meant if and only if its size is negative or that of the whole string |
| `MatchRule.UnderstoodAsMeantIff` | adbus/misc.c:578-605 | the server reads the whole printed rule as the caller means it if and only if the type has a name, every size is negative or that of its string, and no argument is set behind the 64th |
| `MatchRule.CutNotUnderstood` | adbus/misc.c:585-589 | a match with a value of five characters and the size four is understood as another rule |
| `MatchRule.MatchString` | adbus/misc.c:578-605 | the text of the specification, which the server understands |
| `MatchRule.NewMatch` | adbus/server.c:212-301 | the parser ends on every input and computes the specification |

## Left out

- Byte-order flipping (adbus/riterator.c:131-310): a foreign header goes through the parameter `flip`; the code consumes a signature letter twice and shifts a byte by a wrong amount, so it is not the involution it means to be. Messages are little-endian and so is the modelled host.
- Match filtering and delivery (adbus/server-dispatch.c) and what `DispatchMsg` does with a message, with its Hello gate (adbus/server-parse.c:50-102, 211-230): the parameter `dispatch` records the message and may refuse it. The sequence of ownership signals does not depend on it; requests come from remotes that have said Hello.
- Interface, bus and member name validators (adbus/misc.c:189-317), `adbusI_relativePath` (adbus/misc.c:479-515): not the grammars they stand for, and not needed by the properties.
- adbus/state.c, adbus/proxy.c, adbus/signal.c, adbus/interface.c, adbus/socket.c, adbus/debug.c, reading the cookie file, `LocalId`, and the language bindings: callbacks, operating system calls and glue.
- malloc, realloc and pointer identity: a buffer is a sequence of bytes and an address is an index into memory, aligned when it is a multiple of the boundary. The message structure that the server keeps in front of the bytes in `r->msg` (its size is a multiple of 8) is not part of the modelled buffer. A read outside of memory is a failure of the reader; it is told apart from a refusal in `FixHeaders` by its outcome, and in `adbus_parse` by `ParseOutside.ParseOutside`.
- Signed integers and doubles are carried as the bit patterns that the C code writes; a failing reader leaves the iterator unspecified.
- Release callbacks, and other callbacks that change the object they are called from, are not modelled, except that a reply callback may do anything to the registry between `FireReply` and `CallbackDone`.
- Codec.ReadElems: an array element that consumes no byte would be read for ever; it is a failure here. No encoding holds one.
- Buffer.Buffer.SetSig: the cursor stands at the start of the signature when it is set, as all callers have it.
- Assertions in the iterator on a signature letter that does not fit (include/c/adbus-iterator.h:319, 327, adbus/riterator.c:104): malformed variant signatures reach them; they are modelled as the failure that the code returns without assertions.
- StreamParser.LeavesBufferIff: what the source does once it has left its buffer is not defined, and the model stops there. What a foreign header becomes, and whether the flip stays in it, is up to the parameter `flip`; a flip that changes the size or the length word of the header is refused, where adbus/server-parse.c:136-147 has no such test, so for foreign headers the assertion at 147 holds by this guard.
- MessageParse.ParseMessage: a message of 16 bytes violates the assertion at adbus/parse.c:245; it is modelled as without assertions, and never accepted. Argument bytes that are not in memory are left out of the message, where the C code keeps their address and number.
- MessageBuild.BuildParse: `signatureSize` is not compared, because adbus/parse.c:339 does not set it; strings are free of NUL bytes, flags below 256 and the field array within 67108864 bytes.
- MessageFormat.BuildsWhatParses: message types of one byte; the factory asserts that the type is one of the four.
- EndToEnd.ThroughTheServer: the rewritten field array is within the limit too.
- Framing.Client.Parse: the parse and the dispatch of a piece are a parameter that accepts or refuses it; the copy of a piece that does not lie aligned (adbus/connection.c:584-591) has the same bytes and is left out.
- BusNames.EveryRun: a remote is its number. As written, a name can pass to a remote that has left and is still queued; the C code then reads a freed structure, the model keeps the number.
- BusOrder.LongestWaits: a remote waits while it has a place behind the head of the queue; as written that may be one that has left.
- PathTree.EveryHistory: binds of interfaces other than the two builtin ones, on valid paths, as the assertion in `GetObject` demands; an unbind of what is not bound does nothing, where a caller of the C code has no bind to pass.
- Replies.EveryRun: each serial drawn is used for at most one reply, and no reply waits while all 2^32 - 2 others are drawn; an owner is a unique name or empty. The lookup of a service sends a message of its own, which is a separate step of the run. Both callbacks of a reply are set: adbus/reply.c:401-415 calls the missing one otherwise. A dispatch from within a callback takes over the iterator slot, so the outer reply stays in the list, and so it does here.
- ReplyRouting.AnswerFires: on the runs of `Replies.EveryRun`, with the same uses of serials and owners.
- Authentic.SenderAuthentic: of the name only that it is free of NUL bytes and at most 20 long; that no sender is read behind an overlong field is for printable names, as the server makes them.
- Overshoot.SenderOpenIff: for printable names, and headers whose kept fields parse apart from what the last of them does: behind others some bodies parse and some do not.
- Auth.Line: a line is not empty and not only a line feed, where adbus/auth.c:705-707 looks at the byte before it; `Auth.ParseBuffer` stops there with an outcome of its own.
- Auth.ClientCookie: the random bytes are one constant of the environment, where adbus/auth.c:628 draws new ones for every DATA line.
- Auth.Agreement: sending succeeds; the safety properties hold whether it does or not. The mechanism of the client's cookie is untried at the start and the server knows only EXTERNAL.
- AuthPeer.Peer.Line: lines below 2^28 bytes, and for `AuthPeer.Peer.Parse` buffers, so that the hashed text fits an `int`.
- Sha1State.State.AddBytes: chunks are not empty, as asserted, and fit an `int`.
- MatchRule.RoundTrip: an argument index prints as a number without bound, where `%d` has 32 bits. A value is the NUL-terminated string at its pointer.
