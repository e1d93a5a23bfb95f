# A model of the collaborative text editor

The editor is a client, a server and one worker process per opened file. Clients and the worker each hold a
buffer: a doubly linked chain of lines, one own cursor and up to twenty peer cursors that point into the chain. A
key is applied to the client's buffer at once and sent to the worker, which applies it and relays it to every other
client; a client that joins gets the whole buffer as JSON text. The same JSON library prints and reads the
messages themselves. This project models those two halves and proves that they do what they are for.

How the files fit together:

- `Document.dfy` is the document as a value, one function per operation. `Buffers.dfy`, over the nodes of
  `Chains.dfy`, carries the operations out in place: it relinks nodes, moves cursors and loops over the peer array,
  and every method is proved to turn the document its object stands for into what the function says.
- `FlatEditor.dfy` is the editor as its users see it, one flat string with an offset per cursor. `FlatEdits.dfy`
  proves the chain of lines a refinement of it, `EditRuns.dfy` draws the conclusions for whole runs, and
  `LoadSave.dfy` covers loading a file and saving it.
- `Replication.dfy` is the relay protocol, `Norm.dfy` compares replicas under user ids, `Convergence.dfy` proves
  that replicas agree, `Wire.dfy` puts the protocol's messages on the wire, `Handlers.dfy` is the worker and the
  client in place, and `Serving.dfy` shows that in every run the two only meet messages they are ready for.
- `Utf8.dfy`, `Escapes.dfy` and `StringParser.dfy` are the string layer of the JSON library; `JsonValue.dfy`,
  `JsonPrint.dfy` and `JsonParse.dfy` say what is printed and read; `JsonParser.dfy`, `JsonSerializer.dfy`,
  `JsonObjects.dfy` and `Comments.dfy` are the code that does it, byte by byte. `Grammar.dfy` gives the texts the
  parser reads a grammar of their own, `Layout.dfy` lays printed text out anew without looking at values, and
  `RoundTrip.dfy`, `ParseFacts.dfy`, `JsonPaths.dfy` and `JsonEquality.dfy` prove what the library promises.
- `Messages.dfy` is the message format. `Entries.dfy`, `Snapshots.dfy` and `SnapshotTexts.dfy` say what a snapshot
  holds and that it reads back; `BufferSnapshots.dfy` writes a buffer and builds one from a text.

Conventions: a `char` is a byte. A pointer into a C string is an index into a string that ends with its only NUL, so
that every index is in bounds says that no read passes the terminator. A rope is its string of characters, edited as
the contract in the rope's header says. Cursors are named by user ids 1 to 19, the own cursor by 0.

## Model

| member | source | states |
|---|---|---|
| Document.ApplyKeeps | src/buffer.c:578-760 | every insert, line break, backspace and move by any cursor keeps the chain well-formed: distinct ids below the counter, the line count, `last` followed by exactly height - 1 empty padding lines, every cursor inside its line on a text line |
| FlatEdits.ApplyRefines | src/buffer.c:614-760 | on the text with lines joined by line breaks and every cursor an offset, each operation by any cursor is exactly the operation of the flat editor: text and all offsets |
| FlatEdits.InsertRefines | src/buffer.c:614-634 | typing at offset o gives T[..o]+c+T[o..] when the line is shorter than width - 1 and nothing otherwise; other cursors move as the code compares them |
| FlatEdits.NewLineRefines | src/buffer.c:640-702 | both branches of a line break are T[..o]+'\n'+T[o..]; another cursor at p moves on iff p > o, or p >= o at column 0, except a server's own cursor |
| FlatEdits.BackspaceRefines | src/buffer.c:705-760 | in a line or joining two it is T[..o-1]+T[o..], nothing at 0; another cursor at p moves back iff p >= o |
| FlatEdits.MoveIsFlat | src/buffer.c:213-267 | the four moves, over line ends and clamped columns, are the moves on offsets; left and right are o - 1 and o + 1 clamped to the text |
| FlatEditor.LineStartIs | src/buffer.c:213-267 | the line start the flat editor uses is the one place after a line break, or the start, with none from there to the cursor |
| FlatEditor.LineEndIs | src/buffer.c:213-267 | likewise the line end |
| EditRuns.RunKeeps | src/buffer.c:522-760 | in every run of edits, joins and departures each document is well-formed and its flat view is the flat editor's next state |
| EditRuns.OwnAlwaysAtStart | src/buffer.c:640-702 | in every run by users with ids other than 0 a server's own cursor stays at column 0 of the first line |
| EditRuns.NewLineUndone | src/buffer.c:640-760 | a line break and a backspace by one cursor restore the text and every cursor |
| EditRuns.InsertUndone | src/buffer.c:270-297 | typing and backspace: on a line with room the text comes back, and every cursor if and only if no other stood one column right of the insertion; on a full line text and cursors come back if and only if the cursor is at the very start |
| EditRuns.InsertUndoneExample | src/buffer.c:614-634 | a buffer of one line "ab" in which the second cursor is dragged left |
| EditRuns.FullLineExample | src/buffer.c:270-297 | a full line on which typing and backspace take an older character away |
| EditRuns.CrossingEdits | src/buffer.c:614-634 | two users who type at once wherever they stand, each seeing its own edit first, agree on the text if and only if they are on different lines, or their line is full, or it has room for one only and both typed the same as every character between them, or it has room for both and at one place they typed the same, side by side the right one typed the character between them |
| EditRuns.CrossingExample | src/buffer.c:622 | two users side by side in "ab" who do not |
| Document.InsertByteKeeps | src/buffer.c:270-283 | typing any byte keeps the document well-formed if and only if it is a character of a line, or is refused, or is none the rope takes while no cursor it moves is at the end of the line |
| Document.LostByte | src/buffer.c:270-283 | a byte the rope does not take leaves every line as it was and moves the cursor on all the same |
| Document.LostByteExample | src/buffer.c:270-283 | an empty line in which it ends up beyond the end |
| Chains.LineNew | src/buffer.c:141-178 | a new node between its neighbours: prev and next are inverse again along the longer chain |
| Chains.LineFree | src/buffer.c:181-190 | unlinking a node leaves the rest of the chain linked |
| Buffers.Buffer.constructor | src/buffer.c:329-364 | an empty text of h lines: one text line, h - 1 padding lines with ids 1 to h - 1, own cursor at the start, no peers |
| Buffers.Buffer.BcursorFind | src/buffer.c:318-326 | the cursor with that id, own or peer, or null when there is none |
| Buffers.Buffer.BlineFrom | src/buffer.c:303-315 | the line with that id from `last` upwards, null when it is below `last` or nowhere |
| Buffers.Buffer.CursorMove | src/buffer.c:213-267 | a cursor's place after a move along prev and next, not past the first or `last` line; the result says whether it went up, down, sideways or nowhere |
| Buffers.Buffer.Move | src/buffer.c:578-611 | the object stands for the moved document; nothing else of it changed |
| Buffers.Buffer.BcursorInsert | src/buffer.c:614-634 | for any byte, the object stands for the document with what the rope takes of it in the line, the cursor moved on and all others nudged; FAILED iff the id is unknown |
| Buffers.Buffer.BcursorInsertLine | src/buffer.c:640-702 | the object stands for the document with the line split or an empty line above; exactly one fresh node joined the chain |
| Buffers.Buffer.BcursorDel | src/buffer.c:705-760 | the object stands for the document after backspace; FAILED iff the cursor is at column 0 of `first`; no node is added |
| Buffers.Buffer.BufferDeletel | src/buffer.c:488-519 | the line is gone, its cursors are on the line above with clamped columns, `last` moved up if it was the last |
| Buffers.Buffer.BcursorNew | src/buffer.c:522-546 | the cursor is at the given place in the first free slot; FAILED and unchanged iff all slots are taken |
| Buffers.Buffer.FullCount | src/buffer.c:531-542 | the peer array is full exactly when the buffer holds twenty peers |
| Buffers.Buffer.UsersFit | src/buffer.c:531-542 | with user ids 1 to 19 there is always a free slot |
| Buffers.Buffer.BcursorCopyOwn | src/buffer.c:548-551 | the new cursor stands where the own cursor stands |
| Buffers.Buffer.BcursorFree | src/buffer.c:553-574 | a peer's cursor is gone and nothing else changed; refused for the own cursor |
| LoadSave.SplitIs | src/buffer.c:367-430 | the lines a file is split into have no line break in them, and joined by line breaks they are the file |
| LoadSave.BufferFromFile | src/buffer.c:367-430 | typing a file in gives its lines, each cut to its first width - 1 characters, and the cursor back at the very start |
| LoadSave.BufferSave | src/buffer.c:433-461 | what is written is every text line followed by a line break, no padding line |
| LoadSave.LoadThenSave | src/buffer.c:367-461 | saving a loaded file writes its cut lines, each ended by a line break |
| LoadSave.LoadThenSaveExact | src/buffer.c:367-461 | the file comes back with one more line break if and only if no line is too long |
| Norm.ClientApply | src/editor.c:133-152 | an operation on a client's buffer is, under user ids, that operation by its user |
| Norm.ServerApply | src/server.c:444-473 | an operation by a user on the worker's buffer is, under user ids, that operation |
| Convergence.ServerHandles | src/server.c:424-473 | the worker handles a message as its effect, keeps its own cursor at the start, and relays one message of the same effect |
| Convergence.FollowerHandles | src/editor.c:133-158 | a relayed message has the same effect on another client's buffer |
| Convergence.SnapshotAdd | src/server.c:424-430 | the joiner's copy of the snapshot is, under user ids, the worker's document with the joiner's cursor added |
| Convergence.Switch | src/server.c:404-479 | when nobody else's messages are in flight any user may act next |
| Convergence.StepKeeps | src/server.c:404-479 | each step of client, worker or channel keeps every replica on the way to the acting client's document, and its handler's preconditions hold |
| Convergence.RunInStep | src/server.c:404-479 | so does every run in which users edit, join and quit in turns |
| Convergence.InFlightLeadsToActor | src/server.c:242-253 | in every state of a run, while the last user to act edits, joins, quits or has gone, folding the messages in flight over the worker's and over every other replica gives one document, its own once it has one: text, line ids and every user's cursor |
| Convergence.QuietAgrees | src/server.c:424-473 | whenever the channels are empty every client has the worker's lines, ids and counters, its own cursor where the worker has that user's, and every other user's where the worker has it |
| Convergence.DeliveryShrinks | src/server.c:242-253 | every delivery leaves fewer messages to deliver, although relaying makes new ones |
| Convergence.EverythingArrives | src/server.c:242-253 | every run goes on, by deliveries alone, to a state with empty channels in which every connected client agrees with the worker and any user may act next |
| Serving.RunServes | src/server.c:404-479 | in every run from a height of two or more the worker and the clients only meet messages their handlers are ready for: known users, free slots, snapshots of two lines or more |
| Serving.LoadedStarts | src/server.c:277-287 | a worker that has just loaded its file is a state in which runs start |
| Serving.WorkerTakes | src/server.c:301-479 | with an open socket and C ints, what runs guarantee is what the worker's handler asks for |
| Serving.ClientTakes | src/editor.c:114-165 | and likewise the client's |
| Wire.OpArrives | src/editor.c:168-238 | the message of every typed operation is received as it was sent, whatever bytes are left behind it in the receive buffer, and asks for that operation |
| Wire.KeyArrives | src/editor.c:229-234 | the message of a typed byte asks for that byte if and only if it is ASCII |
| Wire.LatinKeyLost | src/editor.c:229-234 | a byte for which it arrives without payload |
| Wire.OpText | src/editor.c:168-238 | the text of a typed operation's message, character by character |
| Wire.Arrives | src/msg.c:15-62 | a message with an ASCII payload says the same to its receiver |
| Handlers.HandleEdit | src/server.c:444-473 | the four editing cases perform the operation the message asks for, by its user |
| Handlers.Worker.constructor | src/server.c:277-287 | a worker starts with its file loaded, its own cursor at the start and nobody listed |
| Handlers.Worker.SendMsgEveryone | src/server.c:242-253 | every open socket but the sender's is sent the message exactly once |
| Handlers.Worker.CloseSocket | src/server.c:170-184 | the socket is off the list and the others stay |
| Handlers.Worker.Accept | src/server.c:196-212 | a new socket is listed if and only if an entry is free |
| Handlers.Worker.HandleMsg | src/server.c:301-479 | the buffer becomes what the protocol says, the sender gets the protocol's reply, every other open socket its relay, a quitter is off the list; a login is answered to its socket alone; a user not logged in only loses the socket; kinds in which no operation, file request or quit can be said change nothing |
| Handlers.ServedSaid | src/server.c:404-479 | the kinds the switch acts on are exactly those in which an operation, a file request or a quit can be said |
| Handlers.Client.HandleMsg | src/editor.c:114-165 | the client's document becomes what the protocol says and nothing is sent; the answer to a login is taken as below; kinds in which nothing is said to a client change nothing |
| Handlers.ClientServedSaid | src/editor.c:114-165 | the kinds the switch acts on are exactly those in which a snapshot, an operation, a cursor's coming or going can be said |
| Handlers.Client.HandleInput | src/editor.c:168-238 | a key sends one message that says its operation by this user, numbered by the version, and performs it with the own cursor; escape sends QUIT and drops the buffer; a byte no line may hold is sent and typed as it is |
| Handlers.Client.LoggedIn | src/editor.c:125-128 | the user id is taken and the file requested |
| Handlers.LogIn | src/server.c:409-421 | a login answered by the worker and the answer handled by its client: the client has the id it was validated as, is listed under it and asks for its file; when refused nothing changes on either side |
| Messages.MessageArrives | src/msg.c:15-62 | sending and receiving keeps all fields; a payload that is not UTF-8 is lost |
| Messages.MessageArrivesWhole | src/msg.c:15-62 | a message arrives whole if and only if its payload is NULL or valid UTF-8 |
| Messages.NestedArrives | src/msg.c:15-62 | JSON text carried as a payload arrives unchanged and still reads as its value |
| Messages.StaleBytes | src/msg.c:101-120 | what is left in the receive buffer behind a message makes no difference |
| Messages.MsgTextIs | src/msg.c:15-34 | the text of every message: type, user_id, file_id, file_version in this order, the payload when it has one, and nothing between them |
| Messages.FieldsRead | src/msg.c:43-47 | each of the four numbers is that of its member, and 0 exactly when that is missing or no number |
| Messages.SerializeMsg | src/msg.c:15-34 | the terminated text of the message |
| Messages.ReadingSafe | src/msg.c:50-53 | reading the text of an object takes the length of a NULL payload if and only if it has a payload that is no string, whatever its other members are and whatever follows it |
| Messages.NumberPayload | src/msg.c:50-53 | a text for which it does |
| Messages.DeserializeMsg | src/msg.c:37-62 | the message the text says, missing numbers 0 and a missing payload NULL; the outcome of a payload that is no string is one of its own |
| Entries.KeysApart | src/buffer.c:899-944 | the dotted paths of a snapshot never lead into one another |
| Entries.SetAllGets | src/buffer.c:872-948 | after any sequence of sets along such paths, a path leads to what was set there last and nowhere if nothing was |
| Snapshots.SnapDescribes | src/buffer.c:872-948 | the object of a snapshot, read by its paths, has the counters, every line with its text, successor and predecessor, the own cursor and exactly the peers |
| SnapshotTexts.SnapReads | src/buffer.c:772-948 | the text of a snapshot parses to an object that describes the document |
| SnapshotTexts.SnapTravels | src/server.c:424-427 | as the payload of a message it arrives unchanged and still does |
| SnapshotTexts.DescribesOne | src/buffer.c:772-853 | one object describes one document and one set of counters |
| BufferSnapshots.BufferSerialize | src/buffer.c:872-948 | walking the chain and the peer slots gives the terminated snapshot text of the document |
| BufferSnapshots.ReadRest | src/buffer.c:816-831 | the walk along "lines.ID.next" stops, having appended each remaining line once and in order |
| BufferSnapshots.BufferDeserialize | src/buffer.c:772-870 | from the text of any document of two lines or more a buffer is built that stands for it, with the same counters; a server's without a user interface |
| BufferSnapshots.Reopen | src/buffer.c:772-948 | written and read again a buffer stands for the same lines, ids, `last`, counters and cursors |
| Utf8.VerifyUtf8Sequence | src/parson.c:196-236 | accepts exactly the bytes of one scalar value in shortest form, with their number, reading nothing beyond the terminator |
| Utf8.SequenceGrammar | src/parson.c:181-236 | a sequence is accepted exactly when it has the form of section 4 of RFC 3629 |
| Utf8.SequenceEnc | src/parson.c:196-236 | an accepted sequence is the encoding of section 3 of RFC 3629 of the scalar value in its bits |
| Utf8.IsValidUtf8 | src/parson.c:238-248 | over a C string's whole length, never past its terminator, it says whether the string is valid |
| Utf8.ValidIsEncoded | src/parson.c:238-248 | valid strings are exactly the encodings of lists of scalar values |
| Utf8.EncodeInjective | src/parson.c:181-248 | and of only one list each |
| Escapes.HexSpelled | src/parson.c:154-179 | four characters are read as a number exactly when they spell it in hexadecimal, each digit in either case |
| Escapes.EscapeDecodes | src/parson.c:513-557 | the escape of section 7 of RFC 8259 of every scalar value, single or pair, each digit in either case, decodes to its UTF-8 bytes |
| Escapes.EscapeAccepted | src/parson.c:513-557 | whatever starts with \u and is accepted is such an escape |
| Escapes.SurrogatesPaired | src/parson.c:513-557 | an escape, however spelled, is accepted if and only if it is no trail surrogate and, being a lead, a trail escape follows |
| Escapes.ShortEscapes | src/parson.c:573-590 | the two-character escapes are the eight of section 7 of RFC 8259, each with its code |
| Escapes.ControlRejected | src/parson.c:592-593 | a control character anywhere in a literal rejects it |
| Escapes.EscCharShortest | src/parson.c:945-1004 | no character is printed longer than need be, but that slashes and quotes are escaped |
| Escapes.Aligned | src/parson.c:493-614 | when the literal ends at its closing quote, decoding what follows and decoding only its content are the same |
| Escapes.ContentFits | src/parson.c:562-614 | decoded content is never longer than the content |
| Escapes.QuoteReadsBack | src/parson.c:945-1004 | every C string printed as a literal is read back, whatever follows it |
| StringParser.SkipQuotes | src/parson.c:493-511 | finds the end of a literal, or fails, within the string |
| StringParser.ParseUtf16 | src/parson.c:513-557 | writes exactly the UTF-8 bytes of the escape, single or pair, or fails and writes nothing |
| StringParser.ProcessString | src/parson.c:562-614 | the decoded content, all writes inside the len + 1 bytes allocated; `looked` counts the bytes looked at |
| StringParser.LooksWithin | src/parson.c:562-614 | decoding never looks past the terminator |
| StringParser.LooksPastQuote | src/parson.c:165-179 | it looks past the closing quote if and only if a \u escape stands too close to it |
| StringParser.LooksPastQuoteExample | src/parson.c:165-179 | a literal for which it does |
| StringParser.GetQuotedString | src/parson.c:618-627 | the string of the literal and the place behind it, or NULL |
| ParseFacts.ReadsForms | src/parson.c:629-797 | the parser reads a value from a text if and only if it is not too deep and the text begins, behind white space, with a form of it: tokens with any white space between them, strings with any escapes, no name twice |
| Grammar.FormBack | src/parson.c:629-748 | the text of every form, before anything that ends it, is read as its meaning and exactly that far |
| Grammar.ValueForm | src/parson.c:629-797 | whatever is read is the text of a form, found with its gaps |
| Grammar.GapBeforeValue | src/parson.c:50 | space, tab, line feed, vertical tab, form feed and carriage return before a value make no difference, whatever follows |
| Grammar.GapBehindBracket | src/parson.c:654-748 | nor behind an opening bracket |
| Grammar.NoValue | src/parson.c:629-652 | a text that begins with anything else that starts no value is rejected |
| JsonParser.ParseValueAt | src/parson.c:629-652 | the mutually recursive parser, moving a pointer, returns what the parse function says and ends where it says; the remaining bytes are its measure |
| JsonParser.ParseObjectValue | src/parson.c:654-708 | likewise objects, members added one by one, a repeated name rejected |
| JsonParser.ParseArrayValue | src/parson.c:710-748 | likewise arrays |
| JsonParser.ParseNumberValue | src/parson.c:777-787 | likewise numbers |
| ParseFacts.NumberRefused | src/parson.c:250-263 | a number is refused if and only if it is a zero that a digit, a hexadecimal digit behind an x, or an exponent follows, or a minus sign and an infinity or NaN |
| ParseFacts.ZeroExponentExample | src/parson.c:250-263 | 0e1 is refused |
| JsonParser.ParseStringAt | src/parson.c:1048-1056 | a byte order mark is skipped, one value is read, the rest ignored |
| RoundTrip.FormWritten | src/parson.c:809-943 | printed text, compact or pretty, is the text of a form |
| RoundTrip.TextBack | src/parson.c:629-748 | the text of a value, compact or pretty, at any depth, is read as that value and exactly that far, whatever follows it, but that a number needs a comma, bracket, white space or the end |
| RoundTrip.PrintThenParse | src/parson.c:1048-1056 | a whole printed text is read as the value it was printed from, members in order |
| ParseFacts.PrintThenParseExact | src/parson.c:629-652 | for a value of distinct names, C strings and C ints: it comes back if and only if no node is deeper than 2048 |
| ParseFacts.ParseValueOk | src/parson.c:629-797 | what is read has distinct names, C strings and C ints and no node too deep, and what is left is a suffix |
| ParseFacts.ConsumesUnlessMinus | src/parson.c:777-787 | an accepted value takes no byte if and only if it is a minus sign no number follows |
| ParseFacts.MinusExample | src/parson.c:777-787 | such a text |
| ParseFacts.NormalForm | src/parson.c:1048-1056 | whatever was accepted, its printed text is read as the same value |
| Layout.TextLayout | src/parson.c:809-943 | compact text has no white space outside literals; pretty text is it with every element on a line of its own, four spaces deeper than its bracket, and without its white space it is the compact text |
| Layout.TextRelaid | src/parson.c:809-943 | the same for every depth and with anything behind it |
| JsonSerializer.SerializeR | src/parson.c:809-943 | measuring and writing return the length of the text, and writing leaves the text and its terminator there and every other byte as it was |
| JsonSerializer.SerializeString | src/parson.c:945-1004 | the same for a string literal |
| JsonSerializer.SerializationSize | src/parson.c:1420-1424 | the measured size is the text and its terminator |
| JsonSerializer.SerializeToBuffer | src/parson.c:1426-1437 | writes if and only if text and terminator fit; refusing, it writes nothing |
| JsonSerializer.SerializeToString | src/parson.c:1461-1478 | the allocated buffer holds exactly the text and the terminator |
| JsonObjects.JsonObject.NgetValue | src/parson.c:402-414 | the value of the member of that name, or none |
| JsonObjects.JsonObject.Resize | src/parson.c:372-400 | the members are kept in the new arrays; capacity 0 is refused |
| JsonObjects.JsonObject.Add | src/parson.c:347-370 | a new name goes to the end, growing the arrays when full; a name that is there is refused |
| JsonObjects.JsonObject.SetValue | src/parson.c:1681-1700 | the value replaces the old one in its place or goes to the end; a value with a parent is refused |
| JsonObjects.JsonObject.Remove | src/parson.c:1798-1817 | the member is gone and the last one takes its place |
| JsonObjects.GetPut | src/parson.c:1681-1700 | setting changes what that name leads to and no other |
| JsonObjects.GetSwapOut | src/parson.c:1798-1817 | removing takes away that name and no other |
| JsonPaths.DotGetAfterSet | src/parson.c:1718-1748 | after a successful dotset at a path, dotget there gives the value |
| JsonPaths.DotGetElsewhere | src/parson.c:1718-1748 | dotget is unchanged at every path that is neither a prefix nor an extension of it |
| JsonPaths.DotSetRefused | src/parson.c:1718-1748 | a fresh value is refused if and only if the path is blocked, and then the tree is unchanged |
| JsonPaths.BlockedMeans | src/parson.c:1718-1748 | blocked means that some proper part of the path leads to a value that is no object |
| JsonPaths.DotSetGood | src/parson.c:1718-1748 | names stay distinct at every level |
| JsonEquality.ValueEquals | src/parson.c:1909-1971 | the comparison loops compute the comparison function |
| JsonEquality.EqualsIsTree | src/parson.c:1909-1971 | on trees with distinct names it is equality of trees whose objects are maps |
| JsonEquality.EqualsEquivalence | src/parson.c:1909-1971 | so it is reflexive, symmetric and transitive |
| JsonEquality.DeepCopy | src/parson.c:1341-1418 | a copy is equal to its source, members in order |
| Comments.IndexOfMeans | src/parson.c:315-318 | the search for the end token finds the first place it stands at |
| Comments.RemoveComments | src/parson.c:298-331 | in place and never on or past the terminator, every comment outside strings becomes spaces |
| Comments.CommentGone | src/parson.c:298-331 | a comment becomes spaces up to its first end token, whatever is in it |
| Comments.CommentOpen | src/parson.c:298-331 | without an end token only the start token does |
| Comments.PrintedHasNoComments | src/parson.c:1058-1073 | printed text reads the same with comments allowed, slashes in strings and all |
| Comments.LeadingComment | src/parson.c:1058-1073 | a comment before a printed value is as good as none |
| Comments.ParseStringWithComments | src/parson.c:1058-1073 | strips both kinds from a copy and reads one value |

## Findings

Properties one would expect that the code does not have, each with the exact condition under which it does:

- A cursor one column right of a typed character stays (src/buffer.c:622 compares with the column after the
  insertion), so on a line with room typing and deleting is undone for every cursor if and only if none stood there. A
  line of width - 1 characters refuses the character (src/buffer.c:273), which its caller does not learn, and the
  backspace takes an older one away: there text and cursors come back if and only if the cursor is at the very start.
  `EditRuns.InsertUndone`, `EditRuns.InsertUndoneExample`, `EditRuns.FullLineExample`.
- A typed byte of 128 or more, or NUL, which the rope refuses or takes as the empty string, moves the cursor on all the
  same (src/buffer.c:279-280), beyond the end of the line when it stood there. The document stays well-formed if and
  only if no cursor that is moved stood at the end: `Document.InsertByteKeeps`, `Document.LostByte`,
  `Document.LostByteExample`. A line break typed as a character, which no key does, never keeps it.
- Decoding a literal looks past its closing quote if and only if the first escape that does not decode, or the second
  half of its surrogate pair, is a \u with fewer than three characters before the quote, since only the terminator
  stops it (src/parson.c:165-179); never past the terminator: `StringParser.LooksPastQuote`,
  `StringParser.LooksPastQuoteExample`.
- A minus sign that no number follows is accepted as 0 and not consumed: `ParseFacts.ConsumesUnlessMinus`,
  `ParseFacts.MinusExample`.
- A zero with an exponent, such as 0e1, is a number of section 6 of RFC 8259 but is refused, being taken for a leading
  zero (src/parson.c:251-256); exactly which numbers are refused: `ParseFacts.NumberRefused`,
  `ParseFacts.ZeroExponentExample`.
- A payload that is not UTF-8 is silently dropped, so a typed byte of 128 or more reaches the worker as an INSERT
  without payload, which src/server.c:445 then reads: `Messages.MessageArrivesWhole`, `Wire.KeyArrives`,
  `Wire.LatinKeyLost`.
- A message whose "payload" is there but is no string makes its receiver take the length of NULL: the presence of the
  member is tested, not its type (src/msg.c:50-53). Reading is safe if and only if "payload" is absent or a string:
  `Messages.ReadingSafe`, `Messages.NumberPayload`.
- Characters typed at the same time may diverge; the version number that was meant against it is unused
  (PROGRAMMER_DOC.md:59). The texts agree if and only if the two users are on different lines, or their line is full, or
  it has room for one only and both typed the same as every character between them, or it has room for both and users at
  one place typed the same, and of users side by side the right one typed the character between them:
  `EditRuns.CrossingEdits`, `EditRuns.CrossingExample`. Convergence is proved for users who act in turns.
- A comment that is not ended, such as a last line comment without a line break, loses only its start token:
  `Comments.CommentOpen`.

## Left out

- Buffers.Buffer.BcursorInsert: starts from a well-formed document; what is typed after a lost byte has left a cursor beyond its line is not modelled, as the rope's header does not say what an insertion there does.
- LoadSave.BufferFromFile: for files of ASCII characters other than NUL, for the same reason.
- Handlers.Worker.constructor: likewise.
- Handlers.Worker.HandleMsg: whether a login is valid and the list of files come from outside; an INSERT or a move without payload, and a move with a digit other than 0 to 3, which leaves the direction uninitialised, are outside its precondition.
- Handlers.Client.HandleMsg: messages that edit are those the protocol sends to a client that has the document.
- JsonObjects.JsonObject.Add: the link from the added value to its parent is not recorded; sharing between parent and child objects is not modelled.
- JsonObjects.JsonObject.SetValue: whether the value has a parent already is passed in, as the link is not recorded.
- Convergence.QuietAgrees: for runs in which users act in turns; the code makes no attempt at anything more.
- BufferSnapshots.BufferDeserialize: the nodes and cursors are built on the heap, but the parsed JSON object is read as a value, and so is the object that dotted sets build up in BufferSerialize; sharing between parent and child objects is not modelled.
- JsonPaths.DotSetGood: dotted sets are modelled on values, as are array elements; only the top-level object of a set, add or remove is a growing array in place.
- JsonParser.ParseNumberValue: numbers that are no C ints (fractions, exponents, more than 32 bits, negative zero) are reported as outside the model, which says of them only that they are not refused.
- Buffers.Buffer.Move: the scrolling and the screen flags steered by the result of the move are not modelled.
- The scroll window and its flags (top, bottom, on_screen, where): they influence neither text nor cursors; a snapshot's top and bottom are carried as numbers.
- The user interface, sockets, polling, processes, signals, registration, and how user names and the file list are kept.
- Characters that are not ASCII inside a line.
- Memory: allocation failure, freeing, the 2048-byte scratch pad, the 100000-byte receive buffer and overflow of the size counter; message delivery is one whole message at a time and in order.
- The rope's own implementation, of which only the header is used: include/rope.h states the insert and delete contract.
- Array replace, append and clear, json_validate, file wrappers and type getters, which would only add easy members.
