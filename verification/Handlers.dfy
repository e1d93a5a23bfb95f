/**
 The two message handlers in place: the worker's, which applies a message to its buffer and
 relays it to every other socket, and the client's, with the keys the client turns into
 messages.  Each is shown to do what the protocol of Replication.dfy says.
 */
module Handlers {
  import opened Wrappers
  import opened CStrings
  import opened Document
  import opened Buffers
  import opened Messages
  import opened AsciiTexts
  import opened Snapshots
  import opened SnapshotTexts
  import opened BufferSnapshots
  import opened LoadSave
  import opened Replication
  import opened Wire

  // ---------------------------------------------------------------- the edits, on either side

  /** Which case a message is, and what the operation does in that case. */
  lemma EditCases(d: Doc, w: WireMsg, op: Op)
    requires WF(d) && w.userId in d.curs && OpOf(w) == Some(op) && TypedOp(op)
    ensures w.kind == INSERT || w.kind == INSERT_LINE || w.kind == DELETE || w.kind == MOVE_CURSOR
    ensures w.kind == INSERT ==> w.payload.Some? && Typed(FirstChar(w.payload.value)) &&
                                 Apply(d, w.userId, op) == InsertChar(d, w.userId, FirstChar(w.payload.value))
    ensures w.kind == INSERT_LINE ==> Apply(d, w.userId, op) == NewLine(d, w.userId)
    ensures w.kind == DELETE ==> Apply(d, w.userId, op) == Backspace(d, w.userId)
    ensures w.kind == MOVE_CURSOR ==> w.payload.Some? && DirOf(FirstChar(w.payload.value)).Some? &&
                                      Apply(d, w.userId, op) == MoveCursor(d, w.userId, DirOf(FirstChar(w.payload.value)).value)
  {
    hide WF, InsertChar, NewLine, Backspace, MoveCursor;
  }

  lemma ValidIs(b: Buffer)
    requires b.Valid()
    ensures WF(b.doc) && 0 in b.doc.curs
  {
  }

  /** The cases INSERT, INSERT_LINE, DELETE and MOVE_CURSOR of either handler. */
  method HandleEdit(b: Buffer, w: WireMsg, ghost op: Op)
    requires b.Valid() && w.userId in b.doc.curs && OpOf(w) == Some(op) && TypedOp(op)
    modifies b`doc, b`numLines, b`first, b`last, b`lineIdCnt, b`chain, b`at
    modifies b.at.Keys`prev, b.at.Keys`next, b.at.Keys`str, b.pens`ownLine, b.pens`pos
    ensures WF(old(b.doc)) && b.Valid() && b.doc == Apply(old(b.doc), w.userId, op)
    ensures fresh(b.at.Keys - old(b.at.Keys))
  {
    hide *;
    ValidIs(b);
    EditCases(b.doc, w, op);
    var id := w.userId;
    if w.kind == INSERT {
      var r := b.BcursorInsert(id, FirstChar(w.payload.value));
    } else if w.kind == INSERT_LINE {
      ghost var ll;
      var r;
      r, ll := b.BcursorInsertLine(id);
    } else if w.kind == DELETE {
      var r := b.BcursorDel(id);
    } else {
      b.Move(id, DirOf(FirstChar(w.payload.value)).value);
    }
  }

  // ---------------------------------------------------------------- the worker

  const MAX_CLIENTS := 5

  /** Every socket of to sent ws on top of what it had been sent. */
  function Sent(out: map<int, seq<WireMsg>>, to: set<int>, ws: seq<WireMsg>): map<int, seq<WireMsg>> {
    map s | s in out :: if s in to then out[s] + ws else out[s]
  }

  lemma SentNone(out: map<int, seq<WireMsg>>, ws: seq<WireMsg>)
    ensures Sent(out, {}, ws) == out
  {
  }

  lemma SentMore(out: map<int, seq<WireMsg>>, to: set<int>, s: int, w: WireMsg)
    requires s in out && s !in to
    ensures Sent(out, to, [w])[s := Sent(out, to, [w])[s] + [w]] == Sent(out, to + {s}, [w])
  {
  }

  lemma LoadedStart(d: Doc, text: string, h: int, w: int)
    requires Loaded(d, text, h, w, false)
    ensures OwnAtStart(d) && d.curs.Keys == {0}
  {
  }

  /** The kinds of message a worker acts on besides logins. */
  predicate Served(kind: int) {
    kind == FILE_REQUEST || kind == QUIT || kind == INSERT || kind == INSERT_LINE || kind == DELETE || kind == MOVE_CURSOR
  }

  /** What users say to a worker once they are logged in. */
  predicate ToWorker(m: Msg) {
    m.OpMsg? || m.FileRequest? || m.Quit?
  }

  ghost predicate SaidToWorker(kind: int) {
    exists w: WireMsg, m: Msg, x: Extra :: w.kind == kind && ToWorker(m) && Encodes(w, m, x)
  }

  lemma SaidByKind(w: WireMsg, m: Msg, x: Extra)
    requires ToWorker(m) && Encodes(w, m, x)
    ensures Served(w.kind)
  {
  }

  /** A message of each kind that a worker serves. */
  lemma KindSaid(kind: int) returns (w: WireMsg, m: Msg)
    requires Served(kind)
    ensures w.kind == kind && ToWorker(m) && forall x :: Encodes(w, m, x)
  {
    w := WireMsg(kind, 1, 0, 0, Some("0"));
    m := if kind == FILE_REQUEST then FileRequest(1) else if kind == QUIT then Quit(1) else OpMsg(1, OpOf(w).value);
  }

  /** The worker acts on exactly the kinds in which an operation, a file request or a quit can be said. */
  lemma ServedSaid(kind: int)
    ensures Served(kind) <==> SaidToWorker(kind)
  {
    if Served(kind) {
      var w, m := KindSaid(kind);
      assert Encodes(w, m, Extra(0, 0, 0, 0));
    }
    forall w: WireMsg, m: Msg, x: Extra | w.kind == kind && ToWorker(m) && Encodes(w, m, x) ensures Served(kind) {
      SaidByKind(w, m, x);
    }
  }

  lemma KindsApart(kind: int)
    ensures SaidToWorker(kind) ==> kind != LOGIN && kind != REGISTER
    ensures LOGIN != REGISTER
  {
    ServedSaid(kind);
  }

  class Worker {
    const buf: Buffer
    const info: Extra
    const pollList: array<int>
    var loggedIn: set<int>
    var out: map<int, seq<WireMsg>>

    /** A worker with its file loaded, nobody connected; its own cursor is at the start. */
    constructor (text: string, h: int, w: int, info: Extra)
      requires h >= 1 && forall i :: 0 <= i < |text| ==> 0 < text[i] as int < 128
      ensures fresh(buf) && fresh(pollList) && buf.Valid() && Sockets()
      ensures Open() == {} && out == map[] && this.info == info
      ensures Loaded(buf.doc, text, h, w, false) && OwnAtStart(buf.doc) && buf.doc.curs.Keys == {0}
    {
      pollList := new int[MAX_CLIENTS + 1](_ => -1);
      hide *;
      var b := BufferFromFile(text, h, w, false);
      LoadedStart(b.doc, text, h, w);
      buf := b;
      this.info := info;
      loggedIn, out := {}, map[];
      new;
      NobodyYet();
    }

    lemma NobodyYet()
      requires pollList.Length == MAX_CLIENTS + 1 && forall i :: 0 <= i < pollList.Length ==> pollList[i] == -1
      ensures Sockets() && Open() == {}
    {
    }

    /** Open sockets of the first n entries; entry 0 is the listening socket. */
    ghost function OpenTo(n: int): set<int>
      requires n <= pollList.Length
      reads pollList
    {
      set i | 1 <= i < n && pollList[i] >= 0 :: pollList[i]
    }

    ghost function Open(): set<int>
      reads pollList
    {
      OpenTo(pollList.Length)
    }

    /** Sockets are apart, and each has its queue. */
    ghost predicate Sockets()
      reads this, pollList
    {
      && pollList.Length == MAX_CLIENTS + 1
      && (forall i, j :: 1 <= i < j < pollList.Length && pollList[i] >= 0 ==> pollList[i] != pollList[j])
      && Open() <= out.Keys
    }

    method SendMsg(fd: int, w: WireMsg)
      requires fd in out
      modifies this`out
      ensures out == old(out)[fd := old(out)[fd] + [w]]
    {
      out := out[fd := out[fd] + [w]];
    }

    lemma OpenNext(i: int, sender: int)
      requires 1 <= i < pollList.Length && Sockets()
      ensures var s := pollList[i];
              if s >= 0 && s != sender then
                s in out && s !in OpenTo(i) - {sender} && OpenTo(i + 1) - {sender} == OpenTo(i) - {sender} + {s}
              else OpenTo(i + 1) - {sender} == OpenTo(i) - {sender}
    {
      assert OpenTo(i + 1) == OpenTo(i) + if pollList[i] >= 0 then {pollList[i]} else {};
      assert pollList[i] >= 0 ==> pollList[i] in Open();
    }

    /** Entry i of the poll list, when it is open and not the sender's. */
    method SendTo(i: int, sender: int, w: WireMsg, ghost before: map<int, seq<WireMsg>>)
      requires Sockets() && 1 <= i < pollList.Length && out == Sent(before, OpenTo(i) - {sender}, [w])
      modifies this`out
      ensures Sockets() && out == Sent(before, OpenTo(i + 1) - {sender}, [w])
    {
      OpenNext(i, sender);
      if pollList[i] >= 0 && pollList[i] != sender {
        SentMore(before, OpenTo(i) - {sender}, pollList[i], w);
        SendMsg(pollList[i], w);
      }
    }

    /** To every open socket but the sender's, once. */
    method SendMsgEveryone(sender: int, w: WireMsg)
      requires Sockets()
      modifies this`out
      ensures Sockets() && out == Sent(old(out), Open() - {sender}, [w])
    {
      SentNone(out, [w]);
      assert OpenTo(1) - {sender} == {};
      assert Open() == OpenTo(MAX_CLIENTS + 1) && pollList.Length == MAX_CLIENTS + 1;
      hide Sent, Sockets, OpenTo;
      for i := 1 to MAX_CLIENTS + 1
        invariant Sockets() && out == Sent(old(out), OpenTo(i) - {sender}, [w])
      {
        SendTo(i, sender, w, old(out));
      }
    }

    /** The socket off the list; nothing more is sent to it. */
    method CloseSocket(socket: int)
      requires Sockets()
      modifies pollList
      ensures Sockets() && Open() == old(Open()) - {socket}
    {
      for i := 1 to MAX_CLIENTS + 1
        invariant pollList[..] == old(pollList[..])
        invariant forall j :: 1 <= j < i ==> pollList[j] != socket
      {
        if pollList[i] == socket {
          pollList[i] := -1;
          assert forall j :: 1 <= j < pollList.Length && j != i ==> pollList[j] == old(pollList[j]);
          assert Open() == old(Open()) - {socket};
          break;
        }
      }
    }

    // -------------------------------------------------------------- one message

    method EditAndRelay(socket: int, w: WireMsg, ghost op: Op)
      requires Sockets() && buf.Valid() && w.userId in buf.doc.curs && OpOf(w) == Some(op) && TypedOp(op)
      modifies this`out, buf, buf.at.Keys, buf.pens
      ensures WF(old(buf.doc)) && buf.Valid() && buf.doc == Apply(old(buf.doc), w.userId, op)
      ensures Sockets() && out == Sent(old(out), Open() - {socket}, [w])
    {
      hide *;
      HandleEdit(buf, w, op);
      SendMsgEveryone(socket, w);
    }

    /** w is answered by the snapshot of d. */
    ghost predicate Answers(reply: WireMsg, w: WireMsg, d: Doc) {
      && reply == WireMsg(FILE_RESPONSE, w.userId, w.fileId, w.fileVersion, reply.payload)
      && reply.payload.Some? && Ascii(reply.payload.value) && IsText(reply.payload.value)
      && Reads(reply.payload.value, d, info)
    }

    method SendReply(socket: int, reply: WireMsg)
      requires Sockets() && socket in Open()
      modifies this`out
      ensures Sockets() && out == Sent(old(out), {socket}, [reply])
    {
      Listed(socket);
      SendMsg(socket, reply);
    }

    lemma Listed(socket: int)
      requires Sockets() && socket in Open()
      ensures socket in out
    {
    }

    method Respond(socket: int, w: WireMsg) returns (reply: WireMsg)
      requires Sockets() && socket in Open() && buf.Valid() && UserIds(buf.doc) && Ints(buf.doc, info)
      modifies this`out
      ensures Answers(reply, w, buf.doc) && Sockets() && out == Sent(old(out), {socket}, [reply])
    {
      hide UserIds, Ints, Ascii, Reads, buf.Valid, WF, Sockets, OpenTo, Sent;
      var payload := TakeSnapshot(buf, info);
      reply := WireMsg(FILE_RESPONSE, w.userId, w.fileId, w.fileVersion, Some(payload));
      SendReply(socket, reply);
    }

    lemma SlotFree()
      requires buf.Valid() && UserIds(buf.doc)
      ensures 0 in buf.doc.curs && !buf.Full()
    {
      ValidIs(buf);
      buf.UsersFit();
    }

    method CopyAndRelay(socket: int, w: WireMsg) returns (relay: WireMsg)
      requires Sockets() && buf.Valid() && UserIds(buf.doc) && w.userId !in buf.doc.curs
      modifies this`out, buf, buf.peerCurss
      ensures 0 in old(buf.doc).curs && buf.Valid() && buf.doc == AddCursor(old(buf.doc), w.userId, old(buf.doc).curs[0])
      ensures relay == WireMsg(ADD_CURSOR, w.userId, w.fileId, w.fileVersion, None)
      ensures Sockets() && out == Sent(old(out), Open() - {socket}, [relay])
    {
      hide *;
      SlotFree();
      var r := buf.BcursorCopyOwn(w.userId);
      relay := WireMsg(ADD_CURSOR, w.userId, w.fileId, w.fileVersion, None);
      SendMsgEveryone(socket, relay);
    }

    /** The snapshot goes out before the newcomer's cursor is added, a copy of the own one. */
    method RespondAndRelay(socket: int, w: WireMsg) returns (reply: WireMsg, relay: WireMsg)
      requires Sockets() && socket in Open()
      requires buf.Valid() && UserIds(buf.doc) && Ints(buf.doc, info) && w.userId !in buf.doc.curs
      modifies this`out, buf, buf.peerCurss
      ensures 0 in old(buf.doc).curs && buf.Valid() && buf.doc == AddCursor(old(buf.doc), w.userId, old(buf.doc).curs[0])
      ensures Answers(reply, w, old(buf.doc)) && relay == WireMsg(ADD_CURSOR, w.userId, w.fileId, w.fileVersion, None)
      ensures Sockets() && out == Sent(Sent(old(out), {socket}, [reply]), Open() - {socket}, [relay])
    {
      hide *;
      reply := Respond(socket, w);
      relay := CopyAndRelay(socket, w);
    }

    method FreeAndRelay(socket: int, w: WireMsg) returns (relay: WireMsg)
      requires Sockets() && buf.Valid() && w.userId in buf.doc.curs
      modifies this`out, pollList, buf, buf.peerCurss
      ensures buf.Valid() && buf.doc == RemoveCursor(old(buf.doc), w.userId)
      ensures relay == WireMsg(DELETE_CURSOR, w.userId, w.fileId, w.fileVersion, None)
      ensures Sockets() && Open() == old(Open()) - {socket} && out == Sent(old(out), old(Open()) - {socket}, [relay])
    {
      hide *;
      var r := buf.BcursorFree(w.userId);
      relay := WireMsg(DELETE_CURSOR, w.userId, w.fileId, w.fileVersion, None);
      SendMsgEveryone(socket, relay);
      CloseSocket(socket);
    }

    /** The queues after one message: the sender has been sent reply, every other open socket relay. */
    ghost predicate Delivered(before: map<int, seq<WireMsg>>, open: set<int>, socket: int,
                              reply: seq<WireMsg>, relay: seq<WireMsg>)
      reads this`out
    {
      && out.Keys == before.Keys
      && forall s :: s in before ==> out[s] == before[s] + if s == socket then reply else if s in open then relay else []
    }

    lemma RelayDelivered(before: map<int, seq<WireMsg>>, open: set<int>, socket: int, relay: WireMsg)
      requires out == Sent(before, open - {socket}, [relay])
      ensures Delivered(before, open, socket, [], [relay])
    {
      assert forall q: seq<WireMsg> :: q + [] == q;
    }

    lemma BothDelivered(before: map<int, seq<WireMsg>>, open: set<int>, socket: int, reply: WireMsg, relay: WireMsg)
      requires out == Sent(Sent(before, {socket}, [reply]), open - {socket}, [relay])
      ensures Delivered(before, open, socket, [reply], [relay])
    {
      assert forall q: seq<WireMsg> :: q + [] == q;
    }

    /** What the worker needs of a message it handles. */
    ghost predicate Takes(socket: int, w: WireMsg, m: Msg)
      reads this, pollList, buf, buf.at.Keys, buf.pens, buf.peerCurss
    {
      && Sockets() && socket in Open() && w.userId in loggedIn
      && buf.Valid() && UserIds(buf.doc) && 0 in buf.doc.curs
      && Encodes(w, m, info) && ToWorker(m) && 1 <= m.user < MAX_CURSOR_NUM
      && ServerOk(buf.doc, m.user, m) && (m.FileRequest? ==> Ints(buf.doc, info))
    }

    /**
     The switch of handle_msg on a message that says m: the buffer becomes what the protocol
     says, the sender is answered and every other open socket is told, and a sender who quits
     is off the list.
     */
    method Dispatch(socket: int, w: WireMsg, ghost m: Msg) returns (ghost reply: seq<WireMsg>, ghost relay: seq<WireMsg>)
      requires Takes(socket, w, m)
      modifies this`out, pollList, buf, buf.at.Keys, buf.pens, buf.peerCurss
      ensures buf.Valid() && UserIds(buf.doc) && WF(old(buf.doc))
      ensures 0 in old(buf.doc).curs && buf.doc == ServerDoc(old(buf.doc), m)
      ensures EncodesAll(reply, Reply(old(buf.doc), m), info) && EncodesAll(relay, Relay(m), info)
      ensures Clean(w) ==> AllClean(reply) && AllClean(relay)
      ensures Sockets() && Open() == old(Open()) - if m.Quit? then {socket} else {}
      ensures Delivered(old(out), old(Open()), socket, reply, relay)
    {
      hide *;
      ghost var d := buf.doc;
      TakesWhat(socket, w, m);
      if w.kind == FILE_REQUEST {
        var a, r := RespondAndRelay(socket, w);
        reply, relay := [a], [r];
        BothDelivered(old(out), Open(), socket, a, r);
        Responded(d, w, m, a, r);
      } else if w.kind == QUIT {
        var r := FreeAndRelay(socket, w);
        reply, relay := [], [r];
        RelayDelivered(old(out), old(Open()), socket, r);
        Released(d, w, m, r);
      } else {
        EditAndRelay(socket, w, m.op);
        reply, relay := [], [w];
        RelayDelivered(old(out), Open(), socket, w);
        Edited(d, w, m);
      }
    }

    /** A login answered; validated is the user id found for the name and password, or negative. */
    method HandleLogin(socket: int, validated: int, files: string)
      requires Sockets() && socket in Open()
      modifies this`loggedIn, this`out
      ensures Sockets() && loggedIn == old(loggedIn) + if validated >= 0 then {validated} else {}
      ensures validated >= 0 ==>
                out == Sent(old(out), {socket}, [WireMsg(MSG_OK, validated, -1, -1, Some(files))])
      ensures validated < 0 ==> out == Sent(old(out), {socket}, [WireMsg(MSG_FAILED, -1, -1, -1, None)])
    {
      Listed(socket);
      if validated >= 0 {
        loggedIn := loggedIn + {validated};
        SendMsg(socket, WireMsg(MSG_OK, validated, -1, -1, Some(files)));
      } else {
        SendMsg(socket, WireMsg(MSG_FAILED, -1, -1, -1, None));
      }
    }

    /**
     handle_msg in a worker.  A message of a user who is not logged in only closes its socket,
     a login is answered, other messages are handled as the protocol says or ignored.  Who is
     valid and the list of files come from outside.
     */
    method HandleMsg(socket: int, w: WireMsg, validated: int, files: string, ghost m: Msg)
      returns (ghost reply: seq<WireMsg>, ghost relay: seq<WireMsg>)
      requires Sockets() && socket in Open()
      requires w.userId in loggedIn && SaidToWorker(w.kind) ==> Takes(socket, w, m)
      modifies this`loggedIn, this`out, pollList, buf, buf.at.Keys, buf.pens, buf.peerCurss
      ensures Sockets()
      ensures w.kind != LOGIN ==> loggedIn == old(loggedIn)
      ensures w.kind == LOGIN ==>
                && buf.doc == old(buf.doc) && Open() == old(Open())
                && loggedIn == (old(loggedIn) + if validated >= 0 then {validated} else {})
                && (validated >= 0 ==> out == Sent(old(out), {socket}, [WireMsg(MSG_OK, validated, -1, -1, Some(files))]))
                && (validated < 0 ==> out == Sent(old(out), {socket}, [WireMsg(MSG_FAILED, -1, -1, -1, None)]))
      ensures w.userId !in old(loggedIn) && w.kind != LOGIN && w.kind != REGISTER ==>
                buf.doc == old(buf.doc) && out == old(out) && Open() == old(Open()) - {socket}
      ensures w.kind == REGISTER || (w.userId in old(loggedIn) && w.kind != LOGIN && !SaidToWorker(w.kind)) ==>
                buf.doc == old(buf.doc) && out == old(out) && Open() == old(Open())
      ensures old(Takes(socket, w, m)) ==>
                && buf.Valid() && UserIds(buf.doc) && WF(old(buf.doc)) && 0 in old(buf.doc).curs
                && ServerOk(old(buf.doc), m.user, m) && buf.doc == ServerDoc(old(buf.doc), m)
                && EncodesAll(reply, Reply(old(buf.doc), m), info) && EncodesAll(relay, Relay(m), info)
                && (Clean(w) ==> AllClean(reply) && AllClean(relay))
                && Open() == (old(Open()) - if m.Quit? then {socket} else {})
                && Delivered(old(out), old(Open()), socket, reply, relay)
    {
      hide *;
      KindsApart(w.kind);
      ServedSaid(w.kind);
      TakenSaid(socket, w, m);
      reply, relay := [], [];
      if w.userId !in loggedIn && w.kind != LOGIN && w.kind != REGISTER {
        CloseSocket(socket);
      } else if w.kind == LOGIN {
        HandleLogin(socket, validated, files);
      } else if w.userId in loggedIn && Served(w.kind) {
        TakesWhat(socket, w, m);
        reply, relay := Dispatch(socket, w, m);
      }
    }

    lemma TakenSaid(socket: int, w: WireMsg, m: Msg)
      ensures Takes(socket, w, m) ==> w.userId in loggedIn && SaidToWorker(w.kind)
    {
      hide WF, Ints, Sockets, Encodes;
    }

    lemma TakesWhat(socket: int, w: WireMsg, m: Msg)
      requires Takes(socket, w, m)
      ensures Sockets() && socket in Open() && w.userId in loggedIn
      ensures buf.Valid() && UserIds(buf.doc) && 0 in buf.doc.curs
      ensures WF(buf.doc) && w.userId == m.user && 1 <= m.user < MAX_CURSOR_NUM
      ensures ServerOk(buf.doc, m.user, m) && Encodes(w, m, info)
      ensures w.kind == FILE_REQUEST ==> m.FileRequest? && w.userId !in buf.doc.curs && Ints(buf.doc, info)
      ensures w.kind == QUIT ==> m.Quit? && w.userId in buf.doc.curs
      ensures w.kind != FILE_REQUEST && w.kind != QUIT ==>
                m.OpMsg? && OpOf(w) == Some(m.op) && TypedOp(m.op) && w.userId in buf.doc.curs
    {
      hide WF, Ints, Sockets;
    }

    lemma Responded(d: Doc, w: WireMsg, m: Msg, reply: WireMsg, relay: WireMsg)
      requires WF(d) && 0 in d.curs && UserIds(d) && w.userId == m.user
      requires 1 <= m.user < MAX_CURSOR_NUM && m.FileRequest? && ServerOk(d, m.user, m)
      requires Answers(reply, w, d) && relay == WireMsg(ADD_CURSOR, w.userId, w.fileId, w.fileVersion, None)
      ensures ServerDoc(d, m) == AddCursor(d, w.userId, d.curs[0]) && UserIds(ServerDoc(d, m))
      ensures EncodesAll([reply], Reply(d, m), info) && EncodesAll([relay], Relay(m), info)
      ensures Clean(w) ==> AllClean([reply]) && AllClean([relay])
    {
      hide Reads, WF;
    }

    lemma Released(d: Doc, w: WireMsg, m: Msg, relay: WireMsg)
      requires WF(d) && 0 in d.curs && UserIds(d) && w.userId == m.user && m.Quit? && ServerOk(d, m.user, m)
      requires relay == WireMsg(DELETE_CURSOR, w.userId, w.fileId, w.fileVersion, None)
      ensures ServerDoc(d, m) == RemoveCursor(d, w.userId) && UserIds(ServerDoc(d, m))
      ensures EncodesAll([], Reply(d, m), info) && EncodesAll([relay], Relay(m), info)
      ensures Clean(w) ==> AllClean([]) && AllClean([relay])
    {
      hide WF;
    }

    lemma Edited(d: Doc, w: WireMsg, m: Msg)
      requires WF(d) && 0 in d.curs && UserIds(d) && Encodes(w, m, info) && m.OpMsg? && ServerOk(d, m.user, m)
      ensures ServerDoc(d, m) == Apply(d, w.userId, m.op) && UserIds(ServerDoc(d, m))
      ensures EncodesAll([], Reply(d, m), info) && EncodesAll([w], Relay(m), info)
      ensures Clean(w) ==> AllClean([]) && AllClean([w])
    {
      hide WF;
      assert ServerDoc(d, m) == Apply(d, w.userId, m.op);
      ApplyKeys(d, w.userId, m.op);
    }

    /** A new connection takes the first free entry; when there is none it is not served. */
    method Accept(socket: int) returns (listed: bool)
      requires Sockets() && socket >= 0 && socket !in Open()
      modifies this`out, pollList
      ensures Sockets() && Open() == old(Open()) + if listed then {socket} else {}
      ensures listed <==> exists i :: 1 <= i <= MAX_CLIENTS && old(pollList[i]) < 0
      ensures out == if listed then old(out)[socket := []] else old(out)
    {
      listed := false;
      for i := 1 to MAX_CLIENTS + 1
        invariant !listed && pollList[..] == old(pollList[..]) && out == old(out)
        invariant forall j :: 1 <= j < i ==> pollList[j] >= 0
      {
        assert pollList[i] == old(pollList[i]);
        if pollList[i] < 0 {
          pollList[i] := socket;
          out := out[socket := []];
          listed := true;
          assert forall j :: 1 <= j < pollList.Length && j != i ==> pollList[j] == old(pollList[j]);
          assert Open() == old(Open()) + {socket};
          return;
        }
      }
      assert forall j :: 1 <= j <= MAX_CLIENTS ==> pollList[j] == old(pollList[j]);
      assert Open() == old(Open());
    }
  }

  // ---------------------------------------------------------------- the client

  datatype KeyPress = KeyLeft | KeyRight | KeyUp | KeyDown | KeyBackspace | KeyEsc | KeyChar(c: char)

  /** The operation behind a key; none for the one that quits. */
  function KeyOp(key: KeyPress): Option<Op> {
    match key
    case KeyLeft => Some(Move(Left))
    case KeyRight => Some(Move(Right))
    case KeyUp => Some(Move(Up))
    case KeyDown => Some(Move(Down))
    case KeyBackspace => Some(Delete)
    case KeyEsc => None
    case KeyChar(c) => if c == '\n' then Some(InsertLine) else Some(Insert(c))
  }

  /** No character, or one that a line may hold. */
  predicate Plain(key: KeyPress) {
    key.KeyChar? ==> key.c == '\n' || Typed(key.c)
  }

  /** The kinds of message a client acts on besides the answer to its login. */
  predicate ClientServed(kind: int) {
    || kind == FILE_RESPONSE || kind == INSERT || kind == INSERT_LINE || kind == DELETE || kind == MOVE_CURSOR
    || kind == ADD_CURSOR || kind == DELETE_CURSOR
  }

  /** What a worker says to a client that is logged in. */
  predicate ToClients(m: Msg) {
    m.FileResponse? || m.OpMsg? || m.AddCursorMsg? || m.DeleteCursorMsg?
  }

  ghost predicate SaidToClient(kind: int) {
    exists w: WireMsg, m: Msg, x: Extra :: w.kind == kind && ToClients(m) && Encodes(w, m, x)
  }

  lemma ServedByKind(w: WireMsg, m: Msg, x: Extra)
    requires ToClients(m) && Encodes(w, m, x)
    ensures ClientServed(w.kind)
  {
  }

  /** An empty document of two lines has a snapshot. */
  lemma SomeSnapshot(x: Extra) returns (d: Doc, t: string)
    requires x == Extra(0, 0, 0, 0)
    ensures IsText(t) && Reads(t, d, x)
  {
    d := EmptyDoc(2, 2);
    EmptyWF(2, 2);
    assert SlotsOf(d, []) && Ints(d, x);
    t := SnapText(d, x, []);
    hide SnapText, Reads;
    SnapReads(d, x, []);
    SnapAscii(d, x, []);
  }

  /** A message of each kind that a client serves. */
  lemma KindToClient(kind: int) returns (w: WireMsg, m: Msg)
    requires ClientServed(kind)
    ensures w.kind == kind && ToClients(m) && Encodes(w, m, Extra(0, 0, 0, 0))
  {
    hide Reads, IsText;
    if kind == FILE_RESPONSE {
      var d, t := SomeSnapshot(Extra(0, 0, 0, 0));
      w, m := WireMsg(kind, 1, 0, 0, Some(t)), FileResponse(1, d);
    } else {
      w := WireMsg(kind, 1, 0, 0, Some("0"));
      m := if kind == ADD_CURSOR then AddCursorMsg(1)
           else if kind == DELETE_CURSOR then DeleteCursorMsg(1)
           else OpMsg(1, OpOf(w).value);
    }
  }

  /** A client acts on exactly the kinds in which a snapshot, an operation, a cursor's coming or going can be said. */
  lemma ClientServedSaid(kind: int)
    ensures ClientServed(kind) <==> SaidToClient(kind)
    ensures SaidToClient(kind) ==> kind != MSG_OK
  {
    if ClientServed(kind) {
      var w, m := KindToClient(kind);
      assert SaidToClient(kind) by { hide Encodes; }
    }
    forall w: WireMsg, m: Msg, x: Extra | w.kind == kind && ToClients(m) && Encodes(w, m, x) ensures ClientServed(kind) {
      ServedByKind(w, m, x);
    }
  }

  class Client {
    var b: Buffer?
    var info: Extra
    var userId: int
    var fileId: int
    var sent: seq<WireMsg>

    /** A client that has chosen a file, not yet told its user id. */
    constructor (fileId: int)
      ensures b == null && sent == [] && this.fileId == fileId && Valid()
    {
      b, info, userId, this.fileId, sent := null, Extra(0, 0, 0, 0), -1, fileId, [];
    }

    ghost function Footprint(): set<object>
      reads this, b
    {
      if b == null then {} else {b, b.peerCurss} + b.at.Keys + b.pens
    }

    ghost predicate Valid()
      reads this, b, Footprint()
    {
      b != null ==> b.Valid() && UserIds(b.doc) && 0 in b.doc.curs
    }

    /** The client's document, once it has one. */
    ghost function Copy(): Option<Doc>
      reads this, b
    {
      if b == null then None else Some(b.doc)
    }

    method SendMsg(w: WireMsg)
      modifies this`sent
      ensures sent == old(sent) + [w]
    {
      sent := sent + [w];
    }

    // -------------------------------------------------------------- one message

    method Opens(w: WireMsg, ghost s: Doc, ghost x: Extra)
      requires w.payload.Some? && IsText(w.payload.value) && Reads(w.payload.value, s, x)
      requires WF(s) && |s.lines| >= 2 && UserIds(s) && 0 in s.curs
      modifies this`b, this`info
      ensures fresh(b) && Valid() && Copy() == Some(Opened(s)) && info == x
    {
      hide Describes, WF;
      OpenedIds(s);
      hide WF, Reads, UserIds, IsText;
      EndsText(w.payload.value);
      var c;
      c, info := BufferDeserialize(w.payload.value + [NUL], true, s, x);
      b := c;
    }

    lemma OpenedIds(s: Doc)
      requires UserIds(s) && 0 in s.curs
      ensures UserIds(Opened(s)) && 0 in Opened(s).curs
    {
    }

    method AddsCursor(u: int)
      requires b != null && b.Valid() && UserIds(b.doc) && 1 <= u < MAX_CURSOR_NUM && u !in b.doc.curs
      modifies b, b.peerCurss
      ensures b == old(b) && b.Valid() && old(b.doc).lines != []
      ensures b.doc == AddCursor(old(b.doc), u, StartPos(old(b.doc)))
    {
      AtFirst(b);
      hide *;
      var r := b.BcursorNew(u, b.first.id, 0);
    }

    lemma AtFirst(b: Buffer)
      requires b.Valid() && UserIds(b.doc)
      ensures b.doc.lines != [] && StartPos(b.doc) == Pos(b.first.id, 0) && OnText(b.doc, Pos(b.first.id, 0)) && !b.Full()
    {
      b.UsersFit();
    }

    /** What the client needs of a message it handles. */
    ghost predicate Takes(w: WireMsg, m: Msg, x: Extra)
      reads this, b, Footprint()
    {
      && Valid() && Encodes(w, m, x) && ClientOk(Copy(), userId, m)
      && ToClients(m)
      && (m.FileResponse? ==> |m.snapshot.lines| >= 2 && UserIds(m.snapshot))
      && (m.AddCursorMsg? ==> 1 <= m.user < MAX_CURSOR_NUM)
    }

    lemma TakesWhat(w: WireMsg, m: Msg, x: Extra)
      requires Takes(w, m, x)
      ensures w.userId == m.user && (b != null ==> b.Valid() && UserIds(b.doc) && WF(b.doc))
      ensures Copy().Some? ==> WF(Copy().value)
      ensures ClientOk(Copy(), userId, m)
      ensures w.kind == FILE_RESPONSE ==>
                && m.FileResponse? && w.payload.Some? && IsText(w.payload.value) && Reads(w.payload.value, m.snapshot, x)
                && WF(m.snapshot) && |m.snapshot.lines| >= 2 && UserIds(m.snapshot) && 0 in m.snapshot.curs
      ensures w.kind == ADD_CURSOR ==>
                && m.AddCursorMsg? && b != null && m.user !in b.doc.curs
                && 1 <= m.user < MAX_CURSOR_NUM && m.user != userId
      ensures w.kind == DELETE_CURSOR ==> m.DeleteCursorMsg? && b != null && m.user in b.doc.curs
      ensures w.kind != FILE_RESPONSE && w.kind != ADD_CURSOR && w.kind != DELETE_CURSOR ==>
                m.OpMsg? && b != null && OpOf(w) == Some(m.op) && TypedOp(m.op) && m.user in b.doc.curs
    {
      hide WF, Reads, UserIds, IsText;
    }

    lemma Handled(d: Option<Doc>, v: int, m: Msg)
      requires (d.Some? ==> WF(d.value) && UserIds(d.value) && 0 in d.value.curs) && ClientOk(d, v, m)
      requires ToClients(m)
      requires m.FileResponse? ==> UserIds(m.snapshot)
      requires m.AddCursorMsg? ==> 1 <= m.user < MAX_CURSOR_NUM
      ensures var d' := ClientHandle(d, v, m);
              d'.Some? && UserIds(d'.value) && 0 in d'.value.curs
      ensures match m
              case FileResponse(_, s) => ClientHandle(d, v, m) == Some(Opened(s))
              case OpMsg(u, op) => ClientHandle(d, v, m) == Some(Apply(d.value, u, op))
              case AddCursorMsg(u) =>
                d.value.lines != [] && ClientHandle(d, v, m) == Some(AddCursor(d.value, u, StartPos(d.value)))
              case DeleteCursorMsg(u) => ClientHandle(d, v, m) == Some(RemoveCursor(d.value, u))
    {
      if m.OpMsg? {
        ApplyKeys(d.value, m.user, m.op);
      }
    }

    lemma Whole()
      requires b != null && b.Valid() && UserIds(b.doc) && 0 in b.doc.curs
      ensures Valid() && Copy() == Some(b.doc)
    {
    }

    lemma Copied()
      ensures Copy() == if b == null then None else Some(b.doc)
      ensures b != null ==> Footprint() == {b, b.peerCurss} + b.at.Keys + b.pens
    {
    }

    /** What handling m comes to. */
    lemma Ready(w: WireMsg, m: Msg, x: Extra)
      requires Takes(w, m, x)
      ensures Copy().Some? ==> WF(Copy().value)
      ensures ClientOk(Copy(), userId, m)
      ensures var d' := ClientHandle(Copy(), userId, m);
              d'.Some? && UserIds(d'.value) && 0 in d'.value.curs
      ensures w.kind == FILE_RESPONSE ==> m.FileResponse? && ClientHandle(Copy(), userId, m) == Some(Opened(m.snapshot))
      ensures w.kind != FILE_RESPONSE ==> !m.FileResponse? && b != null && WF(b.doc)
      ensures w.kind == ADD_CURSOR ==>
                b.doc.lines != [] && ClientHandle(Copy(), userId, m) == Some(AddCursor(b.doc, w.userId, StartPos(b.doc)))
      ensures w.kind == DELETE_CURSOR ==> ClientHandle(Copy(), userId, m) == Some(RemoveCursor(b.doc, w.userId))
      ensures w.kind != FILE_RESPONSE && w.kind != ADD_CURSOR && w.kind != DELETE_CURSOR ==>
                m.OpMsg? && w.userId in b.doc.curs && ClientHandle(Copy(), userId, m) == Some(Apply(b.doc, w.userId, m.op))
    {
      TakesWhat(w, m, x);
      Handled(Copy(), userId, m);
      hide WF, UserIds, Reads, Opened, AddCursor, RemoveCursor, Apply, ClientHandle;
    }

    /** The other cases, on the open document. */
    method HandleOpen(w: WireMsg, ghost m: Msg, ghost x: Extra)
      requires Takes(w, m, x) && w.kind != FILE_RESPONSE && b != null
      modifies b, b.peerCurss, b.at.Keys, b.pens
      ensures Valid() && WF(old(b.doc)) && ClientOk(old(Copy()), userId, m) && old(Copy()) == Some(old(b.doc))
      ensures Copy() == ClientHandle(old(Copy()), userId, m)
    {
      hide *;
      TakesWhat(w, m, x);
      Ready(w, m, x);
      Copied();
      if w.kind == ADD_CURSOR {
        if userId != w.userId {
          AddsCursor(w.userId);
        }
      } else if w.kind == DELETE_CURSOR {
        var r := b.BcursorFree(w.userId);
      } else {
        HandleEdit(b, w, m.op);
      }
      Whole();
    }

    /** The switch of handle_msg on a message that says m: the client's document becomes what the protocol says. */
    method Dispatch(w: WireMsg, ghost m: Msg, ghost x: Extra)
      requires Takes(w, m, x)
      modifies this`b, this`info, Footprint()
      ensures Valid() && userId == old(userId) && sent == old(sent)
      ensures old(Copy()).Some? ==> WF(old(Copy()).value)
      ensures ClientOk(old(Copy()), userId, m) && Copy() == ClientHandle(old(Copy()), userId, m)
      ensures m.FileResponse? ==> info == x
    {
      hide *;
      TakesWhat(w, m, x);
      Ready(w, m, x);
      Copied();
      if w.kind == FILE_RESPONSE {
        Opens(w, m.snapshot, x);
      } else {
        HandleOpen(w, m, x);
      }
    }

    /** MSG_OK: the user id the server gave, and the file asked for. */
    method LoggedIn(w: WireMsg)
      requires Valid() && w.kind == MSG_OK
      modifies this`userId, this`sent
      ensures Valid() && Copy() == old(Copy())
      ensures userId == w.userId && sent == old(sent) + [WireMsg(FILE_REQUEST, w.userId, fileId, -1, None)]
    {
      userId := w.userId;
      SendMsg(WireMsg(FILE_REQUEST, userId, fileId, -1, None));
    }

    /** handle_msg in a client: the answer to its login, what the protocol says, or nothing. */
    method HandleMsg(w: WireMsg, ghost m: Msg, ghost x: Extra)
      requires Valid() && (SaidToClient(w.kind) ==> Takes(w, m, x))
      modifies this`b, this`info, this`userId, this`sent, Footprint()
      ensures Valid()
      ensures w.kind == MSG_OK ==>
                && userId == w.userId && Copy() == old(Copy())
                && sent == old(sent) + [WireMsg(FILE_REQUEST, w.userId, fileId, -1, None)]
      ensures w.kind != MSG_OK ==> userId == old(userId) && sent == old(sent)
      ensures w.kind != MSG_OK && !SaidToClient(w.kind) ==> Copy() == old(Copy()) && info == old(info)
      ensures old(Takes(w, m, x)) ==>
                && (old(Copy()).Some? ==> WF(old(Copy()).value))
                && ClientOk(old(Copy()), userId, m) && Copy() == ClientHandle(old(Copy()), userId, m)
                && (m.FileResponse? ==> info == x)
    {
      hide *;
      ClientServedSaid(w.kind);
      TakenSaid(w, m, x);
      Copied();
      if w.kind == MSG_OK {
        LoggedIn(w);
      } else if ClientServed(w.kind) {
        Dispatch(w, m, x);
      }
    }

    lemma TakenSaid(w: WireMsg, m: Msg, x: Extra)
      ensures Takes(w, m, x) ==> SaidToClient(w.kind)
    {
      hide Encodes, Valid, ClientOk, UserIds;
    }

    // -------------------------------------------------------------- one key

    lemma KeyCases(d: Doc, key: KeyPress)
      requires WF(d) && 0 in d.curs && KeyOp(key).Some?
      ensures key.KeyChar? && key.c != '\n' ==> Plain(key) == Typed(key.c)
      ensures !key.KeyChar? || key.c == '\n' ==> Plain(key)
      ensures Plain(key) ==>
              var e := Apply(d, 0, KeyOp(key).value);
              match key
              case KeyLeft => e == MoveCursor(d, 0, Left)
              case KeyRight => e == MoveCursor(d, 0, Right)
              case KeyUp => e == MoveCursor(d, 0, Up)
              case KeyDown => e == MoveCursor(d, 0, Down)
              case KeyBackspace => e == Backspace(d, 0)
              case KeyChar(c) => if c == '\n' then e == NewLine(d, 0) else Typed(c) && e == InsertChar(d, 0, c)
    {
      hide WF, MoveCursor, Backspace, NewLine, InsertChar;
    }

    /** The message of a key, numbered by the version it was typed at. */
    function KeyWire(key: KeyPress): WireMsg
      requires KeyOp(key).Some?
      reads this
    {
      if key == KeyChar(NUL) then WireMsg(INSERT, userId, info.id, info.ver, Some(""))
      else OpWire(userId, KeyOp(key).value, info.id, info.ver)
    }

    method Stamp() returns (ver: int)
      modifies this`info
      ensures ver == old(info.ver) && info == old(info).(ver := old(info.ver) + 1)
    {
      ver := info.ver;
      info := info.(ver := ver + 1);
    }

    method SendMove(c: char)
      modifies this`info, this`sent
      ensures info == old(info).(ver := old(info.ver) + 1)
      ensures sent == old(sent) + [WireMsg(MOVE_CURSOR, userId, old(info.id), old(info.ver), Some([c]))]
    {
      var ver := Stamp();
      SendMsg(WireMsg(MOVE_CURSOR, userId, info.id, ver, Some([c])));
    }

    method SendPlain(kind: int, payload: Option<string>)
      modifies this`info, this`sent
      ensures info == old(info).(ver := old(info.ver) + 1)
      ensures sent == old(sent) + [WireMsg(kind, userId, old(info.id), old(info.ver), payload)]
    {
      var ver := Stamp();
      SendMsg(WireMsg(kind, userId, info.id, ver, payload));
    }

    /** The message of a key, sent before the buffer is touched. */
    method SendKey(key: KeyPress)
      requires KeyOp(key).Some?
      modifies this`info, this`sent
      ensures info == old(info).(ver := old(info.ver) + 1) && sent == old(sent) + [old(KeyWire(key))]
    {
      match key
      case KeyLeft => SendMove('2');
      case KeyRight => SendMove('3');
      case KeyUp => SendMove('0');
      case KeyDown => SendMove('1');
      case KeyBackspace => SendPlain(DELETE, None);
      case KeyChar(c) =>
        if c == '\n' {
          SendPlain(INSERT_LINE, None);
        } else {
          SendPlain(INSERT, Some(if c == NUL then "" else [c]));
        }
    }

    /** The edit of a key, by the own cursor. */
    method DoKey(key: KeyPress)
      requires b != null && b.Valid() && 0 in b.doc.curs && KeyOp(key).Some?
      modifies b, b.at.Keys, b.pens
      ensures WF(old(b.doc))
      ensures Plain(key) ==> b.Valid() && b.doc == Apply(old(b.doc), 0, KeyOp(key).value)
      ensures !Plain(key) ==> b.Holds(b.doc) && b.doc == InsertByte(old(b.doc), 0, key.c)
    {
      ValidIs(b);
      KeyCases(b.doc, key);
      hide *;
      match key
      case KeyLeft => b.Move(0, Left);
      case KeyRight => b.Move(0, Right);
      case KeyUp => b.Move(0, Up);
      case KeyDown => b.Move(0, Down);
      case KeyBackspace => var r := b.BcursorDel(0);
      case KeyChar(c) =>
        if c == '\n' {
          ghost var ll;
          var r;
          r, ll := b.BcursorInsertLine(0);
        } else {
          var r := b.BcursorInsert(0, c);
        }
    }

    /**
     handle_input: the operation goes out and is applied at once by the own cursor; what goes
     out says the same operation of this user.
     */
    method HandleInput(key: KeyPress) returns (quit: bool)
      requires Valid() && b != null
      modifies this`b, this`info, this`sent, Footprint()
      ensures quit == (key == KeyEsc) && info == old(info).(ver := old(info.ver) + 1)
      ensures |sent| == |old(sent)| + 1 && sent[..|old(sent)|] == old(sent)
      ensures quit ==> Valid() && b == null && forall x :: Encodes(sent[|old(sent)|], Quit(userId), x)
      ensures !quit ==> b == old(b) && sent[|old(sent)|] == old(KeyWire(key)) && WF(old(b.doc)) && 0 in old(b.doc).curs
      ensures !quit && Plain(key) ==>
                && Valid() && b.doc == Apply(old(b.doc), 0, KeyOp(key).value)
                && forall x :: Encodes(sent[|old(sent)|], OpMsg(userId, KeyOp(key).value), x)
      ensures !quit && !Plain(key) ==> b.Holds(b.doc) && b.doc == InsertByte(old(b.doc), 0, key.c)
    {
      hide *;
      Copied();
      quit := key == KeyEsc;
      if quit {
        Leave();
      } else {
        EditKey(key);
      }
    }

    /** The escape key: the buffer is freed once QUIT is out. */
    method Leave()
      modifies this`b, this`info, this`sent
      ensures Valid() && b == null && info == old(info).(ver := old(info.ver) + 1)
      ensures |sent| == |old(sent)| + 1 && sent[..|old(sent)|] == old(sent)
      ensures forall x :: Encodes(sent[|old(sent)|], Quit(userId), x)
    {
      SendPlain(QUIT, None);
      b := null;
    }

    /** A key that is sent and applied. */
    method EditKey(key: KeyPress)
      requires Valid() && b != null && key != KeyEsc
      modifies this`info, this`sent, Footprint()
      ensures info == old(info).(ver := old(info.ver) + 1) && sent == old(sent) + [old(KeyWire(key))]
      ensures WF(old(b.doc)) && 0 in old(b.doc).curs
      ensures Plain(key) ==>
                && Valid() && b.doc == Apply(old(b.doc), 0, KeyOp(key).value)
                && forall x :: Encodes(sent[|old(sent)|], OpMsg(userId, KeyOp(key).value), x)
      ensures !Plain(key) ==> b.Holds(b.doc) && b.doc == InsertByte(old(b.doc), 0, key.c)
    {
      hide *;
      KeyReady(key);
      KeySays(key);
      Copied();
      SendKey(key);
      DoKey(key);
      if Plain(key) {
        Whole();
      }
    }

    lemma KeyReady(key: KeyPress)
      requires Valid() && b != null && key != KeyEsc
      ensures b.Valid() && WF(b.doc) && 0 in b.doc.curs && KeyOp(key).Some?
      ensures UserIds(Apply(b.doc, 0, KeyOp(key).value)) && 0 in Apply(b.doc, 0, KeyOp(key).value).curs
    {
      ValidIs(b);
      ApplyKeys(b.doc, 0, KeyOp(key).value);
    }

    lemma KeySays(key: KeyPress)
      requires KeyOp(key).Some?
      ensures Plain(key) ==> forall x :: Encodes(KeyWire(key), OpMsg(userId, KeyOp(key).value), x)
    {
    }
  }

  method LastSent(out: map<int, seq<WireMsg>>, ghost before: map<int, seq<WireMsg>>, socket: int, ghost validated: int,
                  ghost files: string)
    returns (w: WireMsg)
    requires socket in before
    requires validated >= 0 ==> out == Sent(before, {socket}, [WireMsg(MSG_OK, validated, -1, -1, Some(files))])
    requires validated < 0 ==> out == Sent(before, {socket}, [WireMsg(MSG_FAILED, -1, -1, -1, None)])
    ensures validated >= 0 ==> w == WireMsg(MSG_OK, validated, -1, -1, Some(files))
    ensures !SaidToClient(w.kind) && (validated < 0 ==> w.kind != MSG_OK)
  {
    w := out[socket][|out[socket]|-1];
    ClientServedSaid(w.kind);
  }

  /** A login answered by a worker and the answer handled by its client, which takes the user id it was validated as. */
  method LogIn(worker: Worker, socket: int, c: Client, validated: int, files: string)
    requires worker.Sockets() && socket in worker.Open() && c.Valid() && {worker, worker.pollList} !! c.Footprint() + {c}
    modifies worker`loggedIn, worker`out, c, c.Footprint()
    ensures worker.Sockets() && c.Valid() && c.Copy() == old(c.Copy())
    ensures validated >= 0 ==>
              && c.userId == validated && validated in worker.loggedIn
              && c.sent == old(c.sent) + [WireMsg(FILE_REQUEST, validated, c.fileId, -1, None)]
    ensures validated < 0 ==> c.userId == old(c.userId) && c.sent == old(c.sent) && worker.loggedIn == old(worker.loggedIn)
  {
    hide SaidToClient, Sent, WF, UserIds, worker.Sockets, worker.OpenTo, worker.Open, c.Takes, ClientOk, ClientHandle, c.Copy;
    worker.Listed(socket);
    worker.HandleLogin(socket, validated, files);
    var w := LastSent(worker.out, old(worker.out), socket, validated, files);
    c.HandleMsg(w, Quit(0), Extra(0, 0, 0, 0));
  }
}
