/**
 The relay protocol: a client applies its operation at once and sends it, the worker applies
 it and relays it to every other client, a joiner gets a snapshot.  Channels are FIFO and
 deliver one whole message at a time.
 */
module Replication {
  import opened Wrappers
  import opened Document

  datatype Msg =
    | OpMsg(user: int, op: Op)
    | FileRequest(user: int)
    | FileResponse(user: int, snapshot: Doc)
    | AddCursorMsg(user: int)
    | DeleteCursorMsg(user: int)
    | Quit(user: int)

  /**
   The worker's buffer, the buffer of each connected client that has one, and the two channels
   of each connected client.
   */
  datatype Net = Net(server: Doc, clients: map<int, Doc>, up: map<int, seq<Msg>>, down: map<int, seq<Msg>>)

  // ---------------------------------------------------------------- the two message handlers

  /** The client's copy of a snapshot. */
  function Opened(d: Doc): Doc {
    d.(server := false)
  }

  ghost predicate ClientOk(d: Option<Doc>, v: int, m: Msg) {
    match m
    case FileResponse(u, s) => u == v && WF(s) && 0 in s.curs && v !in s.curs
    case OpMsg(u, op) => d.Some? && u in d.value.curs && TypedOp(op)
    case AddCursorMsg(u) => d.Some? && u !in d.value.curs && u != v
    case DeleteCursorMsg(u) => d.Some? && u in d.value.curs && u != 0
    case _ => true
  }

  /** Client v on a message. */
  function ClientHandle(d: Option<Doc>, v: int, m: Msg): Option<Doc>
    requires d.Some? ==> WF(d.value)
    requires ClientOk(d, v, m)
  {
    match m
    case FileResponse(u, s) => Some(Opened(s))
    case OpMsg(u, op) => Some(Apply(d.value, u, op))
    case AddCursorMsg(u) => if u == v then d else Some(AddCursor(d.value, u, StartPos(d.value)))
    case DeleteCursorMsg(u) => Some(RemoveCursor(d.value, u))
    case _ => d
  }

  ghost predicate ServerOk(d: Doc, v: int, m: Msg) {
    match m
    case OpMsg(u, op) => u == v && u in d.curs && TypedOp(op)
    case FileRequest(u) => u == v && u !in d.curs
    case Quit(u) => u == v && u in d.curs
    case _ => true
  }

  function ServerDoc(d: Doc, m: Msg): Doc
    requires WF(d) && 0 in d.curs && ServerOk(d, m.user, m)
  {
    match m
    case OpMsg(u, op) => Apply(d, u, op)
    case FileRequest(u) => AddCursor(d, u, d.curs[0])
    case Quit(u) => RemoveCursor(d, u)
    case _ => d
  }

  /** What every client but the sender is sent. */
  function Relay(m: Msg): seq<Msg> {
    match m
    case OpMsg(u, op) => [m]
    case FileRequest(u) => [AddCursorMsg(u)]
    case Quit(u) => [DeleteCursorMsg(u)]
    case _ => []
  }

  /** What the sender is sent back. */
  function Reply(d: Doc, m: Msg): seq<Msg> {
    match m
    case FileRequest(u) => [FileResponse(u, d)]
    case _ => []
  }

  // ---------------------------------------------------------------- steps of the whole system

  datatype NetStep = Send(user: int, op: Op) | Leaves(user: int) | Connects(user: int) | ToServer(from: int) | ToClient(to: int)

  /** No message of another user's doing is in flight. */
  ghost predicate Idle(n: Net, u: int) {
    && (forall v :: v in n.up ==> By(n.up[v], u))
    && (forall v :: v in n.down ==> By(n.down[v], u))
  }

  ghost predicate By(ms: seq<Msg>, u: int) {
    forall i :: 0 <= i < |ms| ==> ms[i].user == u
  }

  /** When a step can be taken; users act, join and quit one at a time. */
  ghost predicate CanTake(n: Net, s: NetStep) {
    match s
    case Send(u, op) => u in n.clients && TypedOp(op) && Idle(n, u)
    case Leaves(u) => u in n.clients && Idle(n, u)
    case Connects(u) => u !in n.up && 1 <= u < 20 && Idle(n, u)
    case ToServer(v) => v in n.up && n.up[v] != []
    case ToClient(v) => v in n.down && n.down[v] != []
  }

  function Copy(n: Net, v: int): Option<Doc> {
    if v in n.clients then Some(n.clients[v]) else None
  }

  /** What the code takes for granted when it handles a key or a message. */
  ghost predicate Handles(n: Net, s: NetStep) {
    match s
    case Send(u, op) => u in n.clients && u in n.up && WF(n.clients[u]) && 0 in n.clients[u].curs
    case Leaves(u) => u in n.clients && u in n.up
    case Connects(u) => true
    case ToServer(v) =>
      v in n.up && n.up[v] != [] && WF(n.server) && 0 in n.server.curs && n.up[v][0].user == v &&
      ServerOk(n.server, v, n.up[v][0])
    case ToClient(v) =>
      v in n.down && n.down[v] != [] && (v in n.clients ==> WF(n.clients[v])) && ClientOk(Copy(n, v), v, n.down[v][0])
  }

  function Broadcast(down: map<int, seq<Msg>>, sender: int, reply: seq<Msg>, relay: seq<Msg>): map<int, seq<Msg>> {
    map v | v in down :: down[v] + if v == sender then reply else relay
  }

  function Take(n: Net, s: NetStep): Net
    requires Handles(n, s)
  {
    match s
    case Send(u, op) =>
      n.(clients := n.clients[u := Apply(n.clients[u], 0, op)], up := n.up[u := n.up[u] + [OpMsg(u, op)]])
    case Leaves(u) =>
      n.(clients := n.clients - {u}, up := n.up[u := n.up[u] + [Quit(u)]])
    case Connects(u) =>
      n.(up := n.up[u := [FileRequest(u)]], down := n.down[u := []])
    case ToServer(v) =>
      var m := n.up[v][0];
      var n' := n.(server := ServerDoc(n.server, m), up := n.up[v := n.up[v][1..]],
                   down := Broadcast(n.down, v, Reply(n.server, m), Relay(m)));
      if m.Quit? then n'.(up := n'.up - {v}, down := n'.down - {v}) else n'
    case ToClient(v) =>
      var d := ClientHandle(Copy(n, v), v, n.down[v][0]);
      n.(clients := if d.Some? then n.clients[v := d.value] else n.clients, down := n.down[v := n.down[v][1..]])
  }

  // ---------------------------------------------------------------- messages folded over a document

  ghost predicate EffectOk(d: Doc, m: Msg) {
    match m
    case OpMsg(u, op) => u in d.curs && TypedOp(op)
    case FileRequest(u) => u !in d.curs && u != 0
    case AddCursorMsg(u) => u !in d.curs && u != 0
    case DeleteCursorMsg(u) => u in d.curs
    case Quit(u) => u in d.curs
    case FileResponse(u, s) => false
  }

  /** What a message means for a document under user ids. */
  function Effect(d: Doc, m: Msg): Doc
    requires WF(d) && EffectOk(d, m)
  {
    match m
    case OpMsg(u, op) => Apply(d, u, op)
    case FileRequest(u) => AddCursor(d, u, StartPos(d))
    case AddCursorMsg(u) => AddCursor(d, u, StartPos(d))
    case DeleteCursorMsg(u) => d.(curs := d.curs - {u})
    case Quit(u) => d.(curs := d.curs - {u})
  }

  /** Folding ms over d gives e. */
  ghost predicate Folds(d: Doc, ms: seq<Msg>, e: Doc)
    decreases |ms|
  {
    if ms == [] then d == e
    else WF(d) && EffectOk(d, ms[0]) && Folds(Effect(d, ms[0]), ms[1..], e)
  }

  lemma {:induction false} FoldsOn(d: Doc, ms: seq<Msg>, e: Doc, more: seq<Msg>, f: Doc)
    requires Folds(d, ms, e) && Folds(e, more, f)
    ensures Folds(d, ms + more, f)
    decreases |ms|
  {
    if ms == [] {
      assert ms + more == more;
    } else {
      FoldsOn(Effect(d, ms[0]), ms[1..], e, more, f);
      assert (ms + more)[1..] == ms[1..] + more;
    }
  }

  lemma FoldsOne(d: Doc, ms: seq<Msg>, e: Doc, m: Msg)
    requires Folds(d, ms, e) && WF(e) && EffectOk(e, m)
    ensures Folds(d, ms + [m], Effect(e, m))
  {
    assert Folds(Effect(e, m), [m][1..], Effect(e, m));
    FoldsOn(d, ms, e, [m], Effect(e, m));
  }
}
