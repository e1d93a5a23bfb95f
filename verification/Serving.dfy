/**
 What the two handlers take for granted besides the protocol, user ids that fit the peer
 array and snapshots of at least two lines, holds in every run.
 */
module Serving {
  import opened Wrappers
  import opened Document
  import opened Buffers
  import opened Snapshots
  import opened SnapshotTexts
  import opened BufferSnapshots
  import opened LoadSave
  import opened Messages
  import opened Replication
  import opened Convergence
  import opened Wire
  import opened Handlers

  ghost predicate Roomy(d: Doc) {
    d.height >= 2 && UserIds(d)
  }

  ghost predicate MsgFits(m: Msg) {
    1 <= m.user < MAX_CURSOR_NUM && (m.FileResponse? ==> Roomy(m.snapshot))
  }

  ghost predicate AllMsgsFit(ms: seq<Msg>) {
    forall i :: 0 <= i < |ms| ==> MsgFits(ms[i])
  }

  ghost predicate Bounded(n: Net) {
    && Roomy(n.server)
    && (forall v :: v in n.clients ==> Roomy(n.clients[v]))
    && (forall v :: v in n.up ==> 1 <= v < MAX_CURSOR_NUM && AllMsgsFit(n.up[v]))
    && (forall v :: v in n.down ==> AllMsgsFit(n.down[v]))
  }

  lemma ApplyRoomy(d: Doc, c: int, op: Op)
    requires WF(d) && c in d.curs && Roomy(d)
    ensures Roomy(Apply(d, c, op))
  {
    ApplyKeys(d, c, op);
  }

  lemma ServerRoomy(d: Doc, v: int, m: Msg)
    requires WF(d) && 0 in d.curs && Roomy(d) && MsgFits(m) && ServerOk(d, v, m) && m.user == v
    ensures Roomy(ServerDoc(d, m)) && AllMsgsFit(Reply(d, m)) && AllMsgsFit(Relay(m))
  {
    hide WF;
    if m.OpMsg? {
      ApplyRoomy(d, m.user, m.op);
    }
  }

  lemma ClientRoomy(d: Option<Doc>, v: int, m: Msg)
    requires (d.Some? ==> WF(d.value) && Roomy(d.value)) && MsgFits(m) && ClientOk(d, v, m)
    ensures ClientHandle(d, v, m).Some? ==> Roomy(ClientHandle(d, v, m).value)
  {
    hide WF;
    if m.OpMsg? {
      ApplyRoomy(d.value, m.user, m.op);
    }
  }

  lemma FitsJoin(a: seq<Msg>, b: seq<Msg>)
    requires AllMsgsFit(a) && AllMsgsFit(b)
    ensures AllMsgsFit(a + b)
  {
  }

  lemma FitsTail(ms: seq<Msg>)
    requires AllMsgsFit(ms) && ms != []
    ensures MsgFits(ms[0]) && AllMsgsFit(ms[1..])
  {
  }

  lemma ToServerBounded(n: Net, v: int)
    requires Bounded(n) && Handles(n, ToServer(v))
    ensures Bounded(Take(n, ToServer(v)))
  {
    var m := n.up[v][0];
    FitsTail(n.up[v]);
    ServerRoomy(n.server, v, m);
    hide WF, Roomy, MsgFits, ServerDoc, Reply, Relay;
    var down := Broadcast(n.down, v, Reply(n.server, m), Relay(m));
    forall w | w in n.down ensures AllMsgsFit(down[w]) {
      FitsJoin(n.down[w], if w == v then Reply(n.server, m) else Relay(m));
    }
  }

  lemma StepBounded(n: Net, s: NetStep)
    requires Bounded(n) && CanTake(n, s) && Handles(n, s) && n.clients.Keys <= n.up.Keys
    ensures Bounded(Take(n, s))
  {
    match s
    case Send(u, op) =>
      ApplyRoomy(n.clients[u], 0, op);
      FitsJoin(n.up[u], [OpMsg(u, op)]);
    case Leaves(u) =>
      FitsJoin(n.up[u], [Quit(u)]);
    case Connects(u) =>
    case ToServer(v) =>
      ToServerBounded(n, v);
    case ToClient(v) =>
      FitsTail(n.down[v]);
      ClientRoomy(Replication.Copy(n, v), v, n.down[v][0]);
  }

  lemma {:induction false} RunBounded(ns: seq<Net>, ss: seq<NetStep>, i: nat)
    requires IsNetRun(ns, ss) && i < |ns| && ns[0].server.height >= 2
    ensures Bounded(ns[i])
  {
    if i > 0 {
      RunBounded(ns, ss, i - 1);
      RunInStep(ns, ss, i - 1);
      assert Taken(ns[i-1], ss[i-1], ns[i]);
      StepBounded(ns[i-1], ss[i-1]);
    }
  }

  /** What Worker.HandleMsg asks of a document and a message, beside open sockets and C ints. */
  ghost predicate WorkerReady(d: Doc, m: Msg) {
    && WF(d) && UserIds(d) && 0 in d.curs
    && (m.OpMsg? || m.FileRequest? || m.Quit?) && 1 <= m.user < MAX_CURSOR_NUM && ServerOk(d, m.user, m)
  }

  /** What Client.HandleMsg asks. */
  ghost predicate ClientReady(d: Option<Doc>, v: int, m: Msg) {
    && (d.Some? ==> WF(d.value) && UserIds(d.value))
    && (m.FileResponse? || m.OpMsg? || m.AddCursorMsg? || m.DeleteCursorMsg?) && ClientOk(d, v, m)
    && (m.FileResponse? ==> |m.snapshot.lines| >= 2 && UserIds(m.snapshot))
    && (m.AddCursorMsg? ==> 1 <= m.user < MAX_CURSOR_NUM)
  }

  lemma UpKinds(n: Net, a: int, v: int)
    requires Inv(n, a) && v in n.up && n.up[v] != []
    ensures n.up[v][0].OpMsg? || n.up[v][0].FileRequest? || n.up[v][0].Quit?
  {
    OthersQuiet(n, v, a);
    UplinkHead(n, a);
  }

  lemma DownKinds(n: Net, a: int, v: int)
    requires Inv(n, a) && v in n.down && n.down[v] != []
    ensures var m := n.down[v][0]; m.FileResponse? || m.OpMsg? || m.AddCursorMsg? || m.DeleteCursorMsg?
  {
    if v != a {
      assert Follows(n, v, a);
      assert IsRelay(n.down[v][0]);
    }
  }

  /** In every run both handlers only ever meet messages they are ready for. */
  lemma RunServes(ns: seq<Net>, ss: seq<NetStep>, i: nat)
    requires IsNetRun(ns, ss) && i < |ss| && ns[0].server.height >= 2
    ensures match ss[i]
            case ToServer(v) => v in ns[i].up && ns[i].up[v] != [] && WorkerReady(ns[i].server, ns[i].up[v][0])
            case ToClient(v) => v in ns[i].down && ns[i].down[v] != [] &&
                                ClientReady(Replication.Copy(ns[i], v), v, ns[i].down[v][0])
            case _ => true
  {
    var n, a := ns[i], LastActor(ss, i);
    RunInStep(ns, ss, i);
    RunBounded(ns, ss, i);
    match ss[i]
    case ToServer(v) =>
      UpKinds(n, a, v);
      FitsTail(n.up[v]);
    case ToClient(v) =>
      DownKinds(n, a, v);
      FitsTail(n.down[v]);
    case _ =>
  }

  // ---------------------------------------------------------------- the handlers themselves

  /** A worker that has just loaded a file is where runs start. */
  lemma LoadedStarts(d: Doc, text: string, h: int, w: int)
    requires Loaded(d, text, h, w, false)
    ensures Start(Net(d, map[], map[], map[]))
  {
    LoadedStart(d, text, h, w);
    hide WF, Split, Shorts, Strs, OwnAtStart;
  }

  /** A worker whose document and message are ready can handle it, given an open socket and C ints. */
  lemma WorkerTakes(worker: Worker, socket: int, w: WireMsg, m: Msg)
    requires worker.Sockets() && socket in worker.Open() && w.userId in worker.loggedIn && worker.buf.Valid()
    requires WorkerReady(worker.buf.doc, m) && Encodes(w, m, worker.info)
    requires m.FileRequest? ==> Ints(worker.buf.doc, worker.info)
    ensures worker.Takes(socket, w, m)
  {
    hide worker.Sockets, worker.Open, WF, Encodes, Ints;
  }

  /** And so can a client. */
  lemma ClientTakes(client: Client, w: WireMsg, m: Msg, x: Extra)
    requires client.Valid() && ClientReady(client.Copy(), client.userId, m) && Encodes(w, m, x)
    ensures client.Takes(w, m, x)
  {
    hide WF, Encodes;
  }
}
