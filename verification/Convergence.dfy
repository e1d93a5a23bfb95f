/**
 Every run of the relay protocol in which users act one at a time keeps all replicas in step:
 the messages in flight lead every replica to the acting client's document.
 */
module Convergence {
  import opened Wrappers
  import opened Document
  import opened Norm
  import EditRuns
  import opened Replication

  // ---------------------------------------------------------------- invariant

  ghost predicate ReplicaOk(d: Doc, v: int) {
    WF(d) && !d.server && 0 in d.curs && v !in d.curs
  }

  predicate IsRelay(m: Msg) {
    m.OpMsg? || m.AddCursorMsg? || m.DeleteCursorMsg?
  }

  ghost predicate Relays(ms: seq<Msg>, a: int) {
    forall i :: 0 <= i < |ms| ==> IsRelay(ms[i]) && ms[i].user == a
  }

  /** v has only relays of a's doing to handle, and they lead it to the server's document. */
  ghost predicate Follows(n: Net, v: int, a: int)
    requires v in n.up && v in n.down
  {
    && v in n.clients && n.up[v] == [] && Relays(n.down[v], a)
    && ReplicaOk(n.clients[v], v)
    && Folds(ClientNorm(n.clients[v], v), n.down[v], ServerNorm(n.server))
  }

  ghost predicate AllOps(ms: seq<Msg>, a: int) {
    forall i :: 0 <= i < |ms| ==> ms[i].OpMsg? && ms[i].user == a
  }

  /** a is ahead of the server by the operations it has sent. */
  ghost predicate Editing(n: Net, a: int)
    requires a in n.up && a in n.down
  {
    && a in n.clients && n.down[a] == [] && AllOps(n.up[a], a)
    && ReplicaOk(n.clients[a], a)
    && Folds(ServerNorm(n.server), n.up[a], ClientNorm(n.clients[a], a))
  }

  ghost predicate Requesting(n: Net, a: int)
    requires a in n.up && a in n.down
  {
    a !in n.clients && n.up[a] == [FileRequest(a)] && n.down[a] == [] && a !in n.server.curs
  }

  ghost predicate Responding(n: Net, a: int)
    requires a in n.up && a in n.down
  {
    && a !in n.clients && n.up[a] == [] && |n.down[a]| == 1
    && var m := n.down[a][0];
       && m.FileResponse? && m.user == a
       && WF(m.snapshot) && ReplicaOk(Opened(m.snapshot), a)
       && ClientNorm(Opened(m.snapshot), a) == ServerNorm(n.server)
  }

  ghost predicate Quitting(n: Net, a: int)
    requires a in n.up && a in n.down
  {
    && a !in n.clients && n.down[a] == [] && n.up[a] != []
    && AllOps(n.up[a][..|n.up[a]|-1], a) && n.up[a][|n.up[a]|-1] == Quit(a)
    && exists e :: Folds(ServerNorm(n.server), n.up[a], e)
  }

  ghost predicate Acts(n: Net, a: int)
    requires a in n.up && a in n.down
  {
    Editing(n, a) || Requesting(n, a) || Responding(n, a) || Quitting(n, a)
  }

  /** a is the one user whose doing may be in flight. */
  ghost predicate Inv(n: Net, a: int) {
    && WF(n.server) && OwnAtStart(n.server) && a != 0
    && n.up.Keys == n.down.Keys && n.clients.Keys <= n.up.Keys && 0 !in n.up
    && (forall u :: u in n.server.curs && u != 0 ==> u in n.up)
    && (forall v :: v in n.up && v != a ==> Follows(n, v, a))
    && (a in n.up ==> Acts(n, a))
  }

  // ---------------------------------------------------------------- replicas under one message

  lemma EffectAdd(d: Doc, v: int, u: int)
    requires ReplicaOk(d, v) && u != v && u != 0 && u !in d.curs
    ensures ReplicaOk(AddCursor(d, u, StartPos(d)), v)
    ensures u !in ClientNorm(d, v).curs && d.lines != []
    ensures ClientNorm(AddCursor(d, u, StartPos(d)), v) == AddCursor(ClientNorm(d, v), u, StartPos(d))
  {
    var d' := AddCursor(d, u, StartPos(d));
    assert Idx(d.lines, StartPos(d).line) == 0;
    assert forall j :: j in d'.curs ==> OnText(d, d'.curs[j]);
    assert ClientNorm(d', v).curs == AddCursor(ClientNorm(d, v), u, StartPos(d)).curs;
  }

  lemma EffectRemove(d: Doc, v: int, u: int)
    requires ReplicaOk(d, v) && u != v && u != 0
    ensures ReplicaOk(RemoveCursor(d, u), v)
    ensures ClientNorm(RemoveCursor(d, u), v) == ClientNorm(d, v).(curs := ClientNorm(d, v).curs - {u})
  {
    hide OnLines;
    var d' := RemoveCursor(d, u);
    assert forall j :: j in d'.curs ==> OnText(d, d.curs[j]);
    assert ClientNorm(d', v).curs == ClientNorm(d, v).curs - {u};
  }

  lemma EffectOp(d: Doc, v: int, c: int, op: Op)
    requires ReplicaOk(d, v) && c in d.curs && TypedOp(op)
    ensures ReplicaOk(Apply(d, c, op), v)
    ensures WF(ClientNorm(d, v)) && AsUser(c, v) in ClientNorm(d, v).curs
    ensures ClientNorm(Apply(d, c, op), v) == Apply(ClientNorm(d, v), AsUser(c, v), op)
  {
    ApplyKeeps(d, c, op);
    ApplyKeys(d, c, op);
    ClientApply(d, v, c, op);
    assert OnText(d, d.curs[c]);
  }

  /** A follower's next message can be handled, and handling it is its effect under user ids. */
  lemma FollowerHandles(d: Doc, v: int, m: Msg)
    requires ReplicaOk(d, v) && m.user != v && m.user != 0
    requires IsRelay(m) && EffectOk(ClientNorm(d, v), m)
    ensures ClientOk(Some(d), v, m) && WF(ClientNorm(d, v))
    ensures var d' := ClientHandle(Some(d), v, m);
            d'.Some? && ReplicaOk(d'.value, v) && ClientNorm(d'.value, v) == Effect(ClientNorm(d, v), m)
  {
    ClientNormWF(d, v);
    var u := m.user;
    match m
    case OpMsg(_, op) => EffectOp(d, v, u, op);
    case AddCursorMsg(_) => EffectAdd(d, v, u);
    case DeleteCursorMsg(_) => EffectRemove(d, v, u);
  }

  // ---------------------------------------------------------------- the server under one message

  lemma ServerOp(d: Doc, a: int, op: Op)
    requires WF(d) && OwnAtStart(d) && a != 0 && a in d.curs && TypedOp(op)
    ensures WF(Apply(d, a, op)) && OwnAtStart(Apply(d, a, op))
    ensures Apply(d, a, op).curs.Keys == d.curs.Keys
    ensures WF(ServerNorm(d)) && a in ServerNorm(d).curs
    ensures ServerNorm(Apply(d, a, op)) == Apply(ServerNorm(d), a, op)
  {
    EditRuns.OwnStays(d, EditRuns.Edit(a, op));
    ServerApply(d, a, op);
    ApplyKeys(d, a, op);
  }

  lemma ServerAdd(d: Doc, a: int)
    requires WF(d) && OwnAtStart(d) && a != 0 && a !in d.curs
    ensures var d' := AddCursor(d, a, d.curs[0]);
            WF(d') && OwnAtStart(d') && ServerNorm(d') == AddCursor(ServerNorm(d), a, StartPos(d))
  {
    var d' := AddCursor(d, a, d.curs[0]);
    assert OnText(d, d.curs[0]);
    assert forall j :: j in d'.curs ==> OnText(d, d'.curs[j]);
    assert ServerNorm(d').curs == AddCursor(ServerNorm(d), a, StartPos(d)).curs;
  }

  /** The joiner's copy of the snapshot is the server's document once it has added the joiner's cursor. */
  lemma SnapshotAdd(d: Doc, a: int)
    requires WF(d) && OwnAtStart(d) && a != 0 && a !in d.curs
    ensures ReplicaOk(Opened(d), a) && ClientNorm(Opened(d), a) == AddCursor(ServerNorm(d), a, StartPos(d))
  {
    assert forall j :: j in d.curs ==> OnText(d, d.curs[j]);
    assert ClientNorm(Opened(d), a).curs == AddCursor(ServerNorm(d), a, StartPos(d)).curs;
  }

  lemma ServerRemove(d: Doc, a: int)
    requires WF(d) && OwnAtStart(d) && a != 0 && a in d.curs
    ensures var d' := RemoveCursor(d, a);
            && WF(d') && OwnAtStart(d')
            && ServerNorm(d') == ServerNorm(d).(curs := ServerNorm(d).curs - {a})
  {
    var d' := RemoveCursor(d, a);
    assert forall j :: j in d'.curs ==> OnText(d, d.curs[j]);
    assert ServerNorm(d').curs == ServerNorm(d).curs - {a};
  }

  /** The server handles the acting user's next message as its effect, and what it relays has the same effect. */
  lemma ServerHandles(d: Doc, a: int, m: Msg)
    requires WF(d) && OwnAtStart(d) && a != 0 && m.user == a
    requires m.OpMsg? || m.FileRequest? || m.Quit?
    requires EffectOk(ServerNorm(d), m)
    ensures ServerOk(d, a, m) && WF(ServerNorm(d))
    ensures WF(ServerDoc(d, m)) && OwnAtStart(ServerDoc(d, m))
    ensures ServerNorm(ServerDoc(d, m)) == Effect(ServerNorm(d), m)
    ensures |Relay(m)| == 1 && IsRelay(Relay(m)[0]) && Relay(m)[0].user == a
    ensures EffectOk(ServerNorm(d), Relay(m)[0]) && Effect(ServerNorm(d), Relay(m)[0]) == Effect(ServerNorm(d), m)
    ensures ServerDoc(d, m).curs.Keys == if m.Quit? then d.curs.Keys - {a} else d.curs.Keys + {a}
  {
    ServerNormWF(d);
    match m
    case OpMsg(_, op) => ServerOp(d, a, op);
    case FileRequest(_) => ServerAdd(d, a);
    case Quit(_) => ServerRemove(d, a);
  }

  // ---------------------------------------------------------------- every step keeps the invariant

  lemma ByEnds(ms: seq<Msg>, u: int)
    requires By(ms, u)
    ensures ms != [] ==> ms[0].user == u && ms[|ms|-1].user == u
  {
  }

  lemma ActorAtRest(n: Net, a: int, u: int)
    requires a in n.up && a in n.down && Acts(n, a) && a != u && By(n.up[a], u) && By(n.down[a], u)
    ensures Editing(n, a) && n.up[a] == []
  {
    ByEnds(n.up[a], u);
    ByEnds(n.down[a], u);
  }

  /** With nobody else's messages in flight, u may become the acting user. */
  lemma Switch(n: Net, a: int, u: int)
    requires Inv(n, a) && Idle(n, u) && u != 0
    ensures Inv(n, u)
    ensures u in n.up ==> u in n.clients || u == a
  {
    if u != a {
      forall v | v in n.up && v != u ensures Follows(n, v, u) {
        if v != a {
          assert Follows(n, v, a);
          assert By(n.down[v], u);
          assert n.down[v] == [];
        } else {
          ActorAtRest(n, a, u);
        }
      }
      if u in n.up {
        assert Follows(n, u, a);
        assert By(n.down[u], u);
        assert n.down[u] == [];
        assert Editing(n, u);
      }
    }
  }

  lemma SendKeeps(n: Net, u: int, op: Op)
    requires Inv(n, u) && u in n.clients && TypedOp(op)
    ensures Handles(n, Send(u, op)) && Inv(Take(n, Send(u, op)), u)
  {
    assert u in n.up && Editing(n, u);
    var d := n.clients[u];
    var n' := Take(n, Send(u, op));
    EffectOp(d, u, 0, op);
    FoldsOne(ServerNorm(n.server), n.up[u], ClientNorm(d, u), OpMsg(u, op));
    assert Editing(n', u);
    forall v | v in n'.up && v != u ensures Follows(n', v, u) {
      assert Follows(n, v, u);
    }
  }

  lemma LeaveKeeps(n: Net, u: int)
    requires Inv(n, u) && u in n.clients
    ensures Handles(n, Leaves(u)) && Inv(Take(n, Leaves(u)), u)
  {
    assert u in n.up && Editing(n, u);
    var d := n.clients[u];
    var n' := Take(n, Leaves(u));
    ClientNormWF(d, u);
    FoldsOne(ServerNorm(n.server), n.up[u], ClientNorm(d, u), Quit(u));
    assert n'.up[u][..|n'.up[u]|-1] == n.up[u];
    assert Quitting(n', u);
    forall v | v in n'.up && v != u ensures Follows(n', v, u) {
      assert Follows(n, v, u);
    }
  }

  lemma ConnectKeeps(n: Net, u: int)
    requires Inv(n, u) && u !in n.up && 1 <= u
    ensures Inv(Take(n, Connects(u)), u)
  {
    var n' := Take(n, Connects(u));
    assert Requesting(n', u);
    forall v | v in n'.up && v != u ensures Follows(n', v, u) {
      assert Follows(n, v, u);
    }
  }

  // ---------------------------------------------------------------- the server's step

  /** The head of the acting user's uplink: what it can be, and that its effect is defined. */
  lemma UplinkHead(n: Net, a: int)
    requires Inv(n, a) && a in n.up && n.up[a] != []
    ensures var m := n.up[a][0];
            && m.user == a && (m.OpMsg? || m.FileRequest? || m.Quit?)
            && WF(ServerNorm(n.server)) && EffectOk(ServerNorm(n.server), m)
  {
    ServerNormWF(n.server);
    if Quitting(n, a) && |n.up[a]| > 1 {
      assert n.up[a][..|n.up[a]|-1][0] == n.up[a][0];
    }
  }

  /** A follower gets one more relay. */
  lemma FollowsMore(n: Net, v: int, a: int, m: Msg, server: Doc)
    requires v in n.up && v in n.down && Follows(n, v, a) && IsRelay(m) && m.user == a
    requires WF(ServerNorm(n.server)) && EffectOk(ServerNorm(n.server), m)
    requires ServerNorm(server) == Effect(ServerNorm(n.server), m)
    ensures ReplicaOk(n.clients[v], v) && Relays(n.down[v] + [m], a)
    ensures Folds(ClientNorm(n.clients[v], v), n.down[v] + [m], ServerNorm(server))
  {
    FoldsOne(ClientNorm(n.clients[v], v), n.down[v], ServerNorm(n.server), m);
  }

  /** The acting user after the server took its first message. */
  lemma ActorMoves(n: Net, a: int, n': Net)
    requires Inv(n, a) && a in n.up && n.up[a] != [] && Handles(n, ToServer(a)) && n' == Take(n, ToServer(a))
    requires ServerNorm(n'.server) == Effect(ServerNorm(n.server), n.up[a][0])
    requires WF(ServerNorm(n.server)) && EffectOk(ServerNorm(n.server), n.up[a][0])
    ensures a in n'.up ==> a in n'.down && Acts(n', a)
  {
    var m := n.up[a][0];
    if Editing(n, a) {
      assert Editing(n', a);
    } else if Requesting(n, a) {
      SnapshotAdd(n.server, a);
      assert Responding(n', a);
    } else {
      QuitterMoves(n, a, n');
    }
  }

  lemma OpsTail(ms: seq<Msg>, a: int)
    requires |ms| > 1 && AllOps(ms[..|ms|-1], a)
    ensures ms[0].OpMsg? && AllOps(ms[1..][..|ms|-2], a)
  {
    assert ms[0] == ms[..|ms|-1][0];
    assert ms[1..][..|ms|-2] == ms[..|ms|-1][1..];
  }

  lemma QuitterMoves(n: Net, a: int, n': Net)
    requires Inv(n, a) && a in n.up && Quitting(n, a) && Handles(n, ToServer(a)) && n' == Take(n, ToServer(a))
    requires ServerNorm(n'.server) == Effect(ServerNorm(n.server), n.up[a][0])
    requires WF(ServerNorm(n.server)) && EffectOk(ServerNorm(n.server), n.up[a][0])
    ensures a in n'.up ==> a in n'.down && Quitting(n', a)
  {
    var ms := n.up[a];
    var e :| Folds(ServerNorm(n.server), ms, e);
    if |ms| > 1 {
      OpsTail(ms, a);
      assert n'.up[a] == ms[1..];
      assert Folds(ServerNorm(n'.server), ms[1..], e);
    }
  }

  lemma OthersQuiet(n: Net, v: int, a: int)
    requires Inv(n, a) && v in n.up
    ensures v != a ==> n.up[v] == []
  {
    if v != a {
      assert Follows(n, v, a);
    }
  }

  /** A follower after the server took the acting user's first message. */
  lemma FollowerTold(n: Net, w: int, a: int, n': Net)
    requires Inv(n, a) && a in n.up && n.up[a] != [] && Handles(n, ToServer(a)) && n' == Take(n, ToServer(a))
    requires w in n'.up && w != a
    ensures w in n'.down && Follows(n', w, a)
  {
    var m := n.up[a][0];
    UplinkHead(n, a);
    ServerHandles(n.server, a, m);
    assert Follows(n, w, a);
    hide WF, Inv, ServerDoc, ServerNorm, ClientNorm, Effect, EffectOk, Folds, ReplicaOk, OwnAtStart;
    FollowsMore(n, w, a, Relay(m)[0], n'.server);
  }

  lemma ToServerKeeps(n: Net, v: int, a: int)
    requires Inv(n, a) && v in n.up && n.up[v] != []
    ensures Handles(n, ToServer(v)) && Inv(Take(n, ToServer(v)), a)
  {
    OthersQuiet(n, v, a);
    var m := n.up[a][0];
    UplinkHead(n, a);
    ServerHandles(n.server, a, m);
    var n' := Take(n, ToServer(a));
    ActorMoves(n, a, n');
    forall w | w in n'.up && w != a ensures Follows(n', w, a) {
      FollowerTold(n, w, a, n');
    }
  }

  // ---------------------------------------------------------------- a client's step

  lemma FollowerKeeps(n: Net, v: int, a: int)
    requires Inv(n, a) && v in n.down && n.down[v] != [] && v != a
    ensures Handles(n, ToClient(v)) && Inv(Take(n, ToClient(v)), a)
  {
    assert Follows(n, v, a);
    var d, ms := n.clients[v], n.down[v];
    assert IsRelay(ms[0]) && ms[0].user == a;
    FollowerHandles(d, v, ms[0]);
    var n' := Take(n, ToClient(v));
    assert Follows(n', v, a);
    forall w | w in n'.up && w != a ensures Follows(n', w, a) {
      assert Follows(n, w, a);
    }
  }

  lemma OpenerKeeps(n: Net, a: int)
    requires Inv(n, a) && a in n.down && n.down[a] != []
    ensures Handles(n, ToClient(a)) && Inv(Take(n, ToClient(a)), a)
  {
    assert Responding(n, a);
    var n' := Take(n, ToClient(a));
    assert Editing(n', a);
    forall w | w in n'.up && w != a ensures Follows(n', w, a) {
      assert Follows(n, w, a);
    }
  }

  // ---------------------------------------------------------------- whole runs

  /** The user whose doing may be in flight after s. */
  function Actor(a: int, s: NetStep): int {
    match s
    case Send(u, _) => u
    case Leaves(u) => u
    case Connects(u) => u
    case _ => a
  }

  lemma StepKeeps(n: Net, a: int, s: NetStep)
    requires Inv(n, a) && CanTake(n, s)
    ensures Handles(n, s) && Inv(Take(n, s), Actor(a, s))
  {
    match s
    case Send(u, op) => Switch(n, a, u); SendKeeps(n, u, op);
    case Leaves(u) => Switch(n, a, u); LeaveKeeps(n, u);
    case Connects(u) => Switch(n, a, u); ConnectKeeps(n, u);
    case ToServer(v) => ToServerKeeps(n, v, a);
    case ToClient(v) =>
      if v == a {
        OpenerKeeps(n, a);
      } else {
        FollowerKeeps(n, v, a);
      }
  }

  /** A worker that has loaded its file, nobody connected. */
  ghost predicate Start(n: Net) {
    && WF(n.server) && OwnAtStart(n.server) && n.server.curs.Keys == {0}
    && n.clients == map[] && n.up == map[] && n.down == map[]
  }

  ghost predicate Taken(n: Net, s: NetStep, n': Net) {
    CanTake(n, s) && (Handles(n, s) ==> n' == Take(n, s))
  }

  ghost predicate IsNetRun(ns: seq<Net>, ss: seq<NetStep>) {
    && |ns| == |ss| + 1 && Start(ns[0])
    && forall i :: 0 <= i < |ss| ==> Taken(ns[i], ss[i], ns[i+1])
  }

  /** The last user to act before state i. */
  function LastActor(ss: seq<NetStep>, i: nat): int
    requires i <= |ss|
  {
    if i == 0 then 1 else Actor(LastActor(ss, i - 1), ss[i-1])
  }

  lemma StartsIn(n: Net)
    ensures Start(n) ==> Inv(n, 1)
  {
  }

  /** Every state of every run is in step, and no handler ever meets a message it cannot handle. */
  lemma {:induction false} RunInStep(ns: seq<Net>, ss: seq<NetStep>, i: nat)
    requires IsNetRun(ns, ss) && i < |ns|
    ensures Inv(ns[i], LastActor(ss, i))
    ensures i < |ss| ==> Handles(ns[i], ss[i])
  {
    StartsIn(ns[0]);
    hide Inv, Start, Take, CanTake, Handles;
    if i > 0 {
      RunInStep(ns, ss, i - 1);
      assert Taken(ns[i-1], ss[i-1], ns[i]);
      StepKeeps(ns[i-1], LastActor(ss, i - 1), ss[i-1]);
    }
    if i < |ss| {
      assert Taken(ns[i], ss[i], ns[i+1]);
      StepKeeps(ns[i], LastActor(ss, i), ss[i]);
    }
  }

  /** What u has sent and the server has not yet handled. */
  function Unhandled(n: Net, u: int): seq<Msg> {
    if u in n.up then n.up[u] else []
  }

  /** Folding what is in flight gives e wherever it starts. */
  ghost predicate LeadsTo(n: Net, a: int, e: Doc) {
    && Folds(ServerNorm(n.server), Unhandled(n, a), e)
    && (forall v :: v in n.clients && v != a ==> FollowerLeadsTo(n, v, a, e))
    && (a in n.clients ==> 0 in n.clients[a].curs && e == ClientNorm(n.clients[a], a))
    && (a in n.down && n.down[a] != [] ==>
          n.down[a][0].FileResponse? && 0 in n.down[a][0].snapshot.curs && e == ClientNorm(Opened(n.down[a][0].snapshot), a))
  }

  ghost predicate FollowerLeadsTo(n: Net, v: int, a: int, e: Doc)
    requires v in n.clients
  {
    v in n.down && 0 in n.clients[v].curs && Folds(ClientNorm(n.clients[v], v), n.down[v] + Unhandled(n, a), e)
  }

  /** The document the acting user's messages lead the server to, whether it edits, joins, quits or has gone. */
  lemma ActorLeadsTo(n: Net, a: int) returns (e: Doc)
    requires Inv(n, a)
    ensures Folds(ServerNorm(n.server), Unhandled(n, a), e)
    ensures a in n.clients ==> 0 in n.clients[a].curs && e == ClientNorm(n.clients[a], a)
    ensures a in n.down && n.down[a] != [] ==>
              n.down[a][0].FileResponse? && 0 in n.down[a][0].snapshot.curs && e == ClientNorm(Opened(n.down[a][0].snapshot), a)
  {
    var d := ServerNorm(n.server);
    if a !in n.up || Responding(n, a) {
      e := d;
    } else if Editing(n, a) {
      e := ClientNorm(n.clients[a], a);
    } else if Requesting(n, a) {
      ServerNormWF(n.server);
      e := Effect(d, FileRequest(a));
      assert Folds(d, [], d);
      FoldsOne(d, [], d, FileRequest(a));
      assert [] + [FileRequest(a)] == [FileRequest(a)];
    } else {
      e :| Folds(d, n.up[a], e);
    }
  }

  /**
   In every state of every run, while the last user to act edits, joins, quits or has gone:
   folding what is in flight over the server and over every other replica gives one and the
   same document, which is that user's own if it has one and the one it is about to open if a
   snapshot is on its way: text, line ids and every user's cursor.
   */
  lemma InFlightLeadsToActor(ns: seq<Net>, ss: seq<NetStep>, i: nat) returns (e: Doc)
    requires IsNetRun(ns, ss) && i < |ns|
    ensures LeadsTo(ns[i], LastActor(ss, i), e)
  {
    var n, a := ns[i], LastActor(ss, i);
    RunInStep(ns, ss, i);
    e := ActorLeadsTo(n, a);
    forall v | v in n.clients && v != a ensures FollowerLeadsTo(n, v, a, e) {
      assert Follows(n, v, a);
      FoldsOn(ClientNorm(n.clients[v], v), n.down[v], ServerNorm(n.server), Unhandled(n, a), e);
    }
  }

  ghost predicate Quiet(n: Net) {
    && (forall w :: w in n.up ==> n.up[w] == [])
    && (forall w :: w in n.down ==> n.down[w] == [])
  }

  /** v's document is the server's, v's own cursor standing where the server has v's. */
  ghost predicate Agrees(d: Doc, v: int, s: Doc) {
    && d.lines == s.lines && d.last == s.last && d.numLines == s.numLines && d.idCnt == s.idCnt
    && d.height == s.height && d.width == s.width
    && v != 0 && v in s.curs && 0 in s.curs && d.curs.Keys == s.curs.Keys - {v}
    && d.curs[0] == s.curs[v] && forall u :: u in d.curs && u != 0 ==> d.curs[u] == s.curs[u]
  }

  lemma NormsAgree(d: Doc, v: int, s: Doc)
    requires v != 0 && 0 in d.curs && v !in d.curs && 0 in s.curs && ClientNorm(d, v) == ServerNorm(s)
    ensures Agrees(d, v, s)
  {
    var a, b := Renamed(d.curs, v), s.curs - {0};
    assert a == b && v in a;
    assert d.lines == s.lines && d.last == s.last;
    forall u | u in d.curs && u != 0 ensures u in s.curs && d.curs[u] == s.curs[u] {
      assert u in a;
    }
    assert forall u :: u in s.curs && u != 0 && u != v ==> u in b;
    assert b.Keys == d.curs.Keys - {0} + {v};
  }

  /** Whenever the channels are empty, every client agrees with the server. */
  lemma QuietAgrees(ns: seq<Net>, ss: seq<NetStep>, i: nat, v: int)
    requires IsNetRun(ns, ss) && i < |ns| && v in ns[i].up && Quiet(ns[i])
    ensures v in ns[i].clients && Agrees(ns[i].clients[v], v, ns[i].server)
  {
    var n, a := ns[i], LastActor(ss, i);
    RunInStep(ns, ss, i);
    if v != a {
      assert Follows(n, v, a);
    } else {
      assert Editing(n, a);
    }
    hide WF, OnText;
    NormsAgree(n.clients[v], v, n.server);
  }

  // ---------------------------------------------------------------- what is in flight arrives

  predicate Delivers(s: NetStep) {
    s.ToServer? || s.ToClient?
  }

  /** How many messages are in the channels. */
  ghost function Total(m: map<int, seq<Msg>>): nat {
    if m == map[] then 0 else |m[AnyOf(m)]| + Total(m - {AnyOf(m)})
  }

  lemma NoneOrSome(m: map<int, seq<Msg>>)
    ensures m == map[] || exists k :: k in m
  {
    if forall k :: k !in m {
      assert m == map[];
    }
  }

  ghost function AnyOf(m: map<int, seq<Msg>>): (k: int)
    requires m != map[]
    ensures k in m
  {
    NoneOrSome(m);
    var k :| k in m;
    k
  }

  lemma {:induction false} TotalAt(m: map<int, seq<Msg>>, k: int)
    requires k in m
    ensures Total(m) == |m[k]| + Total(m - {k})
  {
    var j := AnyOf(m);
    if j != k {
      TotalAt(m - {j}, k);
      TotalAt(m - {k}, j);
      assert m - {j} - {k} == m - {k} - {j};
    }
  }

  lemma TotalTail(m: map<int, seq<Msg>>, k: int)
    requires k in m && m[k] != []
    ensures Total(m[k := m[k][1..]]) < Total(m) && Total(m[k := m[k][1..]] - {k}) < Total(m)
  {
    var m' := m[k := m[k][1..]];
    TotalAt(m, k);
    TotalAt(m', k);
    assert m' - {k} == m - {k};
  }

  /** Every delivery leaves less to deliver. */
  lemma DeliveryShrinks(n: Net, s: NetStep)
    requires Delivers(s) && CanTake(n, s) && Handles(n, s)
    ensures var n' := Take(n, s);
            Total(n'.up) < Total(n.up) || (n'.up == n.up && Total(n'.down) < Total(n.down))
  {
    match s
    case ToServer(v) => TotalTail(n.up, v);
    case ToClient(v) => TotalTail(n.down, v);
  }

  lemma DeliverySteps(n: Net) returns (s: NetStep)
    requires !Quiet(n)
    ensures Delivers(s) && CanTake(n, s)
  {
    if v :| v in n.up && n.up[v] != [] {
      s := ToServer(v);
    } else {
      var w :| w in n.down && n.down[w] != [];
      s := ToClient(w);
    }
  }

  lemma RunOn(ns: seq<Net>, ss: seq<NetStep>, s: NetStep) returns (n: Net)
    requires IsNetRun(ns, ss) && CanTake(ns[|ss|], s)
    ensures IsNetRun(ns + [n], ss + [s]) && Handles(ns[|ss|], s) && n == Take(ns[|ss|], s)
  {
    hide Inv, Start, Take, CanTake, Handles;
    RunInStep(ns, ss, |ss|);
    StepKeeps(ns[|ss|], LastActor(ss, |ss|), s);
    n := Take(ns[|ss|], s);
    var ms, ts := ns + [n], ss + [s];
    forall i | 0 <= i < |ts| ensures Taken(ms[i], ts[i], ms[i+1]) {
      assert i < |ss| ==> Taken(ns[i], ss[i], ns[i+1]);
    }
  }

  /** Who may act once everything is delivered: everyone. */
  ghost predicate AllMayAct(n: Net) {
    && (forall u, op :: u in n.clients && TypedOp(op) ==> CanTake(n, Send(u, op)))
    && (forall u :: u in n.clients ==> CanTake(n, Leaves(u)))
    && (forall u :: 1 <= u < 20 && u !in n.up ==> CanTake(n, Connects(u)))
  }

  /**
   Every run goes on, by deliveries alone, to a state with empty channels, in which every
   connected user has a document and it agrees with the server's, and any user may act next.
   */
  lemma {:induction false} EverythingArrives(ns: seq<Net>, ss: seq<NetStep>) returns (ms: seq<Net>, ts: seq<NetStep>)
    requires IsNetRun(ns, ss)
    ensures IsNetRun(ns + ms, ss + ts) && forall i :: 0 <= i < |ts| ==> Delivers(ts[i])
    ensures var n := (ns + ms)[|ss + ts|];
            && Quiet(n) && AllMayAct(n)
            && forall v :: v in n.up ==> v in n.clients && Agrees(n.clients[v], v, n.server)
    decreases Total(ns[|ss|].up), Total(ns[|ss|].down)
  {
    var n := ns[|ss|];
    if Quiet(n) {
      ms, ts := [], [];
      assert ns + ms == ns && ss + ts == ss;
      forall v | v in n.up ensures v in n.clients && Agrees(n.clients[v], v, n.server) {
        QuietAgrees(ns, ss, |ss|, v);
      }
    } else {
      var s := DeliverySteps(n);
      var n' := RunOn(ns, ss, s);
      DeliveryShrinks(n, s);
      ms, ts := EverythingArrives(ns + [n'], ss + [s]);
      assert ns + [n'] + ms == ns + ([n'] + ms) && ss + [s] + ts == ss + ([s] + ts);
      ms, ts := [n'] + ms, [s] + ts;
    }
  }
}
