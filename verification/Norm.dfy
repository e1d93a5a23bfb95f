/**
 Replicas compared under user ids: on a client the own cursor, id 0, stands for its user; the
 server's own cursor stands for nobody.  Every operation commutes with this renaming.
 */
module Norm {
  import opened Document

  const OWN_CURS_ID := 0

  function Renamed(cs: map<int, Pos>, u: int): map<int, Pos>
    requires OWN_CURS_ID in cs
  {
    map j | j in cs.Keys - {OWN_CURS_ID} + {u} :: if j == u then cs[OWN_CURS_ID] else cs[j]
  }

  /** A client's document under user ids. */
  function ClientNorm(d: Doc, u: int): Doc
    requires OWN_CURS_ID in d.curs
  {
    d.(curs := Renamed(d.curs, u))
  }

  /** The server's document under user ids. */
  function ServerNorm(d: Doc): Doc {
    d.(server := false, curs := d.curs - {OWN_CURS_ID})
  }

  /** n is d with its cursors under other names; cursor c of d is cursor c' of n. */
  ghost predicate Alike(d: Doc, c: int, n: Doc, c': int) {
    && WF(d) && WF(n) && n == d.(curs := n.curs, server := false)
    && c in d.curs && c' in n.curs && n.curs[c'] == d.curs[c]
  }

  lemma AlikeText(d: Doc, c: int, n: Doc, c': int, op: Op)
    requires Alike(d, c, n, c')
    ensures Apply(n, c', op) == Apply(d, c, op).(curs := Apply(n, c', op).curs, server := false)
    ensures Apply(n, c', op).curs.Keys == n.curs.Keys && Apply(d, c, op).curs.Keys == d.curs.Keys
    ensures Apply(n, c', op).curs[c'] == Apply(d, c, op).curs[c]
    requires d.server ==> OwnAtStart(d) && c != OWN_CURS_ID
  {
    assert OnText(d, d.curs[c]);
    ApplyKeys(d, c, op);
    ApplyKeys(n, c', op);
  }

  /** Another cursor j of d, called j' in n, goes to the same place. */
  lemma AlikeBeside(d: Doc, c: int, n: Doc, c': int, op: Op, j: int, j': int)
    requires Alike(d, c, n, c') && j in d.curs && j' in n.curs && n.curs[j'] == d.curs[j] && j != c && j' != c'
    requires d.server ==> j != OWN_CURS_ID
    ensures j in Apply(d, c, op).curs && j' in Apply(n, c', op).curs
    ensures Apply(n, c', op).curs[j'] == Apply(d, c, op).curs[j]
  {
    assert OnText(d, d.curs[c]);
  }

  lemma ClientNormWF(d: Doc, u: int)
    requires WF(d) && !d.server && OWN_CURS_ID in d.curs
    ensures WF(ClientNorm(d, u))
  {
    var n := ClientNorm(d, u);
    forall j | j in n.curs ensures OnText(n, n.curs[j]) {
      assert OnText(d, d.curs[if j == u then OWN_CURS_ID else j]);
    }
  }

  lemma ServerNormWF(d: Doc)
    requires WF(d)
    ensures WF(ServerNorm(d))
  {
    var n := ServerNorm(d);
    forall j | j in n.curs ensures OnText(n, n.curs[j]) {
      assert OnText(d, d.curs[j]);
    }
  }

  /** The id a client's cursor c goes by among users. */
  function AsUser(c: int, u: int): int {
    if c == OWN_CURS_ID then u else c
  }

  /** An operation on a client, by its own cursor or a peer's, is that operation under user ids. */
  lemma ClientApply(d: Doc, u: int, c: int, op: Op)
    requires WF(d) && !d.server && OWN_CURS_ID in d.curs && c in d.curs && u !in d.curs
    ensures WF(ClientNorm(d, u)) && AsUser(c, u) in ClientNorm(d, u).curs && OWN_CURS_ID in Apply(d, c, op).curs
    ensures ClientNorm(Apply(d, c, op), u) == Apply(ClientNorm(d, u), AsUser(c, u), op)
  {
    hide WF;
    ClientNormWF(d, u);
    var n, c' := ClientNorm(d, u), AsUser(c, u);
    AlikeText(d, c, n, c', op);
    var a, b := ClientNorm(Apply(d, c, op), u), Apply(n, c', op);
    assert a.curs.Keys == b.curs.Keys;
    forall j | j in a.curs ensures a.curs[j] == b.curs[j] {
      var i := if j == u then OWN_CURS_ID else j;
      if i != c { AlikeBeside(d, c, n, c', op, i, j); }
    }
    assert a.curs == b.curs;
  }

  /** An operation by a user on the server is that operation under user ids. */
  lemma ServerApply(d: Doc, u: int, op: Op)
    requires WF(d) && OwnAtStart(d) && u in d.curs && u != OWN_CURS_ID
    ensures WF(ServerNorm(d)) && u in ServerNorm(d).curs
    ensures ServerNorm(Apply(d, u, op)) == Apply(ServerNorm(d), u, op)
  {
    ServerNormWF(d);
    var n := ServerNorm(d);
    AlikeText(d, u, n, u, op);
    var a, b := ServerNorm(Apply(d, u, op)), Apply(n, u, op);
    assert a.curs.Keys == b.curs.Keys;
    forall j | j in a.curs ensures a.curs[j] == b.curs[j] {
      if j != u { AlikeBeside(d, u, n, u, op, j, j); }
    }
    assert a.curs == b.curs;
  }
}
