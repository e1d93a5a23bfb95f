/**
 The document read as one flat string: the lines first, ..., last joined by '\n', every
 cursor an offset into it.  The lemmas say that each operation on the chain of lines is
 the plain string edit its user expects, and where every other cursor ends up.
 */
module FlatText {
  import opened Document

  /** Every line of ls followed by a line break. */
  function Cat(ls: seq<Line>): string {
    if ls == [] then "" else ls[0].str + "\n" + Cat(ls[1..])
  }

  /** The lines of ls joined by line breaks. */
  function Joined(ls: seq<Line>): string {
    if ls == [] then ""
    else if |ls| == 1 then ls[0].str
    else ls[0].str + "\n" + Joined(ls[1..])
  }

  lemma {:induction false} CatJoined(ls: seq<Line>)
    requires ls != []
    ensures Cat(ls) == Joined(ls) + "\n"
  {
    if |ls| == 1 {
      assert Cat(ls[1..]) == "";
      assert Cat(ls) == ls[0].str + "\n";
    } else {
      CatJoined(ls[1..]);
      calc {
        Cat(ls);
        ls[0].str + "\n" + (Joined(ls[1..]) + "\n");
        (ls[0].str + "\n" + Joined(ls[1..])) + "\n";
        Joined(ls) + "\n";
      }
    }
  }

  lemma Onto(a: string, b: string, c: string)
    ensures a + (b + c) == a + b + c
  {
  }

  lemma {:induction false} CatAppend(a: seq<Line>, b: seq<Line>)
    ensures Cat(a + b) == Cat(a) + Cat(b)
  {
    if a == [] {
      assert a + b == b;
    } else {
      CatAppend(a[1..], b);
      assert (a + b)[0] == a[0] && (a + b)[1..] == a[1..] + b;
      Onto(a[0].str + "\n", Cat(a[1..]), Cat(b));
    }
  }

  lemma CatOne(l: Line)
    ensures Cat([l]) == l.str + "\n"
  {
    assert [l][1..] == [];
  }

  /** The lines of the text, without the padding. */
  function Body(d: Doc): seq<Line>
    requires 1 <= d.height <= |d.lines|
  {
    d.lines[..LastAt(d) + 1]
  }

  function Text(d: Doc): string
    requires 1 <= d.height <= |d.lines|
  {
    Joined(Body(d))
  }

  /** The flat offset of column col of line k. */
  function At(ls: seq<Line>, k: nat, col: int): int
    requires k <= |ls|
  {
    |Cat(ls[..k])| + col
  }

  /** The flat offset of a cursor. */
  function Offset(d: Doc, p: Pos): int {
    At(d.lines, Idx(d.lines, p.line), p.col)
  }

  // ---------------------------------------------------------------- line edits, flat

  /** Cat(ls) around line k. */
  lemma CatSplit(ls: seq<Line>, k: nat)
    requires k < |ls|
    ensures Cat(ls) == Cat(ls[..k]) + (ls[k].str + "\n") + Cat(ls[k+1..])
    ensures Cat(ls[..k+1]) == Cat(ls[..k]) + (ls[k].str + "\n")
  {
    CutAt(ls, k);
    hide Cat;
    CatAppend(ls[..k+1], ls[k+1..]);
    CatAppend(ls[..k], [ls[k]]);
    CatOne(ls[k]);
  }

  lemma CutAt(ls: seq<Line>, k: nat)
    requires k < |ls|
    ensures ls == ls[..k+1] + ls[k+1..] && ls[..k+1] == ls[..k] + [ls[k]]
  {
  }

  /** A prefix of at most k lines does not see an edit at line k or below. */
  lemma SetStrPrefix(ls: seq<Line>, k: nat, t: string, i: nat)
    requires k < |ls| && i <= |ls|
    ensures |Cat(SetStr(ls, k, t)[..i])| == |Cat(ls[..i])| + if k < i then |t| - |ls[k].str| else 0
  {
    var m := SetStr(ls, k, t);
    if i <= k {
      assert m[..i] == ls[..i];
    } else {
      assert m[..i][..k] == ls[..i][..k];
      assert m[..i][k+1..] == ls[..i][k+1..];
      CatSplit(m[..i], k);
      CatSplit(ls[..i], k);
    }
  }

  lemma InsertAtPrefix(ls: seq<Line>, k: nat, l: Line, i: nat)
    requires k <= |ls| && i <= |ls| + 1
    ensures |Cat(InsertAt(ls, k, l)[..i])| ==
            if i <= k then |Cat(ls[..i])| else |Cat(ls[..i-1])| + |l.str| + 1
  {
    var m := InsertAt(ls, k, l);
    if i <= k {
      assert m[..i] == ls[..i];
    } else {
      assert m[..i][..k] == ls[..i-1][..k];
      assert m[..i][k+1..] == ls[..i-1][k..];
      CatSplit(m[..i], k);
      assert ls[..i-1] == ls[..i-1][..k] + ls[..i-1][k..];
      CatAppend(ls[..i-1][..k], ls[..i-1][k..]);
    }
  }

  lemma RemoveAtPrefix(ls: seq<Line>, k: nat, i: nat)
    requires k < |ls| && i < |ls|
    ensures |Cat(RemoveAt(ls, k)[..i])| ==
            if i <= k then |Cat(ls[..i])| else |Cat(ls[..i+1])| - |ls[k].str| - 1
  {
    var m := RemoveAt(ls, k);
    if i <= k {
      assert m[..i] == ls[..i];
    } else {
      assert m[..i] == ls[..i+1][..k] + ls[..i+1][k+1..];
      CatAppend(ls[..i+1][..k], ls[..i+1][k+1..]);
      CatSplit(ls[..i+1], k);
    }
  }
}
