/**
 A file read into a fresh buffer and written out again.  The loader types the file's
 characters at the own cursor, so a line keeps no more than width - 1 of them.
 */
module LoadSave {
  import opened Document
  import opened FlatText
  import opened Chains
  import opened Buffers

  // ---------------------------------------------------------------- lines of a text

  /** The pieces of t between line breaks. */
  function Split(t: string): (r: seq<string>)
    ensures r != []
  {
    if t == "" then [""]
    else
      var r := Split(t[..|t|-1]);
      var c := t[|t|-1];
      if c == '\n' then r + [""] else r[|r|-1 := r[|r|-1] + [c]]
  }

  function Unsplit(ps: seq<string>): string {
    if ps == [] then "" else Unsplit(ps[..|ps|-1]) + ps[|ps|-1] + "\n"
  }

  predicate NoBreak(s: string) {
    forall i :: 0 <= i < |s| ==> s[i] != '\n'
  }

  lemma SameBeforeBreak(a: string, b: string)
    requires a + "\n" == b + "\n"
    ensures a == b
  {
    assert a == (a + "\n")[..|a|] && b == (b + "\n")[..|b|];
    assert |a| == |a + "\n"| - 1 == |b|;
  }

  /** Split gives pieces without line breaks; each ended by a line break, they are t and one more break. */
  lemma {:induction false} SplitIs(t: string)
    ensures Unsplit(Split(t)) == t + "\n"
    ensures forall i :: 0 <= i < |Split(t)| ==> NoBreak(Split(t)[i])
  {
    if t != "" {
      var u, c := t[..|t|-1], t[|t|-1];
      SplitIs(u);
      var r := Split(u);
      assert t == u + [c];
      if c == '\n' {
        assert Split(t)[..|r|] == r;
      } else {
        assert Split(t)[..|r|-1] == r[..|r|-1];
        var x := Unsplit(r[..|r|-1]);
        calc {
          Unsplit(Split(t));
          x + (r[|r|-1] + [c]) + "\n";
          (x + r[|r|-1]) + [c] + "\n";
          { assert Unsplit(r) == (x + r[|r|-1]) + "\n"; SameBeforeBreak(x + r[|r|-1], u); }
          t + "\n";
        }
      }
    } else {
      assert Unsplit([""]) == Unsplit([]) + "" + "\n";
    }
  }

  /** The first width - 1 characters of a line. */
  function Short(s: string, width: int): string {
    if |s| <= width - 1 then s else if width <= 1 then "" else s[..width-1]
  }

  /** A line that loading keeps whole. */
  predicate Fits(s: string, width: int) {
    |s| <= width - 1 || s == ""
  }

  function Shorts(ps: seq<string>, width: int): seq<string> {
    seq(|ps|, i requires 0 <= i < |ps| => Short(ps[i], width))
  }

  function Strs(ls: seq<Line>): seq<string> {
    seq(|ls|, i requires 0 <= i < |ls| => ls[i].str)
  }

  // ---------------------------------------------------------------- loading, on documents

  predicate TextChar(c: char) {
    c == '\n' || Typed(c)
  }

  function LoadStep(d: Doc, c: char): Doc
    requires WF(d) && 0 in d.curs
  {
    if c == '\n' then NewLine(d, 0) else InsertChar(d, 0, c)
  }

  /** The loader's state after the pieces ps: their short forms are the text, the cursor at its end. */
  ghost predicate Loading(d: Doc, ps: seq<string>, h: int, w: int) {
    && WF(d) && d.height == h && d.width == w && !d.server
    && LastAt(d) + 1 == |ps| && Strs(Body(d)) == Shorts(ps, w)
    && d.curs == map[0 := Pos(d.last, |d.lines[LastAt(d)].str|)]
  }

  lemma LoadStart(h: nat, w: int)
    requires h >= 1
    ensures Loading(EmptyDoc(h, w), Split(""), h, w)
  {
    EmptyWF(h, w);
  }

  lemma LoadCharStep(d: Doc, ps: seq<string>, h: int, w: int, c: char)
    requires ps != [] && Loading(d, ps, h, w) && Typed(c)
    ensures Loading(LoadStep(d, c), ps[|ps|-1 := ps[|ps|-1] + [c]], h, w)
  {
    var k := LastAt(d);
    var d' := InsertChar(d, 0, c);
    var ps' := ps[k := ps[k] + [c]];
    assert Idx(d.lines, d.last) == k;
    InsertKeeps(d, 0, c);
    assert Strs(Body(d))[k] == Short(ps[k], w);
    forall i | 0 <= i <= k ensures Strs(Body(d'))[i] == Shorts(ps', w)[i] {
      assert Strs(Body(d))[i] == Shorts(ps, w)[i];
    }
    assert Strs(Body(d')) == Shorts(ps', w);
    assert d'.curs == map[0 := Pos(d'.last, |d'.lines[k].str|)];
  }

  /** A line break typed at the end of the text adds an empty last line, on which the cursor stands. */
  lemma BreakAtEnd(d: Doc)
    requires WF(d) && !d.server && 0 in d.curs && d.curs == map[0 := Pos(d.last, |d.lines[LastAt(d)].str|)]
    ensures var d', k := NewLine(d, 0), LastAt(d);
            && d'.height == d.height && d'.width == d.width && !d'.server
            && |d'.lines| == |d.lines| + 1
            && (forall i :: 0 <= i <= k ==> d'.lines[i].str == d.lines[i].str)
            && d'.lines[k+1].str == ""
            && d'.curs == map[0 := Pos(d'.last, 0)]
  {
    assert Idx(d.lines, d.last) == LastAt(d);
  }

  lemma LoadBreakStep(d: Doc, ps: seq<string>, h: int, w: int)
    requires ps != [] && Loading(d, ps, h, w)
    ensures Loading(LoadStep(d, '\n'), ps + [""], h, w)
  {
    BreakAtEnd(d);
    NewLineKeeps(d, 0);
    BreakStrs(d, NewLine(d, 0), ps, w);
  }

  lemma BreakStrs(d: Doc, d': Doc, ps: seq<string>, w: int)
    requires 1 <= d.height == d'.height <= |d.lines| && |d'.lines| == |d.lines| + 1
    requires LastAt(d) + 1 == |ps| && Strs(Body(d)) == Shorts(ps, w)
    requires forall i :: 0 <= i <= LastAt(d) ==> d'.lines[i].str == d.lines[i].str
    requires d'.lines[LastAt(d) + 1].str == ""
    ensures Strs(Body(d')) == Shorts(ps + [""], w)
  {
    forall i | 0 <= i <= |ps| ensures Strs(Body(d'))[i] == Shorts(ps + [""], w)[i] {
      if i < |ps| { assert Strs(Body(d))[i] == Shorts(ps, w)[i]; }
    }
  }

  /** The cursor has gone up to line k, all else is as loaded. */
  ghost predicate Rewinding(d: Doc, ps: seq<string>, h: int, w: int, k: nat) {
    && WF(d) && d.height == h && d.width == w && !d.server
    && LastAt(d) + 1 == |ps| && Strs(Body(d)) == Shorts(ps, w)
    && d.curs.Keys == {0} && k <= LastAt(d) && d.curs[0].line == d.lines[k].id
  }

  lemma RewindStep(d: Doc, ps: seq<string>, h: int, w: int, k: nat)
    requires Rewinding(d, ps, h, w, k) && k > 0
    ensures Rewinding(MoveCursor(d, 0, Up), ps, h, w, k - 1)
  {
    MoveCursorKeeps(d, 0, Up);
    assert Idx(d.lines, d.lines[k].id) == k;
  }

  /** What loading promises: the short lines, the cursor at the very start, the server flag as asked. */
  ghost predicate Loaded(d: Doc, text: string, h: int, w: int, ui: bool) {
    && WF(d) && d.height == h && d.width == w && d.server == !ui
    && Strs(Body(d)) == Shorts(Split(text), w)
    && d.curs == map[0 := Pos(d.lines[0].id, 0)]
  }

  lemma Rewound(d: Doc, text: string, h: int, w: int, ui: bool)
    requires Rewinding(d, Split(text), h, w, 0) && 0 in d.curs
    ensures WF(AtColumnZero(d, 0)) && Loaded(AtColumnZero(d, 0).(server := !ui), text, h, w, ui)
  {
    ColumnZeroKeeps(d, 0);
    var z := AtColumnZero(d, 0).(server := !ui);
    assert forall j :: j in z.curs ==> OnText(AtColumnZero(d, 0), z.curs[j]);
    assert z.curs == map[0 := Pos(d.lines[0].id, 0)];
  }

  // ---------------------------------------------------------------- loading, in place

  lemma LoadingStep(d: Doc, text: string, i: nat, h: int, w: int)
    requires i < |text| && TextChar(text[i]) && Loading(d, Split(text[..i]), h, w)
    ensures WF(d) && 0 in d.curs && Loading(LoadStep(d, text[i]), Split(text[..i+1]), h, w)
    ensures |Split(text[..i+1])| == |Split(text[..i])| + if text[i] == '\n' then 1 else 0
  {
    assert text[..i+1][..i] == text[..i] && text[..i+1][i] == text[i];
    if text[i] == '\n' {
      LoadBreakStep(d, Split(text[..i]), h, w);
    } else {
      LoadCharStep(d, Split(text[..i]), h, w, text[i]);
    }
  }

  /** One character of the file. */
  method LoadChar(b: Buffer, c: char, ghost d': Doc)
    requires b.Valid() && TextChar(c) && 0 in b.doc.curs && d' == LoadStep(b.doc, c)
    modifies b`doc, b`numLines, b`first, b`last, b`lineIdCnt, b`chain, b`at
    modifies b.at.Keys`prev, b.at.Keys`next, b.at.Keys`str, b.pens`ownLine, b.pens`pos
    ensures b.Valid() && b.doc == d' && fresh(b.at.Keys - old(b.at.Keys))
  {
    hide InsertChar, WF, NewLine;
    if c == '\n' {
      ghost var r, ll := b.BcursorInsertLine(0);
    } else {
      var r := b.BcursorInsert(0, c);
    }
  }

  /** The first i characters are typed, upcnt of them line breaks. */
  ghost predicate LoadedTo(b: Buffer, text: string, i: nat, upcnt: nat, h: int, w: int)
    reads b, b.at.Keys, b.pens, b.peerCurss
  {
    b.Valid() && i <= |text| && Loading(b.doc, Split(text[..i]), h, w) && upcnt + 1 == |Split(text[..i])|
  }

  /** Character i typed; one more line break when it is one. */
  method LoadNext(b: Buffer, text: string, i: nat, upcnt: nat, ghost h: int, ghost w: int) returns (n: nat)
    requires i < |text| && TextChar(text[i]) && LoadedTo(b, text, i, upcnt, h, w)
    modifies b`doc, b`numLines, b`first, b`last, b`lineIdCnt, b`chain, b`at
    modifies b.at.Keys`prev, b.at.Keys`next, b.at.Keys`str, b.pens`ownLine, b.pens`pos
    ensures LoadedTo(b, text, i + 1, n, h, w) && fresh(b.at.Keys - old(b.at.Keys))
  {
    LoadingStep(b.doc, text, i, h, w);
    hide Split, Loading, WF;
    n := if text[i] == '\n' then upcnt + 1 else upcnt;
    LoadChar(b, text[i], LoadStep(b.doc, text[i]));
  }

  lemma NothingLoaded(b: Buffer, text: string, h: int, w: int)
    requires b.Valid() && Loading(b.doc, Split(""), h, w)
    ensures LoadedTo(b, text, 0, 0, h, w)
  {
    assert text[..0] == "";
  }

  lemma AllLoaded(b: Buffer, text: string, upcnt: nat, h: int, w: int)
    requires LoadedTo(b, text, |text|, upcnt, h, w)
    ensures b.Valid() && Loading(b.doc, Split(text), h, w) && upcnt + 1 == |Split(text)|
  {
    assert text[..|text|] == text;
  }

  /** The characters typed one by one; the result counts the line breaks. */
  method LoadText(b: Buffer, text: string, ghost h: int, ghost w: int) returns (upcnt: nat)
    requires b.Valid() && Loading(b.doc, Split(""), h, w)
    requires forall i :: 0 <= i < |text| ==> TextChar(text[i])
    modifies b`doc, b`numLines, b`first, b`last, b`lineIdCnt, b`chain, b`at
    modifies b.at.Keys`prev, b.at.Keys`next, b.at.Keys`str, b.pens`ownLine, b.pens`pos
    ensures b.Valid() && Loading(b.doc, Split(text), h, w) && upcnt + 1 == |Split(text)|
    ensures fresh(b.at.Keys - old(b.at.Keys))
  {
    hide *;
    NothingLoaded(b, text, h, w);
    upcnt := 0;
    for i := 0 to |text|
      invariant LoadedTo(b, text, i, upcnt, h, w) && fresh(b.at.Keys - old(b.at.Keys))
    {
      upcnt := LoadNext(b, text, i, upcnt, h, w);
    }
    AllLoaded(b, text, upcnt, h, w);
  }

  /** Back up the lines and to column 0. */
  method Rewind(b: Buffer, upcnt: nat, ghost ps: seq<string>, ghost h: int, ghost w: int)
    requires b.Valid() && Loading(b.doc, ps, h, w) && upcnt + 1 == |ps|
    modifies b`doc, b.pens`ownLine, b.pens`pos
    ensures b.Valid() && Rewinding(b.doc, ps, h, w, 0)
  {
    hide LastAt;
    var n := upcnt;
    while n > 0
      invariant b.Valid() && Rewinding(b.doc, ps, h, w, n)
    {
      RewindStep(b.doc, ps, h, w, n);
      b.Move(0, Up);
      n := n - 1;
    }
  }

  /** A buffer that shows a file, cut to its width; a server's when it has no user interface. */
  method BufferFromFile(text: string, h: int, w: int, ui: bool) returns (b: Buffer)
    requires h >= 1 && forall i :: 0 <= i < |text| ==> 0 < text[i] as int < 128
    ensures fresh(b) && b.Valid() && Loaded(b.doc, text, h, w, ui)
  {
    b := new Buffer(h, w);
    LoadStart(h, w);
    var upcnt := LoadText(b, text, h, w);
    Rewind(b, upcnt, Split(text), h, w);
    Rewound(b.doc, text, h, w, ui);
    b.ToColumnZero(0);
    if !ui {
      b.SetServerMode(true);
    }
  }

  // ---------------------------------------------------------------- saving

  /** The node of text line k. */
  lemma SavedNode(b: Buffer, k: nat)
    requires b.Valid() && k <= LastAt(b.doc)
    ensures k < |b.chain| == |b.doc.lines|
    ensures b.chain[k] == b.last <==> k == LastAt(b.doc)
    ensures Cat(b.doc.lines[..k+1]) == Cat(b.doc.lines[..k]) + b.chain[k].str + "\n"
    ensures k < LastAt(b.doc) ==> k + 1 < |b.chain| && b.chain[k].next == b.chain[k+1]
  {
    CatSplit(b.doc.lines, k);
    hide Cat;
    NodeIdx(b.chain, b.at, b.doc.lines, b.last);
    assert b.chain[k].next == NextOf(b.chain, k);
  }

  lemma SaveStarts(b: Buffer)
    requires b.Valid()
    ensures 0 <= LastAt(b.doc) < |b.chain| && b.first == b.chain[0]
    ensures |b.doc.lines| == |b.chain| && Cat(b.doc.lines[..0]) == ""
    ensures b.doc.lines[..LastAt(b.doc) + 1] == Body(b.doc)
  {
  }

  /** What is written to the file: every line of the text and a line break. */
  method BufferSave(b: Buffer) returns (out: string)
    requires b.Valid()
    ensures out == Cat(Body(b.doc))
  {
    hide *;
    SaveStarts(b);
    out := "";
    var lit := b.first;
    ghost var k := 0;
    while true
      invariant 0 <= k <= LastAt(b.doc) < |b.chain| == |b.doc.lines| && lit == b.chain[k] && out == Cat(b.doc.lines[..k])
      decreases |b.chain| - k
    {
      SavedNode(b, k);
      out := out + lit.str + "\n";
      if lit == b.last {
        break;
      }
      lit := lit.next;
      k := k + 1;
    }
  }

  // ---------------------------------------------------------------- load then save

  lemma {:induction false} CatUnsplit(ls: seq<Line>)
    ensures Cat(ls) == Unsplit(Strs(ls))
  {
    if ls != [] {
      var n := |ls| - 1;
      CatUnsplit(ls[..n]);
      assert Strs(ls)[..n] == Strs(ls[..n]);
      assert ls[..n+1] == ls;
      CatSplit(ls, n);
    }
  }

  /** Saving a loaded file writes its lines, each cut to width - 1 characters and ended by a line break. */
  lemma LoadThenSave(d: Doc, text: string, h: int, w: int, ui: bool)
    requires Loaded(d, text, h, w, ui)
    ensures Cat(Body(d)) == Unsplit(Shorts(Split(text), w))
  {
    CatUnsplit(Body(d));
  }

  /** The file comes back, with one more line break, exactly when no line is too long. */
  lemma LoadThenSaveExact(d: Doc, text: string, h: int, w: int, ui: bool)
    requires Loaded(d, text, h, w, ui)
    ensures Cat(Body(d)) == text + "\n" <==> forall i :: 0 <= i < |Split(text)| ==> Fits(Split(text)[i], w)
  {
    var ps := Split(text);
    LoadThenSave(d, text, h, w, ui);
    SplitIs(text);
    UnsplitShort(ps, w);
    if forall i :: 0 <= i < |ps| ==> Fits(ps[i], w) {
      assert Shorts(ps, w) == ps;
    }
  }

  lemma {:induction false} UnsplitShort(ps: seq<string>, w: int)
    ensures |Unsplit(Shorts(ps, w))| <= |Unsplit(ps)|
    ensures |Unsplit(Shorts(ps, w))| == |Unsplit(ps)| ==>
            forall i :: 0 <= i < |ps| ==> Fits(ps[i], w)
  {
    if ps != [] {
      UnsplitShort(ps[..|ps|-1], w);
      assert Shorts(ps, w)[..|ps|-1] == Shorts(ps[..|ps|-1], w);
      if |Unsplit(Shorts(ps, w))| == |Unsplit(ps)| {
        forall i | 0 <= i < |ps| ensures Fits(ps[i], w) {
          if i < |ps| - 1 { assert ps[i] == ps[..|ps|-1][i]; }
        }
      }
    }
  }
}
