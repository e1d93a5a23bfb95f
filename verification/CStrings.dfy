/**
 C strings in memory: a string that ends with its only NUL.  A pointer into it is an index;
 that every index is in bounds says that no read goes past the terminator.
 */
module CStrings {
  const NUL: char := 0 as char

  /** Characters stand for bytes. */
  predicate IsByte(c: char) {
    0 <= c as int < 256
  }

  predicate IsText(s: string) {
    forall i :: 0 <= i < |s| ==> 0 < s[i] as int < 256
  }

  ghost predicate Terminated(m: string) {
    m != "" && m[|m|-1] == NUL && IsText(m[..|m|-1])
  }

  /** What a pointer at p still has before it, up to the terminator. */
  function From(m: string, p: nat): string
    requires p < |m|
  {
    m[p..|m|-1]
  }

  lemma AtPointer(m: string, p: nat)
    requires Terminated(m) && p < |m|
    ensures m[p] == NUL <==> From(m, p) == ""
    ensures From(m, p) != "" ==> From(m, p)[0] == m[p] && p + 1 < |m| && From(m, p + 1) == From(m, p)[1..]
    ensures IsText(From(m, p))
  {
    if p < |m| - 1 {
      assert m[..|m|-1][p] == m[p];
    }
    forall i | 0 <= i < |From(m, p)| ensures 0 < From(m, p)[i] as int < 256 {
      assert From(m, p)[i] == m[..|m|-1][p + i];
    }
  }

  /** The C string that a buffer holds: the part before its first NUL. */
  function UpToNul(s: string): (r: string)
    ensures |r| <= |s| && s[..|r|] == r
    ensures forall i :: 0 <= i < |r| ==> r[i] != NUL
    ensures |r| < |s| ==> s[|r|] == NUL
  {
    if s == "" || s[0] == NUL then "" else [s[0]] + UpToNul(s[1..])
  }

  lemma {:induction false} NoNulWhole(s: string)
    requires IsText(s)
    ensures UpToNul(s) == s
  {
    if s != "" {
      NoNulWhole(s[1..]);
    }
  }

  lemma Assoc(a: string, b: string, c: string)
    ensures (a + b) + c == a + (b + c)
  {
  }
}
