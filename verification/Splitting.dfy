/** Cutting a sequence at a separator, and joining the pieces again. */
module Splitting {

  predicate Free<T(==)>(s: seq<T>, sep: T) {
    forall k :: 0 <= k < |s| ==> s[k] != sep
  }

  /** The position of the first separator, or the length when there is none. */
  function IndexOf<T(==)>(s: seq<T>, sep: T): (n: nat)
    ensures n <= |s| && Free(s[..n], sep) && (n < |s| ==> s[n] == sep)
  {
    if s == [] || s[0] == sep then 0
    else
      var n := 1 + IndexOf(s[1..], sep);
      assert forall k :: 1 <= k < n ==> s[k] == s[1..][..n - 1][k - 1];
      n
  }

  /** The pieces between separators: always one more than there are separators. */
  function Split<T(==)>(s: seq<T>, sep: T): (pieces: seq<seq<T>>)
    ensures |pieces| > 0
  {
    var n := IndexOf(s, sep);
    if n == |s| then [s] else [s[..n]] + Split(s[n + 1..], sep)
  }

  function Joined<T>(pieces: seq<seq<T>>, sep: T): seq<T>
    requires |pieces| > 0
  {
    if |pieces| == 1 then pieces[0] else pieces[0] + [sep] + Joined(pieces[1..], sep)
  }

  lemma IndexOfAt<T>(s: seq<T>, sep: T, n: nat)
    requires n <= |s| && Free(s[..n], sep) && (n < |s| ==> s[n] == sep)
    ensures IndexOf(s, sep) == n
  {
    assert forall k :: 0 <= k < n ==> s[..n][k] == s[k];
    assert forall k :: 0 <= k < IndexOf(s, sep) ==> s[..IndexOf(s, sep)][k] == s[k];
  }

  /** Joining the pieces gives the sequence back, and no piece holds a separator. */
  lemma {:induction false} JoiningPieces<T>(s: seq<T>, sep: T)
    ensures Joined(Split(s, sep), sep) == s
    ensures forall piece :: piece in Split(s, sep) ==> Free(piece, sep)
  {
    var n := IndexOf(s, sep);
    if n == |s| {
      assert s[..n] == s;
    } else {
      JoiningPieces(s[n + 1..], sep);
      assert Split(s, sep)[1..] == Split(s[n + 1..], sep);
      assert s == s[..n] + [sep] + s[n + 1..];
    }
  }

  lemma FirstPiece<T>(s: seq<T>, sep: T, seen: seq<T>)
    requires seen <= s && Free(seen, sep) && (|seen| < |s| ==> s[|seen|] == sep)
    ensures Split(s, sep)[0] == seen
    ensures |Split(s, sep)| == 1 <==> seen == s
    ensures seen != s ==> Split(s, sep)[1..] == Split(s[|seen| + 1..], sep)
  {
    assert s[..|seen|] == seen;
    IndexOfAt(s, sep, |seen|);
  }

  lemma AfterFirst<T>(first: seq<T>, sep: T, rest: seq<T>)
    requires Free(first, sep)
    ensures Split(first + [sep] + rest, sep) == [first] + Split(rest, sep)
  {
    var s := first + [sep] + rest;
    FirstPiece(s, sep, first);
    assert s[|first| + 1..] == rest;
  }

  /** The pieces are the only separator-free list that joins to the sequence. */
  lemma {:induction false} OnlyPieces<T>(pieces: seq<seq<T>>, sep: T)
    requires |pieces| > 0 && forall k :: 0 <= k < |pieces| ==> Free(pieces[k], sep)
    ensures Split(Joined(pieces, sep), sep) == pieces
  {
    hide Split, Free;
    if |pieces| == 1 {
      FirstPiece(pieces[0], sep, pieces[0]);
    } else {
      OnlyPieces(pieces[1..], sep);
      AfterFirst(pieces[0], sep, Joined(pieces[1..], sep));
    }
  }
}
