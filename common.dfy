/** Small generic vocabulary shared by both scripts' models. */
module Common {

  datatype Option<+T> = None | Some(value: T)

  /** `a` is `b` with some elements left out, the rest kept in their order
      (the elements are matched from the back, as output is appended). */
  predicate IsSubsequence<T(==)>(a: seq<T>, b: seq<T>)
    decreases |b|
  {
    |a| <= |b| &&
    (a == [] ||
     (a[|a| - 1] == b[|b| - 1] && IsSubsequence(a[..|a| - 1], b[..|b| - 1])) ||
     IsSubsequence(a, b[..|b| - 1]))
  }

  /** Concatenation is associative; stated generically, where it is cheap to prove. */
  lemma ConcatAssociative<T>(a: seq<T>, b: seq<T>, c: seq<T>)
    ensures (a + b) + c == a + (b + c)
  {
  }

  /** Taking every element gives the sequence back; stated generically, where it is cheap. */
  lemma TakeAll<T>(s: seq<T>)
    ensures s[..|s|] == s
  {
  }

  /** An element of a prefix is an element of the whole sequence. */
  lemma PrefixMember<T>(s: seq<T>, k: nat, i: nat)
    requires i < k <= |s|
    ensures s[..k][i] == s[i] && s[i] in s
  {
  }

  /** Every element of a subsequence occurs in the sequence it was taken from. */
  lemma {:induction false} SubsequenceMembers<T>(a: seq<T>, b: seq<T>, x: T)
    requires IsSubsequence(a, b)
    requires x in a
    ensures x in b
    decreases |b|
  {
    if a[|a| - 1] == b[|b| - 1] && IsSubsequence(a[..|a| - 1], b[..|b| - 1]) {
      if x != a[|a| - 1] {
        assert a == a[..|a| - 1] + [a[|a| - 1]];
        SubsequenceMembers(a[..|a| - 1], b[..|b| - 1], x);
      }
    } else {
      SubsequenceMembers(a, b[..|b| - 1], x);
    }
  }

  /** `f` applied to each element, in order. */
  function MapSeq<A, B>(s: seq<A>, f: A -> B): (r: seq<B>)
    ensures |r| == |s| && forall i :: 0 <= i < |s| ==> r[i] == f(s[i])
  {
    seq(|s|, i requires 0 <= i < |s| => f(s[i]))
  }

  /** Mapping one more element appends its image. */
  lemma MapSeqSnoc<A, B>(s: seq<A>, f: A -> B, i: nat)
    requires i < |s|
    ensures MapSeq(s[..i + 1], f) == MapSeq(s[..i], f) + [f(s[i])]
  {
    var longer, shorter := MapSeq(s[..i + 1], f), MapSeq(s[..i], f);
    forall j | 0 <= j <= i ensures longer[j] == (shorter + [f(s[i])])[j] {
      assert s[..i + 1][j] == s[j];
      if j < i {
        assert s[..i][j] == s[j];
      }
    }
  }

  /** The pieces one after the other. */
  function Flatten<T>(pieces: seq<seq<T>>): (all: seq<T>)
    ensures pieces == [] ==> all == []
  {
    if pieces == [] then [] else Flatten(pieces[..|pieces| - 1]) + pieces[|pieces| - 1]
  }

  /** One more piece appends its elements. */
  lemma FlattenSnoc<T>(pieces: seq<seq<T>>, p: seq<T>)
    ensures Flatten(pieces + [p]) == Flatten(pieces) + p
  {
    assert (pieces + [p])[..|pieces|] == pieces;
  }

  /** An element is in the flattened sequence exactly when it is in one of the pieces. */
  lemma {:induction false} FlattenMembers<T>(pieces: seq<seq<T>>, x: T)
    ensures x in Flatten(pieces) <==> exists i :: 0 <= i < |pieces| && x in pieces[i]
  {
    if pieces != [] {
      var front := pieces[..|pieces| - 1];
      FlattenMembers(front, x);
      if x in Flatten(front) {
        var i :| 0 <= i < |front| && x in front[i];
        assert pieces[i] == front[i];
      } else if x !in pieces[|pieces| - 1] {
        forall i | 0 <= i < |pieces| ensures x !in pieces[i] {
          if i < |front| {
            assert pieces[i] == front[i];
          }
        }
      }
    }
  }
}
