/**
 * Facts about slicing and concatenating sequences, proved once for any element type so that the
 * proofs about file paths can use them without reasoning about sequence equality themselves.
 */
module Sequences {

  /** Splitting off the first element of the appended part. */
  lemma AppendFirst<T>(a: seq<T>, b: seq<T>)
    requires b != []
    ensures a + [b[0]] + b[1..] == a + b
  {
    assert [b[0]] + b[1..] == b;
  }

  /** The empty sequence is a unit of concatenation. */
  lemma AppendEmpty<T>(a: seq<T>)
    ensures [] + a == a && a + [] == a
  {
  }

  /** A suffix without its first element is the next suffix. */
  lemma DropNext<T>(s: seq<T>, i: nat)
    requires i < |s|
    ensures s[i..][0] == s[i] && s[i..][1..] == s[i + 1..]
  {
  }

  /** A non-empty prefix is the first element followed by a prefix of the rest. */
  lemma TakeFirst<T>(s: seq<T>, k: nat)
    requires 0 < k <= |s|
    ensures s[..k] == [s[0]] + s[1..][..k - 1] && s[..k][0] == s[0] && s[..k][1..] == s[1..][..k - 1]
  {
  }

  /** The whole sequence, as a prefix and as a suffix. */
  lemma Whole<T>(s: seq<T>)
    ensures s[..|s|] == s && s[|s|..] == [] && s[..0] == []
  {
  }

  /** A slice grows by the element at its end. */
  lemma SliceNext<T>(s: seq<T>, i: nat, j: nat)
    requires i <= j < |s|
    ensures s[i..j + 1] == s[i..j] + [s[j]]
  {
  }

  /** A slice up to the length is the suffix. */
  lemma SliceToEnd<T>(s: seq<T>, i: nat)
    requires i <= |s|
    ensures s[i..|s|] == s[i..]
  {
  }

  /** Appending one element keeps the sequence as the prefix before it. */
  lemma AppendLast<T>(a: seq<T>, x: T)
    ensures |a + [x]| == |a| + 1 && (a + [x])[..|a|] == a && (a + [x])[|a|] == x
  {
  }

  /** A non-empty sequence is its prefix followed by its last element. */
  lemma DropLast<T>(s: seq<T>)
    requires s != []
    ensures s[..|s| - 1] + [s[|s| - 1]] == s
  {
  }

  /** Concatenation regroups freely. */
  lemma AppendAssociates<T>(a: seq<T>, b: seq<T>, c: seq<T>)
    ensures a + b + c == a + (b + c)
  {
  }

  /** A sequence is its prefix followed by its suffix. */
  lemma TakeDrop<T>(s: seq<T>, n: nat)
    requires n <= |s|
    ensures s[..n] + s[n..] == s
  {
  }

  /** A sequence with `sep` at position `k` is what precedes it, `sep`, and what follows it. */
  lemma Around<T>(s: seq<T>, k: nat, sep: seq<T>)
    requires k + |sep| <= |s| && s[k..][..|sep|] == sep
    ensures s == s[..k] + sep + s[k + |sep|..]
  {
    assert s[k..] == s[k..][..|sep|] + s[k + |sep|..];
  }

  /** A non-empty sequence is its first element followed by the rest. */
  lemma Cons<T>(s: seq<T>)
    requires s != []
    ensures [s[0]] + s[1..] == s
  {
  }

  /** Past the first element of `[x] + t`, a slice from position 1 is a prefix of `t`. */
  lemma PrependSlice<T>(x: T, t: seq<T>, n: nat)
    requires n <= |t|
    ensures ([x] + t)[1..n + 1] == t[..n]
  {
  }

  /** The parts of `a + sep + b` can be sliced back out. */
  lemma Surrounded<T>(a: seq<T>, sep: seq<T>, b: seq<T>)
    ensures var s := a + sep + b;
      |s| == |a| + |sep| + |b| && s[..|a|] == a && s[|a|..][..|sep|] == sep && s[|a| + |sep|..] == b
      && (forall i :: 0 <= i < |sep| ==> s[|a| + i] == sep[i])
  {
  }
}
