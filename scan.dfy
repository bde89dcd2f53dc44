/** Maximal runs and whitespace removal over strings, shared by both lexers. */
module Scan {

  /** Concatenation is associative; stated once so that proofs can cite it instead of re-deriving it. */
  lemma AppendAssoc<T>(xs: seq<T>, ys: seq<T>, zs: seq<T>)
    ensures xs + (ys + zs) == (xs + ys) + zs
  {
  }

  /** The empty sequence is a left unit of concatenation. */
  lemma AppendNil<T>(e: seq<T>, xs: seq<T>)
    requires e == []
    ensures e + xs == xs
  {
  }

  /** The empty sequence is a right unit of concatenation. */
  lemma AppendUnit<T>(xs: seq<T>, e: seq<T>)
    requires e == []
    ensures xs + e == xs
  {
  }

  /** Every character of `s` satisfies `p`. */
  predicate All(s: string, p: char -> bool) {
    forall k | 0 <= k < |s| :: p(s[k])
  }

  /**
   * The end of the maximal run of characters satisfying `p` that starts at
   * index `i`: what a `while let Some(_) = chars.next_if(p)` loop leaves
   * the cursor at.
   */
  function RunEnd(s: string, i: nat, p: char -> bool): (j: nat)
    requires i <= |s|
    ensures i <= j <= |s|
    ensures forall k | i <= k < j :: p(s[k])
    ensures j == |s| || !p(s[j])
    decreases |s| - i
  {
    if i < |s| && p(s[i]) then RunEnd(s, i + 1, p) else i
  }

  /** The run as a slice. */
  lemma RunEndAll(s: string, i: nat, p: char -> bool)
    requires i <= |s|
    ensures All(s[i..RunEnd(s, i, p)], p)
  {
  }

  /** Extending a slice by one element. */
  lemma SliceSnoc<T>(s: seq<T>, i: nat, j: nat)
    requires i <= j < |s|
    ensures s[i..j + 1] == s[i..j] + [s[j]]
  {
  }

  /** Slicing to the end is the suffix. */
  lemma SliceToEnd<T>(s: seq<T>, i: nat)
    requires i <= |s|
    ensures s[i..|s|] == s[i..]
  {
  }

  /** The two postconditions of `RunEnd` determine it. */
  lemma RunEndUnique(s: string, i: nat, j: nat, p: char -> bool)
    requires i <= j <= |s|
    requires forall k | i <= k < j :: p(s[k])
    requires j == |s| || !p(s[j])
    ensures RunEnd(s, i, p) == j
  {
  }

  /** `s` with every character that satisfies `p` removed. */
  function Strip(s: string, p: char -> bool): (r: string)
    ensures |r| <= |s|
    ensures forall k | 0 <= k < |r| :: !p(r[k])
  {
    if s == [] then []
    else if p(s[0]) then Strip(s[1..], p)
    else [s[0]] + Strip(s[1..], p)
  }

  lemma {:induction false} StripAppend(a: string, b: string, p: char -> bool)
    ensures Strip(a + b, p) == Strip(a, p) + Strip(b, p)
  {
    if a == [] {
      assert a + b == b;
    } else {
      assert (a + b)[1..] == a[1..] + b;
      StripAppend(a[1..], b, p);
    }
  }

  lemma {:induction false} StripAll(s: string, p: char -> bool)
    requires All(s, p)
    ensures Strip(s, p) == []
  {
    if s != [] {
      assert p(s[0]);
      StripAll(s[1..], p);
    }
  }

  lemma {:induction false} StripNone(s: string, p: char -> bool)
    requires forall k | 0 <= k < |s| :: !p(s[k])
    ensures Strip(s, p) == s
  {
    if s != [] {
      StripNone(s[1..], p);
    }
  }

  lemma StripSplit(s: string, i: nat, j: nat, k: nat, p: char -> bool)
    requires i <= j <= k <= |s|
    ensures Strip(s[i..k], p) == Strip(s[i..j], p) + Strip(s[j..k], p)
  {
    assert s[i..k] == s[i..j] + s[j..k];
    StripAppend(s[i..j], s[j..k], p);
  }

  /** Where the rest of `s` from `pos` is `a + b`, the slices of `s` are `a` and `b`. */
  lemma SplitAt(s: string, pos: nat, a: string, b: string)
    requires pos <= |s| && s[pos..] == a + b
    ensures pos + |a| <= |s|
    ensures s[pos..pos + |a|] == a && s[pos + |a|..] == b
  {
    assert |s[pos..]| == |s| - pos;
    assert s[pos..pos + |a|] == s[pos..][..|a|];
    assert s[pos + |a|..] == s[pos..][|a|..];
  }

  /** A slice of characters all satisfying `p`, read index by index. */
  lemma AllSlice(s: string, i: nat, j: nat, p: char -> bool)
    requires i <= j <= |s| && All(s[i..j], p)
    ensures forall k | i <= k < j :: p(s[k])
  {
    assert forall k | i <= k < j :: s[k] == s[i..j][k - i];
  }
}
