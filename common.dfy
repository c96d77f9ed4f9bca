/** Failure-compatible wrappers and sequence facts shared by every module of the model. */
module Common {

  /** A JavaScript value that may be `null`/`undefined` (None) or present (Some). */
  datatype Option<+T> = None | Some(value: T)

  /** The outcome of an operation that the source reports either as a value or as an error. */
  datatype Result<+T, +E> = Success(value: T) | Failure(error: E)

  /** `sub` is obtained from `s` by dropping elements, keeping the order of the rest. */
  predicate IsSubsequence<T(==)>(sub: seq<T>, s: seq<T>)
    decreases |s|
  {
    if sub == [] then true
    else if s == [] then false
    else if sub[0] == s[0] then IsSubsequence(sub[1..], s[1..])
    else IsSubsequence(sub, s[1..])
  }

  /** Dropping the first element of a subsequence keeps it a subsequence. */
  lemma {:induction false} SubsequenceTail<T>(sub: seq<T>, s: seq<T>)
    requires sub != [] && IsSubsequence(sub, s)
    ensures IsSubsequence(sub[1..], s)
    decreases |s|, 1
  {
    if sub[0] != s[0] {
      SubsequenceTail(sub, s[1..]);
    }
    if sub[1..] != [] && s[1..] != [] {
      SubsequenceSkip(sub[1..], s);
    }
  }

  /** A subsequence of the tail is a subsequence of the whole. */
  lemma {:induction false} SubsequenceSkip<T>(sub: seq<T>, s: seq<T>)
    requires s != [] && IsSubsequence(sub, s[1..])
    ensures IsSubsequence(sub, s)
    decreases |s|, 0
  {
    if sub != [] && sub[0] == s[0] {
      SubsequenceTail(sub, s[1..]);
    }
  }

  /** Keeping or dropping the head of `s` extends a subsequence of its tail. */
  lemma SubsequenceStep<T>(sub: seq<T>, s: seq<T>, keep: bool)
    requires s != [] && IsSubsequence(sub, s[1..])
    ensures IsSubsequence((if keep then [s[0]] else []) + sub, s)
  {
    if keep {
      assert ([s[0]] + sub)[1..] == sub;
    } else {
      assert [] + sub == sub;
      SubsequenceSkip(sub, s);
    }
  }

  /** Every element of a subsequence occurs in the sequence. */
  lemma {:induction false} SubsequenceMembers<T>(sub: seq<T>, s: seq<T>)
    requires IsSubsequence(sub, s)
    ensures forall x :: x in sub ==> x in s
    decreases |s|
  {
    if sub != [] && s != [] {
      if sub[0] == s[0] {
        SubsequenceMembers(sub[1..], s[1..]);
        assert sub == [sub[0]] + sub[1..];
      } else {
        SubsequenceMembers(sub, s[1..]);
      }
    }
  }
}
