/** Datatypes and sequence helpers shared by the models. */
module Prelude {

  datatype Option<+T> = None | Some(value: T)

  /** `a` can be read off `b` from left to right, skipping elements. */
  ghost predicate Subsequence<T>(a: seq<T>, b: seq<T>)
    decreases |b|
  {
    if a == [] then true
    else if b == [] then false
    else (a[0] == b[0] && Subsequence(a[1..], b[1..])) || Subsequence(a, b[1..])
  }

  lemma {:induction false} SubsequencePad<T>(a: seq<T>, b: seq<T>, pad: seq<T>)
    requires Subsequence(a, b)
    ensures Subsequence(a, b + pad)
    decreases |b|
  {
    if a != [] {
      assert (b + pad)[1..] == b[1..] + pad;
      if a[0] == b[0] && Subsequence(a[1..], b[1..]) {
        SubsequencePad(a[1..], b[1..], pad);
      } else {
        SubsequencePad(a, b[1..], pad);
      }
    }
  }

  lemma {:induction false} SubsequenceAppend<T>(a: seq<T>, b: seq<T>, c: seq<T>, d: seq<T>)
    requires Subsequence(a, b) && Subsequence(c, d)
    ensures Subsequence(a + c, b + d)
    decreases |b| + |d|
  {
    if a == [] {
      assert a + c == c;
      SubsequencePrepend(c, d, b);
    } else {
      assert (b + d)[1..] == b[1..] + d;
      assert (a + c)[1..] == a[1..] + c;
      if a[0] == b[0] && Subsequence(a[1..], b[1..]) {
        SubsequenceAppend(a[1..], b[1..], c, d);
      } else {
        SubsequenceAppend(a, b[1..], c, d);
      }
    }
  }

  lemma {:induction false} SubsequencePrepend<T>(c: seq<T>, d: seq<T>, b: seq<T>)
    requires Subsequence(c, d)
    ensures Subsequence(c, b + d)
  {
    if b == [] {
      assert b + d == d;
    } else {
      assert (b + d)[1..] == b[1..] + d;
      SubsequencePrepend(c, d, b[1..]);
    }
  }

  lemma {:induction false} SubsequenceSelf<T>(a: seq<T>)
    ensures Subsequence(a, a)
  {
    if a != [] { SubsequenceSelf(a[1..]); }
  }

  /** Positions in increasing order. */
  ghost predicate Increasing(at: seq<nat>) {
    forall i, j :: 0 <= i < j < |at| ==> at[i] < at[j]
  }

  lemma IncreasingSnoc(at: seq<nat>, n: nat)
    requires Increasing(at) && forall i :: i in at ==> i < n
    ensures Increasing(at + [n])
  {
    forall i, j | 0 <= i < j < |at + [n]|
      ensures (at + [n])[i] < (at + [n])[j]
    {
      assert at[i] in at;
    }
  }

  /** Positions, counted from one place further to the left. */
  function Shifted(at: seq<nat>): (out: seq<nat>)
    ensures |out| == |at| && forall k :: 0 <= k < |at| ==> out[k] == at[k] + 1
  {
    if |at| == 0 then [] else [at[0] + 1] + Shifted(at[1..])
  }

  lemma {:induction false} ShiftIncreases(later: seq<nat>, first: seq<nat>)
    requires Increasing(later) && (first == [] || first == [0])
    ensures Increasing(first + Shifted(later))
  {
  }

  /** The positions in `at` shifted, with position 0 in front of them if `first` has it. */
  lemma {:induction false} ShiftMembers(later: seq<nat>, first: seq<nat>, p: nat)
    requires first == [] || first == [0]
    ensures p in first + Shifted(later) <==> (p == 0 && |first| == 1) || (p > 0 && p - 1 in later)
  {
    var out := Shifted(later);
    if p in out {
      var k :| 0 <= k < |out| && out[k] == p;
      assert later[k] == p - 1;
    }
    if p > 0 && p - 1 in later {
      var k :| 0 <= k < |later| && later[k] == p - 1;
      assert out[k] == p;
    }
  }

  lemma {:induction false} ShiftedAt(later: seq<nat>, first: seq<nat>, k: nat)
    requires k < |first| + |later|
    ensures var at := first + Shifted(later);
            k < |at| && at[k] == if k < |first| then first[k] else later[k - |first|] + 1
  {
  }

  /** Four sequences found again in their concatenation. */
  lemma {:induction false} Sections<T>(a: seq<T>, b: seq<T>, c: seq<T>, d: seq<T>)
    ensures var all := a + b + c + d;
            && all[..|a|] == a && all[|a|..|a| + |b|] == b
            && all[|a| + |b|..|a| + |b| + |c|] == c && all[|a| + |b| + |c|..] == d
  {
  }
}
