/**
 Incremental framing: a buffer grows by chunks, and as long as a complete frame
 stands at its front the frame is handed on and removed.
 */
module Framing {
  import opened Prelude

  type byte = x: int | 0 <= x < 256

  type Bytes = seq<byte>

  datatype Frame<+T> = Frame(consumed: nat, item: T)

  type Splitter<!T> = Bytes -> Option<Frame<T>>

  /** A frame found at the front stays what it is when more bytes arrive. */
  ghost predicate Stable<T>(next: Splitter<T>) {
    forall a, b :: StableAt(next, a, b)
  }

  ghost predicate StableAt<T>(next: Splitter<T>, a: Bytes, b: Bytes) {
    next(a).Some? ==> next(a).value.consumed <= |a| && next(a + b) == next(a)
  }

  /** No frame of length zero ever comes to the front. */
  ghost predicate Progress<T>(next: Splitter<T>, buf: Bytes)
    decreases |buf|
  {
    match next(buf)
    case None => true
    case Some(f) => 0 < f.consumed <= |buf| && Progress(next, buf[f.consumed..])
  }

  datatype Drained<+T> = Drained(items: seq<T>, rest: Bytes)

  function Drain<T>(next: Splitter<T>, buf: Bytes): (d: Drained<T>)
    requires Progress(next, buf)
    ensures next(d.rest).None?
    decreases |buf|
  {
    match next(buf)
    case None => Drained([], buf)
    case Some(f) =>
      var d := Drain(next, buf[f.consumed..]);
      Drained([f.item] + d.items, d.rest)
  }

  /** Taking the first frame off the buffer. */
  lemma DrainStep<T>(next: Splitter<T>, buf: Bytes)
    requires Progress(next, buf)
    ensures next(buf).None? ==> Drain(next, buf) == Drained([], buf)
    ensures next(buf).Some? ==>
              var f := next(buf).value;
              && 0 < f.consumed <= |buf| && Progress(next, buf[f.consumed..])
              && Drain(next, buf).items == [f.item] + Drain(next, buf[f.consumed..]).items
              && Drain(next, buf).rest == Drain(next, buf[f.consumed..]).rest
  {
  }

  function Flatten(chunks: seq<Bytes>): Bytes {
    if |chunks| == 0 then [] else Flatten(chunks[..|chunks| - 1]) + chunks[|chunks| - 1]
  }

  /** Draining a buffer in two portions. */
  lemma {:induction false} DrainSplits<T>(next: Splitter<T>, a: Bytes, b: Bytes)
    requires Stable(next) && Progress(next, a + b)
    ensures Progress(next, a)
    ensures var d := Drain(next, a);
            && Progress(next, d.rest + b)
            && Drain(next, a + b).items == d.items + Drain(next, d.rest + b).items
            && Drain(next, a + b).rest == Drain(next, d.rest + b).rest
    decreases |a|
  {
    assert StableAt(next, a, b);
    match next(a)
    case None =>
    case Some(f) =>
      assert (a + b)[f.consumed..] == a[f.consumed..] + b;
      DrainSplits(next, a[f.consumed..], b);
  }

  /**
   The buffer loop: the frames handed on and the bytes kept back do not depend on how the
   stream was cut into chunks.
   */
  method Pump<T(!new)>(next: Splitter<T>, chunks: seq<Bytes>) returns (d: Drained<T>)
    requires Stable(next) && Progress(next, Flatten(chunks))
    ensures d == Drain(next, Flatten(chunks))
  {
    var items: seq<T>, buf: Bytes := [], [];
    FlattenProgress(next, chunks, 0);
    for n := 0 to |chunks|
      invariant Progress(next, Flatten(chunks[..n])) && Drained(items, buf) == Drain(next, Flatten(chunks[..n]))
    {
      FlattenProgress(next, chunks, n + 1);
      assert chunks[..n + 1][..n] == chunks[..n];
      ghost var before := Flatten(chunks[..n]);
      DrainSplits(next, before, chunks[n]);
      buf := buf + chunks[n];
      ghost var d0 := Drain(next, buf);
      while next(buf).Some?
        invariant Progress(next, buf)
        invariant items + Drain(next, buf).items == Drain(next, before).items + d0.items
        invariant Drain(next, buf).rest == d0.rest
        decreases |buf|
      {
        var f := next(buf).value;
        items := items + [f.item];
        buf := buf[f.consumed..];
      }
    }
    assert chunks[..|chunks|] == chunks;
    d := Drained(items, buf);
  }

  lemma {:induction false} FlattenProgress<T>(next: Splitter<T>, chunks: seq<Bytes>, n: nat)
    requires Stable(next) && Progress(next, Flatten(chunks)) && n <= |chunks|
    ensures Progress(next, Flatten(chunks[..n]))
    decreases |chunks| - n
  {
    if n == |chunks| {
      assert chunks[..n] == chunks;
    } else {
      FlattenProgress(next, chunks, n + 1);
      assert chunks[..n + 1][..n] == chunks[..n];
      DrainSplits(next, Flatten(chunks[..n]), chunks[n]);
    }
  }

  // ----- When the inner loop ends -----

  /** The inner loop ends after exactly `n` turns. */
  ghost predicate EndsAfter<T>(next: Splitter<T>, buf: Bytes, n: nat)
    decreases n
  {
    match next(buf)
    case None => n == 0
    case Some(f) => n > 0 && f.consumed <= |buf| && EndsAfter(next, buf[f.consumed..], n - 1)
  }

  lemma {:induction false} EndsMeansProgress<T>(next: Splitter<T>, buf: Bytes, n: nat)
    requires EndsAfter(next, buf, n)
    ensures Progress(next, buf)
  {
    if n > 0 {
      EndsMeansProgress(next, buf[next(buf).value.consumed..], n - 1);
    }
  }

  lemma {:induction false} ProgressMeansEnds<T>(next: Splitter<T>, buf: Bytes) returns (n: nat)
    requires Progress(next, buf)
    ensures EndsAfter(next, buf, n)
    decreases |buf|
  {
    n := 0;
    if next(buf).Some? {
      n := ProgressMeansEnds(next, buf[next(buf).value.consumed..]);
      n := n + 1;
    }
  }

  ghost predicate Ends<T>(next: Splitter<T>, buf: Bytes) {
    exists n: nat :: EndsAfter(next, buf, n)
  }

  /** The loop ends exactly when no zero-length frame comes to the front. */
  lemma LoopEndsIff<T>(next: Splitter<T>, buf: Bytes)
    ensures Ends(next, buf) <==> Progress(next, buf)
  {
    if Progress(next, buf) {
      var n := ProgressMeansEnds(next, buf);
      assert EndsAfter(next, buf, n);
    }
    if Ends(next, buf) {
      var n: nat :| EndsAfter(next, buf, n);
      EndsMeansProgress(next, buf, n);
    }
  }
}
