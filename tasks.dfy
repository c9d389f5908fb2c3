/** Tasks are linear pixel indices. This module gives the sequences of tasks the two
  * strategies dispatch and the effect of running the kernel on a buffer at a set of
  * tasks, one task at a time, in a given order. */
module Tasks {
  import opened Color

  /** The tasks lo, lo + 1, ..., hi - 1, in ascending order. */
  function Ascending(lo: int, hi: int): (r: seq<int>)
    ensures |r| == if lo <= hi then hi - lo else 0
    ensures forall k :: 0 <= k < |r| ==> r[k] == lo + k
    decreases hi - lo
  {
    if lo >= hi then [] else [lo] + Ascending(lo + 1, hi)
  }

  /** The set [lo, hi). */
  function Span(lo: int, hi: int): (r: set<int>)
    ensures forall p :: p in r <==> lo <= p < hi
  {
    AscendingMembers(lo, hi);
    Elements(Ascending(lo, hi))
  }

  /** The tasks that occur in a sequence. */
  function Elements(ps: seq<int>): set<int>
  {
    set p | p in ps
  }

  /** No task occurs twice. */
  predicate Distinct(ps: seq<int>)
  {
    forall i, j :: 0 <= i < j < |ps| ==> ps[i] != ps[j]
  }

  /** Every task addresses a pixel of a buffer of n pixels. */
  predicate AllBelow(ps: seq<int>, n: nat)
  {
    forall k :: 0 <= k < |ps| ==> 0 <= ps[k] < n
  }

  /** Reference definition: the buffer in which exactly the pixels whose index is in
    * `done` hold the kernel of their value in s, and every other pixel is as in s. */
  function Grayscaled(s: seq<Pixel>, done: set<int>): seq<Pixel>
  {
    seq(|s|, i requires 0 <= i < |s| => if i in done then Kernel(s[i]) else s[i])
  }

  /** One task: read pixel p, write back its kernel. (Both strategies only run tasks
    * inside the buffer; an index outside it is taken to change nothing.) */
  function ApplyAt(s: seq<Pixel>, p: int): (r: seq<Pixel>)
    ensures |r| == |s|
  {
    if 0 <= p < |s| then s[p := Kernel(s[p])] else s
  }

  /** Running the tasks ps one after another on the buffer s, first to last. */
  function ApplyInOrder(s: seq<Pixel>, ps: seq<int>): (r: seq<Pixel>)
    ensures |r| == |s|
  {
    if ps == [] then s else ApplyAt(ApplyInOrder(s, ps[..|ps| - 1]), ps[|ps| - 1])
  }

  /** Running a then b is running their concatenation. */
  lemma {:induction false} ApplyInOrderConcat(s: seq<Pixel>, a: seq<int>, b: seq<int>)
    ensures ApplyInOrder(s, a + b) == ApplyInOrder(ApplyInOrder(s, a), b)
  {
    if b != [] {
      var init, last := b[..|b| - 1], b[|b| - 1];
      ApplyInOrderConcat(s, a, init);
      assert (a + b)[..|a + b| - 1] == a + init;
      assert (a + b)[|a + b| - 1] == last;
    } else {
      assert a + b == a;
    }
  }

  /** The ascending run from lo to hi holds exactly the tasks of [lo, hi). */
  lemma AscendingMembers(lo: int, hi: int)
    ensures forall p :: p in Ascending(lo, hi) <==> lo <= p < hi
  {
    var r := Ascending(lo, hi);
    forall p | lo <= p < hi ensures p in r {
      assert r[p - lo] == p;
    }
  }

  /** The ascending run of tasks dispatches no task twice. */
  lemma AscendingExactlyOnce(lo: int, hi: int)
    ensures Distinct(Ascending(lo, hi))
  {
  }

  /** Two adjacent ascending runs make one. */
  lemma AscendingConcat(lo: int, mid: int, hi: int)
    requires lo <= mid <= hi
    ensures Ascending(lo, mid) + Ascending(mid, hi) == Ascending(lo, hi)
  {
  }

  lemma GrayscaledNone(s: seq<Pixel>)
    ensures Grayscaled(s, {}) == s
  {
  }

  /** Running one more task p that has not yet been done extends the done set by p. */
  lemma GrayscaledStep(s: seq<Pixel>, done: set<int>, p: nat)
    requires p < |s| && p !in done
    ensures ApplyAt(Grayscaled(s, done), p) == Grayscaled(s, done + {p})
  {
  }

  /** Running distinct tasks in sequence gives the reference buffer: each addressed pixel
    * holds the kernel of its original value and every other pixel is unchanged. */
  lemma {:induction false} ApplyInOrderGrayscaled(s: seq<Pixel>, ps: seq<int>)
    requires AllBelow(ps, |s|) && Distinct(ps)
    ensures ApplyInOrder(s, ps) == Grayscaled(s, Elements(ps))
  {
    if ps == [] {
      GrayscaledNone(s);
    } else {
      var init, last := ps[..|ps| - 1], ps[|ps| - 1];
      assert AllBelow(init, |s|) && Distinct(init);
      ApplyInOrderGrayscaled(s, init);
      assert last !in Elements(init) by {
        forall j | 0 <= j < |init| ensures init[j] != last {
          assert init[j] == ps[j];
        }
      }
      assert ps == init + [last];
      assert Elements(ps) == Elements(init) + {last};
      GrayscaledStep(s, Elements(init), last);
    }
  }

  /** Order does not matter: any two orders that each run every task of the same set
    * exactly once leave the same buffer. */
  lemma AnyOrderSameBuffer(s: seq<Pixel>, ps: seq<int>, qs: seq<int>)
    requires AllBelow(ps, |s|) && Distinct(ps)
    requires AllBelow(qs, |s|) && Distinct(qs)
    requires Elements(ps) == Elements(qs)
    ensures ApplyInOrder(s, ps) == ApplyInOrder(s, qs)
  {
    ApplyInOrderGrayscaled(s, ps);
    ApplyInOrderGrayscaled(s, qs);
  }

  /** Running the kernel a second time over the same set changes nothing. */
  lemma GrayscaledIdempotent(s: seq<Pixel>, done: set<int>)
    ensures Grayscaled(Grayscaled(s, done), done) == Grayscaled(s, done)
  {
    forall i | 0 <= i < |s| && i in done {
      KernelIdempotent(s[i]);
    }
  }

  /** A buffer that is already opaque gray everywhere is left as it is. */
  lemma GrayscaledOnGrayBuffer(s: seq<Pixel>, done: set<int>)
    requires forall i :: 0 <= i < |s| ==> IsOpaqueGray(s[i])
    ensures Grayscaled(s, done) == s
  {
    forall i | 0 <= i < |s| {
      KernelFixedIff(s[i]);
    }
  }
}
