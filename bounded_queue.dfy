/** The drop-oldest bounded buffer used throughout the stream pipeline.

    Two Python constructs behave this way and are both modelled by Push:
    a `queue.Queue(maxsize=C)` fed with "if full(): get_nowait(); put_nowait(x)"
    (the image and status queues of both receivers), and a
    `collections.deque(maxlen=C)` fed with `append(x)` (the sample buffers of
    the health monitors). A buffer is a sequence, oldest item first. */
module BoundedQueue {

  /** The last min(n, |s|) items of s, in order. */
  function Newest<T>(n: nat, s: seq<T>): (r: seq<T>)
    ensures |r| == if |s| < n then |s| else n
  {
    if |s| <= n then s else s[|s| - n..]
  }

  /** Adds x at the newest end; when the buffer already holds cap items the
      single oldest one is evicted first, so the producer never blocks. */
  function Push<T>(q: seq<T>, cap: nat, x: T): (r: seq<T>)
    requires 1 <= cap && |q| <= cap
    ensures r == Newest(cap, q + [x])
    ensures 1 <= |r| <= cap && r[|r| - 1] == x
    ensures |q| < cap ==> r == q + [x]
  {
    if |q| >= cap then q[1..] + [x] else q + [x]
  }

  /** Pushes every item of xs in turn. */
  function PushAll<T>(q: seq<T>, cap: nat, xs: seq<T>): (r: seq<T>)
    requires 1 <= cap && |q| <= cap
    ensures |r| <= cap
    decreases |xs|
  {
    if xs == [] then q else PushAll(Push(q, cap, xs[0]), cap, xs[1..])
  }

  /** Pushing a list then one more item is pushing the longer list. */
  lemma {:induction false} PushAllSnoc<T>(q: seq<T>, cap: nat, xs: seq<T>, x: T)
    requires 1 <= cap && |q| <= cap
    ensures PushAll(q, cap, xs + [x]) == Push(PushAll(q, cap, xs), cap, x)
    decreases |xs|
  {
    if xs == [] {
      assert [] + [x] == [x];
    } else {
      assert (xs + [x])[1..] == xs[1..] + [x];
      PushAllSnoc(Push(q, cap, xs[0]), cap, xs[1..], x);
    }
  }

  /** Pushing two lists in turn is pushing their concatenation. */
  lemma {:induction false} PushAllAppend<T>(q: seq<T>, cap: nat, xs: seq<T>, ys: seq<T>)
    requires 1 <= cap && |q| <= cap
    ensures PushAll(PushAll(q, cap, xs), cap, ys) == PushAll(q, cap, xs + ys)
    decreases |xs|
  {
    if xs == [] {
      assert xs + ys == ys;
    } else {
      assert (xs + ys)[0] == xs[0] && (xs + ys)[1..] == xs[1..] + ys;
      PushAllAppend(Push(q, cap, xs[0]), cap, xs[1..], ys);
    }
  }

  /** After any run of pushes the buffer holds exactly the newest cap items of
      everything it ever held, in push order: nothing newer is ever lost and
      nothing is reordered. */
  lemma {:induction false} PushAllKeepsNewest<T>(q: seq<T>, cap: nat, xs: seq<T>)
    requires 1 <= cap && |q| <= cap
    ensures PushAll(q, cap, xs) == Newest(cap, q + xs)
    decreases |xs|
  {
    if xs != [] {
      var q' := Push(q, cap, xs[0]);
      var front := q + [xs[0]];
      calc {
        PushAll(q, cap, xs);
        PushAll(q', cap, xs[1..]);
      == { PushAllKeepsNewest(q', cap, xs[1..]); }
        Newest(cap, q' + xs[1..]);
      == { assert q' == Newest(cap, front); NewestAppend(cap, front, xs[1..]); }
        Newest(cap, front + xs[1..]);
      == { assert front + xs[1..] == q + xs; }
        Newest(cap, q + xs);
      }
    }
  }

  /** Trimming to the newest n items before appending more does not change the
      newest n items of the whole. */
  lemma {:induction false} NewestAppend<T>(n: nat, s: seq<T>, t: seq<T>)
    ensures Newest(n, Newest(n, s) + t) == Newest(n, s + t)
  {
    var m := Newest(n, s);
    if |s| > n {
      assert s + t == s[..|s| - n] + (m + t);
    }
  }

  /** Pushing K items into an empty buffer of capacity C leaves the last
      min(K, C) of them, in push order. */
  lemma {:induction false} PushAllFromEmpty<T>(cap: nat, xs: seq<T>)
    requires 1 <= cap
    ensures PushAll([], cap, xs) == Newest(cap, xs)
    ensures |xs| > cap ==> PushAll([], cap, xs) == xs[|xs| - cap..]
  {
    PushAllKeepsNewest([], cap, xs);
    assert [] + xs == xs;
  }
}
