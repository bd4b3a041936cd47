/**
  The pre-roll ring of the listening loop (nanobot/voice/service.py,
  `deque(maxlen=pre_roll_frames)` and `ring.append(frame)`).

  A bounded deque keeps the most recent frames: appending to a full deque
  drops its oldest frame first.  The law it obeys is that after any run of
  appends the ring holds the last `capacity` frames appended, oldest first.
*/
module PreRoll {
  import opened Common
  import opened Pcm

  /** The last `Min(n, |s|)` elements of `s`, in their order. */
  function LastN(s: seq<Frame>, n: nat): (r: seq<Frame>)
    ensures |r| == Min(n, |s|) && |r| <= n
  {
    s[|s| - Min(n, |s|)..]
  }

  /** Keeping the last `n` of the last `n` of a history, extended, is keeping the last `n` of the whole. */
  lemma LastNOfExtended(h: seq<Frame>, fs: seq<Frame>, n: nat)
    ensures LastN(LastN(h, n) + fs, n) == LastN(h + fs, n)
  {
    var a := LastN(LastN(h, n) + fs, n);
    var b := LastN(h + fs, n);
    assert |a| == |b|;
    forall i | 0 <= i < |a|
      ensures a[i] == b[i]
    {
      var k := |LastN(h, n)|;
      if |LastN(h, n) + fs| - |a| + i >= k {
        assert a[i] == fs[|LastN(h, n) + fs| - |a| + i - k];
      }
    }
  }

  /** The ring as the deque leaves it after appending `fs`, one frame at a time, to `ring`. */
  function AppendAll(ring: seq<Frame>, fs: seq<Frame>, capacity: nat): (r: seq<Frame>)
    requires |ring| <= capacity
    decreases |fs|
  {
    if fs == [] then ring
    else AppendAll(DequeAppend(ring, fs[0], capacity), fs[1..], capacity)
  }

  /** One `append` on a `deque(maxlen=capacity)` holding `ring`: a full deque drops its oldest frame. */
  function DequeAppend(ring: seq<Frame>, f: Frame, capacity: nat): (r: seq<Frame>)
    requires |ring| <= capacity
    ensures |r| <= capacity
  {
    if |ring| < capacity then ring + [f] else (ring + [f])[1..]
  }

  /** A single append keeps the last `capacity` frames. */
  lemma DequeAppendIsLastN(ring: seq<Frame>, f: Frame, capacity: nat)
    requires |ring| <= capacity
    ensures DequeAppend(ring, f, capacity) == LastN(ring + [f], capacity)
  {
  }

  /**
    The FIFO eviction law: starting from an empty ring, any run of appends
    leaves exactly the last `Min(capacity, |fs|)` frames appended, oldest first.
  */
  lemma {:induction false} AppendAllIsLastN(ring: seq<Frame>, fs: seq<Frame>, capacity: nat)
    requires |ring| <= capacity
    ensures AppendAll(ring, fs, capacity) == LastN(ring + fs, capacity)
    decreases |fs|
  {
    if fs == [] {
      assert ring + fs == ring;
    } else {
      var grown := ring + [fs[0]];
      var next := DequeAppend(ring, fs[0], capacity);
      DequeAppendIsLastN(ring, fs[0], capacity);
      assert next == LastN(grown, capacity);
      AppendAllIsLastN(next, fs[1..], capacity);
      assert AppendAll(ring, fs, capacity) == LastN(next + fs[1..], capacity);
      LastNOfExtended(grown, fs[1..], capacity);
      assert grown + fs[1..] == ring + fs;
    }
  }

  /** Fewer appends than the capacity: the ring holds all of them, in order. */
  lemma RingBelowCapacity(fs: seq<Frame>, capacity: nat)
    requires |fs| <= capacity
    ensures AppendAll([], fs, capacity) == fs
  {
    AppendAllIsLastN([], fs, capacity);
    assert [] + fs == fs;
  }

  /** After an append to a ring with room for at least one frame, that frame is the newest one. */
  lemma NewestIsLastAppended(ring: seq<Frame>, f: Frame, capacity: nat)
    requires |ring| <= capacity && capacity >= 1
    ensures var r := DequeAppend(ring, f, capacity); |r| >= 1 && r[|r| - 1] == f
  {
  }

  /** The deque the loop owns; `items` is its contents, oldest first. */
  class PreRollRing {
    const capacity: nat
    var items: seq<Frame>

    ghost predicate Valid()
      reads this
    {
      |items| <= capacity
    }

    constructor(capacity: nat)
      ensures Valid()
      ensures this.capacity == capacity && items == []
    {
      this.capacity := capacity;
      items := [];
    }

    /** `ring.append(frame)`: the ring keeps the last `capacity` frames seen. */
    method Append(f: Frame)
      requires Valid()
      modifies this
      ensures Valid()
      ensures items == LastN(old(items) + [f], capacity)
      ensures capacity >= 1 ==> items[|items| - 1] == f
    {
      DequeAppendIsLastN(items, f, capacity);
      if |items| < capacity {
        items := items + [f];
      } else {
        items := (items + [f])[1..];
      }
    }
  }
}
