/** SimpleCircBuf with Put and Get called by two different threads at once: each call is its check, its copy and its
    index increment, and the steps of the two calls interleave in any order (sequentially consistent). */
module SpscRing {
  import opened Basics
  import opened PowerOfTwo
  import opened SimpleCircBuf
  import F = Fifo

  datatype PutCall<T> =
    | PutIdle
    | PutCheck(data: T)     // (in_ - out_) == buffer_size_ ?
    | PutCopy(data: T)      // buffer_[in_ & mask_] = data
    | PutAdvance(data: T)   // ++in_

  datatype GetCall<T> =
    | GetIdle
    | GetCheck              // in_ == out_ ?
    | GetCopy               // data = move(buffer_[out_ & mask_])
    | GetAdvance(data: T)   // ++out_

  datatype Ring<T> = Ring(buffer: seq<T>, in_: nat, out_: nat, put: PutCall<T>, get: GetCall<T>)

  datatype Action<T> =
    | CallPut(data: T)
    | StepPut
    | CallGet
    | StepGet(left: T)      // `left` is what a move leaves in the slot

  ghost predicate Init<T>(r: Ring<T>) {
    IsRingSize(|r.buffer|) && r.in_ == r.out_ == 0 && r.put == PutIdle && r.get == GetIdle
  }

  ghost predicate Next<T>(r: Ring<T>, a: Action<T>, r': Ring<T>) {
    IsRingSize(|r.buffer|)
    && match a
       case CallPut(data) => r.put == PutIdle && r' == r.(put := PutCheck(data))
       case StepPut => (
         match r.put
         case PutIdle => false
         case PutCheck(data) =>
           r' == r.(put := if Difference(r.in_, r.out_) == |r.buffer| then PutIdle else PutCopy(data))
         case PutCopy(data) => r' == Written(r, r.in_, data).(put := PutAdvance(data))
         case PutAdvance(_) => r' == r.(in_ := Increment(r.in_), put := PutIdle))
       case CallGet => r.get == GetIdle && r' == r.(get := GetCheck)
       case StepGet(left) => (
         match r.get
         case GetIdle => false
         case GetCheck => r' == r.(get := if r.in_ == r.out_ then GetIdle else GetCopy)
         case GetCopy => r' == Written(r, r.out_, left).(get := GetAdvance(ElementAt(r.buffer, r.out_)))
         case GetAdvance(_) => r' == r.(out_ := Increment(r.out_), get := GetIdle))
  }

  ghost function Written<T>(r: Ring<T>, index: nat, x: T): Ring<T>
    requires IsRingSize(|r.buffer|)
  {
    SlotIsMod(index, |r.buffer|);
    r.(buffer := r.buffer[Slot(index, |r.buffer|) := x])
  }

  /** What a step shows outside. */
  ghost function Observed<T>(r: Ring<T>, a: Action<T>): F.Event<T> {
    match a
    case StepPut =>
      if r.put.PutCheck? && Difference(r.in_, r.out_) == |r.buffer| then F.Full
      else if r.put.PutAdvance? then F.Entered(r.put.data)
      else F.Internal
    case StepGet(_) =>
      if r.get.GetCheck? && r.in_ == r.out_ then F.Empty
      else if r.get.GetAdvance? then F.Left(r.get.data)
      else F.Internal
    case _ => F.Internal
  }

  /** The k-th element after index `from`. */
  ghost function Nth<T>(buffer: seq<T>, from: nat, k: nat): T
    requires IsRingSize(|buffer|)
  {
    ElementAt(buffer, from + k)
  }

  /** The ring holds `items`, the oldest of them entered as number `from` since the ring was new. */
  ghost predicate Sim<T>(r: Ring<T>, q: F.Queue<T>, from: nat) {
    && IsRingSize(|r.buffer|)
    && q.capacity == |r.buffer| && |q.items| <= q.capacity
    && r.out_ == from % U64 && r.in_ == (from + |q.items|) % U64
    && (forall k :: (if r.get.GetAdvance? then 1 else 0) <= k < |q.items| ==> Nth(r.buffer, from, k) == q.items[k])
    && (r.get.GetCopy? ==> q.items != [])
    && (r.get.GetAdvance? ==> q.items != [] && r.get.data == q.items[0])
    && (r.put.PutCopy? || r.put.PutAdvance? ==> |q.items| < q.capacity)
    && (r.put.PutAdvance? ==> Nth(r.buffer, from, |q.items|) == r.put.data)
  }

  lemma WrappedDifference(from: nat, n: nat)
    requires n < U64
    ensures Difference((from + n) % U64, from % U64) == n
    ensures Increment((from + n) % U64) == (from + n + 1) % U64
    ensures (from + n) % U64 == from % U64 <==> n == 0
  {
    var f, q := from % U64, from / U64;
    ModAdd(f + n, q, U64);
    ModAdd(f + n + 1, q, U64);
    assert from + n == f + n + U64 * q;
    WrapIs(f + n);
    WrapIs(f + n + 1);
    WrapIs((f + n) % U64 - f);
    WrapIs((f + n) % U64 + 1);
  }

  /** A write reaches the slot of its index however often the index has wrapped, and no other live slot. */
  lemma WrittenAt<T>(r: Ring<T>, from: nat, k: nat, x: T, j: nat)
    requires IsRingSize(|r.buffer|) && k < |r.buffer| && j < |r.buffer|
    ensures IsRingSize(|Written(r, (from + k) % U64, x).buffer|)
    ensures |Written(r, (from + k) % U64, x).buffer| == |r.buffer|
    ensures Nth(Written(r, (from + k) % U64, x).buffer, from, k) == x
    ensures j != k ==> Nth(Written(r, (from + k) % U64, x).buffer, from, j) == Nth(r.buffer, from, j)
  {
    SlotOfWrapped(from + k, 0, |r.buffer|);
    WriteElsewhere(r.buffer, from + k, x, from + j);
  }

  lemma CopyInSim<T>(r: Ring<T>, q: F.Queue<T>, from: nat, r': Ring<T>)
    requires Sim(r, q, from) && r.put.PutCopy? && Next(r, StepPut, r')
    ensures Sim(r', q, from)
  {
    var n := |q.items|;
    hide Nth, IsRingSize;
    WrittenAt(r, from, n, r.put.data, n);
    forall k | 0 <= k < n ensures Nth(r'.buffer, from, k) == Nth(r.buffer, from, k) {
      WrittenAt(r, from, n, r.put.data, k);
    }
  }

  lemma CopyOutSim<T>(r: Ring<T>, q: F.Queue<T>, from: nat, left: T, r': Ring<T>)
    requires Sim(r, q, from) && r.get.GetCopy? && Next(r, StepGet(left), r')
    ensures Sim(r', q, from)
  {
    var n := |q.items|;
    assert ElementAt(r.buffer, r.out_) == Nth(r.buffer, from, 0) by {
      SlotOfWrapped(from, 0, |r.buffer|);
    }
    assert (from + 0) % U64 == r.out_;
    hide Nth, IsRingSize, ElementAt;
    WrittenAt(r, from, 0, left, 0);
    forall k | 0 < k <= n && k < |r.buffer| ensures Nth(r'.buffer, from, k) == Nth(r.buffer, from, k) {
      WrittenAt(r, from, 0, left, k);
    }
  }

  lemma PutStepSim<T>(r: Ring<T>, q: F.Queue<T>, from: nat, r': Ring<T>)
    requires Sim(r, q, from) && Next(r, StepPut, r')
    ensures F.Enabled(q, Observed(r, StepPut)) && Sim(r', F.Apply(q, Observed(r, StepPut)), from)
  {
    WrappedDifference(from, |q.items|);
    hide Difference, Increment, Nth, IsRingSize;
    if r.put.PutCopy? {
      CopyInSim(r, q, from, r');
    }
  }

  /** After ++out_ the window starts one later. */
  lemma AdvanceOutSim<T>(r: Ring<T>, q: F.Queue<T>, from: nat, left: T, r': Ring<T>)
    requires Sim(r, q, from) && r.get.GetAdvance? && Next(r, StepGet(left), r')
    ensures Sim(r', q.(items := q.items[1..]), from + 1)
  {
    WrappedDifference(from, 0);
    var q' := q.(items := q.items[1..]);
    assert from + 1 + |q'.items| == from + |q.items|;
    forall k | 0 <= k < |q'.items| ensures Nth(r'.buffer, from + 1, k) == q'.items[k] {
      assert from + 1 + k == from + (k + 1);
      assert Nth(r.buffer, from, k + 1) == q.items[k + 1];
    }
  }

  lemma GetStepSim<T>(r: Ring<T>, q: F.Queue<T>, from: nat, left: T, r': Ring<T>) returns (from': nat)
    requires Sim(r, q, from) && Next(r, StepGet(left), r')
    ensures F.Enabled(q, Observed(r, StepGet(left)))
    ensures Sim(r', F.Apply(q, Observed(r, StepGet(left))), from')
  {
    WrappedDifference(from, |q.items|);
    hide Difference, Increment, Nth, IsRingSize;
    from' := from;
    if r.get.GetCopy? {
      CopyOutSim(r, q, from, left, r');
    } else if r.get.GetAdvance? {
      AdvanceOutSim(r, q, from, left, r');
      from' := from + 1;
    }
  }

  ghost predicate IsRun<T(!new)>(run: seq<Ring<T>>, actions: seq<Action<T>>) {
    && |run| == |actions| + 1
    && Init(run[0])
    && forall i :: 0 <= i < |actions| ==> Next(run[i], actions[i], run[i + 1])
  }

  ghost function Events<T>(run: seq<Ring<T>>, actions: seq<Action<T>>): seq<F.Event<T>>
    requires |run| == |actions| + 1
  {
    seq(|actions|, i requires 0 <= i < |actions| => Observed(run[i], actions[i]))
  }

  lemma StepSim<T>(r: Ring<T>, q: F.Queue<T>, from: nat, a: Action<T>, r': Ring<T>) returns (from': nat)
    requires Sim(r, q, from) && Next(r, a, r')
    ensures F.Enabled(q, Observed(r, a)) && Sim(r', F.Apply(q, Observed(r, a)), from')
  {
    from' := from;
    match a
    case StepPut => PutStepSim(r, q, from, r');
    case StepGet(left) => from' := GetStepSim(r, q, from, left, r');
    case _ =>
  }

  /** Refinement, over all runs and however often the 64-bit indices wrap: what the two threads see is what a bounded
      queue of buffer_size_ elements could show them. */
  lemma {:induction false} RunRefines<T(!new)>(run: seq<Ring<T>>, actions: seq<Action<T>>)
      returns (q: F.Queue<T>, from: nat)
    requires IsRun(run, actions)
    ensures F.IsTrace(Events(run, actions), |run[0].buffer|, q)
    ensures Sim(run[|actions|], q, from)
    decreases |actions|
  {
    hide Next, Sim;
    var n := |actions| - 1;
    if n < 0 {
      q, from := F.Queue(|run[0].buffer|, []), 0;
      InitSim(run[0]);
    } else {
      assert IsRun(run[..n + 1], actions[..n]);
      var before, from0 := RunRefines(run[..n + 1], actions[..n]);
      from := StepSim(run[n], before, from0, actions[n], run[n + 1]);
      q := F.Apply(before, Observed(run[n], actions[n]));
      assert Front(Events(run, actions)) == Events(run[..n + 1], actions[..n]);
    }
  }

  lemma InitSim<T>(r: Ring<T>)
    requires Init(r)
    ensures Sim(r, F.Queue(|r.buffer|, []), 0)
  {
  }

  /** So what Put accepted is, in order, what Get has returned followed by what is still inside; nothing is lost,
      repeated or reordered, and never more than buffer_size_ elements are inside. */
  lemma NothingLostOrReordered<T(!new)>(run: seq<Ring<T>>, actions: seq<Action<T>>) returns (inside: seq<T>)
    requires IsRun(run, actions)
    ensures F.AllEntered(Events(run, actions)) == F.AllLeft(Events(run, actions)) + inside
    ensures |inside| <= |run[0].buffer|
  {
    var q, from := RunRefines(run, actions);
    F.InIsOutPlusInside(Events(run, actions), |run[0].buffer|, q);
    inside := q.items;
  }
}
