/** A bounded first-in first-out queue: the specification of the single-producer single-consumer ring. */
module Fifo {
  import opened Basics

  datatype Queue<T> = Queue(capacity: nat, items: seq<T>)

  datatype Event<T> =
    | Internal
    | Entered(item: T)     // Put returned 0
    | Full                 // Put returned -1
    | Left(item: T)        // Get returned 0 with item
    | Empty                // Get returned -1

  ghost predicate Enabled<T>(q: Queue<T>, e: Event<T>) {
    match e
    case Internal => true
    case Entered(_) => |q.items| < q.capacity
    case Full => |q.items| == q.capacity
    case Left(x) => q.items != [] && q.items[0] == x
    case Empty => q.items == []
  }

  ghost function Apply<T>(q: Queue<T>, e: Event<T>): Queue<T>
    requires Enabled(q, e)
  {
    match e
    case Entered(x) => q.(items := q.items + [x])
    case Left(_) => q.(items := q.items[1..])
    case _ => q
  }

  ghost predicate IsTrace<T(!new)>(events: seq<Event<T>>, capacity: nat, q: Queue<T>)
    decreases |events|
  {
    if events == [] then q == Queue(capacity, [])
    else exists before :: IsTrace(Front(events), capacity, before) && Enabled(before, Last(events))
                          && q == Apply(before, Last(events))
  }

  function AllEntered<T>(events: seq<Event<T>>): seq<T> {
    if events == [] then []
    else AllEntered(Front(events)) + (if Last(events).Entered? then [Last(events).item] else [])
  }

  function AllLeft<T>(events: seq<Event<T>>): seq<T> {
    if events == [] then []
    else AllLeft(Front(events)) + (if Last(events).Left? then [Last(events).item] else [])
  }

  lemma StepConserves<T>(q: Queue<T>, e: Event<T>, entered: seq<T>, left: seq<T>)
    requires Enabled(q, e) && entered == left + q.items
    ensures entered + (if e.Entered? then [e.item] else [])
         == left + (if e.Left? then [e.item] else []) + Apply(q, e).items
  {
  }

  /** Conservation and order: what went in is what came out followed by what is still inside, never more than fits. */
  lemma {:induction false} InIsOutPlusInside<T(!new)>(events: seq<Event<T>>, capacity: nat, q: Queue<T>)
    requires IsTrace(events, capacity, q)
    ensures AllEntered(events) == AllLeft(events) + q.items
    ensures |q.items| <= capacity == q.capacity
    decreases |events|
  {
    if events != [] {
      var before :| IsTrace(Front(events), capacity, before) && Enabled(before, Last(events))
                    && q == Apply(before, Last(events));
      InIsOutPlusInside(Front(events), capacity, before);
      StepConserves(before, Last(events), AllEntered(Front(events)), AllLeft(Front(events)));
    }
  }
}

/** SimpleCircBuf, called by one thread at a time. The indices are 64-bit unsigned and wrap. */
module SimpleCircBuf {
  import opened PowerOfTwo

  ghost predicate IsRingSize(size: nat) {
    IsPow2(size) && 2 <= size <= 0x8000_0000_0000_0000
  }

  /** Unsigned 64-bit increment and difference. */
  function Increment(x: nat): nat { (x + 1) % U64 }

  function Difference(x: nat, y: nat): nat { (x - y) % U64 }

  lemma WrappedCounts(in_: nat, out_: nat)
    requires in_ < U64 && out_ < U64
    ensures Difference(in_, out_) < U64 && (Difference(in_, out_) == 0 <==> in_ == out_)
    ensures in_ == (out_ + Difference(in_, out_)) % U64
    ensures Difference(in_, out_) < U64 - 1 ==> Difference(Increment(in_), out_) == Difference(in_, out_) + 1
    ensures in_ != out_ ==> Difference(in_, Increment(out_)) == Difference(in_, out_) - 1
    ensures Increment(in_) < U64 && Increment(out_) < U64 && Increment(out_) == (out_ + 1) % U64
  {
    WrapIs(in_ - out_);
    WrapIs(out_ + Difference(in_, out_));
    WrapIs(in_ + 1);
    WrapIs(out_ + 1);
    WrapIs(Increment(in_) - out_);
    WrapIs(in_ - Increment(out_));
  }

  /** The n elements that start at index `from` of a ring. */
  ghost function Window<T>(ring: seq<T>, from: nat, n: nat): seq<T>
    requires IsRingSize(|ring|)
  {
    seq(n, i requires 0 <= i < n => ElementAt(ring, from + i))
  }

  ghost function ElementAt<T>(ring: seq<T>, index: nat): T
    requires IsRingSize(|ring|)
  {
    SlotIsMod(index, |ring|);
    ring[Slot(index, |ring|)]
  }

  lemma WriteElsewhere<T>(ring: seq<T>, index: nat, x: T, other: nat)
    requires IsRingSize(|ring|)
    ensures Slot(index, |ring|) < |ring|
    ensures ElementAt(ring[Slot(index, |ring|) := x], index) == x
    ensures other != index && other - index < |ring| && index - other < |ring| ==>
              ElementAt(ring[Slot(index, |ring|) := x], other) == ElementAt(ring, other)
  {
    SlotIsMod(index, |ring|);
    SlotIsMod(other, |ring|);
    SlotShared(index, other, |ring|);
  }

  /** Writing the next free slot appends. */
  lemma WindowPush<T>(ring: seq<T>, from: nat, n: nat, x: T)
    requires IsRingSize(|ring|) && n < |ring|
    ensures Slot(from + n, |ring|) < |ring|
    ensures Window(ring[Slot(from + n, |ring|) := x], from, n + 1) == Window(ring, from, n) + [x]
  {
    WriteElsewhere(ring, from + n, x, from + n);
    var ring' := ring[Slot(from + n, |ring|) := x];
    forall i | 0 <= i < n + 1 ensures Window(ring', from, n + 1)[i] == (Window(ring, from, n) + [x])[i] {
      WriteElsewhere(ring, from + n, x, from + i);
    }
  }

  /** Giving up the oldest slot, whatever is left in it, removes the first element. */
  lemma WindowPop<T>(ring: seq<T>, from: nat, n: nat, left: T)
    requires IsRingSize(|ring|) && 0 < n <= |ring|
    ensures Slot(from, |ring|) < |ring| && Window(ring, from, n)[0] == ring[Slot(from, |ring|)]
    ensures Window(ring[Slot(from, |ring|) := left], from + 1, n - 1) == Window(ring, from, n)[1..]
  {
    SlotIsMod(from, |ring|);
    var ring' := ring[Slot(from, |ring|) := left];
    assert Window(ring, from, n)[0] == ElementAt(ring, from + 0);
    forall i | 0 <= i < n - 1 ensures Window(ring', from + 1, n - 1)[i] == Window(ring, from, n)[1..][i] {
      assert Window(ring', from + 1, n - 1)[i] == ElementAt(ring', from + 1 + i);
      WriteElsewhere(ring, from, left, from + 1 + i);
    }
  }

  lemma ElementWraps<T>(ring: seq<T>, from: nat, i: nat)
    requires IsRingSize(|ring|)
    ensures ElementAt(ring, from % U64 + i) == ElementAt(ring, from + i)
  {
    SlotOfWrapped(from, i, |ring|);
  }

  /** Where an index has wrapped, the window is the same one. */
  lemma WindowWraps<T>(ring: seq<T>, from: nat, n: nat)
    requires IsRingSize(|ring|)
    ensures Window(ring, from % U64, n) == Window(ring, from, n)
  {
    hide ElementAt, IsRingSize;
    forall i | 0 <= i < n ensures Window(ring, from % U64, n)[i] == Window(ring, from, n)[i] {
      ElementWraps(ring, from, i);
    }
  }

  class SimpleCircBuf<T(0)> {
    var buffer_: array<T>
    var buffer_size_: nat
    var mask_: nat
    var in_: nat
    var out_: nat

    ghost predicate Valid()
      reads this
    {
      && IsRingSize(buffer_size_)
      && buffer_.Length == buffer_size_ && mask_ == buffer_size_ - 1
      && in_ < U64 && out_ < U64 && Difference(in_, out_) <= buffer_size_
    }

    ghost function Contents(): seq<T>
      reads this, buffer_
      requires Valid()
    {
      Window(buffer_[..], out_, Difference(in_, out_))
    }

    constructor (requested: nat)
      requires requested < U64
      ensures Valid() && fresh(buffer_) && Contents() == []
      ensures buffer_size_ == RingSize(requested)
    {
      RingSizeIsPow2(requested);
      buffer_size_ := RingSize(requested);
      mask_ := RingSize(requested) - 1;
      in_, out_ := 0, 0;
      buffer_ := new T[RingSize(requested)];
    }

    /** Gives the ring a new size and empties it. */
    method ReInit(requested: nat)
      requires requested < U64
      modifies this
      ensures Valid() && fresh(buffer_) && Contents() == []
      ensures buffer_size_ == RingSize(requested)
    {
      RingSizeIsPow2(requested);
      buffer_size_ := RingSize(requested);
      mask_ := buffer_size_ - 1;
      in_, out_ := 0, 0;
      buffer_ := new T[buffer_size_];
    }

    /** Takes the oldest element; the slot it is moved out of may be left holding anything. */
    method Get() returns (ret: int, data: T)
      requires Valid()
      modifies this`out_, buffer_
      ensures Valid() && buffer_size_ == old(buffer_size_)
      ensures old(Contents()) == [] <==> ret == -1
      ensures ret == -1 ==> Contents() == old(Contents())
      ensures ret != -1 ==> ret == 0 && data == old(Contents())[0] && Contents() == old(Contents())[1..]
    {
      hide And, Difference, ElementAt, Increment, IsPow2;
      data := *;
      WrappedCounts(in_, out_);
      if in_ == out_ {
        return -1, data;
      }
      ghost var n := Difference(in_, out_);
      var left: T := *;
      WindowPop(buffer_[..], out_, n, left);
      WindowWraps(buffer_[..][Slot(out_, buffer_size_) := left], out_ + 1, n - 1);
      data := buffer_[And(out_, mask_)];
      buffer_[And(out_, mask_)] := left;
      out_ := Increment(out_);
      ret := 0;
    }

    method Put(data: T) returns (ret: int)
      requires Valid()
      modifies this`in_, buffer_
      ensures Valid() && buffer_size_ == old(buffer_size_)
      ensures ret == -1 <==> |old(Contents())| == buffer_size_
      ensures ret == -1 ==> Contents() == old(Contents())
      ensures ret != -1 ==> ret == 0 && Contents() == old(Contents()) + [data]
    {
      hide And, Difference, ElementAt, Increment, IsPow2;
      WrappedCounts(in_, out_);
      if Difference(in_, out_) == buffer_size_ {
        return -1;
      }
      ghost var n := Difference(in_, out_);
      SlotOfWrapped(out_ + n, 0, buffer_size_);
      WindowPush(buffer_[..], out_, n, data);
      buffer_[And(in_, mask_)] := data;
      in_ := Increment(in_);
      ret := 0;
    }
  }
}
