/** Every run of the ring is a run of the ticket queue, and the safety conditions the code asserts hold in every
    reachable state. */
module CircBufRefinement {
  import opened Basics
  import opened PowerOfTwo
  import opened CircBuf
  import Q = TicketQueue

  /** What a step looks like from outside, in terms of what the threads hold and load, not of the queue. */
  ghost function Observed<T>(r: Ring<T>, l: Label<T>): Q.Event<T> {
    match l
    case ByProducer(t, Step) =>
      if t !in r.producers then Q.Internal else (
        match r.producers[t]
        case PCas(_, current) => if r.single || r.in_ == current then Q.Claim(t, current + 1) else Q.Internal
        case PFilled(num, v) => Q.Publish(t, num, v)
        case _ => Q.Internal)
    case ByConsumer(t, Step) =>
      if t !in r.consumers then Q.Internal else (
        match r.consumers[t]
        case CCas(_, current) => if r.out_ == current then Q.Take(t, current + 1) else Q.Internal
        case CMoved(num, v) => Q.Deliver(t, num, v)
        case _ => Q.Internal)
    case _ => Q.Internal
  }

  /** cache_out_ and cache_in_ may be stale, and may even go backwards, but never run ahead. */
  ghost predicate Bounds<T>(r: Ring<T>) {
    && r.cacheOut <= r.out_ <= r.in_ <= r.out_ + r.Size()
    && r.cacheIn <= r.in_
  }

  ghost predicate ProducerOk<T>(r: Ring<T>, tickets: seq<Q.Ticket<T>>, t: Tid, p: Producer<T>)
    requires r.Shaped()
  {
    match p
    case PIdle => true
    case PLoadIn(_) => true
    case PCheckCache(_, current) => Current(r, current)
    case PCheckFree(_, current) => Current(r, current) && current + 1 - r.Size() <= r.out_
    case PLoadOut(_, current) => Current(r, current)
    case PStoreCache(_, current, seen) => Current(r, current) && seen <= r.out_
    case PCas(_, current) =>
      Current(r, current) && current + 1 - r.Size() <= r.out_ && (current == r.in_ ==> r.At(current + 1).isFree)
    case PClaimed(num) => num < |tickets| && tickets[num] == Q.Claimed(t)
    case PFilled(num, v) => num < |tickets| && tickets[num] == Q.Claimed(t) && r.At(num).task == v
  }

  /** The index a producer loaded: never ahead, and exact when it is the only one. */
  ghost predicate Current<T>(r: Ring<T>, current: int) {
    current <= r.in_ && (r.single ==> current == r.in_)
  }

  ghost predicate ConsumerOk<T>(r: Ring<T>, tickets: seq<Q.Ticket<T>>, t: Tid, c: Consumer<T>)
    requires r.Shaped() && |tickets| == r.in_ + 1
  {
    match c
    case CIdle => true
    case CLoadOut(_) => true
    case CCheckCache(_, current) => current <= r.out_
    case CCheckFree(_, current) => current <= r.out_ && current + 1 <= r.in_
    case CLoadIn(_) => true
    case CStoreCache(_, seen) => seen <= r.in_
    case CEmpty => true
    case CEmptyIn(seenIn) => seenIn <= r.in_
    case CEmptyOut(seenOut) => seenOut <= r.out_
    case CCas(_, current) =>
      current <= r.out_ && current + 1 <= r.in_ && (current == r.out_ ==> tickets[current + 1].Published?)
    case CClaimed(num) =>
      num < |tickets| && tickets[num].Taken? && tickets[num].consumer == t && r.At(num).task == tickets[num].value
    case CMoved(num, v) =>
      num < |tickets| && tickets[num].Taken? && tickets[num].consumer == t && v == tickets[num].value
  }

  /** The cell a live ticket uses. */
  ghost predicate CellOk<T>(cell: Cell<T>, ticket: Q.Ticket<T>) {
    && (cell.isFree <==> ticket.Claimed? || ticket.Delivered?)
    && (ticket.Published? ==> cell.task == ticket.value)
  }

  ghost predicate CellsOk<T>(r: Ring<T>, tickets: seq<Q.Ticket<T>>)
    requires r.Shaped() && |tickets| == r.in_ + 1
  {
    && (forall n: nat :: r.in_ - r.Size() < n <= r.in_ ==> CellOk(r.At(n), tickets[n]))
    && (forall n: nat :: r.in_ < n < r.Size() ==> r.At(n).isFree)
  }

  /** A ticket that is claimed or taken is in the hands of the thread it names. */
  ghost predicate Held<T>(r: Ring<T>, n: nat, ticket: Q.Ticket<T>) {
    && (ticket.Claimed? ==>
          ticket.producer in r.producers
          && (r.producers[ticket.producer] == PClaimed(n)
              || (r.producers[ticket.producer].PFilled? && r.producers[ticket.producer].num == n)))
    && (ticket.Taken? ==>
          ticket.consumer in r.consumers
          && (r.consumers[ticket.consumer] == CClaimed(n)
              || (r.consumers[ticket.consumer].CMoved? && r.consumers[ticket.consumer].num == n)))
  }

  /** The ring implements the queue. */
  ghost predicate Sim<T>(r: Ring<T>, q: Q.Queue<T>) {
    && r.Shaped()
    && q.capacity == r.Size()
    && |q.tickets| == r.in_ + 1
    && q.taken == r.out_ + 1
    && Q.InOrder(q)
    && Bounds(r)
    && CellsOk(r, q.tickets)
    && (forall n :: 0 <= n < |q.tickets| ==> Held(r, n, q.tickets[n]))
    && (r.single ==> forall t, u :: t in r.producers && u in r.producers ==> t == u)
    && (forall t :: t in r.producers ==> ProducerOk(r, q.tickets, t, r.producers[t]))
    && (forall t :: t in r.consumers ==> ConsumerOk(r, q.tickets, t, r.consumers[t]))
  }

  lemma InitSim<T(!new)>(r: Ring<T>)
    requires Init(r)
    ensures Sim(r, Q.Empty(r.Size()))
  {
    forall n: nat | r.in_ < n < r.Size() ensures r.At(n).isFree {
      SlotIsMod(n, r.Size());
    }
  }

  /** Writing the cell of one number leaves the cells of the others within a turn alone. */
  lemma PutAt<T>(r: Ring<T>, num: nat, cell: Cell<T>, n: nat)
    requires r.Shaped()
    ensures r.Put(num, cell).Shaped() && r.Put(num, cell).Size() == r.Size()
    ensures r.Put(num, cell).At(num) == cell
    ensures n != num && n - num < r.Size() && num - n < r.Size() ==> r.Put(num, cell).At(n) == r.At(n)
    ensures r.Put(num, cell).At(n) == r.At(n) || (r.Put(num, cell).At(n) == cell && r.At(n) == r.At(num))
  {
    SlotIsMod(num, r.Size());
    SlotIsMod(n, r.Size());
    SlotShared(n, num, r.Size());
  }

  ghost predicate SameMemory<T>(r: Ring<T>, r': Ring<T>) {
    r'.buffer == r.buffer && r'.in_ == r.in_ && r'.out_ == r.out_ && r'.single == r.single
  }

  /** What a step of another thread may do to the shared state, seen by the threads that stand still: the counters
      only grow, and what a thread has read stays true as long as the counter it will CAS has not moved. */
  ghost predicate Grows<T>(r: Ring<T>, tickets: seq<Q.Ticket<T>>, r': Ring<T>, tickets': seq<Q.Ticket<T>>) {
    && r.Shaped() && r'.Shaped() && r'.Size() == r.Size() && r'.single == r.single
    && |tickets| == r.in_ + 1 <= r'.in_ + 1 == |tickets'|
    && r.out_ <= r'.out_
    && (r'.in_ == r.in_ && r.in_ + 1 - r.Size() <= r.out_ && r.At(r.in_ + 1).isFree ==> r'.At(r.in_ + 1).isFree)
    && (r'.out_ == r.out_ < r.in_ && tickets[r.out_ + 1].Published? ==> tickets'[r.out_ + 1].Published?)
  }

  lemma ProducerStands<T>(r: Ring<T>, ts: seq<Q.Ticket<T>>, r': Ring<T>, ts': seq<Q.Ticket<T>>, u: Tid, p: Producer<T>)
    requires Grows(r, ts, r', ts') && ProducerOk(r, ts, u, p)
    requires r.single ==> r'.in_ == r.in_
    requires (p.PClaimed? || p.PFilled?) && p.num < |ts| && ts[p.num] == Q.Claimed(u) ==>
               ts'[p.num] == ts[p.num] && r'.At(p.num).task == r.At(p.num).task
    ensures ProducerOk(r', ts', u, p)
  {
  }

  lemma ConsumerStands<T>(r: Ring<T>, ts: seq<Q.Ticket<T>>, r': Ring<T>, ts': seq<Q.Ticket<T>>, u: Tid, c: Consumer<T>)
    requires Grows(r, ts, r', ts') && ConsumerOk(r, ts, u, c)
    requires (c.CClaimed? || c.CMoved?) && c.num < |ts| && ts[c.num].Taken? && ts[c.num].consumer == u ==>
               ts'[c.num] == ts[c.num] && (c.CClaimed? ==> r'.At(c.num).task == r.At(c.num).task)
    ensures ConsumerOk(r', ts', u, c)
  {
  }

  /** Steps that move a program counter or refresh a cache, and nothing the other threads rely on. */
  lemma ProducerQuiet<T>(r: Ring<T>, q: Q.Queue<T>, t: Tid, p': Producer<T>, cacheOut': Index)
    requires Sim(r, q) && t in r.producers
    requires !r.producers[t].PClaimed? && !r.producers[t].PFilled?
    requires cacheOut' <= r.out_
    requires ProducerOk(r, q.tickets, t, p') && !p'.PClaimed? && !p'.PFilled?
    ensures Sim(r.(cacheOut := cacheOut').WithProducer(t, p'), q)
  {
    hide Slot, IsPow2;
    var r' := r.(cacheOut := cacheOut').WithProducer(t, p');
    assert SameMemory(r, r');
    assert forall n: nat :: r'.At(n) == r.At(n);
    forall u | u in r'.producers ensures ProducerOk(r', q.tickets, u, r'.producers[u]) {
      assert ProducerOk(r, q.tickets, u, r'.producers[u]);
    }
    forall u | u in r'.consumers ensures ConsumerOk(r', q.tickets, u, r'.consumers[u]) {
      assert ConsumerOk(r, q.tickets, u, r.consumers[u]);
    }
    forall n | 0 <= n < |q.tickets| ensures Held(r', n, q.tickets[n]) {
      assert Held(r, n, q.tickets[n]);
    }
  }

  lemma ConsumerQuiet<T>(r: Ring<T>, q: Q.Queue<T>, t: Tid, c': Consumer<T>, cacheIn': Index)
    requires Sim(r, q) && t in r.consumers
    requires !r.consumers[t].CClaimed? && !r.consumers[t].CMoved?
    requires cacheIn' <= r.in_
    requires ConsumerOk(r, q.tickets, t, c') && !c'.CClaimed? && !c'.CMoved?
    ensures Sim(r.(cacheIn := cacheIn').WithConsumer(t, c'), q)
  {
    hide Slot, IsPow2;
    var r' := r.(cacheIn := cacheIn').WithConsumer(t, c');
    assert SameMemory(r, r');
    assert forall n: nat :: r'.At(n) == r.At(n);
    forall u | u in r'.producers ensures ProducerOk(r', q.tickets, u, r'.producers[u]) {
      assert ProducerOk(r, q.tickets, u, r.producers[u]);
    }
    forall u | u in r'.consumers ensures ConsumerOk(r', q.tickets, u, r'.consumers[u]) {
      assert ConsumerOk(r, q.tickets, u, r'.consumers[u]);
    }
    forall n | 0 <= n < |q.tickets| ensures Held(r', n, q.tickets[n]) {
      assert Held(r, n, q.tickets[n]);
    }
  }

  /** The exact check behind the cached one: when the CAS succeeds, the number one turn back has been taken, and
      its cell is free, so it has been delivered. */
  lemma ClaimEnabled<T>(r: Ring<T>, q: Q.Queue<T>, t: Tid)
    requires Sim(r, q) && t in r.producers && r.producers[t].PCas? && r.producers[t].current == r.in_
    ensures Q.Enabled(q, Q.Claim(t, r.in_ + 1)) && r.At(r.in_ + 1).isFree && r.in_ + 1 - r.Size() <= r.out_
  {
    var num := r.in_ + 1;
    assert ProducerOk(r, q.tickets, t, r.producers[t]);
    if num >= r.Size() {
      var back := num - r.Size();
      SlotShared(back, num, r.Size());
      assert r.At(back) == r.At(num);
      assert CellOk(r.At(back), q.tickets[back]);
    }
  }

  lemma ClaimCells<T>(r: Ring<T>, q: Q.Queue<T>, t: Tid, r': Ring<T>)
    requires Sim(r, q) && r.At(r.in_ + 1).isFree
    requires r'.buffer == r.buffer && r'.in_ == r.in_ + 1
    ensures CellsOk(r', q.tickets + [Q.Claimed(t)])
  {
    forall n: nat | r'.in_ - r.Size() < n <= r'.in_
      ensures CellOk(r'.At(n), (q.tickets + [Q.Claimed(t)])[n])
    {
      assert n <= r.in_ ==> CellOk(r.At(n), q.tickets[n]);
    }
    assert forall n: nat | r'.in_ < n < r'.Size() :: r'.At(n) == r.At(n);
  }

  /** A successful claim by a producer. */
  lemma ClaimSim<T>(r: Ring<T>, q: Q.Queue<T>, t: Tid)
    requires Sim(r, q) && t in r.producers && r.producers[t].PCas? && r.producers[t].current == r.in_
    ensures Q.Enabled(q, Q.Claim(t, r.in_ + 1))
    ensures Sim(r.(in_ := r.in_ + 1).WithProducer(t, PClaimed(r.in_ + 1)), Q.Apply(q, Q.Claim(t, r.in_ + 1)))
  {
    hide Slot, IsPow2;
    ClaimEnabled(r, q, t);
    Q.ApplyKeepsOrder(q, Q.Claim(t, r.in_ + 1));
    var r' := r.(in_ := r.in_ + 1).WithProducer(t, PClaimed(r.in_ + 1));
    var q' := Q.Apply(q, Q.Claim(t, r.in_ + 1));
    ClaimCells(r, q, t, r');
    assert Grows(r, q.tickets, r', q'.tickets);
    forall u | u in r'.producers ensures ProducerOk(r', q'.tickets, u, r'.producers[u]) {
      if u != t { ProducerStands(r, q.tickets, r', q'.tickets, u, r.producers[u]); }
    }
    forall u | u in r'.consumers ensures ConsumerOk(r', q'.tickets, u, r'.consumers[u]) {
      ConsumerStands(r, q.tickets, r', q'.tickets, u, r.consumers[u]);
    }
    forall n | 0 <= n < |q'.tickets| ensures Held(r', n, q'.tickets[n]) {
      assert n < |q.tickets| ==> Held(r, n, q.tickets[n]);
    }
  }

  /** A ticket in somebody's hands is less than a turn old. */
  lemma Live<T>(r: Ring<T>, q: Q.Queue<T>, num: nat)
    requires Sim(r, q) && num < |q.tickets| && !q.tickets[num].Delivered?
    ensures r.in_ - r.Size() < num <= r.in_
    ensures q.tickets[num].Claimed? || q.tickets[num].Published? ==> r.out_ < num
    ensures q.tickets[num].Taken? ==> num <= r.out_
    ensures CellOk(r.At(num), q.tickets[num])
  {
  }

  /** Writing the cell of a number in somebody's hands, and moving its ticket on accordingly, leaves every other live
      cell alone and takes nothing away from a thread that stands still. */
  lemma WriteCell<T>(r: Ring<T>, q: Q.Queue<T>, num: nat, cell: Cell<T>, ticket: Q.Ticket<T>, r': Ring<T>)
    requires Sim(r, q) && num < |q.tickets| && (q.tickets[num].Claimed? || q.tickets[num].Taken?)
    requires CellOk(cell, ticket) && (q.tickets[num].Taken? ==> cell.isFree || !r.At(num).isFree)
    requires r'.buffer == r.Put(num, cell).buffer
    requires r'.in_ == r.in_ && r'.out_ == r.out_ && r'.single == r.single
    ensures CellsOk(r', q.tickets[num := ticket])
    ensures Grows(r, q.tickets, r', q.tickets[num := ticket])
    ensures r'.At(num) == cell
    ensures forall n: nat :: r.in_ - r.Size() < n <= r.in_ && n != num ==> r'.At(n) == r.At(n)
  {
    Live(r, q, num);
    forall n: nat
      ensures n != num && n - num < r.Size() && num - n < r.Size() ==> r'.At(n) == r.At(n)
      ensures r'.At(n) == r.At(n) || (r'.At(n) == cell && r.At(n) == r.At(num))
      ensures r'.At(num) == cell
    {
      PutAt(r, num, cell, n);
      assert r'.At(n) == r.Put(num, cell).At(n) && r'.At(num) == r.Put(num, cell).At(num);
    }
    forall n: nat | r.in_ - r.Size() < n <= r.in_ ensures CellOk(r'.At(n), q.tickets[num := ticket][n]) {
      assert CellOk(r.At(n), q.tickets[n]);
    }
  }

  /** Given what the cells look like after a producer's write, the rest of the relation. */
  lemma AfterProducerWrite<T>(r: Ring<T>, q: Q.Queue<T>, t: Tid, num: nat, r': Ring<T>, q': Q.Queue<T>)
    requires Sim(r, q) && t in r.producers && (r.producers[t].PClaimed? || r.producers[t].PFilled?)
    requires num == r.producers[t].num < |q.tickets| && q.tickets[num] == Q.Claimed(t)
    requires Grows(r, q.tickets, r', q'.tickets) && CellsOk(r', q'.tickets) && Q.InOrder(q')
    requires q'.capacity == q.capacity && q'.taken == q.taken
    requires |q'.tickets| == |q.tickets|
    requires forall n :: 0 <= n < |q.tickets| && n != num ==> q'.tickets[n] == q.tickets[n]
    requires forall n: nat :: r.in_ - r.Size() < n <= r.in_ && n != num ==> r'.At(n) == r.At(n)
    requires t in r'.producers && r' == r.(buffer := r'.buffer, producers := r.producers[t := r'.producers[t]])
    requires ProducerOk(r', q'.tickets, t, r'.producers[t]) && Held(r', num, q'.tickets[num])
    ensures Sim(r', q')
  {
    hide Slot, IsPow2;
    forall u | u in r'.producers ensures ProducerOk(r', q'.tickets, u, r'.producers[u]) {
      var p := r'.producers[u];
      if u != t {
        assert ProducerOk(r, q.tickets, u, p);
        if p.PFilled? || p.PClaimed? { Live(r, q, p.num); }
        ProducerStands(r, q.tickets, r', q'.tickets, u, p);
      }
    }
    forall u | u in r'.consumers ensures ConsumerOk(r', q'.tickets, u, r'.consumers[u]) {
      var c := r'.consumers[u];
      assert ConsumerOk(r, q.tickets, u, c);
      if c.CClaimed? || c.CMoved? { Live(r, q, c.num); }
      ConsumerStands(r, q.tickets, r', q'.tickets, u, c);
    }
    forall n | 0 <= n < |q'.tickets| ensures Held(r', n, q'.tickets[n]) {
      assert Held(r, n, q.tickets[n]);
    }
  }

  /** Writing a claimed slot. */
  lemma FillSim<T>(r: Ring<T>, q: Q.Queue<T>, t: Tid, v: T)
    requires Sim(r, q) && t in r.producers && (r.producers[t].PClaimed? || r.producers[t].PFilled?)
    ensures var num := r.producers[t].num;
            Sim(r.Put(num, r.At(num).(task := v)).WithProducer(t, PFilled(num, v)), q)
  {
    var num := r.producers[t].num;
    var cell := r.At(num).(task := v);
    var r' := r.Put(num, cell).WithProducer(t, PFilled(num, v));
    assert ProducerOk(r, q.tickets, t, r.producers[t]);
    Live(r, q, num);
    assert q.tickets[num := q.tickets[num]] == q.tickets;
    WriteCell(r, q, num, cell, q.tickets[num], r');
    AfterProducerWrite(r, q, t, num, r', q);
  }

  /** publish(num). */
  lemma PublishSim<T>(r: Ring<T>, q: Q.Queue<T>, t: Tid)
    requires Sim(r, q) && t in r.producers && r.producers[t].PFilled?
    ensures var num, v := r.producers[t].num, r.producers[t].value;
            Q.Enabled(q, Q.Publish(t, num, v))
            && Sim(r.Put(num, r.At(num).(isFree := false)).WithProducer(t, PIdle), Q.Apply(q, Q.Publish(t, num, v)))
  {
    var num, v := r.producers[t].num, r.producers[t].value;
    var cell := r.At(num).(isFree := false);
    var r' := r.Put(num, cell).WithProducer(t, PIdle);
    assert ProducerOk(r, q.tickets, t, r.producers[t]);
    Q.ApplyKeepsOrder(q, Q.Publish(t, num, v));
    WriteCell(r, q, num, cell, Q.Published(t, v), r');
    AfterProducerWrite(r, q, t, num, r', Q.Apply(q, Q.Publish(t, num, v)));
  }

  lemma TakeEnabled<T>(r: Ring<T>, q: Q.Queue<T>, t: Tid)
    requires Sim(r, q) && t in r.consumers && r.consumers[t].CCas? && r.consumers[t].current == r.out_
    ensures r.out_ < r.in_ && q.tickets[r.out_ + 1].Published?
    ensures r.At(r.out_ + 1).task == q.tickets[r.out_ + 1].value && !r.At(r.out_ + 1).isFree
  {
  }

  lemma TakeCells<T>(r: Ring<T>, q: Q.Queue<T>, num: nat, r': Ring<T>, ticket: Q.Ticket<T>)
    requires Sim(r, q) && num < |q.tickets| && q.tickets[num].Published? && ticket.Taken?
    requires r'.buffer == r.buffer && r'.in_ == r.in_
    ensures CellsOk(r', q.tickets[num := ticket])
  {
    forall n: nat | r'.in_ - r.Size() < n <= r'.in_ ensures CellOk(r'.At(n), q.tickets[num := ticket][n]) {
      assert CellOk(r.At(n), q.tickets[n]);
    }
    assert forall n: nat | r'.in_ < n < r'.Size() :: r'.At(n) == r.At(n);
  }

  /** A successful claim by a consumer. */
  lemma TakeSim<T>(r: Ring<T>, q: Q.Queue<T>, t: Tid)
    requires Sim(r, q) && t in r.consumers && r.consumers[t].CCas? && r.consumers[t].current == r.out_
    ensures Q.Enabled(q, Q.Take(t, r.out_ + 1))
    ensures Sim(r.(out_ := r.out_ + 1).WithConsumer(t, CClaimed(r.out_ + 1)), Q.Apply(q, Q.Take(t, r.out_ + 1)))
  {
    hide Slot, IsPow2;
    var num := r.out_ + 1;
    TakeEnabled(r, q, t);
    Q.ApplyKeepsOrder(q, Q.Take(t, num));
    var r' := r.(out_ := num).WithConsumer(t, CClaimed(num));
    var q' := Q.Apply(q, Q.Take(t, num));
    TakeCells(r, q, num, r', q'.tickets[num]);
    assert Grows(r, q.tickets, r', q'.tickets);
    forall u | u in r'.producers ensures ProducerOk(r', q'.tickets, u, r'.producers[u]) {
      ProducerStands(r, q.tickets, r', q'.tickets, u, r.producers[u]);
    }
    forall u | u in r'.consumers ensures ConsumerOk(r', q'.tickets, u, r'.consumers[u]) {
      if u != t { ConsumerStands(r, q.tickets, r', q'.tickets, u, r.consumers[u]); }
    }
    forall n | 0 <= n < |q'.tickets| ensures Held(r', n, q'.tickets[n]) {
      assert Held(r, n, q.tickets[n]);
    }
  }

  lemma AfterConsumerWrite<T>(r: Ring<T>, q: Q.Queue<T>, t: Tid, num: nat, r': Ring<T>, q': Q.Queue<T>)
    requires Sim(r, q) && t in r.consumers && (r.consumers[t].CClaimed? || r.consumers[t].CMoved?)
    requires num == r.consumers[t].num < |q.tickets| && q.tickets[num].Taken? && q.tickets[num].consumer == t
    requires Grows(r, q.tickets, r', q'.tickets) && CellsOk(r', q'.tickets) && Q.InOrder(q')
    requires q'.capacity == q.capacity && q'.taken == q.taken
    requires |q'.tickets| == |q.tickets|
    requires forall n :: 0 <= n < |q.tickets| && n != num ==> q'.tickets[n] == q.tickets[n]
    requires forall n: nat :: r.in_ - r.Size() < n <= r.in_ && n != num ==> r'.At(n) == r.At(n)
    requires t in r'.consumers && r' == r.(buffer := r'.buffer, consumers := r.consumers[t := r'.consumers[t]])
    requires ConsumerOk(r', q'.tickets, t, r'.consumers[t]) && Held(r', num, q'.tickets[num])
    ensures Sim(r', q')
  {
    hide Slot, IsPow2;
    forall u | u in r'.producers ensures ProducerOk(r', q'.tickets, u, r'.producers[u]) {
      var p := r'.producers[u];
      assert ProducerOk(r, q.tickets, u, p);
      if p.PFilled? || p.PClaimed? { Live(r, q, p.num); }
      ProducerStands(r, q.tickets, r', q'.tickets, u, p);
    }
    forall u | u in r'.consumers ensures ConsumerOk(r', q'.tickets, u, r'.consumers[u]) {
      var c := r'.consumers[u];
      if u != t {
        assert ConsumerOk(r, q.tickets, u, c);
        if c.CClaimed? || c.CMoved? { Live(r, q, c.num); }
        ConsumerStands(r, q.tickets, r', q'.tickets, u, c);
      }
    }
    forall n | 0 <= n < |q'.tickets| ensures Held(r', n, q'.tickets[n]) {
      assert Held(r, n, q.tickets[n]);
    }
  }

  /** Moving the element out: what is read is what the ticket carries. */
  lemma MoveSim<T>(r: Ring<T>, q: Q.Queue<T>, t: Tid, left: T)
    requires Sim(r, q) && t in r.consumers && r.consumers[t].CClaimed?
    ensures var num := r.consumers[t].num;
            Sim(r.Put(num, r.At(num).(task := left)).WithConsumer(t, CMoved(num, r.At(num).task)), q)
  {
    var num := r.consumers[t].num;
    var cell := r.At(num).(task := left);
    var r' := r.Put(num, cell).WithConsumer(t, CMoved(num, r.At(num).task));
    assert ConsumerOk(r, q.tickets, t, r.consumers[t]);
    Live(r, q, num);
    assert q.tickets[num := q.tickets[num]] == q.tickets;
    WriteCell(r, q, num, cell, q.tickets[num], r');
    AfterConsumerWrite(r, q, t, num, r', q);
  }

  /** consumer_done(num). */
  lemma DoneSim<T>(r: Ring<T>, q: Q.Queue<T>, t: Tid)
    requires Sim(r, q) && t in r.consumers && r.consumers[t].CMoved?
    ensures var num, v := r.consumers[t].num, r.consumers[t].value;
            Q.Enabled(q, Q.Deliver(t, num, v))
            && Sim(r.Put(num, r.At(num).(isFree := true)).WithConsumer(t, CIdle), Q.Apply(q, Q.Deliver(t, num, v)))
  {
    var num, v := r.consumers[t].num, r.consumers[t].value;
    var cell := r.At(num).(isFree := true);
    var r' := r.Put(num, cell).WithConsumer(t, CIdle);
    assert ConsumerOk(r, q.tickets, t, r.consumers[t]);
    Q.ApplyKeepsOrder(q, Q.Deliver(t, num, v));
    WriteCell(r, q, num, cell, Q.Delivered(q.tickets[num].producer, v, t), r');
    AfterConsumerWrite(r, q, t, num, r', Q.Apply(q, Q.Deliver(t, num, v)));
  }

  lemma ProducerOkQuiet<T>(r: Ring<T>, q: Q.Queue<T>, t: Tid, a: Action<T>, r': Ring<T>)
    requires Sim(r, q) && r.Shaped() && t in r.producers && ProducerStep(r, t, a) == Some(r')
    requires !a.Fill? && (a.Step? ==> !r.producers[t].PFilled?)
    requires a.Step? && r.producers[t].PCas? ==> !r.single && r.in_ != r.producers[t].current
    ensures ProducerOk(r, q.tickets, t, r'.producers[t])
    ensures r' == r.(cacheOut := r'.cacheOut).WithProducer(t, r'.producers[t])
    ensures r'.cacheOut <= r.out_
    ensures !r.producers[t].PClaimed? && !r.producers[t].PFilled?
    ensures !r'.producers[t].PClaimed? && !r'.producers[t].PFilled?
  {
    hide Sim, Slot, IsPow2;
    ProducerKnows(r, q, t);
  }

  lemma ProducerKnows<T>(r: Ring<T>, q: Q.Queue<T>, t: Tid)
    requires Sim(r, q) && t in r.producers
    ensures r.Shaped() && ProducerOk(r, q.tickets, t, r.producers[t]) && r.cacheOut <= r.out_
  {
  }

  lemma ConsumerKnows<T>(r: Ring<T>, q: Q.Queue<T>, t: Tid)
    requires Sim(r, q) && t in r.consumers
    ensures r.Shaped() && |q.tickets| == r.in_ + 1
    ensures ConsumerOk(r, q.tickets, t, r.consumers[t]) && r.cacheIn <= r.in_
  {
  }

  lemma NextFullIsPublished<T>(r: Ring<T>, q: Q.Queue<T>)
    requires Sim(r, q)
    ensures r.Shaped() && |q.tickets| == r.in_ + 1
    ensures r.out_ < r.in_ && !r.At(r.out_ + 1).isFree ==> q.tickets[r.out_ + 1].Published?
  {
  }

  /** What a consumer knows after a step that claims and moves nothing; a cell seen full is a published one. */
  lemma ConsumerOkQuiet<T>(r: Ring<T>, q: Q.Queue<T>, t: Tid, a: Action<T>, r': Ring<T>)
    requires Sim(r, q) && r.Shaped() && t in r.consumers && ConsumerStep(r, t, a) == Some(r')
    requires !r.consumers[t].CClaimed? && !r.consumers[t].CMoved?
    requires a.Step? && r.consumers[t].CCas? ==> r.out_ != r.consumers[t].current
    ensures |q.tickets| == r.in_ + 1 && ConsumerOk(r, q.tickets, t, r'.consumers[t])
    ensures r' == r.(cacheIn := r'.cacheIn).WithConsumer(t, r'.consumers[t])
    ensures r'.cacheIn <= r.in_ && !r'.consumers[t].CClaimed? && !r'.consumers[t].CMoved?
  {
    hide Sim, Slot, IsPow2;
    var c := r.consumers[t];
    ConsumerKnows(r, q, t);
    NextFullIsPublished(r, q);
  }

  /** One step of the ring is one step of the queue, or none: forward simulation. */
  lemma ProducerStepSim<T>(r: Ring<T>, q: Q.Queue<T>, t: Tid, a: Action<T>, r': Ring<T>)
    requires Sim(r, q) && r.Shaped() && t in r.producers && ProducerStep(r, t, a) == Some(r')
    ensures Q.Enabled(q, Observed(r, ByProducer(t, a)))
    ensures Sim(r', Q.Apply(q, Observed(r, ByProducer(t, a))))
  {
    hide Sim, Slot, IsPow2;
    var p := r.producers[t];
    ProducerKnows(r, q, t);
    if a.Fill? {
      FillSim(r, q, t, a.value);
    } else if a.Step? && p.PFilled? {
      PublishSim(r, q, t);
    } else if a.Step? && p.PCas? && (r.single || r.in_ == p.current) {
      ClaimSim(r, q, t);
    } else {
      ProducerOkQuiet(r, q, t, a, r');
      ProducerQuiet(r, q, t, r'.producers[t], r'.cacheOut);
    }
  }

  lemma ConsumerStepSim<T>(r: Ring<T>, q: Q.Queue<T>, t: Tid, a: Action<T>, r': Ring<T>)
    requires Sim(r, q) && r.Shaped() && t in r.consumers && ConsumerStep(r, t, a) == Some(r')
    ensures Q.Enabled(q, Observed(r, ByConsumer(t, a)))
    ensures Sim(r', Q.Apply(q, Observed(r, ByConsumer(t, a))))
  {
    hide Sim, Slot, IsPow2;
    var c := r.consumers[t];
    ConsumerKnows(r, q, t);
    if a.MoveOut? {
      MoveSim(r, q, t, a.left);
    } else if a.Step? && c.CMoved? {
      DoneSim(r, q, t);
    } else if a.Step? && c.CCas? && r.out_ == c.current {
      TakeSim(r, q, t);
    } else {
      ConsumerOkQuiet(r, q, t, a, r');
      ConsumerQuiet(r, q, t, r'.consumers[t], r'.cacheIn);
    }
  }

  lemma StepSim<T>(r: Ring<T>, q: Q.Queue<T>, l: Label<T>, r': Ring<T>)
    requires Sim(r, q) && Next(r, l, r')
    ensures Q.Enabled(q, Observed(r, l)) && Sim(r', Q.Apply(q, Observed(r, l)))
  {
    match l
    case ByProducer(t, a) => ProducerStepSim(r, q, t, a, r');
    case ByConsumer(t, a) => ConsumerStepSim(r, q, t, a, r');
  }

  ghost function Events<T>(run: seq<Ring<T>>, labels: seq<Label<T>>): seq<Q.Event<T>>
    requires |run| == |labels| + 1
  {
    seq(|labels|, i requires 0 <= i < |labels| => Observed(run[i], labels[i]))
  }

  /** Refinement: what any run of the ring shows is something the ticket queue can do. */
  lemma {:induction false} RunRefines<T(!new)>(run: seq<Ring<T>>, labels: seq<Label<T>>) returns (q: Q.Queue<T>)
    requires IsRun(run, labels)
    ensures run[0].Shaped() && Q.IsTrace(Events(run, labels), run[0].Size(), q)
    ensures Sim(run[|labels|], q)
    decreases |labels|
  {
    var n := |labels| - 1;
    if n < 0 {
      InitSim(run[0]);
      q := Q.Empty(run[0].Size());
    } else {
      assert IsRun(run[..n + 1], labels[..n]);
      var before := RunRefines(run[..n + 1], labels[..n]);
      StepSim(run[n], before, labels[n], run[n + 1]);
      q := Q.Apply(before, Observed(run[n], labels[n]));
      assert Front(Events(run, labels)) == Events(run[..n + 1], labels[..n]);
    }
  }

  ghost predicate Reachable<T(!new)>(r: Ring<T>) {
    exists run: seq<Ring<T>>, labels :: IsRun(run, labels) && r == run[|labels|]
  }

  /** The three asserts of circbuf.h, in every reachable state of any interleaving: a slot is free right after it is
      claimed and right up to publish, and full from the consumer's claim right up to consumer_done. */
  lemma AssertsHold<T(!new)>(r: Ring<T>)
    requires Reachable(r)
    ensures r.Shaped()
    ensures forall t :: t in r.producers && r.producers[t].PClaimed? ==> r.At(r.producers[t].num).isFree
    ensures forall t :: t in r.producers && r.producers[t].PFilled? ==> r.At(r.producers[t].num).isFree
    ensures forall t :: t in r.consumers && r.consumers[t].CMoved? ==> !r.At(r.consumers[t].num).isFree
  {
    var run: seq<Ring<T>>, labels :| IsRun(run, labels) && r == run[|labels|];
    var q := RunRefines(run, labels);
    forall t | t in r.producers && (r.producers[t].PClaimed? || r.producers[t].PFilled?)
      ensures r.At(r.producers[t].num).isFree
    {
      assert ProducerOk(r, q.tickets, t, r.producers[t]);
      Live(r, q, r.producers[t].num);
    }
    forall t | t in r.consumers && r.consumers[t].CMoved? ensures !r.At(r.consumers[t].num).isFree {
      assert ConsumerOk(r, q.tickets, t, r.consumers[t]);
      Live(r, q, r.consumers[t].num);
    }
  }

  /** A thread that may touch a slot: a producer filling it or a consumer emptying it. */
  datatype Owner = ProducerOwner(tid: Tid) | ConsumerOwner(tid: Tid)

  ghost predicate Owns<T>(r: Ring<T>, o: Owner, num: nat) {
    match o
    case ProducerOwner(t) =>
      t in r.producers && (r.producers[t].PClaimed? || r.producers[t].PFilled?) && r.producers[t].num == num
    case ConsumerOwner(t) =>
      t in r.consumers && (r.consumers[t].CClaimed? || r.consumers[t].CMoved?) && r.consumers[t].num == num
  }

  /** No slot ever has two owners. */
  lemma OneOwnerPerSlot<T(!new)>(r: Ring<T>, a: Owner, m: nat, b: Owner, n: nat)
    requires Reachable(r) && Owns(r, a, m) && Owns(r, b, n) && a != b
    ensures r.Shaped() && Slot(m, r.Size()) != Slot(n, r.Size())
  {
    hide Sim;
    var run: seq<Ring<T>>, labels :| IsRun(run, labels) && r == run[|labels|];
    var q := RunRefines(run, labels);
    OwnerKnows(r, q, a, m);
    OwnerKnows(r, q, b, n);
    SlotShared(m, n, r.Size());
  }

  lemma OwnerKnows<T>(r: Ring<T>, q: Q.Queue<T>, o: Owner, num: nat)
    requires Sim(r, q) && Owns(r, o, num)
    ensures r.Shaped() && r.in_ - r.Size() < num <= r.in_ && num < |q.tickets|
    ensures match o
            case ProducerOwner(t) => q.tickets[num] == Q.Claimed(t)
            case ConsumerOwner(t) => q.tickets[num].Taken? && q.tickets[num].consumer == t
  {
  }

  /** The caches never run ahead, the counters never drift more than a turn apart, and every claim a cache lets
      through is one the exact check would let through too. */
  lemma CachesAreSound<T(!new)>(r: Ring<T>)
    requires Reachable(r)
    ensures r.Shaped()
    ensures r.cacheOut <= r.out_ <= r.in_ <= r.out_ + r.Size() && r.cacheIn <= r.in_
    ensures forall t :: t in r.producers && r.producers[t].PCas? && r.producers[t].current == r.in_ ==>
              r.in_ + 1 - r.Size() <= r.out_ && r.At(r.in_ + 1).isFree
    ensures forall t :: t in r.consumers && r.consumers[t].CCas? && r.consumers[t].current == r.out_ ==>
              r.out_ + 1 <= r.in_ && !r.At(r.out_ + 1).isFree
  {
    var run: seq<Ring<T>>, labels :| IsRun(run, labels) && r == run[|labels|];
    var q := RunRefines(run, labels);
    forall t | t in r.producers && r.producers[t].PCas? && r.producers[t].current == r.in_
      ensures r.in_ + 1 - r.Size() <= r.out_ && r.At(r.in_ + 1).isFree
    {
      ClaimEnabled(r, q, t);
    }
    forall t | t in r.consumers && r.consumers[t].CCas? && r.consumers[t].current == r.out_
      ensures r.out_ + 1 <= r.in_ && !r.At(r.out_ + 1).isFree
    {
      TakeEnabled(r, q, t);
    }
  }

  /** Step k of the run is publish(num). */
  ghost predicate Publishes<T>(run: seq<Ring<T>>, labels: seq<Label<T>>, k: int, num: nat)
    requires |run| == |labels| + 1
  {
    0 <= k < |labels| && Observed(run[k], labels[k]).Publish? && Observed(run[k], labels[k]).num == num
  }

  /** First in, first out by number, whatever the interleaving: the value consumer_done completes under a number is the
      value its one producer published under that number, earlier, even if producers publish out of order. */
  lemma Fifo<T(!new)>(run: seq<Ring<T>>, labels: seq<Label<T>>, j: nat, consumer: Tid, num: nat, v: T)
      returns (i: nat, producer: Tid)
    requires IsRun(run, labels) && j < |labels|
    requires labels[j] == ByConsumer(consumer, Step)
    requires consumer in run[j].consumers && run[j].consumers[consumer] == CMoved(num, v)
    ensures i < j && labels[i] == ByProducer(producer, Step)
    ensures producer in run[i].producers && run[i].producers[producer] == PFilled(num, v)
    ensures forall k :: Publishes(run, labels, k, num) <==> k == i
  {
    hide Sim, Q.IsTrace;
    var q := RunRefines(run, labels);
    var events := Events(run, labels);
    assert events[j] == Q.Deliver(consumer, num, v);
    Q.DeliversWhatWasPublished(events, run[0].Size(), q, j);
    i, producer :| 0 <= i < j && events[i] == Q.Publish(producer, num, v)
                   && forall k :: 0 <= k < |events| && events[k].Publish? && events[k].num == num ==> k == i;
    assert events[i] == Observed(run[i], labels[i]);
    forall k | Publishes(run, labels, k, num) ensures k == i {
      assert events[k] == Observed(run[k], labels[k]);
    }
  }

  /** Numbers are claimed 0, 1, 2, ... each exactly once, on either side. */
  lemma ClaimedOnceInOrder<T(!new)>(run: seq<Ring<T>>, labels: seq<Label<T>>)
    requires IsRun(run, labels)
    ensures var events := Events(run, labels);
            && run[|labels|].in_ + 1 == Q.CountClaims(events)
            && run[|labels|].out_ + 1 == Q.CountTakes(events)
            && (forall i :: 0 <= i < |events| && events[i].Claim? ==> events[i].num == Q.CountClaims(events[..i]))
            && (forall i :: 0 <= i < |events| && events[i].Take? ==> events[i].num == Q.CountTakes(events[..i]))
  {
    var q := RunRefines(run, labels);
    Q.NumbersAreHandedOutInOrder(Events(run, labels), run[0].Size(), q);
  }
}
