/** The response queue end to end: worker threads that run Task::operator() publish into the ring and notify through
    an eventfd; one event loop waits on the eventfd, runs ResponseCb, and drains the ring. Steps of all threads
    interleave freely; the eventfd is a counter whose reads and writes succeed. */
module ResponseQueue {
  import opened Basics
  import opened CircBuf
  import opened CircBufRefinement
  import Q = TicketQueue

  /** Where a worker is once it has published number num: set_flag_and_notify. */
  datatype Notify =
    | Working
    | Exchange(num: nat)   // flag_.exchange(true) not yet done
    | Signal(num: nat)     // the flag was clear: write(event_fd_) not yet done

  const LOOP: Tid := 0

  datatype Response<T> = Response(num: nat, value: T)

  /** `published` and `received` record what publish() made known under each number, and what the loop has taken out
      and been done with. */
  datatype System<T> = System(
    ring: Ring<T>,
    flag: bool,
    counter: nat,
    notify: map<Tid, Notify>,
    loop: LoopPc,
    published: map<nat, T>,
    received: seq<Response<T>>)

  datatype Move<T> =
    | Work(tid: Tid, action: Action<T>)
    | Swap(tid: Tid)
    | Write(tid: Tid)
    | Wake
    | Read
    | Clear
    | Drain(action: Action<T>)

  ghost predicate SystemInit<T(!new)>(s: System<T>) {
    && Init(s.ring) && !s.ring.single
    && s.ring.consumers.Keys == {LOOP}
    && s.notify.Keys == s.ring.producers.Keys
    && (forall t :: t in s.notify ==> s.notify[t] == Working)
    && !s.flag && s.counter == 0 && s.loop == Waiting
    && s.published == map[] && s.received == []
  }

  ghost predicate SystemNext<T>(s: System<T>, m: Move<T>, s': System<T>) {
    match m
    case Work(t, a) =>
      && s.ring.Shaped() && t in s.ring.producers && t in s.notify && s.notify[t] == Working
      && ProducerStep(s.ring, t, a) == Some(s'.ring)
      && (var p := s.ring.producers[t];
          var publishes := a.Step? && p.PFilled?;
          s' == s.(ring := s'.ring,
                   notify := if publishes then s.notify[t := Exchange(p.num)] else s.notify,
                   published := if publishes then s.published[p.num := p.value] else s.published))
    case Swap(t) =>
      && t in s.notify && s.notify[t].Exchange?
      && s' == s.(flag := true,
                  notify := s.notify[t := if s.flag then Working else Signal(s.notify[t].num)])
    case Write(t) =>
      && t in s.notify && s.notify[t].Signal?
      && s' == s.(counter := s.counter + 1, notify := s.notify[t := Working])
    case Wake => s.loop == Waiting && s.counter > 0 && s' == s.(loop := Reading)
    case Read => s.loop == Reading && s' == s.(counter := 0, loop := Clearing)
    case Clear => s.loop == Clearing && s' == s.(flag := false, loop := Draining)
    case Drain(a) =>
      && s.loop == Draining && s.ring.Shaped() && LOOP in s.ring.consumers && LOOP in s'.ring.consumers
      && (a.Get? ==> a.wait == NoBlock)
      && ConsumerStep(s.ring, LOOP, a) == Some(s'.ring)
      && (var c := s.ring.consumers[LOOP];
          s' == s.(ring := s'.ring, loop := if GaveNothing(s, s') then Waiting else Draining,
                   received := if a.Step? && c.CMoved? then s.received + [Response(c.num, c.value)] else s.received))
  }

  /** wait_for returned -1. */
  ghost predicate GaveNothing<T>(s: System<T>, s': System<T>)
    requires LOOP in s.ring.consumers && LOOP in s'.ring.consumers
  {
    (s.ring.consumers[LOOP].CEmptyIn? || s.ring.consumers[LOOP].CEmptyOut?) && s'.ring.consumers[LOOP].CIdle?
  }

  ghost predicate IsSystemRun<T(!new)>(run: seq<System<T>>, moves: seq<Move<T>>) {
    && |run| == |moves| + 1
    && SystemInit(run[0])
    && forall i :: 0 <= i < |moves| ==> SystemNext(run[i], moves[i], run[i + 1])
  }

  ghost predicate ReachableSystem<T(!new)>(s: System<T>) {
    exists run: seq<System<T>>, moves :: IsSystemRun(run, moves) && s == run[|moves|]
  }

  function Writers<T>(s: System<T>): set<Tid> {
    set t | t in s.notify && s.notify[t].Signal?
  }

  /** The wake-up token: in a worker's hands between exchange and write, in the eventfd, or in the loop's hands between
      read and clear. */
  function Tokens<T>(s: System<T>): nat {
    |Writers(s)| + s.counter + (if s.loop == Clearing then 1 else 0)
  }

  /** Everything published and not yet taken has been or is about to be announced. */
  ghost predicate AllAnnounced<T>(s: System<T>, q: Q.Queue<T>) {
    forall n :: 0 <= n < |q.tickets| && q.tickets[n].Published? ==> Announced(s, n, q.tickets[n].producer)
  }

  ghost predicate Announced<T>(s: System<T>, n: nat, producer: Tid) {
    s.flag || (producer in s.notify && s.notify[producer] == Exchange(n))
  }

  /** What holds in every reachable state, the ring being abstracted by q. */
  ghost predicate Inv<T>(s: System<T>, q: Q.Queue<T>) {
    && Sim(s.ring, q)
    && !s.ring.single
    && s.ring.consumers.Keys == {LOOP}
    && s.notify.Keys == s.ring.producers.Keys
    && Tokens(s) == (if s.flag then 1 else 0)
    && (s.loop == Reading ==> s.counter == 1)
    && (forall t :: t in s.notify && s.notify[t] != Working ==> s.ring.producers[t] == PIdle)
    && LoopInv(s, q)
  }

  ghost predicate LoopInv<T>(s: System<T>, q: Q.Queue<T>)
    requires LOOP in s.ring.consumers
  {
    var c := s.ring.consumers[LOOP];
    && (s.loop != Draining ==> c == CIdle)
    && (s.loop == Waiting || s.loop == Reading ==> AllAnnounced(s, q))
    && (c.CEmptyIn? && c.seenIn == s.ring.out_ ==> AllAnnounced(s, q))
    && (c.CEmptyOut? ==> c.seenOut == s.ring.out_)
  }

  lemma InitInv<T(!new)>(s: System<T>)
    requires SystemInit(s)
    ensures Inv(s, Q.Empty(s.ring.Size()))
  {
    InitSim(s.ring);
    assert Writers(s) == {};
  }

  /** An empty ring has nothing to announce. */
  lemma EmptyIsAnnounced<T>(s: System<T>, q: Q.Queue<T>)
    requires Sim(s.ring, q) && s.ring.in_ == s.ring.out_
    ensures AllAnnounced(s, q)
  {
  }

  lemma WorkKeepsInv<T>(s: System<T>, q: Q.Queue<T>, t: Tid, a: Action<T>, s': System<T>)
    requires Inv(s, q) && SystemNext(s, Work(t, a), s')
    ensures Q.Enabled(q, Observed(s.ring, ByProducer(t, a)))
    ensures Inv(s', Q.Apply(q, Observed(s.ring, ByProducer(t, a))))
  {
    hide AllAnnounced, Observed, ProducerStep, Q.Apply, Sim;
    ProducerStepSim(s.ring, q, t, a, s'.ring);
    ProducerStepFrame(s.ring, t, a, s'.ring);
    assert Writers(s') == Writers(s);
    if AllAnnounced(s, q) {
      WorkAnnounces(s, q, t, a, s');
    }
  }

  /** What a worker publishes it is about to announce. */
  lemma WorkAnnounces<T>(s: System<T>, q: Q.Queue<T>, t: Tid, a: Action<T>, s': System<T>)
    requires AllAnnounced(s, q) && SystemNext(s, Work(t, a), s')
    requires Q.Enabled(q, Observed(s.ring, ByProducer(t, a)))
    ensures AllAnnounced(s', Q.Apply(q, Observed(s.ring, ByProducer(t, a))))
  {
    hide ProducerStep;
    var q' := Q.Apply(q, Observed(s.ring, ByProducer(t, a)));
    forall n | 0 <= n < |q'.tickets| && q'.tickets[n].Published?
      ensures Announced(s', n, q'.tickets[n].producer)
    {
      if n < |q.tickets| && q.tickets[n].Published? {
        assert Announced(s, n, q.tickets[n].producer);
      }
    }
  }

  /** A producer step touches no consumer, no other producer, and not out_. */
  lemma ProducerStepFrame<T>(r: Ring<T>, t: Tid, a: Action<T>, r': Ring<T>)
    requires r.Shaped() && t in r.producers && ProducerStep(r, t, a) == Some(r')
    ensures r'.consumers == r.consumers && r'.out_ == r.out_ && r'.single == r.single
    ensures r'.producers.Keys == r.producers.Keys
    ensures forall u :: u in r.producers && u != t ==> r'.producers[u] == r.producers[u]
    ensures a.Step? && r.producers[t].PFilled? ==> r'.producers[t] == PIdle
  {
    hide PowerOfTwo.IsPow2, PowerOfTwo.Slot, Ring.At;
    assert r'.producers == r.producers[t := r'.producers[t]];
  }

  lemma ConsumerStepFrame<T>(r: Ring<T>, t: Tid, a: Action<T>, r': Ring<T>)
    requires r.Shaped() && t in r.consumers && ConsumerStep(r, t, a) == Some(r')
    ensures r'.producers == r.producers && r'.in_ == r.in_ && r'.single == r.single
    ensures r'.consumers.Keys == r.consumers.Keys
  {
    hide PowerOfTwo.IsPow2, PowerOfTwo.Slot, Ring.At;
    assert r'.consumers == r.consumers[t := r'.consumers[t]];
  }

  /** What is_empty loads, and what it concludes. */
  lemma EmptyStep<T>(r: Ring<T>, t: Tid, a: Action<T>, r': Ring<T>)
    requires r.Shaped() && t in r.consumers && ConsumerStep(r, t, a) == Some(r') && t in r'.consumers
    ensures var c, c' := r.consumers[t], r'.consumers[t];
            && (c'.CEmptyIn? <==> a == InFirst) && (c'.CEmptyIn? ==> c'.seenIn == r.in_)
            && (c'.CEmptyOut? ==> c'.seenOut == r.out_)
            && (c'.CEmptyIn? || c'.CEmptyOut? || c.CEmptyIn? || c.CEmptyOut? ==> r'.out_ == r.out_)
            && (c.CEmptyIn? && c'.CIdle? ==> c.seenIn == r.out_)
            && (c.CEmptyOut? && c'.CIdle? ==> c.seenOut == r.in_)
  {
    hide PowerOfTwo.IsPow2, PowerOfTwo.Slot, Ring.At;
  }

  lemma DrainKeepsInv<T>(s: System<T>, q: Q.Queue<T>, a: Action<T>, s': System<T>)
    requires Inv(s, q) && SystemNext(s, Drain(a), s')
    ensures Q.Enabled(q, Observed(s.ring, ByConsumer(LOOP, a)))
    ensures Inv(s', Q.Apply(q, Observed(s.ring, ByConsumer(LOOP, a))))
  {
    hide ConsumerStep, Sim;
    ConsumerStepSim(s.ring, q, LOOP, a, s'.ring);
    ConsumerStepFrame(s.ring, LOOP, a, s'.ring);
    EmptyStep(s.ring, LOOP, a, s'.ring);
    var q' := Q.Apply(q, Observed(s.ring, ByConsumer(LOOP, a)));
    assert Writers(s') == Writers(s);
    if s'.ring.in_ == s'.ring.out_ {
      EmptyIsAnnounced(s', q');
    }
    if AllAnnounced(s, q) {
      forall n | 0 <= n < |q'.tickets| && q'.tickets[n].Published?
        ensures Announced(s', n, q'.tickets[n].producer)
      {
        assert q'.tickets[n] == q.tickets[n];
        assert Announced(s, n, q.tickets[n].producer);
      }
    }
  }

  /** Exchange, write and the loop's own steps leave the ring alone, and nothing published loses its announcement
      unless the flag is cleared. */
  lemma StaysAnnounced<T>(s: System<T>, q: Q.Queue<T>, s': System<T>)
    requires AllAnnounced(s, q) && (s.flag ==> s'.flag)
    requires forall t, n :: t in s.notify && s.notify[t] == Exchange(n) ==>
               s'.flag || (t in s'.notify && s'.notify[t] == Exchange(n))
    ensures AllAnnounced(s', q)
  {
  }

  lemma SwapKeepsInv<T>(s: System<T>, q: Q.Queue<T>, t: Tid, s': System<T>)
    requires Inv(s, q) && SystemNext(s, Swap(t), s')
    ensures Inv(s', q)
  {
    hide AllAnnounced, Sim, Tokens, Writers;
    SwapTokens(s, t, s');
    if AllAnnounced(s, q) { StaysAnnounced(s, q, s'); }
  }

  lemma SwapTokens<T>(s: System<T>, t: Tid, s': System<T>)
    requires SystemNext(s, Swap(t), s')
    ensures Tokens(s') == Tokens(s) + if s.flag then 0 else 1
  {
    assert Writers(s') == if s.flag then Writers(s) else Writers(s) + {t};
  }

  lemma WriteKeepsInv<T>(s: System<T>, q: Q.Queue<T>, t: Tid, s': System<T>)
    requires Inv(s, q) && SystemNext(s, Write(t), s')
    ensures Inv(s', q)
  {
    hide AllAnnounced, Sim, Tokens, Writers;
    WriteTokens(s, t, s');
    if AllAnnounced(s, q) { StaysAnnounced(s, q, s'); }
  }

  lemma WriteTokens<T>(s: System<T>, t: Tid, s': System<T>)
    requires SystemNext(s, Write(t), s')
    ensures Tokens(s') == Tokens(s) && (Tokens(s) <= 1 ==> s.counter == 0)
  {
    assert Writers(s) == Writers(s') + {t} && t !in Writers(s');
  }

  lemma LoopKeepsInv<T>(s: System<T>, q: Q.Queue<T>, m: Move<T>, s': System<T>)
    requires Inv(s, q) && SystemNext(s, m, s') && (m.Wake? || m.Read? || m.Clear?)
    ensures Inv(s', q)
  {
  }

  /** What was published is what the tickets hold, and what was received is what those delivered held, by number. */
  ghost predicate Recorded<T>(published: map<nat, T>, received: seq<Response<T>>, tickets: seq<Q.Ticket<T>>) {
    && (forall n :: n in published <==> 0 <= n < |tickets| && !tickets[n].Claimed?)
    && (forall n :: 0 <= n < |tickets| && n in published ==> published[n] == tickets[n].value)
    && |received| <= |tickets|
    && (forall n :: 0 <= n < |tickets| ==> (tickets[n].Delivered? <==> n < |received|))
    && (forall n :: 0 <= n < |received| ==> received[n] == Response(n, tickets[n].value))
  }

  lemma EventIsRecorded<T>(published: map<nat, T>, received: seq<Response<T>>, q: Q.Queue<T>, e: Q.Event<T>)
    requires Recorded(published, received, q.tickets) && Q.Enabled(q, e)
    requires e.Deliver? ==> e.num == |received|
    ensures Recorded(if e.Publish? then published[e.num := e.value] else published,
                     if e.Deliver? then received + [Response(e.num, e.value)] else received, Q.Apply(q, e).tickets)
  {
  }

  lemma WorkIsRecorded<T>(s: System<T>, q: Q.Queue<T>, t: Tid, a: Action<T>, s': System<T>)
    requires Recorded(s.published, s.received, q.tickets) && SystemNext(s, Work(t, a), s')
    requires Q.Enabled(q, Observed(s.ring, ByProducer(t, a)))
    ensures Recorded(s'.published, s'.received, Q.Apply(q, Observed(s.ring, ByProducer(t, a))).tickets)
  {
    hide ProducerStep, Recorded, Q.Apply, Q.Enabled;
    EventIsRecorded(s.published, s.received, q, Observed(s.ring, ByProducer(t, a)));
  }

  /** The one consumer holds the only ticket that is taken and not yet delivered. */
  lemma NextToDeliver<T>(s: System<T>, q: Q.Queue<T>, num: nat)
    requires Inv(s, q) && Recorded(s.published, s.received, q.tickets) && num < |q.tickets| && q.tickets[num].Taken?
    ensures num == |s.received|
  {
    forall n | 0 <= n < |q.tickets| && q.tickets[n].Taken? ensures n == num {
      assert Held(s.ring, n, q.tickets[n]) && Held(s.ring, num, q.tickets[num]);
    }
    assert !q.tickets[|s.received|].Delivered?;
  }

  lemma DrainIsRecorded<T>(s: System<T>, q: Q.Queue<T>, a: Action<T>, s': System<T>)
    requires Inv(s, q) && Recorded(s.published, s.received, q.tickets) && SystemNext(s, Drain(a), s')
    requires Q.Enabled(q, Observed(s.ring, ByConsumer(LOOP, a)))
    ensures Recorded(s'.published, s'.received, Q.Apply(q, Observed(s.ring, ByConsumer(LOOP, a))).tickets)
  {
    hide ConsumerStep, GaveNothing, Inv, Recorded, Q.Apply;
    var e := Observed(s.ring, ByConsumer(LOOP, a));
    if e.Deliver? {
      NextToDeliver(s, q, e.num);
    }
    EventIsRecorded(s.published, s.received, q, e);
  }

  lemma {:induction false} RunKeepsInv<T(!new)>(run: seq<System<T>>, moves: seq<Move<T>>) returns (q: Q.Queue<T>)
    requires IsSystemRun(run, moves)
    ensures Inv(run[|moves|], q) && Recorded(run[|moves|].published, run[|moves|].received, q.tickets)
    decreases |moves|
  {
    hide Inv, Q.Apply;
    var n := |moves| - 1;
    if n < 0 {
      InitInv(run[0]);
      q := Q.Empty(run[0].ring.Size());
    } else {
      assert IsSystemRun(run[..n + 1], moves[..n]);
      q := RunKeepsInv(run[..n + 1], moves[..n]);
      var s, m, s' := run[n], moves[n], run[n + 1];
      assert SystemNext(s, m, s');
      match m
      case Work(t, a) =>
        WorkKeepsInv(s, q, t, a, s');
        WorkIsRecorded(s, q, t, a, s');
        q := Q.Apply(q, Observed(s.ring, ByProducer(t, a)));
      case Drain(a) =>
        DrainKeepsInv(s, q, a, s');
        DrainIsRecorded(s, q, a, s');
        q := Q.Apply(q, Observed(s.ring, ByConsumer(LOOP, a)));
      case Swap(t) => SwapKeepsInv(s, q, t, s');
      case Write(t) => WriteKeepsInv(s, q, t, s');
      case _ => LoopKeepsInv(s, q, m, s');
    }
  }

  /** Token conservation, over all runs: the flag is set exactly while there is one token, and there is never a second;
      so the eventfd counter never exceeds 1, and the loop never reads it empty. */
  lemma TokenConservation<T(!new)>(s: System<T>)
    requires ReachableSystem(s)
    ensures Tokens(s) == if s.flag then 1 else 0
    ensures s.counter <= 1
    ensures s.loop == Reading ==> s.counter == 1
  {
    hide Sim;
    var run: seq<System<T>>, moves :| IsSystemRun(run, moves) && s == run[|moves|];
    var q := RunKeepsInv(run, moves);
  }

  /** No lost wake-up: while a published response is waiting and its worker is past the exchange, the eventfd is
      signalled, or a worker is about to signal it, or the loop is on its way to or still in its drain. */
  lemma NoLostWakeup<T(!new)>(s: System<T>, n: nat)
    requires ReachableSystem(s) && s.ring.Shaped()
    requires s.ring.out_ < n <= s.ring.in_ && !s.ring.At(n).isFree
    requires forall t :: t in s.notify ==> s.notify[t] != Exchange(n)
    ensures s.counter > 0 || Writers(s) != {} || s.loop != Waiting
  {
    var run: seq<System<T>>, moves :| IsSystemRun(run, moves) && s == run[|moves|];
    var q := RunKeepsInv(run, moves);
    assert CellOk(s.ring.At(n), q.tickets[n]);
    assert q.tickets[n].Published?;
    if s.loop == Waiting {
      assert Announced(s, n, q.tickets[n].producer);
    }
  }

  /** The loop receives what was published, in the order of the numbers, and nothing twice. */
  lemma ReceivedAsPublished<T(!new)>(s: System<T>)
    requires ReachableSystem(s)
    ensures |s.received| <= s.ring.out_ + 1
    ensures forall n :: 0 <= n < |s.received| ==> n in s.published && s.received[n] == Response(n, s.published[n])
  {
    var run: seq<System<T>>, moves :| IsSystemRun(run, moves) && s == run[|moves|];
    var q := RunKeepsInv(run, moves);
    if |s.received| > 0 {
      assert q.tickets[|s.received| - 1].Delivered?;
    }
  }

  /** When everything is quiet -- no worker between claiming a slot and finishing its notification, the loop asleep on
      an unsignalled eventfd -- nothing is left behind: every number claimed has been published, the loop has received
      just that, and every slot is free. */
  lemma QuietMeansDelivered<T(!new)>(s: System<T>)
    requires ReachableSystem(s)
    requires forall t :: t in s.ring.producers ==> !s.ring.producers[t].PClaimed? && !s.ring.producers[t].PFilled?
    requires forall t :: t in s.notify ==> s.notify[t] == Working
    requires s.loop == Waiting && s.counter == 0
    ensures |s.received| == s.ring.in_ + 1 && s.ring.in_ == s.ring.out_ && !s.flag
    ensures forall n: nat :: n in s.published <==> n < |s.received|
    ensures forall n :: 0 <= n < |s.received| ==> s.received[n] == Response(n, s.published[n])
    ensures s.ring.Shaped() && forall n: nat :: s.ring.in_ - s.ring.Size() < n <= s.ring.in_ ==> s.ring.At(n).isFree
  {
    hide Inv, Recorded, Sim;
    var run: seq<System<T>>, moves :| IsSystemRun(run, moves) && s == run[|moves|];
    var q := RunKeepsInv(run, moves);
    AllDelivered(s, q);
    SlotsAreFree(s.ring, q);
    AllReceived(s.published, s.received, q.tickets);
  }

  lemma AllReceived<T>(published: map<nat, T>, received: seq<Response<T>>, tickets: seq<Q.Ticket<T>>)
    requires Recorded(published, received, tickets) && forall n :: 0 <= n < |tickets| ==> tickets[n].Delivered?
    ensures |received| == |tickets| && forall n: nat :: n in published <==> n < |received|
    ensures forall n :: 0 <= n < |received| ==> received[n] == Response(n, published[n])
  {
    var last := |tickets| - 1;
    assert last >= 0 ==> tickets[last].Delivered?;
  }

  lemma AllDelivered<T>(s: System<T>, q: Q.Queue<T>)
    requires Inv(s, q)
    requires forall t :: t in s.ring.producers ==> !s.ring.producers[t].PClaimed? && !s.ring.producers[t].PFilled?
    requires forall t :: t in s.notify ==> s.notify[t] == Working
    requires s.loop == Waiting && s.counter == 0
    ensures Sim(s.ring, q) && s.ring.in_ == s.ring.out_ && !s.flag
    ensures forall n :: 0 <= n < |q.tickets| ==> q.tickets[n].Delivered?
  {
    assert Writers(s) == {};
    forall n | 0 <= n < |q.tickets| ensures q.tickets[n].Delivered? && n < q.taken {
      assert Held(s.ring, n, q.tickets[n]);
      assert q.tickets[n].Published? ==> Announced(s, n, q.tickets[n].producer);
    }
    if |q.tickets| > 0 {
      var last := |q.tickets| - 1;
      assert q.tickets[last].Delivered? && last < q.taken;
    }
  }

  lemma SlotsAreFree<T>(r: Ring<T>, q: Q.Queue<T>)
    requires Sim(r, q) && forall n :: 0 <= n < |q.tickets| ==> q.tickets[n].Delivered?
    ensures r.Shaped() && |q.tickets| == r.in_ + 1
    ensures forall n: nat :: r.in_ - r.Size() < n <= r.in_ ==> r.At(n).isFree
  {
    forall n: nat | r.in_ - r.Size() < n <= r.in_ ensures r.At(n).isFree {
      assert CellOk(r.At(n), q.tickets[n]);
    }
  }

  // ---- the ring in a run of the system ----------------------------------------------------------------------------

  ghost function RingLabels<T>(moves: seq<Move<T>>): seq<Label<T>> {
    if moves == [] then [] else
      RingLabels(moves[..|moves| - 1])
      + match moves[|moves| - 1]
        case Work(t, a) => [ByProducer(t, a)]
        case Drain(a) => [ByConsumer(LOOP, a)]
        case _ => []
  }

  /** The states of the ring, each once per step that the ring takes. */
  ghost function Rings<T>(run: seq<System<T>>, moves: seq<Move<T>>): seq<Ring<T>>
    requires |run| == |moves| + 1
    decreases |moves|
  {
    var n := |moves|;
    if n == 0 then [run[0].ring] else
      Rings(run[..n], moves[..n - 1]) + if moves[n - 1].Work? || moves[n - 1].Drain? then [run[n].ring] else []
  }

  /** What the ring does in a run of the system is a run of the ring, so that whatever holds of those holds here. */
  lemma {:induction false} RingRuns<T(!new)>(run: seq<System<T>>, moves: seq<Move<T>>)
    requires IsSystemRun(run, moves)
    ensures |Rings(run, moves)| == |RingLabels(moves)| + 1 && IsRun(Rings(run, moves), RingLabels(moves))
    ensures Rings(run, moves)[|RingLabels(moves)|] == run[|moves|].ring
    decreases |moves|
  {
    hide ConsumerStep, GaveNothing, Init, IsRun, ProducerStep;
    var n := |moves|;
    if n == 0 {
      NoStep(run[0].ring);
    } else {
      assert IsSystemRun(run[..n], moves[..n - 1]);
      RingRuns(run[..n], moves[..n - 1]);
      var rings, labels := Rings(run[..n], moves[..n - 1]), RingLabels(moves[..n - 1]);
      assert SystemNext(run[n - 1], moves[n - 1], run[n]);
      match moves[n - 1] {
        case Work(t, a) => OneMoreStep(rings, labels, ByProducer(t, a), run[n].ring);
        case Drain(a) => OneMoreStep(rings, labels, ByConsumer(LOOP, a), run[n].ring);
        case _ => assert rings + [] == rings && labels + [] == labels;
      }
    }
  }

  lemma NoStep<T(!new)>(r: Ring<T>)
    requires CircBuf.Init(r)
    ensures IsRun([r], [])
  {
  }

  lemma OneMoreStep<T(!new)>(run: seq<Ring<T>>, labels: seq<Label<T>>, l: Label<T>, r': Ring<T>)
    requires IsRun(run, labels) && Next(run[|labels|], l, r')
    ensures |run| == |labels| + 1 && IsRun(run + [r'], labels + [l])
  {
    hide Next;
  }

  /** The ring of the system is in a state that it can reach. */
  lemma RingReachable<T(!new)>(s: System<T>)
    requires ReachableSystem(s)
    ensures Reachable(s.ring)
  {
    var run: seq<System<T>>, moves :| IsSystemRun(run, moves) && s == run[|moves|];
    RingRuns(run, moves);
  }

  // ---- wait_for of the non-blocking strategy ------------------------------------------------------------------------

  /** What the drain rests on: with a single consumer, wait_for of the non-blocking strategy returns -1 only if the ring
      was empty at an instant of its call of is_empty, although that loads in_ and out_ separately, in either order: at
      the load of in_, which is the first of the two or the last. */
  lemma GivesNothingOnlyWhenEmpty<T(!new)>(run: seq<System<T>>, moves: seq<Move<T>>, j: nat) returns (i: nat)
    requires IsSystemRun(run, moves) && j < |moves|
    requires run[j].loop == Draining && run[j + 1].loop == Waiting
    ensures i <= j && (moves[i] == Drain(InFirst) || i == j) && forall k :: i < k < j ==> !moves[k].Drain?
    ensures run[i].ring.in_ == run[i].ring.out_
  {
    hide ConsumerStep, Inv, Init, ProducerStep, Ring.Shaped;
    assert SystemNext(run[j], moves[j], run[j + 1]);
    EmptyStep(run[j].ring, LOOP, moves[j].action, run[j + 1].ring);
    if run[j].ring.consumers[LOOP].CEmptyIn? {
      i := LoadedBefore(run, moves, j);
      assert SystemNext(run[i], moves[i], run[i + 1]);
      EmptyStep(run[i].ring, LOOP, InFirst, run[i + 1].ring);
      LoopStandsStill(run, moves, i + 1, j);
    } else {
      i := j;
      assert IsSystemRun(run[..j + 1], moves[..j]);
      var q := RunKeepsInv(run[..j + 1], moves[..j]);
      LoadedOutStays(run[j], q);
    }
  }

  lemma LoadedOutStays<T>(s: System<T>, q: Q.Queue<T>)
    requires Inv(s, q)
    ensures LOOP in s.ring.consumers
    ensures var c := s.ring.consumers[LOOP]; c.CEmptyOut? ==> c.seenOut == s.ring.out_
  {
  }

  /** Where is_empty loaded in_. */
  lemma {:induction false} LoadedBefore<T(!new)>(run: seq<System<T>>, moves: seq<Move<T>>, j: nat) returns (i: nat)
    requires IsSystemRun(run, moves) && j <= |moves|
    requires LOOP in run[j].ring.consumers && run[j].ring.consumers[LOOP].CEmptyIn?
    ensures i < j && moves[i] == Drain(InFirst) && forall k :: i < k < j ==> !moves[k].Drain?
  {
    hide ConsumerStep, ProducerStep, Ring.Shaped;
    i := j - 1;
    assert SystemNext(run[i], moves[i], run[i + 1]);
    match moves[i] {
      case Work(t, a) =>
        ProducerStepFrame(run[i].ring, t, a, run[j].ring);
        i := LoadedBefore(run, moves, i);
      case Drain(a) =>
        EmptyStep(run[i].ring, LOOP, a, run[j].ring);
      case _ =>
        i := LoadedBefore(run, moves, i);
    }
  }

  lemma {:induction false} LoopStandsStill<T(!new)>(run: seq<System<T>>, moves: seq<Move<T>>, i: nat, j: nat)
    requires IsSystemRun(run, moves) && i <= j <= |moves|
    requires run[i].loop == Draining && LOOP in run[i].ring.consumers
    requires forall k :: i <= k < j ==> !moves[k].Drain?
    ensures run[j].loop == Draining && run[j].ring.consumers == run[i].ring.consumers
    ensures run[j].ring.out_ == run[i].ring.out_
    decreases j - i
  {
    if i < j {
      assert SystemNext(run[i], moves[i], run[i + 1]);
      if moves[i].Work? {
        ProducerStepFrame(run[i].ring, moves[i].tid, moves[i].action, run[i + 1].ring);
      }
      LoopStandsStill(run, moves, i + 1, j);
    }
  }
}
