/** That the protocols get on: what take() and poll() do for a producer that runs alone (circbuf.h), and that from every
    state workers and event loop can bring the response queue to rest, with everything published received. */
module Progress {
  import opened Basics
  import opened CircBuf
  import opened CircBufRefinement
  import opened ResponseQueue
  import PowerOfTwo
  import Q = TicketQueue

  // ---- a producer alone ---------------------------------------------------------------------------------------------

  /** The exact check: the next number is within a turn of what has been taken, and its slot is free. */
  ghost predicate CanClaim<T>(r: Ring<T>)
    requires r.Shaped()
  {
    r.in_ + 1 - r.Size() <= r.out_ && r.At(r.in_ + 1).isFree
  }

  /** The cache lets the next number through. */
  ghost predicate Lets<T>(r: Ring<T>) { r.in_ + 1 - r.Size() <= r.cacheOut }

  /** The ring when producer t has gone on for n steps, or as far as it can, and nobody else has done anything. */
  ghost function Alone<T>(r: Ring<T>, t: Tid, n: nat): (r': Ring<T>)
    requires r.Shaped() && t in r.producers
    ensures r'.Shaped() && t in r'.producers
    decreases n
  {
    if n == 0 || ProducerStep(r, t, Step) == None then r else
      ProducerStepFrame(r, t, Step, ProducerStep(r, t, Step).value);
      StaysShaped(r, t, Step);
      Alone(ProducerStep(r, t, Step).value, t, n - 1)
  }

  lemma StaysShaped<T>(r: Ring<T>, t: Tid, a: Action<T>)
    requires r.Shaped() && t in r.producers && ProducerStep(r, t, a).Some?
    ensures ProducerStep(r, t, a).value.Shaped()
  {
    hide PowerOfTwo.IsPow2, PowerOfTwo.Slot, Ring.At;
  }

  /** A producer inside take() or poll(). */
  predicate OnItsWay<T>(p: Producer<T>, block: bool) {
    match p
    case PLoadIn(b) => b == block
    case PCheckCache(b, _) => b == block
    case PCheckFree(b, _) => b == block
    case PLoadOut(b, _) => b == block
    case PStoreCache(b, _, _) => b == block
    case PCas(b, _) => b == block
    case _ => false
  }

  /** What it knows, though what it has loaded may be stale. */
  ghost predicate Knows<T>(r: Ring<T>, p: Producer<T>)
    requires r.Shaped()
  {
    && r.cacheOut <= r.out_
    && match p
       case PCheckCache(_, current) => Current(r, current)
       case PCheckFree(_, current) => Current(r, current) && current + 1 - r.Size() <= r.out_
       case PLoadOut(_, current) => Current(r, current)
       case PStoreCache(_, current, seen) => Current(r, current) && seen <= r.out_
       case PCas(_, current) => Current(r, current) && (current == r.in_ ==> CanClaim(r))
       case _ => true
  }

  lemma ProducerKnows<T(!new)>(r: Ring<T>, t: Tid)
    requires Reachable(r) && t in r.producers
    ensures r.Shaped() && Knows(r, r.producers[t])
  {
    CachesAreSound(r);
    var run: seq<Ring<T>>, labels :| IsRun(run, labels) && r == run[|labels|];
    var q := RunRefines(run, labels);
    assert ProducerOk(r, q.tickets, t, r.producers[t]);
  }

  /** How many steps it has still to go if it can claim. */
  ghost function ToGo<T>(r: Ring<T>, p: Producer<T>): nat {
    match p
    case PCas(_, current) => if current == r.in_ then 1 else 9
    case PCheckFree(_, current) => if current == r.in_ then 2 else 10
    case PCheckCache(_, current) => if current < r.in_ then 11 else if Lets(r) then 3 else 7
    case PLoadIn(_) => if Lets(r) then 4 else 8
    case PStoreCache(_, _, seen) => if r.in_ + 1 - r.Size() <= seen then 5 else 9
    case PLoadOut(_, _) => 6
    case _ => 0
  }

  /** One step of a blocking claim, when the number can be claimed. */
  lemma Closer<T>(r: Ring<T>, t: Tid)
    requires r.Shaped() && t in r.producers && OnItsWay(r.producers[t], true) && Knows(r, r.producers[t]) && CanClaim(r)
    ensures ProducerStep(r, t, Step).Some?
    ensures var r' := ProducerStep(r, t, Step).value;
            && r'.Shaped() && t in r'.producers
            && if r.producers[t].PCas? && r.producers[t].current == r.in_ then r'.producers[t] == PClaimed(r.in_ + 1)
               else && OnItsWay(r'.producers[t], true) && Knows(r', r'.producers[t]) && CanClaim(r') && r'.in_ == r.in_
                    && ToGo(r', r'.producers[t]) < ToGo(r, r.producers[t])
  {
    hide PowerOfTwo.IsPow2, PowerOfTwo.Slot;
  }

  lemma {:induction false} ClaimsAlone<T>(r: Ring<T>, t: Tid, n: nat)
    requires r.Shaped() && t in r.producers && OnItsWay(r.producers[t], true) && Knows(r, r.producers[t]) && CanClaim(r)
    requires n >= ToGo(r, r.producers[t])
    ensures Alone(r, t, n).producers[t] == PClaimed(r.in_ + 1)
    decreases n
  {
    hide CanClaim, Knows, OnItsWay, ProducerStep;
    Closer(r, t);
    var r' := ProducerStep(r, t, Step).value;
    if r.producers[t].PCas? && r.producers[t].current == r.in_ {
      Finished(r', t, n - 1);
    } else {
      ClaimsAlone(r', t, n - 1);
    }
  }

  /** A call that is over takes no more steps. */
  lemma Finished<T>(r: Ring<T>, t: Tid, n: nat)
    requires r.Shaped() && t in r.producers && (r.producers[t].PClaimed? || r.producers[t].PIdle?)
    ensures Alone(r, t, n) == r
  {
  }

  /** One step of a blocking claim, when the number cannot be claimed. */
  lemma NoCloser<T>(r: Ring<T>, t: Tid)
    requires r.Shaped() && t in r.producers && OnItsWay(r.producers[t], true) && Knows(r, r.producers[t])
    requires !CanClaim(r)
    ensures ProducerStep(r, t, Step).Some?
    ensures var r' := ProducerStep(r, t, Step).value;
            && r'.Shaped() && t in r'.producers && OnItsWay(r'.producers[t], true) && Knows(r', r'.producers[t])
            && !CanClaim(r') && r'.in_ == r.in_
  {
    hide PowerOfTwo.IsPow2, PowerOfTwo.Slot;
  }

  lemma {:induction false} NeverClaims<T>(r: Ring<T>, t: Tid, n: nat)
    requires r.Shaped() && t in r.producers && OnItsWay(r.producers[t], true) && Knows(r, r.producers[t])
    requires !CanClaim(r)
    ensures var r' := Alone(r, t, n);
            r'.in_ == r.in_ && !r'.producers[t].PClaimed?
    decreases n
  {
    hide CanClaim, Knows, ProducerStep;
    NoCloser(r, t);
    if n > 0 {
      NeverClaims(ProducerStep(r, t, Step).value, t, n - 1);
    }
  }

  /** However stale the caches are, and what it has loaded itself, a producer that is in take() and goes on alone claims
      the next number, within eight steps from the call and eleven from anywhere, exactly if the exact check lets it;
      otherwise it never does. */
  lemma TakeAlone<T(!new)>(r: Ring<T>, t: Tid, n: nat)
    requires Reachable(r) && t in r.producers && OnItsWay(r.producers[t], true)
    requires n >= if r.producers[t].PLoadIn? then 8 else 11
    ensures r.Shaped()
    ensures CanClaim(r) ==> Alone(r, t, n).producers[t] == PClaimed(r.in_ + 1)
    ensures !CanClaim(r) ==> !Alone(r, t, n).producers[t].PClaimed? && Alone(r, t, n).in_ == r.in_
  {
    hide CanClaim, Knows;
    ProducerKnows(r, t);
    if CanClaim(r) {
      ClaimsAlone(r, t, n);
    } else {
      NeverClaims(r, t, n);
    }
  }

  /** A producer that has called poll() and runs alone claims the next number exactly if the cache and the exact check
      let it. If only the cache is in the way, it fails, but leaves a cache that will let the next poll through. */
  lemma PollAlone<T(!new)>(r: Ring<T>, t: Tid, n: nat)
    requires Reachable(r) && t in r.producers && r.producers[t] == PLoadIn(false) && n >= 5
    ensures r.Shaped()
    ensures var r' := Alone(r, t, n);
            if CanClaim(r) && Lets(r) then r'.producers[t] == PClaimed(r.in_ + 1)
            else r'.producers[t] == PIdle && r'.in_ == r.in_ && (CanClaim(r) ==> CanClaim(r') && Lets(r'))
  {
    hide ProducerStep;
    CachesAreSound(r);
    if CanClaim(r) && Lets(r) {
      PollsOn(r, t, n);
    } else {
      PollsInVain(r, t, n);
    }
  }

  lemma AloneOn<T>(r: Ring<T>, t: Tid, n: nat, r': Ring<T>)
    requires n > 0 && r.Shaped() && t in r.producers && ProducerStep(r, t, Step) == Some(r')
    ensures r'.Shaped() && t in r'.producers && Alone(r, t, n) == Alone(r', t, n - 1)
  {
    StaysShaped(r, t, Step);
    ProducerStepFrame(r, t, Step, r');
    hide ProducerStep;
  }

  lemma PollsOn<T>(r: Ring<T>, t: Tid, n: nat)
    requires r.Shaped() && t in r.producers && r.producers[t] == PLoadIn(false) && n >= 4 && CanClaim(r) && Lets(r)
    ensures Alone(r, t, n).producers[t] == PClaimed(r.in_ + 1)
  {
    hide Alone, PowerOfTwo.IsPow2, PowerOfTwo.Slot;
    var r1 := r.WithProducer(t, PCheckCache(false, r.in_));
    AloneOn(r, t, n, r1);
    var r2 := r1.WithProducer(t, PCheckFree(false, r.in_));
    AloneOn(r1, t, n - 1, r2);
    var r3 := r2.WithProducer(t, PCas(false, r.in_));
    AloneOn(r2, t, n - 2, r3);
    var r4 := r3.(in_ := r.in_ + 1).WithProducer(t, PClaimed(r.in_ + 1));
    AloneOn(r3, t, n - 3, r4);
    Finished(r4, t, n - 4);
  }

  lemma PollsInVain<T>(r: Ring<T>, t: Tid, n: nat)
    requires r.Shaped() && t in r.producers && r.producers[t] == PLoadIn(false) && n >= 5 && r.cacheOut <= r.out_
    requires !(CanClaim(r) && Lets(r))
    ensures var r' := Alone(r, t, n);
            r'.producers[t] == PIdle && r'.in_ == r.in_ && (CanClaim(r) ==> CanClaim(r') && Lets(r'))
  {
    hide Alone, PowerOfTwo.IsPow2, PowerOfTwo.Slot;
    var r1 := r.WithProducer(t, PCheckCache(false, r.in_));
    AloneOn(r, t, n, r1);
    if Lets(r) {
      var r2 := r1.WithProducer(t, PCheckFree(false, r.in_));
      AloneOn(r1, t, n - 1, r2);
      UpdatesAndFails(r2, t, n - 2);
    } else {
      UpdatesAndFails(r1, t, n - 1);
    }
  }

  lemma UpdatesAndFails<T>(r: Ring<T>, t: Tid, n: nat)
    requires r.Shaped() && t in r.producers && n >= 3
    requires ProducerStep(r, t, Step) == Some(r.WithProducer(t, PLoadOut(false, r.in_)))
    ensures var r' := Alone(r, t, n);
            r'.producers[t] == PIdle && r'.in_ == r.in_ && (CanClaim(r) ==> CanClaim(r') && Lets(r'))
  {
    hide Alone, PowerOfTwo.IsPow2, PowerOfTwo.Slot;
    var r1 := r.WithProducer(t, PLoadOut(false, r.in_));
    AloneOn(r, t, n, r1);
    var r2 := r1.WithProducer(t, PStoreCache(false, r.in_, r.out_));
    AloneOn(r1, t, n - 1, r2);
    var r3 := r2.(cacheOut := r.out_).WithProducer(t, PIdle);
    AloneOn(r2, t, n - 2, r3);
    Finished(r3, t, n - 3);
  }

  // ---- a consumer alone ---------------------------------------------------------------------------------------------

  /** The next number has been claimed, and published. */
  ghost predicate CanTake<T>(r: Ring<T>)
    requires r.Shaped()
  {
    r.out_ < r.in_ && !r.At(r.out_ + 1).isFree
  }

  /** What a consumer inside wait_for does when it is its turn; `first` is the operand that is_empty loads first, and
      `late` says that the deadline of a timed wait has passed. */
  function Turn<T>(c: Consumer<T>, first: Action<T>, late: bool): Action<T> {
    if c.CEmpty? then first else if late && c.CStoreCache? && c.wait.Timeout? then GiveUp else Step
  }

  /** The ring when consumer t has gone on for n steps, or as far as it can, and nobody else has done anything. */
  ghost function AloneOut<T>(r: Ring<T>, t: Tid, first: Action<T>, late: bool, n: nat): (r': Ring<T>)
    requires r.Shaped() && t in r.consumers
    ensures r'.Shaped() && t in r'.consumers
    decreases n
  {
    var a := Turn(r.consumers[t], first, late);
    if n == 0 || ConsumerStep(r, t, a) == None then r else
      ConsumerStepFrame(r, t, a, ConsumerStep(r, t, a).value);
      OutStaysShaped(r, t, a);
      AloneOut(ConsumerStep(r, t, a).value, t, first, late, n - 1)
  }

  lemma OutStaysShaped<T>(r: Ring<T>, t: Tid, a: Action<T>)
    requires r.Shaped() && t in r.consumers && ConsumerStep(r, t, a).Some?
    ensures ConsumerStep(r, t, a).value.Shaped()
  {
    hide PowerOfTwo.IsPow2, PowerOfTwo.Slot, Ring.At;
  }

  /** A consumer inside wait_for. */
  predicate InWait<T>(c: Consumer<T>, wait: Strategy) {
    match c
    case CLoadOut(w) => w == wait
    case CCheckCache(w, _) => w == wait
    case CCheckFree(w, _) => w == wait
    case CLoadIn(w) => w == wait
    case CStoreCache(w, _) => w == wait
    case CEmpty => wait == NoBlock
    case CEmptyIn(_) => wait == NoBlock
    case CEmptyOut(_) => wait == NoBlock
    case CCas(w, _) => w == wait
    case _ => false
  }

  /** What it knows, though what it has loaded may be stale. */
  ghost predicate Waits<T>(r: Ring<T>, c: Consumer<T>, wait: Strategy)
    requires r.Shaped()
  {
    && r.out_ <= r.in_ && r.cacheIn <= r.in_ && InWait(c, wait)
    && match c
       case CCheckCache(_, current) => current <= r.out_
       case CCheckFree(_, current) => current <= r.out_ && current < r.in_
       case CStoreCache(_, seen) => seen <= r.in_
       case CEmptyIn(seenIn) => seenIn <= r.in_
       case CEmptyOut(seenOut) => seenOut <= r.out_
       case CCas(_, current) => current <= r.out_ && (current == r.out_ ==> CanTake(r))
       case _ => true
  }

  lemma ConsumerKnows<T(!new)>(r: Ring<T>, t: Tid, wait: Strategy)
    requires Reachable(r) && t in r.consumers && InWait(r.consumers[t], wait)
    ensures r.Shaped() && Waits(r, r.consumers[t], wait)
  {
    CachesAreSound(r);
    var run: seq<Ring<T>>, labels :| IsRun(run, labels) && r == run[|labels|];
    var q := RunRefines(run, labels);
    assert ConsumerOk(r, q.tickets, t, r.consumers[t]);
  }

  /** is_empty has loaded in_, and will find the same in out_. */
  ghost predicate SeesEmpty<T>(r: Ring<T>, c: Consumer<T>) {
    c.CEmptyIn? && c.seenIn == r.out_
  }

  /** How many steps it has still to go if it can take the next number. */
  ghost function ToWait<T>(r: Ring<T>, c: Consumer<T>): nat {
    var lets := r.out_ < r.cacheIn;
    match c
    case CCas(_, current) => if current == r.out_ then 1 else 10
    case CCheckFree(_, current) => if current == r.out_ then 2 else 11
    case CCheckCache(_, current) => if current < r.out_ then 12 else if lets then 3 else 9
    case CLoadOut(_) => if lets then 4 else 10
    case CEmptyIn(_) => if lets then 5 else 11
    case CEmptyOut(_) => if lets then 5 else 11
    case CEmpty => if lets then 6 else 12
    case CStoreCache(_, seen) => if r.out_ < seen then 7 else 13
    case CLoadIn(_) => 8
    case _ => 0
  }

  /** A step of a consumer that can take the next number. */
  lemma TakesOn<T>(r: Ring<T>, t: Tid, wait: Strategy, first: Action<T>)
    requires r.Shaped() && t in r.consumers && Waits(r, r.consumers[t], wait) && CanTake(r)
    requires (first == InFirst || first == OutFirst) && !SeesEmpty(r, r.consumers[t])
    ensures ConsumerStep(r, t, Turn(r.consumers[t], first, false)).Some?
    ensures var r' := ConsumerStep(r, t, Turn(r.consumers[t], first, false)).value;
            && r'.Shaped() && t in r'.consumers
            && if r.consumers[t].CCas? && r.consumers[t].current == r.out_
               then r'.consumers[t] == CClaimed(r.out_ + 1)
               else && Waits(r', r'.consumers[t], wait) && CanTake(r') && r'.out_ == r.out_
                    && ToWait(r', r'.consumers[t]) < ToWait(r, r.consumers[t]) && !SeesEmpty(r', r'.consumers[t])
  {
    hide CanTake, ConsumerStep, SeesEmpty, ToWait, Waits;
    Takeable(r, r);
    WaitsStill(r, t, wait, first);
    var r' := ConsumerStep(r, t, Turn(r.consumers[t], first, false)).value;
    if !(r.consumers[t].CCas? && r.consumers[t].current == r.out_) {
      TakesSooner(r, t, wait, first);
    }
  }

  lemma TakesSooner<T>(r: Ring<T>, t: Tid, wait: Strategy, first: Action<T>)
    requires r.Shaped() && t in r.consumers && Waits(r, r.consumers[t], wait) && r.out_ < r.in_
    requires (r.consumers[t].CCheckFree? && r.consumers[t].current == r.out_ ==> !r.At(r.out_ + 1).isFree)
    requires !(r.consumers[t].CCas? && r.consumers[t].current == r.out_)
    requires (first == InFirst || first == OutFirst) && !SeesEmpty(r, r.consumers[t])
    requires ConsumerStep(r, t, Turn(r.consumers[t], first, false)).Some?
    ensures var r' := ConsumerStep(r, t, Turn(r.consumers[t], first, false)).value;
            && t in r'.consumers && r'.consumers[t] != CIdle && r'.out_ == r.out_
            && ToWait(r', r'.consumers[t]) < ToWait(r, r.consumers[t]) && !SeesEmpty(r', r'.consumers[t])
  {
    hide CanTake, PowerOfTwo.IsPow2, PowerOfTwo.Slot, Ring.At;
  }

  /** Every step leaves a waiting consumer waiting, or with a number, or with none because is_empty said so. */
  lemma WaitsStill<T>(r: Ring<T>, t: Tid, wait: Strategy, first: Action<T>)
    requires r.Shaped() && t in r.consumers && Waits(r, r.consumers[t], wait)
    requires first == InFirst || first == OutFirst
    ensures ConsumerStep(r, t, Turn(r.consumers[t], first, false)).Some?
    ensures var c, r' := r.consumers[t], ConsumerStep(r, t, Turn(r.consumers[t], first, false)).value;
            && r'.Shaped() && t in r'.consumers && r'.in_ == r.in_
            && if c.CCas? && c.current == r.out_ then r'.consumers[t] == CClaimed(r.out_ + 1)
               else && r'.out_ == r.out_ && (CanTake(r') <==> CanTake(r))
                    && (r'.consumers[t] == CIdle || Waits(r', r'.consumers[t], wait))
  {
    hide CanTake, PowerOfTwo.IsPow2, PowerOfTwo.Slot, Ring.At;
    Takeable(r, ConsumerStep(r, t, Turn(r.consumers[t], first, false)).value);
  }

  lemma Takeable<T>(r: Ring<T>, r': Ring<T>)
    requires r.Shaped()
    ensures CanTake(r) <==> r.out_ < r.in_ && !r.At(r.out_ + 1).isFree
    ensures r'.buffer == r.buffer && r'.in_ == r.in_ && r'.out_ == r.out_ ==>
              r'.Shaped() && (CanTake(r') <==> CanTake(r))
  {
  }

  /** A step of a consumer that cannot. */
  lemma WaitsOn<T>(r: Ring<T>, t: Tid, wait: Strategy, first: Action<T>)
    requires r.Shaped() && t in r.consumers && Waits(r, r.consumers[t], wait) && !CanTake(r)
    requires (first == InFirst || first == OutFirst) && (SeesEmpty(r, r.consumers[t]) ==> r.in_ == r.out_)
    ensures ConsumerStep(r, t, Turn(r.consumers[t], first, false)).Some?
    ensures var r' := ConsumerStep(r, t, Turn(r.consumers[t], first, false)).value;
            && r'.Shaped() && t in r'.consumers && r'.in_ == r.in_ && r'.out_ == r.out_
            && if r'.consumers[t] == CIdle then wait == NoBlock && r.in_ == r.out_
               else && Waits(r', r'.consumers[t], wait) && !CanTake(r')
                    && (SeesEmpty(r', r'.consumers[t]) ==> r'.in_ == r'.out_)
                    && (r.in_ == r.out_ && wait == NoBlock ==>
                          ToGiveUp(r', r'.consumers[t]) < ToGiveUp(r, r.consumers[t]))
  {
    hide CanTake, ConsumerStep, SeesEmpty, ToGiveUp;
    WaitsStill(r, t, wait, first);
    GivesUpSooner(r, t, wait, first);
  }

  lemma GivesUpSooner<T>(r: Ring<T>, t: Tid, wait: Strategy, first: Action<T>)
    requires r.Shaped() && t in r.consumers && Waits(r, r.consumers[t], wait)
    requires !(r.consumers[t].CCas? && r.consumers[t].current == r.out_)
    requires (first == InFirst || first == OutFirst) && (SeesEmpty(r, r.consumers[t]) ==> r.in_ == r.out_)
    requires ConsumerStep(r, t, Turn(r.consumers[t], first, false)).Some?
    ensures var r' := ConsumerStep(r, t, Turn(r.consumers[t], first, false)).value;
            t in r'.consumers
            && if r'.consumers[t] == CIdle then wait == NoBlock && r.in_ == r.out_
               else && (SeesEmpty(r', r'.consumers[t]) ==> r.in_ == r.out_)
                    && (r.in_ == r.out_ && wait == NoBlock ==>
                          ToGiveUp(r', r'.consumers[t]) < ToGiveUp(r, r.consumers[t]))
  {
    hide CanTake, PowerOfTwo.IsPow2, PowerOfTwo.Slot, Ring.At;
  }

  /** How many steps a consumer that does not block has still to go if the ring is empty. */
  ghost function ToGiveUp<T>(r: Ring<T>, c: Consumer<T>): nat {
    match c
    case CEmptyIn(seenIn) => if seenIn == r.out_ then 1 else 7
    case CEmptyOut(seenOut) => if seenOut == r.out_ then 1 else 7
    case CEmpty => 2
    case CStoreCache(_, _) => 3
    case CLoadIn(_) => 4
    case CCheckCache(_, current) => if current == r.out_ then 5 else 8
    case CLoadOut(_) => 6
    case CCas(_, _) => 6
    case CCheckFree(_, _) => 7
    case _ => 0
  }

  lemma AloneOutOn<T>(r: Ring<T>, t: Tid, first: Action<T>, late: bool, n: nat)
    requires n > 0 && r.Shaped() && t in r.consumers && ConsumerStep(r, t, Turn(r.consumers[t], first, late)).Some?
    ensures var r' := ConsumerStep(r, t, Turn(r.consumers[t], first, late)).value;
            r'.Shaped() && t in r'.consumers && AloneOut(r, t, first, late, n) == AloneOut(r', t, first, late, n - 1)
  {
    var a := Turn(r.consumers[t], first, late);
    OutStaysShaped(r, t, a);
    ConsumerStepFrame(r, t, a, ConsumerStep(r, t, a).value);
    hide ConsumerStep;
  }

  lemma OutFinished<T>(r: Ring<T>, t: Tid, first: Action<T>, late: bool, n: nat)
    requires r.Shaped() && t in r.consumers && (r.consumers[t].CClaimed? || r.consumers[t].CIdle?)
    ensures AloneOut(r, t, first, late, n) == r
  {
  }

  lemma {:induction false} TakesInTime<T>(r: Ring<T>, t: Tid, wait: Strategy, first: Action<T>, n: nat)
    requires r.Shaped() && t in r.consumers && Waits(r, r.consumers[t], wait) && CanTake(r)
    requires (first == InFirst || first == OutFirst) && !SeesEmpty(r, r.consumers[t])
    requires n >= ToWait(r, r.consumers[t])
    ensures AloneOut(r, t, first, false, n).consumers[t] == CClaimed(r.out_ + 1)
    decreases n
  {
    hide AloneOut, CanTake, ConsumerStep;
    TakesOn(r, t, wait, first);
    AloneOutOn(r, t, first, false, n);
    var r' := ConsumerStep(r, t, Turn(r.consumers[t], first, false)).value;
    if r.consumers[t].CCas? && r.consumers[t].current == r.out_ {
      OutFinished(r', t, first, false, n - 1);
    } else {
      TakesInTime(r', t, wait, first, n - 1);
    }
  }

  lemma {:induction false} NeverTakes<T>(r: Ring<T>, t: Tid, wait: Strategy, first: Action<T>, n: nat)
    requires r.Shaped() && t in r.consumers && Waits(r, r.consumers[t], wait) && !CanTake(r)
    requires (first == InFirst || first == OutFirst) && (SeesEmpty(r, r.consumers[t]) ==> r.in_ == r.out_)
    ensures var r' := AloneOut(r, t, first, false, n);
            && r'.out_ == r.out_ && r'.in_ == r.in_ && !r'.consumers[t].CClaimed?
            && (r'.consumers[t] == CIdle ==> wait == NoBlock && r.in_ == r.out_)
            && (wait == NoBlock && r.in_ == r.out_ && n >= ToGiveUp(r, r.consumers[t]) ==> r'.consumers[t] == CIdle)
    decreases n
  {
    hide AloneOut, CanTake, ConsumerStep;
    if n == 0 {
      AloneOutNone(r, t, first);
    } else {
      WaitsOn(r, t, wait, first);
      AloneOutOn(r, t, first, false, n);
      var r' := ConsumerStep(r, t, Turn(r.consumers[t], first, false)).value;
      if r'.consumers[t] == CIdle {
        OutFinished(r', t, first, false, n - 1);
      } else {
        NeverTakes(r', t, wait, first, n - 1);
      }
    }
  }

  lemma AloneOutNone<T>(r: Ring<T>, t: Tid, first: Action<T>)
    requires r.Shaped() && t in r.consumers
    ensures AloneOut(r, t, first, false, 0) == r
  {
  }

  lemma SeesNothing<T>(r: Ring<T>, t: Tid, first: Action<T>, n: nat)
    requires r.Shaped() && t in r.consumers && SeesEmpty(r, r.consumers[t]) && n > 0
    ensures AloneOut(r, t, first, false, n).consumers[t] == CIdle
  {
    hide AloneOut;
    AloneOutOn(r, t, first, false, n);
    OutFinished(r.WithConsumer(t, CIdle), t, first, false, n - 1);
  }

  /** However stale the caches are, and what it has loaded itself, a consumer that is in wait_for, under any strategy,
      and goes on alone takes the next number, within ten steps from the call and thirteen from anywhere, exactly if
      that has been published, unless is_empty has found the ring empty meanwhile; otherwise it never does. Then it
      comes back without a number only if it does not block, and exactly if the ring is empty; else it waits. */
  lemma GetAlone<T(!new)>(r: Ring<T>, t: Tid, wait: Strategy, first: Action<T>, n: nat)
    requires Reachable(r) && t in r.consumers && InWait(r.consumers[t], wait)
    requires n >= (if r.consumers[t].CLoadOut? then 10 else 13) && (first == InFirst || first == OutFirst)
    ensures r.Shaped()
    ensures var c := AloneOut(r, t, first, false, n).consumers[t];
            if SeesEmpty(r, r.consumers[t]) then c == CIdle
            else if CanTake(r) then c == CClaimed(r.out_ + 1)
            else if wait == NoBlock && r.in_ == r.out_ then c == CIdle
            else !c.CClaimed? && !c.CIdle?
  {
    hide AloneOut, CanTake;
    ConsumerKnows(r, t, wait);
    if SeesEmpty(r, r.consumers[t]) {
      SeesNothing(r, t, first, n);
    } else if CanTake(r) {
      TakesInTime(r, t, wait, first, n);
    } else {
      NeverTakes(r, t, wait, first, n);
    }
  }

  /** A consumer that calls wait_for when its deadline has passed takes the next number, within five steps, exactly if
      that has been published and the cache lets it. Otherwise it comes back without one, but leaves a cache that lets
      the next call through. */
  lemma GetLate<T(!new)>(r: Ring<T>, t: Tid, first: Action<T>, n: nat)
    requires Reachable(r) && t in r.consumers && r.consumers[t] == CLoadOut(Timeout) && n >= 5
    ensures r.Shaped()
    ensures var r' := AloneOut(r, t, first, true, n);
            if CanTake(r) && r.out_ < r.cacheIn then r'.consumers[t] == CClaimed(r.out_ + 1)
            else r'.consumers[t] == CIdle && r'.out_ == r.out_ && r'.cacheIn == r'.in_ == r.in_
  {
    hide AloneOut, CanTake, PowerOfTwo.IsPow2, PowerOfTwo.Slot, Ring.At;
    CachesAreSound(r);
    AloneOutOn(r, t, first, true, n);
    var r1 := r.WithConsumer(t, CCheckCache(Timeout, r.out_));
    AloneOutOn(r1, t, first, true, n - 1);
    if r.out_ < r.cacheIn {
      var r2 := r1.WithConsumer(t, CCheckFree(Timeout, r.out_));
      Takeable(r, r2);
      Takeable(r2, r2);
      ChecksLate(r2, t, first, n - 2);
    } else {
      ComesBack(r1.WithConsumer(t, CLoadIn(Timeout)), t, first, n - 2);
    }
  }

  lemma ChecksLate<T>(r: Ring<T>, t: Tid, first: Action<T>, n: nat)
    requires r.Shaped() && t in r.consumers && r.consumers[t] == CCheckFree(Timeout, r.out_) && n >= 3
    ensures var r' := AloneOut(r, t, first, true, n);
            if !r.At(r.out_ + 1).isFree then r'.consumers[t] == CClaimed(r.out_ + 1)
            else r' == r.(cacheIn := r.in_).WithConsumer(t, CIdle)
  {
    hide AloneOut, PowerOfTwo.IsPow2, PowerOfTwo.Slot;
    AloneOutOn(r, t, first, true, n);
    if r.At(r.out_ + 1).isFree {
      ComesBack(r.WithConsumer(t, CLoadIn(Timeout)), t, first, n - 1);
    } else {
      var r1 := r.WithConsumer(t, CCas(Timeout, r.out_));
      AloneOutOn(r1, t, first, true, n - 1);
      OutFinished(r1.(out_ := r.out_ + 1).WithConsumer(t, CClaimed(r.out_ + 1)), t, first, true, n - 2);
    }
  }

  lemma ComesBack<T>(r: Ring<T>, t: Tid, first: Action<T>, n: nat)
    requires r.Shaped() && t in r.consumers && r.consumers[t] == CLoadIn(Timeout) && n >= 2
    ensures AloneOut(r, t, first, true, n) == r.(cacheIn := r.in_).WithConsumer(t, CIdle)
  {
    hide AloneOut;
    AloneOutOn(r, t, first, true, n);
    var r1 := r.WithConsumer(t, CStoreCache(Timeout, r.in_));
    AloneOutOn(r1, t, first, true, n - 1);
    OutFinished(r1.(cacheIn := r.in_).WithConsumer(t, CIdle), t, first, true, n - 2);
  }

  // ---- the drain ----------------------------------------------------------------------------------------------------

  /** What holds of the ring of the response queue because it has one consumer, and that does not block. */
  ghost predicate Solo<T>(r: Ring<T>) {
    LOOP in r.consumers
    && match r.consumers[LOOP]
       case CLoadOut(wait) => wait == NoBlock
       case CCheckCache(wait, current) => wait == NoBlock && current == r.out_
       case CCheckFree(wait, current) => wait == NoBlock && current == r.out_
       case CLoadIn(wait) => wait == NoBlock
       case CStoreCache(wait, _) => wait == NoBlock
       case CEmptyIn(seenIn) => r.out_ <= seenIn
       case CCas(wait, current) => wait == NoBlock && current == r.out_
       case _ => true
  }

  lemma SoloStep<T>(r: Ring<T>, a: Action<T>, r': Ring<T>)
    requires r.Shaped() && Solo(r) && ConsumerStep(r, LOOP, a) == Some(r') && (a.Get? ==> a.wait == NoBlock)
    requires r.out_ <= r.in_
    ensures Solo(r')
  {
    hide PowerOfTwo.IsPow2, PowerOfTwo.Slot, Ring.At;
  }

  lemma OutBehindIn<T>(s: System<T>, q: Q.Queue<T>)
    requires Inv(s, q)
    ensures s.ring.Shaped() && s.ring.out_ <= s.ring.in_
  {
  }

  lemma {:induction false} RunIsSolo<T(!new)>(run: seq<System<T>>, moves: seq<Move<T>>)
    requires IsSystemRun(run, moves)
    ensures Solo(run[|moves|].ring)
    decreases |moves|
  {
    hide ConsumerStep, Inv, ProducerStep, Ring.Shaped, Solo;
    var n := |moves| - 1;
    if n < 0 {
      SoloAtFirst(run[0]);
    } else {
      assert IsSystemRun(run[..n + 1], moves[..n]);
      RunIsSolo(run[..n + 1], moves[..n]);
      var q := RunKeepsInv(run[..n + 1], moves[..n]);
      OutBehindIn(run[n], q);
      assert SystemNext(run[n], moves[n], run[n + 1]);
      match moves[n]
      case Work(t, a) => SoloAside(run[n].ring, t, a, run[n + 1].ring);
      case Drain(a) => SoloStep(run[n].ring, a, run[n + 1].ring);
      case _ =>
    }
  }

  lemma SoloAtFirst<T(!new)>(s: System<T>)
    requires SystemInit(s)
    ensures Solo(s.ring)
  {
  }

  lemma SoloAside<T>(r: Ring<T>, t: Tid, a: Action<T>, r': Ring<T>)
    requires r.Shaped() && t in r.producers && ProducerStep(r, t, a) == Some(r') && Solo(r)
    ensures Solo(r')
  {
    hide ProducerStep;
    ProducerStepFrame(r, t, a, r');
  }

  /** How far the consumer is from taking the next number, or from finding that there is none. */
  ghost function Stage<T>(r: Ring<T>): nat
    requires LOOP in r.consumers
  {
    var some, upToDate := r.out_ < r.in_, r.cacheIn == r.in_;
    match r.consumers[LOOP]
    case CClaimed(_) => 32
    case CMoved(_, _) => 31
    case CIdle => 30
    case CStoreCache(_, seen) => if some && seen != r.in_ then 26 else 20
    case CEmpty => if some && !upToDate then 25 else 19
    case CEmptyIn(_) => if some && !upToDate then 24 else 18
    case CEmptyOut(_) => if some && !upToDate then 24 else 18
    case CLoadOut(_) => if some && upToDate then 13 else 23
    case CCheckCache(_, _) => if some && upToDate then 12 else 22
    case CLoadIn(_) => 21
    case CCheckFree(_, _) => 11
    case CCas(_, _) => 10
  }

  /** What the consumer does next. */
  ghost function Chosen<T>(r: Ring<T>): Action<T>
    requires r.Shaped() && LOOP in r.consumers
  {
    match r.consumers[LOOP]
    case CIdle => Get(NoBlock)
    case CEmpty => InFirst
    case CClaimed(num) => MoveOut(r.At(num).task)
    case _ => Step
  }

  /** Nothing is ahead of in_, the next number has been published if the consumer has found it claimed, and is_empty has
      not been overtaken. */
  ghost predicate Ready<T>(r: Ring<T>) {
    && r.Shaped() && LOOP in r.consumers && r.cacheIn <= r.in_ && r.out_ <= r.in_
    && match r.consumers[LOOP]
       case CCheckFree(_, _) => r.out_ < r.in_ && !r.At(r.out_ + 1).isFree
       case CEmptyIn(seenIn) => seenIn <= r.in_
       case CEmptyOut(seenOut) => seenOut == r.out_
       case CStoreCache(_, seen) => seen <= r.in_
       case _ => true
  }

  /** is_empty said so. */
  ghost predicate FoundEmpty<T>(r: Ring<T>, r': Ring<T>)
    requires LOOP in r.consumers && LOOP in r'.consumers
  {
    (r.consumers[LOOP].CEmptyIn? || r.consumers[LOOP].CEmptyOut?) && r'.consumers[LOOP].CIdle?
  }

  /** Every step of the drain brings it nearer to its end, if what has been claimed has been published. */
  lemma DrainGetsOn<T>(r: Ring<T>)
    requires Solo(r) && Ready(r)
    ensures ConsumerStep(r, LOOP, Chosen(r)).Some?
    ensures var r' := ConsumerStep(r, LOOP, Chosen(r)).value;
            LOOP in r'.consumers
            && (FoundEmpty(r, r') || r'.in_ - r'.out_ < r.in_ - r.out_
                || (r'.in_ - r'.out_ == r.in_ - r.out_ && Stage(r') < Stage(r)))
  {
    hide PowerOfTwo.IsPow2, PowerOfTwo.Slot, Ring.At;
  }

  // ---- the system ---------------------------------------------------------------------------------------------------

  /** No worker is between claiming a slot and the end of its notification. */
  ghost predicate Settled<T>(s: System<T>) {
    && (forall t :: t in s.ring.producers ==> !s.ring.producers[t].PClaimed? && !s.ring.producers[t].PFilled?)
    && (forall t :: t in s.notify ==> s.notify[t] == Working)
  }

  ghost predicate AtRest<T>(s: System<T>) { Settled(s) && s.loop == Waiting && s.counter == 0 }

  predicate ByLoop<T>(m: Move<T>) { m.Wake? || m.Read? || m.Clear? || m.Drain? }

  /** Some moves, or some moves of the loop alone, lead from one state to another. */
  ghost predicate Leads<T(!new)>(s: System<T>, s': System<T>, loopOnly: bool) {
    exists run: seq<System<T>>, moves :: IsPath(run, moves, loopOnly) && run[0] == s && run[|moves|] == s'
  }

  ghost predicate IsPath<T(!new)>(run: seq<System<T>>, moves: seq<Move<T>>, loopOnly: bool) {
    && |run| == |moves| + 1
    && (forall i :: 0 <= i < |moves| ==> SystemNext(run[i], moves[i], run[i + 1]))
    && (loopOnly ==> forall i :: 0 <= i < |moves| ==> ByLoop(moves[i]))
  }

  lemma LeadsHere<T(!new)>(s: System<T>, loopOnly: bool)
    ensures Leads(s, s, loopOnly)
  {
    var none: seq<Move<T>> := [];
    assert IsPath([s], none, loopOnly);
  }

  lemma LeadsOn<T(!new)>(s: System<T>, m: Move<T>, s1: System<T>, s2: System<T>, loopOnly: bool)
    requires SystemNext(s, m, s1) && (loopOnly ==> ByLoop(m)) && Leads(s1, s2, loopOnly)
    ensures Leads(s, s2, loopOnly)
  {
    hide SystemNext;
    var run: seq<System<T>>, moves :| IsPath(run, moves, loopOnly) && run[0] == s1 && run[|moves|] == s2;
    assert IsPath([s] + run, [m] + moves, loopOnly);
  }

  lemma ReachableOn<T(!new)>(s: System<T>, m: Move<T>, s': System<T>)
    requires ReachableSystem(s) && SystemNext(s, m, s')
    ensures ReachableSystem(s')
  {
    hide SystemInit, SystemNext;
    var run: seq<System<T>>, moves :| IsSystemRun(run, moves) && s == run[|moves|];
    assert IsSystemRun(run + [s'], moves + [m]);
  }

  /** How near the loop is to sleeping unsignalled. */
  ghost function Phase<T>(s: System<T>): nat {
    match s.loop
    case Waiting => if s.counter > 0 then 4 else 0
    case Reading => 3
    case Clearing => 2
    case Draining => if s.counter > 0 then 5 else 1
  }

  ghost function Left<T>(s: System<T>): int { s.ring.in_ - s.ring.out_ }

  lemma DrainKnows<T>(s: System<T>, q: Q.Queue<T>)
    requires Inv(s, q) && Solo(s.ring) && Settled(s)
    ensures Ready(s.ring)
  {
    var r := s.ring;
    assert ConsumerOk(r, q.tickets, LOOP, r.consumers[LOOP]);
    if r.consumers[LOOP].CCheckFree? {
      var next := r.out_ + 1;
      assert Held(r, next, q.tickets[next]);
      assert CellOk(r.At(next), q.tickets[next]);
    }
  }

  /** While it is not at rest, the loop can go on, if workers are settled, and comes nearer. */
  lemma LoopGetsOn<T(!new)>(s: System<T>) returns (m: Move<T>, s': System<T>)
    requires ReachableSystem(s) && Settled(s) && !AtRest(s) && LOOP in s.ring.consumers && s.ring.out_ <= s.ring.in_
    ensures ByLoop(m) && SystemNext(s, m, s') && Settled(s') && s'.published == s.published
    ensures LOOP in s'.ring.consumers && s'.ring.out_ <= s'.ring.in_
    ensures s'.ring.producers == s.ring.producers && s'.notify == s.notify
    ensures Phase(s') < Phase(s)
            || (Phase(s') == Phase(s) && Left(s') < Left(s))
            || (Phase(s') == Phase(s) && Left(s') == Left(s) && Stage(s'.ring) < Stage(s.ring))
  {
    hide Chosen, ConsumerStep, Inv, Sim, Solo, Stage;
    var run: seq<System<T>>, moves :| IsSystemRun(run, moves) && s == run[|moves|];
    var q := RunKeepsInv(run, moves);
    if s.loop != Draining {
      TokenConservation(s);
      m, s' := WakesUp(s);
    } else {
      RunIsSolo(run, moves);
      DrainKnows(s, q);
      m, s' := DrainsOn(s);
      ReachableOn(s, m, s');
      InBehindOut(s');
    }
  }

  lemma WakesUp<T>(s: System<T>) returns (m: Move<T>, s': System<T>)
    requires s.loop != Draining && (s.loop == Waiting ==> s.counter > 0) && Tokens(s) <= 1
    ensures ByLoop(m) && SystemNext(s, m, s') && Phase(s') < Phase(s)
    ensures s'.ring == s.ring && s'.notify == s.notify && s'.published == s.published
  {
    match s.loop
    case Waiting => m, s' := Wake, s.(loop := Reading);
    case Reading => m, s' := Read, s.(counter := 0, loop := Clearing);
    case Clearing => m, s' := Clear, s.(flag := false, loop := Draining);
  }

  lemma DrainsOn<T>(s: System<T>) returns (m: Move<T>, s': System<T>)
    requires s.loop == Draining && Settled(s) && s.ring.Shaped() && LOOP in s.ring.consumers
    requires Solo(s.ring) && Ready(s.ring)
    ensures m.Drain? && SystemNext(s, m, s') && Settled(s') && s'.published == s.published
    ensures LOOP in s'.ring.consumers && s'.ring.producers == s.ring.producers && s'.notify == s.notify
    ensures Phase(s') < Phase(s)
            || (Phase(s') == Phase(s) && Left(s') < Left(s))
            || (Phase(s') == Phase(s) && Left(s') == Left(s) && Stage(s'.ring) < Stage(s.ring))
  {
    hide ConsumerStep, Ready, Ring.Shaped, Solo, Stage;
    var a := Chosen(s.ring);
    DrainGetsOn(s.ring);
    var r' := ConsumerStep(s.ring, LOOP, a).value;
    ConsumerStepFrame(s.ring, LOOP, a, r');
    var c := s.ring.consumers[LOOP];
    m := Drain(a);
    s' := s.(ring := r', loop := if FoundEmpty(s.ring, r') then Waiting else Draining,
             received := if a.Step? && c.CMoved? then s.received + [Response(c.num, c.value)] else s.received);
  }

  lemma {:induction false} LoopComesToRest<T(!new)>(s: System<T>) returns (s': System<T>)
    requires ReachableSystem(s) && Settled(s) && LOOP in s.ring.consumers && s.ring.out_ <= s.ring.in_
    ensures Leads(s, s', true) && ReachableSystem(s') && AtRest(s') && s'.published == s.published
    ensures s'.ring.producers == s.ring.producers && s'.notify == s.notify
    decreases Phase(s), Left(s), Stage(s.ring)
  {
    hide AtRest, Phase, ReachableSystem, Settled, Stage, SystemNext;
    if AtRest(s) {
      s' := s;
      LeadsHere(s, true);
    } else {
      var m, s1 := LoopGetsOn(s);
      ReachableOn(s, m, s1);
      s' := LoopComesToRest(s1);
      LeadsOn(s, m, s1, s', true);
    }
  }

  /** From every state that can be reached in which workers are settled, moves of the loop alone lead to rest, and then
      the loop has received exactly what had been published, by number. */
  lemma DrainFinishes<T(!new)>(s: System<T>) returns (s': System<T>)
    requires ReachableSystem(s) && Settled(s)
    ensures Leads(s, s', true) && AtRest(s') && s'.published == s.published
    ensures forall n: nat :: n in s.published <==> n < |s'.received|
    ensures forall n :: 0 <= n < |s'.received| ==> s'.received[n] == Response(n, s.published[n])
  {
    hide Leads, ReachableSystem;
    InBehindOut(s);
    s' := LoopComesToRest(s);
    QuietMeansDelivered(s');
  }

  lemma InBehindOut<T(!new)>(s: System<T>)
    requires ReachableSystem(s)
    ensures LOOP in s.ring.consumers && s.ring.out_ <= s.ring.in_
  {
    hide Sim;
    var run: seq<System<T>>, moves :| IsSystemRun(run, moves) && s == run[|moves|];
    var q := RunKeepsInv(run, moves);
    OutBehindIn(s, q);
  }

  // ---- workers ------------------------------------------------------------------------------------------------------

  /** How far a worker is from being settled. */
  ghost function Busy<T>(s: System<T>, t: Tid): nat
    requires t in s.ring.producers && t in s.notify
  {
    if s.notify[t].Exchange? then 2 else if s.notify[t].Signal? then 1
    else if s.ring.producers[t].PClaimed? then 4 else if s.ring.producers[t].PFilled? then 3 else 0
  }

  /** Nothing has happened to other workers, and what was published still is. */
  ghost predicate OnlyWorker<T>(s: System<T>, t: Tid, s': System<T>) {
    && s'.notify.Keys == s.notify.Keys == s'.ring.producers.Keys == s.ring.producers.Keys
    && (forall u :: u in s.notify && u != t ==>
          s'.notify[u] == s.notify[u] && s'.ring.producers[u] == s.ring.producers[u])
    && StillPublished(s, s')
  }

  ghost predicate StillPublished<T>(s: System<T>, s': System<T>) {
    forall n :: n in s.published ==> n in s'.published && s'.published[n] == s.published[n]
  }

  /** A worker that is not settled can go on by itself, and comes nearer. */
  lemma WorkerGetsOn<T(!new)>(s: System<T>, t: Tid) returns (m: Move<T>, s': System<T>)
    requires ReachableSystem(s) && t in s.notify && t in s.ring.producers && Busy(s, t) > 0
    ensures SystemNext(s, m, s') && OnlyWorker(s, t, s') && Busy(s', t) < Busy(s, t)
  {
    hide Busy, Inv, OnlyWorker, Recorded, SystemNext;
    var run: seq<System<T>>, moves :| IsSystemRun(run, moves) && s == run[|moves|];
    var q := RunKeepsInv(run, moves);
    WorkerKnows(s, q, t);
    if s.notify[t] != Working {
      m, s' := Notifies(s, t);
    } else {
      m, s' := WorksOn(s, t);
    }
  }

  lemma WorkerKnows<T>(s: System<T>, q: Q.Queue<T>, t: Tid)
    requires Inv(s, q) && Recorded(s.published, s.received, q.tickets) && t in s.ring.producers && t in s.notify
    requires Busy(s, t) > 0
    ensures s.ring.Shaped() && s.notify.Keys == s.ring.producers.Keys
    ensures s.notify[t] != Working ==> s.ring.producers[t] == PIdle
    ensures s.notify[t] == Working ==>
              s.ring.producers[t].PClaimed?
              || (s.ring.producers[t].PFilled? && s.ring.producers[t].num !in s.published)
  {
    assert ProducerOk(s.ring, q.tickets, t, s.ring.producers[t]);
  }

  lemma Notifies<T>(s: System<T>, t: Tid) returns (m: Move<T>, s': System<T>)
    requires t in s.notify && t in s.ring.producers && s.notify[t] != Working
    requires s.notify.Keys == s.ring.producers.Keys
    requires s.ring.producers[t] == PIdle
    ensures SystemNext(s, m, s') && OnlyWorker(s, t, s') && Busy(s', t) < Busy(s, t)
  {
    if s.notify[t].Exchange? {
      m, s' := Swap(t), s.(flag := true,
                           notify := s.notify[t := if s.flag then Working else Signal(s.notify[t].num)]);
    } else {
      m, s' := Write(t), s.(counter := s.counter + 1, notify := s.notify[t := Working]);
    }
  }

  lemma WorksOn<T>(s: System<T>, t: Tid) returns (m: Move<T>, s': System<T>)
    requires s.ring.Shaped() && t in s.notify && s.notify[t] == Working && s.notify.Keys == s.ring.producers.Keys
    requires s.ring.producers[t].PClaimed?
             || (s.ring.producers[t].PFilled? && s.ring.producers[t].num !in s.published)
    ensures SystemNext(s, m, s') && OnlyWorker(s, t, s') && Busy(s', t) < Busy(s, t)
  {
    hide PowerOfTwo.IsPow2, PowerOfTwo.Slot, Ring.At;
    var r, p := s.ring, s.ring.producers[t];
    var a := if p.PClaimed? then Fill(r.At(p.num).task) else Step;
    var r' := ProducerStep(r, t, a).value;
    ProducerStepFrame(r, t, a, r');
    m := Work(t, a);
    s' := if p.PClaimed? then s.(ring := r')
          else s.(ring := r', notify := s.notify[t := Exchange(p.num)], published := s.published[p.num := p.value]);
  }

  lemma {:induction false} WorkerSettles<T(!new)>(s: System<T>, t: Tid) returns (s': System<T>)
    requires ReachableSystem(s) && t in s.notify && s.notify.Keys == s.ring.producers.Keys
    ensures Leads(s, s', false) && ReachableSystem(s') && OnlyWorker(s, t, s') && Busy(s', t) == 0
    decreases Busy(s, t)
  {
    hide Leads, ReachableSystem, SystemNext;
    if Busy(s, t) == 0 {
      s' := s;
      LeadsHere(s, false);
    } else {
      var m, s1 := WorkerGetsOn(s, t);
      ReachableOn(s, m, s1);
      s' := WorkerSettles(s1, t);
      LeadsOn(s, m, s1, s', false);
    }
  }

  /** A worker that is between calls. */
  ghost predicate Idle<T>(s: System<T>, t: Tid) {
    t in s.ring.producers && s.ring.producers[t] == PIdle && t in s.notify && s.notify[t] == Working
  }

  ghost predicate StillIdle<T>(s: System<T>, s': System<T>) {
    forall t :: Idle(s, t) ==> Idle(s', t)
  }

  ghost function BusyWorkers<T>(s: System<T>): set<Tid>
    requires s.notify.Keys == s.ring.producers.Keys
  {
    set t | t in s.notify && Busy(s, t) > 0
  }

  lemma LeadsOver<T(!new)>(s: System<T>, s1: System<T>, s2: System<T>)
    requires Leads(s, s1, false) && Leads(s1, s2, false)
    ensures Leads(s, s2, false)
  {
    hide SystemNext;
    var run: seq<System<T>>, moves :| IsPath(run, moves, false) && run[0] == s && run[|moves|] == s1;
    var run': seq<System<T>>, moves' :| IsPath(run', moves', false) && run'[0] == s1 && run'[|moves'|] == s2;
    var all, steps := run + run'[1..], moves + moves';
    forall i | 0 <= i < |steps| ensures SystemNext(all[i], steps[i], all[i + 1]) {
      if i < |moves| {
        assert SystemNext(run[i], moves[i], run[i + 1]);
      } else {
        var k := i - |moves|;
        assert all[i] == run'[k];
        assert SystemNext(run'[k], moves'[k], run'[k + 1]);
      }
    }
    assert IsPath(all, steps, false);
  }

  lemma {:induction false} WorkersSettle<T(!new)>(s: System<T>) returns (s': System<T>)
    requires ReachableSystem(s) && s.notify.Keys == s.ring.producers.Keys
    ensures Leads(s, s', false) && ReachableSystem(s') && Settled(s') && StillPublished(s, s') && StillIdle(s, s')
    decreases BusyWorkers(s)
  {
    hide Leads, ReachableSystem;
    if BusyWorkers(s) == {} {
      assert forall t :: t in s.notify ==> t !in BusyWorkers(s);
      s' := s;
      LeadsHere(s, false);
    } else {
      var t :| t in BusyWorkers(s);
      var s1 := WorkerSettles(s, t);
      s' := WorkersSettle(s1);
      LeadsOver(s, s1, s');
    }
  }

  /** From every state that can be reached, whatever its threads were doing, the system can come to rest, and then the
      loop has received everything that was published, by number, and every slot is free. */
  lemma ComesToRest<T(!new)>(s: System<T>) returns (s': System<T>)
    requires ReachableSystem(s)
    ensures Leads(s, s', false) && ReachableSystem(s') && AtRest(s')
    ensures |s'.received| == s'.ring.in_ + 1 && StillIdle(s, s')
    ensures forall n :: n in s.published ==> n < |s'.received| && s'.received[n] == Response(n, s.published[n])
  {
    hide Leads, ReachableSystem;
    KeysAgree(s);
    var s1 := WorkersSettle(s);
    InBehindOut(s1);
    s' := LoopComesToRest(s1);
    LeadsAnyway(s1, s');
    LeadsOver(s, s1, s');
    QuietMeansDelivered(s');
  }

  lemma LeadsAnyway<T(!new)>(s: System<T>, s': System<T>)
    requires Leads(s, s', true)
    ensures Leads(s, s', false)
  {
    hide SystemNext;
    var run: seq<System<T>>, moves :| IsPath(run, moves, true) && run[0] == s && run[|moves|] == s';
    assert IsPath(run, moves, false);
  }

  lemma KeysAgree<T(!new)>(s: System<T>)
    requires ReachableSystem(s)
    ensures s.notify.Keys == s.ring.producers.Keys
  {
    hide Sim;
    var run: seq<System<T>>, moves :| IsSystemRun(run, moves) && s == run[|moves|];
    var q := RunKeepsInv(run, moves);
  }

  // ---- from end to end ----------------------------------------------------------------------------------------------

  /** At rest the next number can be claimed. */
  lemma RoomAtRest<T(!new)>(s: System<T>)
    requires ReachableSystem(s) && AtRest(s)
    ensures s.ring.Shaped() && CanClaim(s.ring)
  {
    hide Recorded;
    var run: seq<System<T>>, moves :| IsSystemRun(run, moves) && s == run[|moves|];
    var q := RunKeepsInv(run, moves);
    AllDelivered(s, q);
    NextIsFree(s.ring, q);
  }

  lemma NextIsFree<T>(r: Ring<T>, q: Q.Queue<T>)
    requires Sim(r, q) && r.in_ == r.out_ && forall n :: 0 <= n < |q.tickets| ==> q.tickets[n].Delivered?
    ensures r.Shaped() && CanClaim(r)
  {
    if r.in_ + 1 >= r.Size() {
      var back := r.in_ + 1 - r.Size();
      PowerOfTwo.SlotShared(back, 0, r.Size());
      assert r.At(r.in_ + 1) == r.At(back);
      assert CellOk(r.At(back), q.tickets[back]);
    }
  }

  /** A worker that has called take() claims the next number, if it can and nobody else does anything. */
  lemma {:induction false} ClaimsInSystem<T(!new)>(s: System<T>, t: Tid) returns (s': System<T>)
    requires ReachableSystem(s) && s.ring.Shaped() && t in s.ring.producers && t in s.notify && s.notify[t] == Working
    requires OnItsWay(s.ring.producers[t], true) && Knows(s.ring, s.ring.producers[t]) && CanClaim(s.ring)
    ensures Leads(s, s', false) && ReachableSystem(s') && s'.ring.Shaped() && s'.published == s.published
    ensures t in s'.ring.producers && t in s'.notify && s'.notify[t] == Working
    ensures s'.ring.producers[t] == PClaimed(s.ring.in_ + 1)
    decreases ToGo(s.ring, s.ring.producers[t])
  {
    hide CanClaim, Knows, Leads, OnItsWay, ProducerStep, ReachableSystem, ToGo;
    Closer(s.ring, t);
    var s1 := s.(ring := ProducerStep(s.ring, t, Step).value);
    NotFilled(s.ring, t);
    assert SystemNext(s, Work(t, Step), s1);
    ReachableOn(s, Work(t, Step), s1);
    if s.ring.producers[t].PCas? && s.ring.producers[t].current == s.ring.in_ {
      s' := s1;
      LeadsHere(s1, false);
    } else {
      s' := ClaimsInSystem(s1, t);
    }
    LeadsOn(s, Work(t, Step), s1, s', false);
  }

  lemma NotFilled<T>(r: Ring<T>, t: Tid)
    requires r.Shaped() && t in r.producers && OnItsWay(r.producers[t], true)
    ensures !r.producers[t].PFilled?
  {
  }

  /** A worker that is idle while the system is at rest can publish what it likes. */
  lemma PublishesAtRest<T(!new)>(s: System<T>, t: Tid, v: T) returns (s': System<T>)
    requires ReachableSystem(s) && AtRest(s) && Idle(s, t)
    ensures Leads(s, s', false) && ReachableSystem(s')
    ensures var num := s.ring.in_ + 1; s'.published == s.published[num := v]
  {
    hide AtRest, Leads, ReachableSystem;
    RoomAtRest(s);
    var s1 := s.(ring := s.ring.WithProducer(t, PLoadIn(true)));
    assert SystemNext(s, Work(t, Take(true)), s1);
    ReachableOn(s, Work(t, Take(true)), s1);
    assert CanClaim(s1.ring);
    RingReachable(s1);
    ProducerKnows(s1.ring, t);
    var s2 := ClaimsInSystem(s1, t);
    var num := s.ring.in_ + 1;
    var s3 := FillsAndPublishes(s2, t, num, v);
    s' := s3;
    LeadsOver(s1, s2, s3);
    LeadsOn(s, Work(t, Take(true)), s1, s3, false);
  }

  lemma FillsAndPublishes<T(!new)>(s: System<T>, t: Tid, num: nat, v: T) returns (s': System<T>)
    requires ReachableSystem(s) && s.ring.Shaped() && t in s.ring.producers && t in s.notify && s.notify[t] == Working
    requires s.ring.producers[t] == PClaimed(num)
    ensures Leads(s, s', false) && ReachableSystem(s') && s'.published == s.published[num := v]
  {
    hide Leads, PowerOfTwo.IsPow2, PowerOfTwo.Slot, ReachableSystem, Ring.At;
    var r1 := s.ring.Put(num, s.ring.At(num).(task := v)).WithProducer(t, PFilled(num, v));
    var s1 := s.(ring := r1);
    assert SystemNext(s, Work(t, Fill(v)), s1);
    ReachableOn(s, Work(t, Fill(v)), s1);
    var r2 := r1.Put(num, r1.At(num).(isFree := false)).WithProducer(t, PIdle);
    s' := s1.(ring := r2, notify := s1.notify[t := Exchange(num)], published := s1.published[num := v]);
    assert SystemNext(s1, Work(t, Step), s');
    ReachableOn(s1, Work(t, Step), s');
    LeadsHere(s', false);
    LeadsOn(s1, Work(t, Step), s', s', false);
    LeadsOn(s, Work(t, Fill(v)), s1, s', false);
  }

  /** From every state that can be reached, a worker that is between calls can respond with anything, and the loop
      receives it, under a number of its own. */
  lemma AnyResponseArrives<T(!new)>(s: System<T>, t: Tid, v: T) returns (s': System<T>, num: nat)
    requires ReachableSystem(s) && Idle(s, t)
    ensures Leads(s, s', false) && AtRest(s') && num !in s.published
    ensures num < |s'.received| && s'.received[num] == Response(num, v)
  {
    hide AtRest, Idle, Leads, ReachableSystem;
    var s1 := ComesToRest(s);
    var s2 := PublishesAtRest(s1, t, v);
    s' := ComesToRest(s2);
    LeadsOver(s, s1, s2);
    LeadsOver(s, s2, s');
    num := s1.ring.in_ + 1;
    assert num in s2.published && s2.published[num] == v;
    assert forall n :: n in s.published ==> n < |s1.received|;
  }
}
