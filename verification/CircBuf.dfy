/** The lock-free ring of circbuf.h with the consumer side of wait_strategy.h, as a step machine: any number of
    producers and consumers, one access to shared memory per step, steps of different threads interleaved in any
    order (sequentially consistent). `compare_exchange_weak` may fail although the value matched. */
module CircBuf {
  import opened Basics
  import opened PowerOfTwo

  type Tid = nat

  /** A counter that starts at -1 and only ever takes values it was incremented to. */
  type Index = x: int | -1 <= x witness -1

  /** Where a producer is inside take()/poll(), filling its slot in place, and publish(). */
  datatype Producer<T> =
    | PIdle
    | PLoadIn(block: bool)                          // current = in_.load()
    | PCheckCache(block: bool, current: Index)        // next - size_ > cache_out_ ?
    | PCheckFree(block: bool, current: Index)         // !is_free(next) ?
    | PLoadOut(block: bool, current: Index)           // update_cache_out: out_.load()
    | PStoreCache(block: bool, current: Index, seen: Index) // update_cache_out: store
    | PCas(block: bool, current: Index)               // CAS on in_, or the single producer's plain store
    | PClaimed(num: nat)                            // take()/poll() returned num
    | PFilled(num: nat, value: T)                   // slot written, publish(num) not yet done

  datatype Strategy = YieldSleep | Timeout | NoBlock

  /** Where a consumer is inside wait_for(), moving the element out, and consumer_done(). */
  datatype Consumer<T> =
    | CIdle
    | CLoadOut(wait: Strategy)                      // current_out = out_.load()
    | CCheckCache(wait: Strategy, current: Index)     // next > cache_in_ ?
    | CCheckFree(wait: Strategy, current: Index)      // is_free(next) ?
    | CLoadIn(wait: Strategy)                       // update_cache_in: load
    | CStoreCache(wait: Strategy, seen: Index)        // update_cache_in: store
    | CEmpty                                        // is_empty(), neither operand loaded
    | CEmptyIn(seenIn: Index)                         // is_empty(), in_ loaded first
    | CEmptyOut(seenOut: Index)                       // is_empty(), out_ loaded first
    | CCas(wait: Strategy, current: Index)            // CAS on out_
    | CClaimed(num: nat)                            // wait_for() returned num
    | CMoved(num: nat, value: T)                    // element moved out, consumer_done(num) not yet done

  datatype Cell<T> = Cell(task: T, isFree: bool)

  /** `in_` stands for single_in_ when the ring has a single producer. */
  datatype Ring<T> = Ring(
    single: bool,
    in_: Index,
    out_: Index,
    cacheIn: Index,
    cacheOut: Index,
    buffer: seq<Cell<T>>,
    producers: map<Tid, Producer<T>>,
    consumers: map<Tid, Consumer<T>>)
  {
    function Size(): nat { |buffer| }

    ghost predicate Shaped() { IsPow2(Size()) && Size() >= 2 }

    /** The cell of sequence number num. */
    function At(num: nat): Cell<T>
      requires Shaped()
    {
      SlotIsMod(num, Size());
      buffer[Slot(num, Size())]
    }

    function Put(num: nat, cell: Cell<T>): (r: Ring<T>)
      requires Shaped()
      ensures r.Shaped() && r.Size() == Size()
    {
      SlotIsMod(num, Size());
      this.(buffer := buffer[Slot(num, Size()) := cell])
    }

    function WithProducer(t: Tid, p: Producer<T>): Ring<T> { this.(producers := producers[t := p]) }

    function WithConsumer(t: Tid, c: Consumer<T>): Ring<T> { this.(consumers := consumers[t := c]) }
  }

  /** What a step leaves open: which call is made, the value written, the bytes a moved-from task keeps, and the
      outcomes the code does not determine. */
  datatype Action<T> =
    | Step                  // the one thing the program counter says
    | SpuriousFailure       // a weak CAS that fails
    | Take(block: bool)     // a producer calls take() or poll()
    | Fill(value: T)        // a producer writes its slot (possibly again)
    | Get(wait: Strategy)   // a consumer calls get_locality() or its timed form
    | GiveUp                // the timed wait reaches its deadline
    | InFirst | OutFirst    // which operand of is_empty() is loaded first
    | MoveOut(left: T)      // a consumer moves the element out, leaving `left` behind

  ghost predicate Init<T(!new)>(r: Ring<T>) {
    && r.Shaped()
    && r.in_ == r.out_ == r.cacheIn == r.cacheOut == -1
    && (forall i :: 0 <= i < r.Size() ==> r.buffer[i].isFree)
    && (forall t :: t in r.producers ==> r.producers[t] == PIdle)
    && (forall t :: t in r.consumers ==> r.consumers[t] == CIdle)
    && (r.single ==> forall t, u :: t in r.producers && u in r.producers ==> t == u)
  }

  /** One step of producer t, or None where action a is not what the producer can do. */
  ghost function ProducerStep<T>(r: Ring<T>, t: Tid, a: Action<T>): Option<Ring<T>>
    requires r.Shaped() && t in r.producers
  {
    var p := r.producers[t];
    match a
    case Take(block) =>
      if p.PIdle? then Some(r.WithProducer(t, PLoadIn(block))) else None
    case Fill(v) =>
      if p.PClaimed? || p.PFilled? then
        Some(r.Put(p.num, r.At(p.num).(task := v)).WithProducer(t, PFilled(p.num, v)))
      else None
    case SpuriousFailure =>
      if p.PCas? && !r.single then Some(r.WithProducer(t, PLoadIn(p.block))) else None
    case Step => (
      match p
      case PLoadIn(block) => Some(r.WithProducer(t, PCheckCache(block, r.in_)))
      case PCheckCache(block, current) =>
        if current + 1 - r.Size() > r.cacheOut then Some(r.WithProducer(t, PLoadOut(block, current)))
        else Some(r.WithProducer(t, PCheckFree(block, current)))
      case PCheckFree(block, current) =>
        if !r.At(current + 1).isFree then Some(r.WithProducer(t, PLoadOut(block, current)))
        else Some(r.WithProducer(t, PCas(block, current)))
      case PLoadOut(block, current) => Some(r.WithProducer(t, PStoreCache(block, current, r.out_)))
      case PStoreCache(block, current, seen) =>
        Some(r.(cacheOut := seen).WithProducer(t,
          if !block then PIdle else if r.single then PCheckCache(block, current) else PLoadIn(block)))
      case PCas(block, current) =>
        if r.single || r.in_ == current then
          Some(r.(in_ := current + 1).WithProducer(t, PClaimed(current + 1)))
        else Some(r.WithProducer(t, PLoadIn(block)))
      case PFilled(num, _) =>
        Some(r.Put(num, r.At(num).(isFree := false)).WithProducer(t, PIdle))
      case _ => None)
    case _ => None
  }

  /** One step of consumer t. */
  ghost function ConsumerStep<T>(r: Ring<T>, t: Tid, a: Action<T>): Option<Ring<T>>
    requires r.Shaped() && t in r.consumers
  {
    var c := r.consumers[t];
    match a
    case Get(wait) =>
      if c.CIdle? then Some(r.WithConsumer(t, CLoadOut(wait))) else None
    case SpuriousFailure =>
      if c.CCas? then Some(r.WithConsumer(t, CCheckCache(c.wait, r.out_))) else None
    case GiveUp =>
      if c.CStoreCache? && c.wait.Timeout? then Some(r.(cacheIn := c.seen).WithConsumer(t, CIdle)) else None
    case InFirst =>
      if c.CEmpty? then Some(r.WithConsumer(t, CEmptyIn(r.in_))) else None
    case OutFirst =>
      if c.CEmpty? then Some(r.WithConsumer(t, CEmptyOut(r.out_))) else None
    case MoveOut(left) =>
      if c.CClaimed? then
        Some(r.Put(c.num, r.At(c.num).(task := left)).WithConsumer(t, CMoved(c.num, r.At(c.num).task)))
      else None
    case Step => (
      match c
      case CLoadOut(wait) => Some(r.WithConsumer(t, CCheckCache(wait, r.out_)))
      case CCheckCache(wait, current) =>
        if current + 1 > r.cacheIn then Some(r.WithConsumer(t, CLoadIn(wait)))
        else Some(r.WithConsumer(t, CCheckFree(wait, current)))
      case CCheckFree(wait, current) =>
        if r.At(current + 1).isFree then Some(r.WithConsumer(t, CLoadIn(wait)))
        else Some(r.WithConsumer(t, CCas(wait, current)))
      case CLoadIn(wait) => Some(r.WithConsumer(t, CStoreCache(wait, r.in_)))
      case CStoreCache(wait, seen) =>
        Some(r.(cacheIn := seen).WithConsumer(t, if wait.NoBlock? then CEmpty else CLoadOut(wait)))
      case CEmptyIn(seenIn) =>
        Some(r.WithConsumer(t, if seenIn == r.out_ then CIdle else CLoadOut(NoBlock)))
      case CEmptyOut(seenOut) =>
        Some(r.WithConsumer(t, if r.in_ == seenOut then CIdle else CLoadOut(NoBlock)))
      case CCas(wait, current) =>
        if r.out_ == current then
          Some(r.(out_ := current + 1).WithConsumer(t, CClaimed(current + 1)))
        else Some(r.WithConsumer(t, CCheckCache(wait, r.out_)))
      case CMoved(num, _) =>
        Some(r.Put(num, r.At(num).(isFree := true)).WithConsumer(t, CIdle))
      case _ => None)
    case _ => None
  }

  /** Who moves, and how. */
  datatype Label<T> = ByProducer(tid: Tid, action: Action<T>) | ByConsumer(tid: Tid, action: Action<T>)

  ghost predicate Next<T>(r: Ring<T>, l: Label<T>, r': Ring<T>) {
    r.Shaped()
    && match l
       case ByProducer(t, a) => t in r.producers && ProducerStep(r, t, a) == Some(r')
       case ByConsumer(t, a) => t in r.consumers && ConsumerStep(r, t, a) == Some(r')
  }

  ghost predicate IsRun<T(!new)>(run: seq<Ring<T>>, labels: seq<Label<T>>) {
    && |run| == |labels| + 1
    && Init(run[0])
    && forall i :: 0 <= i < |labels| ==> Next(run[i], labels[i], run[i + 1])
  }
}
