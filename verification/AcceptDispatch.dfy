/** Server::Wait and the event loops it feeds: the acceptor puts each accepted descriptor into one loop's fd_queue,
    round robin and moving on from full queues, then notifies that loop; each loop sleeps on its eventfd, runs
    AcceptFdCb, and drains its queue. The steps of the acceptor and of all loops interleave freely. */
module AcceptDispatch {
  import opened Basics
  import PowerOfTwo
  import opened SpscRing
  import F = Fifo

  datatype EventLoop<T> = EventLoop(queue: Ring<T>, flag: bool, counter: nat, pc: LoopPc, received: seq<T>)

  datatype Acceptor<T> =
    | Accepting(idx: nat)
    | Putting(fd: T, idx: nat)
    | Exchanging(idx: nat)
    | Signalling(idx: nat)

  datatype Placement<T> = Placement(fd: T, loop: nat)

  /** `accepted` and `placed` record what accept() returned and where Put succeeded. */
  datatype Server<T> = Server(
    loops: seq<EventLoop<T>>,
    acceptor: Acceptor<T>,
    accepted: seq<T>,
    placed: seq<Placement<T>>)

  datatype LoopMove<T> = Wake | Read | Clear | Drain(action: Action<T>)

  datatype Move<T> =
    | Accept(fd: T)
    | Put               // the next step of the Put call on the queue being tried
    | Swap              // flag_.exchange(true)
    | Signal            // write(event_fd_)
    | ByLoop(loop: nat, move: LoopMove<T>)

  ghost predicate Init<T>(s: Server<T>) {
    && s.loops != []
    && (forall i :: 0 <= i < |s.loops| ==> NewLoop(s.loops[i]))
    && s.acceptor == Accepting(0) && s.accepted == [] && s.placed == []
  }

  ghost predicate NewLoop<T>(l: EventLoop<T>) {
    SpscRing.Init(l.queue) && !l.flag && l.counter == 0 && l.pc == Waiting && l.received == []
  }

  ghost predicate LoopNext<T>(l: EventLoop<T>, m: LoopMove<T>, l': EventLoop<T>) {
    match m
    case Wake => l.pc == Waiting && l.counter > 0 && l' == l.(pc := Reading)
    case Read => l.pc == Reading && l' == l.(counter := 0, pc := Clearing)
    case Clear => l.pc == Clearing && l' == l.(flag := false, pc := Draining)
    case Drain(a) =>
      && l.pc == Draining && (a.CallGet? || a.StepGet?)
      && Next(l.queue, a, l'.queue)
      && l' == l.(queue := l'.queue,
                  pc := if Observed(l.queue, a).Empty? then Waiting else Draining,
                  received := if Observed(l.queue, a).Left? then l.received + [Observed(l.queue, a).item]
                              else l.received)
  }

  /** The step of Put the acceptor is at. */
  function PutAction<T>(queue: Ring<T>, fd: T): Action<T> {
    if queue.put.PutIdle? then CallPut(fd) else StepPut
  }

  ghost predicate ServerNext<T>(s: Server<T>, m: Move<T>, s': Server<T>) {
    var n := |s.loops|;
    n > 0
    && match m
       case Accept(fd) =>
         && s.acceptor.Accepting?
         && s' == s.(acceptor := Putting(fd, s.acceptor.idx % n), accepted := s.accepted + [fd])
       case Put =>
         && s.acceptor.Putting? && s.acceptor.idx < n && |s'.loops| == n
         && (var Putting(fd, idx) := s.acceptor;
             var l := s.loops[idx];
             var a := PutAction(l.queue, fd);
             && Next(l.queue, a, s'.loops[idx].queue)
             && s' == s.(
                  loops := s.loops[idx := l.(queue := s'.loops[idx].queue)],
                  acceptor := if Observed(l.queue, a).Full?
                              then Putting(fd, (idx + 1) % n)
                              else if Observed(l.queue, a).Entered? then Exchanging(idx)
                              else s.acceptor,
                  placed := if Observed(l.queue, a).Entered? then s.placed + [Placement(fd, idx)] else s.placed))
       case Swap =>
         && s.acceptor.Exchanging? && s.acceptor.idx < n
         && (var idx := s.acceptor.idx;
             s' == s.(loops := s.loops[idx := s.loops[idx].(flag := true)],
                      acceptor := if s.loops[idx].flag then Accepting(idx + 1) else Signalling(idx)))
       case Signal =>
         && s.acceptor.Signalling? && s.acceptor.idx < n
         && (var idx := s.acceptor.idx;
             s' == s.(loops := s.loops[idx := s.loops[idx].(counter := s.loops[idx].counter + 1)],
                      acceptor := Accepting(idx + 1)))
       case ByLoop(i, lm) =>
         && i < n && |s'.loops| == n
         && LoopNext(s.loops[i], lm, s'.loops[i])
         && s' == s.(loops := s.loops[i := s'.loops[i]])
  }

  /** What was placed in loop i, in order. */
  function PlacedIn<T>(placed: seq<Placement<T>>, i: nat): seq<T> {
    if placed == [] then []
    else
      var last := placed[|placed| - 1];
      PlacedIn(placed[..|placed| - 1], i) + (if last.loop == i then [last.fd] else [])
  }

  function Descriptors<T>(placed: seq<Placement<T>>): seq<T> {
    seq(|placed|, k requires 0 <= k < |placed| => placed[k].fd)
  }

  /** What the acceptor is doing to one loop. */
  datatype Visit<T> = Away | Trying(fd: T) | Announcing | Waking

  function VisitOf<T>(a: Acceptor<T>, i: nat): Visit<T> {
    if a.Putting? && a.idx == i then Trying(a.fd)
    else if a.Exchanging? && a.idx == i then Announcing
    else if a.Signalling? && a.idx == i then Waking
    else Away
  }

  /** The wake-up token of a loop. */
  function Tokens<T>(l: EventLoop<T>, visit: Visit<T>): nat {
    (if visit.Waking? then 1 else 0) + l.counter + (if l.pc == Clearing then 1 else 0)
  }

  ghost predicate LoopInv<T>(l: EventLoop<T>, visit: Visit<T>, mine: seq<T>, q: F.Queue<T>, from: nat) {
    && Sim(l.queue, q, from)
    && mine == l.received + q.items
    && Tokens(l, visit) == (if l.flag then 1 else 0)
    && (l.pc == Reading ==> l.counter == 1)
    && (l.pc != Draining ==> l.queue.get == GetIdle)
    && (l.pc == Waiting || l.pc == Reading ==> q.items == [] || l.flag || visit.Announcing?)
    && (l.queue.put != PutIdle ==> visit.Trying? && l.queue.put.data == visit.fd)
  }

  lemma LoopMoveKeepsInv<T>(l: EventLoop<T>, visit: Visit<T>, mine: seq<T>, q: F.Queue<T>, from: nat,
                            m: LoopMove<T>, l': EventLoop<T>)
      returns (q': F.Queue<T>, from': nat)
    requires LoopInv(l, visit, mine, q, from) && LoopNext(l, m, l')
    ensures LoopInv(l', visit, mine, q', from')
  {
    hide Next, Observed, Sim;
    q', from' := q, from;
    if m.Drain? {
      q', from' := DrainKeepsInv(l, visit, mine, q, from, m.action, l');
    }
  }

  /** What a step of Get may be seen to do, and that it leaves Put alone. */
  lemma GetObserves<T>(r: Ring<T>, a: Action<T>, r': Ring<T>)
    requires (a.CallGet? || a.StepGet?) && Next(r, a, r')
    ensures r'.put == r.put && (Observed(r, a).Empty? ==> r'.get == GetIdle)
    ensures var e := Observed(r, a); e.Left? || e.Empty? || e.Internal?
  {
  }

  lemma DrainKeepsInv<T>(l: EventLoop<T>, visit: Visit<T>, mine: seq<T>, q: F.Queue<T>, from: nat,
                         a: Action<T>, l': EventLoop<T>)
      returns (q': F.Queue<T>, from': nat)
    requires LoopInv(l, visit, mine, q, from) && LoopNext(l, Drain(a), l')
    ensures LoopInv(l', visit, mine, q', from')
  {
    hide Next, Observed, Sim;
    GetObserves(l.queue, a, l'.queue);
    from' := StepSim(l.queue, q, from, a, l'.queue);
    q' := F.Apply(q, Observed(l.queue, a));
    if Observed(l.queue, a).Left? {
      assert q.items == [q.items[0]] + q'.items;
    }
  }

  lemma PutKeepsInv<T>(l: EventLoop<T>, fd: T, mine: seq<T>, q: F.Queue<T>, from: nat, queue': Ring<T>)
      returns (q': F.Queue<T>, from': nat)
    requires LoopInv(l, Trying(fd), mine, q, from) && Next(l.queue, PutAction(l.queue, fd), queue')
    ensures var e := Observed(l.queue, PutAction(l.queue, fd));
            && (e.Entered? ==> e.item == fd && LoopInv(l.(queue := queue'), Announcing, mine + [fd], q', from'))
            && (e.Full? ==> forall v: Visit<T> :: v.Away? || v.Trying? ==>
                  LoopInv(l.(queue := queue'), v, mine, q', from'))
            && (e.Internal? ==> LoopInv(l.(queue := queue'), Trying(fd), mine, q', from'))
  {
    var a := PutAction(l.queue, fd);
    from' := StepSim(l.queue, q, from, a, queue');
    q' := F.Apply(q, Observed(l.queue, a));
  }

  /** Everything accepted is placed exactly once, or in the acceptor's hands; and every loop keeps its invariant. */
  ghost predicate Inv<T>(s: Server<T>, qs: seq<F.Queue<T>>, froms: seq<nat>) {
    && s.loops != [] && |qs| == |froms| == |s.loops|
    && (!s.acceptor.Accepting? ==> s.acceptor.idx < |s.loops|)
    && s.accepted == Descriptors(s.placed) + (if s.acceptor.Putting? then [s.acceptor.fd] else [])
    && (forall k :: 0 <= k < |s.placed| ==> s.placed[k].loop < |s.loops|)
    && (forall i :: 0 <= i < |s.loops| ==>
          LoopInv(s.loops[i], VisitOf(s.acceptor, i), PlacedIn(s.placed, i), qs[i], froms[i]))
  }

  lemma ServerMoveKeepsInv<T>(s: Server<T>, qs: seq<F.Queue<T>>, froms: seq<nat>, m: Move<T>, s': Server<T>)
      returns (qs': seq<F.Queue<T>>, froms': seq<nat>)
    requires Inv(s, qs, froms) && ServerNext(s, m, s')
    ensures Inv(s', qs', froms')
  {
    hide LoopNext, Next, Observed, PlacedIn, PutAction, Sim;
    qs', froms' := qs, froms;
    match m
    case Accept(fd) =>
      forall i | 0 <= i < |s'.loops|
        ensures LoopInv(s'.loops[i], VisitOf(s'.acceptor, i), PlacedIn(s'.placed, i), qs[i], froms[i])
      {
        assert LoopInv(s.loops[i], VisitOf(s.acceptor, i), PlacedIn(s.placed, i), qs[i], froms[i]);
      }
    case Put => qs', froms' := PutMoveKeepsInv(s, qs, froms, s');
    case ByLoop(j, lm) =>
      var q, from := LoopMoveKeepsInv(s.loops[j], VisitOf(s.acceptor, j), PlacedIn(s.placed, j), qs[j], froms[j],
                                      lm, s'.loops[j]);
      qs', froms' := qs[j := q], froms[j := from];
    case _ =>
      forall i | 0 <= i < |s'.loops|
        ensures LoopInv(s'.loops[i], VisitOf(s'.acceptor, i), PlacedIn(s'.placed, i), qs[i], froms[i])
      {
        assert LoopInv(s.loops[i], VisitOf(s.acceptor, i), PlacedIn(s.placed, i), qs[i], froms[i]);
      }
  }

  lemma PutMoveKeepsInv<T>(s: Server<T>, qs: seq<F.Queue<T>>, froms: seq<nat>, s': Server<T>)
      returns (qs': seq<F.Queue<T>>, froms': seq<nat>)
    requires Inv(s, qs, froms) && ServerNext(s, Put, s')
    ensures Inv(s', qs', froms')
  {
    hide LoopInv, LoopNext, Next, Observed, PlacedIn, PutAction;
    var Putting(fd, idx) := s.acceptor;
    var l := s.loops[idx];
    var e := Observed(l.queue, PutAction(l.queue, fd));
    assert LoopInv(l, Trying(fd), PlacedIn(s.placed, idx), qs[idx], froms[idx]);
    var q, from := PutKeepsInv(l, fd, PlacedIn(s.placed, idx), qs[idx], froms[idx], s'.loops[idx].queue);
    qs', froms' := qs[idx := q], froms[idx := from];
    PutObserves(l.queue, fd);
    forall i | 0 <= i < |s'.loops|
      ensures LoopInv(s'.loops[i], VisitOf(s'.acceptor, i), PlacedIn(s'.placed, i), qs'[i], froms'[i])
    {
      PlacedMore(s.placed, Placement(fd, idx), i);
      if i == idx {
        assert s'.loops[i] == l.(queue := s'.loops[idx].queue);
        assert e.Full? ==> VisitOf(s'.acceptor, i).Trying? || VisitOf(s'.acceptor, i).Away?;
      } else {
        assert LoopInv(s.loops[i], VisitOf(s.acceptor, i), PlacedIn(s.placed, i), qs[i], froms[i]);
        assert s'.loops[i] == s.loops[i];
        if e.Full? && s'.acceptor.idx == i {
          AwayToTrying(s.loops[i], fd, PlacedIn(s.placed, i), qs[i], froms[i]);
        }
      }
    }
  }

  lemma PlacedMore<T>(placed: seq<Placement<T>>, p: Placement<T>, i: nat)
    ensures PlacedIn(placed + [p], i) == if p.loop == i then PlacedIn(placed, i) + [p.fd] else PlacedIn(placed, i)
  {
    assert (placed + [p])[..|placed|] == placed;
  }

  lemma AwayToTrying<T>(l: EventLoop<T>, fd: T, mine: seq<T>, q: F.Queue<T>, from: nat)
    requires LoopInv(l, Away, mine, q, from)
    ensures LoopInv(l, Trying(fd), mine, q, from)
  {
  }

  lemma PutObserves<T>(queue: Ring<T>, fd: T)
    ensures var e := Observed(queue, PutAction(queue, fd)); e.Entered? || e.Full? || e.Internal?
  {
  }

  ghost predicate IsServerRun<T(!new)>(run: seq<Server<T>>, moves: seq<Move<T>>) {
    && |run| == |moves| + 1
    && Init(run[0])
    && forall i :: 0 <= i < |moves| ==> ServerNext(run[i], moves[i], run[i + 1])
  }

  ghost predicate Reachable<T(!new)>(s: Server<T>) {
    exists run: seq<Server<T>>, moves :: IsServerRun(run, moves) && s == run[|moves|]
  }

  lemma InitInv<T>(s: Server<T>) returns (qs: seq<F.Queue<T>>, froms: seq<nat>)
    requires Init(s)
    ensures Inv(s, qs, froms)
  {
    qs := seq(|s.loops|, i requires 0 <= i < |s.loops| => F.Queue(|s.loops[i].queue.buffer|, []));
    froms := seq(|s.loops|, i => 0);
    forall i | 0 <= i < |s.loops| ensures LoopInv(s.loops[i], Away, [], qs[i], froms[i]) {
      assert NewLoop(s.loops[i]);
      SpscRing.InitSim(s.loops[i].queue);
    }
  }

  lemma {:induction false} RunKeepsInv<T(!new)>(run: seq<Server<T>>, moves: seq<Move<T>>)
      returns (qs: seq<F.Queue<T>>, froms: seq<nat>)
    requires IsServerRun(run, moves)
    ensures Inv(run[|moves|], qs, froms)
    decreases |moves|
  {
    hide Inv, ServerNext;
    var n := |moves| - 1;
    if n < 0 {
      qs, froms := InitInv(run[0]);
    } else {
      assert IsServerRun(run[..n + 1], moves[..n]);
      qs, froms := RunKeepsInv(run[..n + 1], moves[..n]);
      qs, froms := ServerMoveKeepsInv(run[n], qs, froms, moves[n], run[n + 1]);
    }
  }

  /** Every accepted descriptor is in exactly one place: the acceptor's hand or the record of one loop; and each loop
      has received, in order, a prefix of what was placed with it. */
  lemma EachAcceptedOncePlaced<T(!new)>(s: Server<T>)
    requires Reachable(s)
    ensures s.accepted == Descriptors(s.placed) + (if s.acceptor.Putting? then [s.acceptor.fd] else [])
    ensures forall k :: 0 <= k < |s.placed| ==> s.placed[k].loop < |s.loops|
    ensures forall i :: 0 <= i < |s.loops| ==> s.loops[i].received <= PlacedIn(s.placed, i)
  {
    var run: seq<Server<T>>, moves :| IsServerRun(run, moves) && s == run[|moves|];
    var qs, froms := RunKeepsInv(run, moves);
    forall i | 0 <= i < |s.loops| ensures s.loops[i].received <= PlacedIn(s.placed, i) {
      assert LoopInv(s.loops[i], VisitOf(s.acceptor, i), PlacedIn(s.placed, i), qs[i], froms[i]);
    }
  }

  /** Token conservation for every loop, and no lost wake-up: a loop asleep with a descriptor it has not received is
      signalled or about to be. */
  lemma NoDescriptorStranded<T(!new)>(s: Server<T>, i: nat)
    requires Reachable(s) && i < |s.loops|
    ensures Tokens(s.loops[i], VisitOf(s.acceptor, i)) == if s.loops[i].flag then 1 else 0
    ensures s.loops[i].pc == Reading ==> s.loops[i].counter == 1
    ensures s.loops[i].received != PlacedIn(s.placed, i) ==>
              s.loops[i].pc != Waiting || s.loops[i].counter > 0
              || s.acceptor == Exchanging(i) || s.acceptor == Signalling(i)
  {
    var run: seq<Server<T>>, moves :| IsServerRun(run, moves) && s == run[|moves|];
    var qs, froms := RunKeepsInv(run, moves);
    assert LoopInv(s.loops[i], VisitOf(s.acceptor, i), PlacedIn(s.placed, i), qs[i], froms[i]);
  }

  /** When everything is quiet, every loop has received exactly what was placed with it, in order, and everything
      accepted was placed. */
  lemma QuietMeansReceived<T(!new)>(s: Server<T>)
    requires Reachable(s) && s.acceptor.Accepting?
    requires forall i :: 0 <= i < |s.loops| ==> s.loops[i].pc == Waiting && s.loops[i].counter == 0
    ensures s.accepted == Descriptors(s.placed)
    ensures forall i :: 0 <= i < |s.loops| ==> s.loops[i].received == PlacedIn(s.placed, i)
  {
    EachAcceptedOncePlaced(s);
    forall i | 0 <= i < |s.loops| ensures s.loops[i].received == PlacedIn(s.placed, i) {
      NoDescriptorStranded(s, i);
    }
  }

  /** A Put call that returns with this move, whether it found room or not. */
  ghost predicate Completes<T>(s: Server<T>, m: Move<T>) {
    && m.Put? && s.acceptor.Putting? && s.acceptor.idx < |s.loops|
    && (var queue := s.loops[s.acceptor.idx].queue;
        !Observed(queue, PutAction(queue, s.acceptor.fd)).Internal?)
  }

  /** The number of Put calls completed. */
  ghost function Tries<T>(run: seq<Server<T>>, moves: seq<Move<T>>): nat
    requires |run| == |moves| + 1
    decreases |moves|
  {
    if moves == [] then 0
    else
      var n := |moves| - 1;
      Tries(run[..n + 1], moves[..n]) + (if Completes(run[n], moves[n]) then 1 else 0)
  }

  lemma NextTurn(tries: nat, n: nat)
    requires n > 0
    ensures (tries % n + 1) % n == (tries + 1) % n
  {
    PowerOfTwo.ModAdd(tries % n + 1, tries / n, n);
    assert tries % n + 1 + n * (tries / n) == tries + 1;
  }

  /** Where the acceptor is after so many Put calls. */
  ghost predicate InTurn<T>(s: Server<T>, n: nat, tries: nat) {
    && |s.loops| == n > 0
    && (s.acceptor.Putting? ==> s.acceptor.idx == tries % n)
    && (s.acceptor.Accepting? ==> s.acceptor.idx % n == tries % n)
    && (s.acceptor.Exchanging? || s.acceptor.Signalling? ==> tries > 0 && s.acceptor.idx == (tries - 1) % n)
  }

  lemma TurnStep<T>(s: Server<T>, n: nat, tries: nat, m: Move<T>, s': Server<T>)
    requires InTurn(s, n, tries) && ServerNext(s, m, s')
    ensures InTurn(s', n, tries + if Completes(s, m) then 1 else 0)
  {
    hide LoopNext, Next, Observed, PutAction;
    NextTurn(tries, n);
    match m
    case Put => PutObserves(s.loops[s.acceptor.idx].queue, s.acceptor.fd);
    case Swap => NextTurn(tries - 1, n);
    case Signal => NextTurn(tries - 1, n);
    case _ =>
  }

  /** Round robin, full queues included: the k-th Put call of the acceptor, successful or not, goes to loop k mod the
      number of loops. */
  lemma {:induction false} RoundRobin<T(!new)>(run: seq<Server<T>>, moves: seq<Move<T>>)
    requires IsServerRun(run, moves)
    ensures InTurn(run[|moves|], |run[0].loops|, Tries(run, moves))
    decreases |moves|
  {
    var k := |moves| - 1;
    if k >= 0 {
      hide ServerNext, InTurn, Completes;
      assert IsServerRun(run[..k + 1], moves[..k]);
      RoundRobin(run[..k + 1], moves[..k]);
      TurnStep(run[k], |run[0].loops|, Tries(run[..k + 1], moves[..k]), moves[k], run[k + 1]);
    }
  }
}
