/** That accepted sockets get where they should: from every state acceptor and loops can come to rest, with every
    descriptor received by the loop it was placed with (server.cpp, network_event_handler.cpp). */
module AcceptProgress {
  import opened Basics
  import opened SimpleCircBuf
  import opened SpscRing
  import opened AcceptDispatch
  import F = Fifo

  // ---- runs ---------------------------------------------------------------------------------------------------------

  /** Some moves, or some moves of loops alone, lead from one state to another. */
  ghost predicate Leads<T(!new)>(s: Server<T>, s': Server<T>, loopsOnly: bool) {
    exists run: seq<Server<T>>, moves :: IsPath(run, moves, loopsOnly) && run[0] == s && run[|moves|] == s'
  }

  ghost predicate IsPath<T(!new)>(run: seq<Server<T>>, moves: seq<Move<T>>, loopsOnly: bool) {
    && |run| == |moves| + 1
    && (forall i :: 0 <= i < |moves| ==> ServerNext(run[i], moves[i], run[i + 1]))
    && (loopsOnly ==> forall i :: 0 <= i < |moves| ==> moves[i].ByLoop?)
  }

  lemma LeadsHere<T(!new)>(s: Server<T>, loopsOnly: bool)
    ensures Leads(s, s, loopsOnly)
  {
    var none: seq<Move<T>> := [];
    assert IsPath([s], none, loopsOnly);
  }

  lemma LeadsOver<T(!new)>(s: Server<T>, s1: Server<T>, s2: Server<T>, loopsOnly: bool)
    requires Leads(s, s1, loopsOnly) && Leads(s1, s2, loopsOnly)
    ensures Leads(s, s2, loopsOnly)
  {
    hide ServerNext;
    var run: seq<Server<T>>, moves :| IsPath(run, moves, loopsOnly) && run[0] == s && run[|moves|] == s1;
    var run': seq<Server<T>>, moves' :| IsPath(run', moves', loopsOnly) && run'[0] == s1 && run'[|moves'|] == s2;
    var all, steps := run + run'[1..], moves + moves';
    forall i | 0 <= i < |steps| ensures ServerNext(all[i], steps[i], all[i + 1]) {
      if i < |moves| {
        assert ServerNext(run[i], moves[i], run[i + 1]);
      } else {
        var k := i - |moves|;
        assert all[i] == run'[k];
        assert ServerNext(run'[k], moves'[k], run'[k + 1]);
      }
    }
    assert IsPath(all, steps, loopsOnly);
  }

  lemma LeadsAnyway<T(!new)>(s: Server<T>, s': Server<T>)
    requires Leads(s, s', true)
    ensures Leads(s, s', false)
  {
    hide ServerNext;
    var run: seq<Server<T>>, moves :| IsPath(run, moves, true) && run[0] == s && run[|moves|] == s';
    assert IsPath(run, moves, false);
  }

  /** One move. */
  lemma LeadsThere<T(!new)>(s: Server<T>, m: Move<T>, s': Server<T>)
    requires Reachable(s) && ServerNext(s, m, s')
    ensures Leads(s, s', m.ByLoop?) && Reachable(s')
  {
    hide AcceptDispatch.Init, ServerNext;
    assert IsPath([s, s'], [m], m.ByLoop?);
    var run: seq<Server<T>>, moves :| IsServerRun(run, moves) && s == run[|moves|];
    assert IsServerRun(run + [s'], moves + [m]);
  }

  // ---- a loop -------------------------------------------------------------------------------------------------------

  /** Asleep, and not signalled. */
  predicate Asleep<T>(l: EventLoop<T>) { l.pc == Waiting && l.counter == 0 }

  ghost function Phase<T>(l: EventLoop<T>): nat {
    match l.pc
    case Waiting => if l.counter > 0 then 4 else 0
    case Reading => 3
    case Clearing => 2
    case Draining => if l.counter > 0 then 5 else 1
  }

  /** How many descriptors are waiting in a loop's queue. */
  ghost function Left<T>(l: EventLoop<T>): nat { Difference(l.queue.in_, l.queue.out_) }

  ghost function Stage<T>(l: EventLoop<T>): nat {
    match l.queue.get
    case GetIdle => 4
    case GetCheck => 3
    case GetCopy => 2
    case GetAdvance(_) => 1
  }

  ghost predicate Nearer<T>(l: EventLoop<T>, l': EventLoop<T>) {
    || Phase(l') < Phase(l)
    || (Phase(l') == Phase(l) && Left(l') < Left(l))
    || (Phase(l') == Phase(l) && Left(l') == Left(l) && Stage(l') < Stage(l))
  }

  /** While it is not asleep, a loop can go on, and comes nearer to it. */
  lemma LoopGetsOn<T>(l: EventLoop<T>, visit: Visit<T>, mine: seq<T>, q: F.Queue<T>, from: nat)
      returns (m: LoopMove<T>, l': EventLoop<T>)
    requires LoopInv(l, visit, mine, q, from) && !Asleep(l)
    ensures LoopNext(l, m, l') && Nearer(l, l')
  {
    hide Sim;
    match l.pc
    case Waiting => m, l' := Wake, l.(pc := Reading);
    case Reading => m, l' := Read, l.(counter := 0, pc := Clearing);
    case Clearing => m, l' := Clear, l.(flag := false, pc := Draining);
    case Draining => m, l' := DrainsOn(l, q, from);
  }

  lemma DrainsOn<T>(l: EventLoop<T>, q: F.Queue<T>, from: nat) returns (m: LoopMove<T>, l': EventLoop<T>)
    requires l.pc == Draining && Sim(l.queue, q, from)
    ensures LoopNext(l, m, l') && Nearer(l, l')
  {
    hide Difference, ElementAt, Increment, IsRingSize, Nth, PowerOfTwo.Slot;
    Shorter(l.queue, q, from);
    var r := l.queue;
    var a, r';
    match r.get {
      case GetIdle =>
        a, r' := CallGet, r.(get := GetCheck);
      case GetCheck =>
        a, r' := StepGet(ElementAt(r.buffer, 0)), r.(get := if r.in_ == r.out_ then GetIdle else GetCopy);
      case GetCopy =>
        var left := ElementAt(r.buffer, r.out_);
        a, r' := StepGet(left), Written(r, r.out_, left).(get := GetAdvance(left));
      case GetAdvance(_) =>
        a, r' := StepGet(ElementAt(r.buffer, 0)), r.(out_ := Increment(r.out_), get := GetIdle);
    }
    m := Drain(a);
    l' := l.(queue := r', pc := if Observed(r, a).Empty? then Waiting else Draining,
             received := if Observed(r, a).Left? then l.received + [Observed(r, a).item] else l.received);
  }

  /** Giving up the oldest element leaves one less. */
  lemma Shorter<T>(r: Ring<T>, q: F.Queue<T>, from: nat)
    requires Sim(r, q, from)
    ensures r.get.GetAdvance? ==> Difference(r.in_, Increment(r.out_)) < Difference(r.in_, r.out_)
    ensures IsRingSize(|r.buffer|)
  {
    WrappedDifference(from, |q.items|);
    if q.items != [] {
      WrappedCounts(r.in_, r.out_);
    }
  }

  // ---- the loops ----------------------------------------------------------------------------------------------------

  /** What the acceptor has done. */
  ghost predicate SameAcceptor<T>(s: Server<T>, s': Server<T>) {
    && s'.acceptor == s.acceptor && s'.accepted == s.accepted && s'.placed == s.placed && |s'.loops| == |s.loops|
  }

  lemma LoopKnows<T(!new)>(s: Server<T>, i: nat) returns (mine: seq<T>, q: F.Queue<T>, from: nat)
    requires Reachable(s) && i < |s.loops|
    ensures LoopInv(s.loops[i], VisitOf(s.acceptor, i), mine, q, from)
  {
    hide LoopInv;
    var run: seq<Server<T>>, moves :| IsServerRun(run, moves) && s == run[|moves|];
    var qs, froms := RunKeepsInv(run, moves);
    mine, q, from := PlacedIn(s.placed, i), qs[i], froms[i];
  }

  lemma {:induction false} LoopFallsAsleep<T(!new)>(s: Server<T>, i: nat) returns (s': Server<T>)
    requires Reachable(s) && i < |s.loops|
    ensures Leads(s, s', true) && Reachable(s') && SameAcceptor(s, s') && Asleep(s'.loops[i])
    ensures forall j :: 0 <= j < |s.loops| && j != i ==> s'.loops[j] == s.loops[j]
    decreases Phase(s.loops[i]), Left(s.loops[i]), Stage(s.loops[i])
  {
    hide Leads, LoopInv, LoopNext, Phase, Reachable, Stage;
    if Asleep(s.loops[i]) {
      s' := s;
      LeadsHere(s, true);
    } else {
      var mine, q, from := LoopKnows(s, i);
      var m, l := LoopGetsOn(s.loops[i], VisitOf(s.acceptor, i), mine, q, from);
      var s1 := s.(loops := s.loops[i := l]);
      assert ServerNext(s, ByLoop(i, m), s1);
      LeadsThere(s, ByLoop(i, m), s1);
      s' := LoopFallsAsleep(s1, i);
      LeadsOver(s, s1, s', true);
    }
  }

  lemma {:induction false} LoopsFallAsleep<T(!new)>(s: Server<T>, k: nat) returns (s': Server<T>)
    requires Reachable(s) && k <= |s.loops| && forall i :: 0 <= i < k ==> Asleep(s.loops[i])
    ensures Leads(s, s', true) && Reachable(s') && SameAcceptor(s, s')
    ensures forall i :: 0 <= i < |s'.loops| ==> Asleep(s'.loops[i])
    decreases |s.loops| - k
  {
    hide Leads, Reachable;
    if k == |s.loops| {
      s' := s;
      LeadsHere(s, true);
    } else {
      var s1 := LoopFallsAsleep(s, k);
      s' := LoopsFallAsleep(s1, k + 1);
      LeadsOver(s, s1, s', true);
    }
  }

  /** From every state that can be reached in which the acceptor is between calls, moves of the loops alone lead to
      sleep with nothing signalled, and then each loop has received exactly what was placed with it. */
  lemma LoopsFinish<T(!new)>(s: Server<T>) returns (s': Server<T>)
    requires Reachable(s) && s.acceptor.Accepting?
    ensures Leads(s, s', true) && s'.accepted == s.accepted && s'.placed == s.placed && |s'.loops| == |s.loops|
    ensures forall i :: 0 <= i < |s'.loops| ==> Asleep(s'.loops[i]) && s'.loops[i].received == PlacedIn(s.placed, i)
  {
    hide Leads, Reachable;
    s' := LoopsFallAsleep(s, 0);
    QuietMeansReceived(s');
  }

  // ---- the acceptor -------------------------------------------------------------------------------------------------

  /** How far the acceptor is from its next accept, if there is room. */
  ghost function ToGo<T>(s: Server<T>): nat {
    match s.acceptor
    case Accepting(_) => 0
    case Signalling(_) => 1
    case Exchanging(_) => 2
    case Putting(_, idx) =>
      if idx >= |s.loops| then 8 else
        match s.loops[idx].queue.put
        case PutAdvance(_) => 3
        case PutCopy(_) => 4
        case PutCheck(_) => 5
        case PutIdle => 6
  }

  /** The queue of a loop that sleeps unsignalled has room. */
  lemma RoomWhileAsleep<T>(l: EventLoop<T>, fd: T, mine: seq<T>, q: F.Queue<T>, from: nat)
    requires LoopInv(l, Trying(fd), mine, q, from) && Asleep(l)
    ensures IsRingSize(|l.queue.buffer|) && Difference(l.queue.in_, l.queue.out_) != |l.queue.buffer|
    ensures l.queue.put != PutIdle ==> l.queue.put.data == fd
  {
    hide Nth;
    WrappedDifference(from, |q.items|);
  }

  /** A step of the acceptor's Put call on a loop that is asleep. */
  lemma PutsOn<T>(s: Server<T>) returns (s': Server<T>)
    requires s.acceptor.Putting? && s.acceptor.idx < |s.loops|
    requires var l := s.loops[s.acceptor.idx];
             && Asleep(l) && IsRingSize(|l.queue.buffer|) && Difference(l.queue.in_, l.queue.out_) != |l.queue.buffer|
             && (l.queue.put != PutIdle ==> l.queue.put.data == s.acceptor.fd)
    ensures ServerNext(s, Put, s') && ToGo(s') < ToGo(s) && s'.accepted == s.accepted && |s'.loops| == |s.loops|
    ensures s'.acceptor.Putting? ==> s'.acceptor == s.acceptor && Asleep(s'.loops[s.acceptor.idx])
  {
    hide Difference, IsRingSize, Increment, PowerOfTwo.Slot;
    var Putting(fd, idx) := s.acceptor;
    var l := s.loops[idx];
    var r := l.queue;
    var r' := match r.put
              case PutIdle => r.(put := PutCheck(fd))
              case PutCheck(data) => r.(put := PutCopy(data))
              case PutCopy(data) => Written(r, r.in_, data).(put := PutAdvance(data))
              case PutAdvance(_) => r.(in_ := Increment(r.in_), put := PutIdle);
    s' := s.(loops := s.loops[idx := l.(queue := r')],
             acceptor := if r.put.PutAdvance? then Exchanging(idx) else s.acceptor,
             placed := if r.put.PutAdvance? then s.placed + [Placement(fd, idx)] else s.placed);
  }

  lemma Notifies<T>(s: Server<T>) returns (m: Move<T>, s': Server<T>)
    requires (s.acceptor.Exchanging? || s.acceptor.Signalling?) && s.acceptor.idx < |s.loops|
    ensures ServerNext(s, m, s') && ToGo(s') < ToGo(s) && s'.accepted == s.accepted && !s'.acceptor.Putting?
    ensures !m.ByLoop?
  {
    var idx := s.acceptor.idx;
    if s.acceptor.Exchanging? {
      m, s' := Swap, s.(loops := s.loops[idx := s.loops[idx].(flag := true)],
                        acceptor := if s.loops[idx].flag then Accepting(idx + 1) else Signalling(idx));
    } else {
      m, s' := Signal, s.(loops := s.loops[idx := s.loops[idx].(counter := s.loops[idx].counter + 1)],
                          acceptor := Accepting(idx + 1));
    }
  }

  lemma AcceptorKnows<T(!new)>(s: Server<T>)
    requires Reachable(s)
    ensures s.loops != [] && (!s.acceptor.Accepting? ==> s.acceptor.idx < |s.loops|)
  {
    hide LoopInv;
    var run: seq<Server<T>>, moves :| IsServerRun(run, moves) && s == run[|moves|];
    var _, _ := RunKeepsInv(run, moves);
  }

  lemma {:induction false} AcceptorFinishes<T(!new)>(s: Server<T>) returns (s': Server<T>)
    requires Reachable(s)
    requires s.acceptor.Putting? ==> s.acceptor.idx < |s.loops| && Asleep(s.loops[s.acceptor.idx])
    ensures Leads(s, s', false) && Reachable(s') && s'.acceptor.Accepting? && s'.accepted == s.accepted
    decreases ToGo(s)
  {
    hide Asleep, Leads, LoopInv, Reachable, ServerNext, ToGo;
    AcceptorKnows(s);
    if s.acceptor.Accepting? {
      s' := s;
      LeadsHere(s, false);
    } else {
      var m, s1;
      if s.acceptor.Putting? {
        var mine, q, from := LoopKnows(s, s.acceptor.idx);
        RoomWhileAsleep(s.loops[s.acceptor.idx], s.acceptor.fd, mine, q, from);
        s1 := PutsOn(s);
        m := Put;
      } else {
        m, s1 := Notifies(s);
      }
      LeadsThere(s, m, s1);
      s' := AcceptorFinishes(s1);
      LeadsOver(s, s1, s', false);
    }
  }

  /** From every state that can be reached, the server can come to rest, and then every descriptor accepted has been
      placed once, and received by just the loop it was placed with. */
  lemma ComesToRest<T(!new)>(s: Server<T>) returns (s': Server<T>)
    requires Reachable(s)
    ensures Leads(s, s', false) && Reachable(s') && s'.acceptor.Accepting? && s'.accepted == s.accepted
    ensures s'.accepted == Descriptors(s'.placed)
    ensures forall k :: 0 <= k < |s'.placed| ==> s'.placed[k].loop < |s'.loops|
    ensures forall i :: 0 <= i < |s'.loops| ==> Asleep(s'.loops[i]) && s'.loops[i].received == PlacedIn(s'.placed, i)
  {
    hide Leads, Reachable;
    AcceptorKnows(s);
    var s1 := LoopsFallAsleep(s, 0);
    var s2 := AcceptorFinishes(s1);
    s' := LoopsFallAsleep(s2, 0);
    LeadsAnyway(s, s1);
    LeadsAnyway(s2, s');
    LeadsOver(s, s1, s2, false);
    LeadsOver(s, s2, s', false);
    EachAcceptedOncePlaced(s');
    QuietMeansReceived(s');
  }

  lemma {:induction false} PlacedThere<T>(placed: seq<Placement<T>>, k: nat)
    requires k < |placed|
    ensures placed[k].fd in PlacedIn(placed, placed[k].loop)
  {
    var last := |placed| - 1;
    if k < last {
      PlacedThere(placed[..last], k);
    }
  }

  /** From every state that can be reached, the acceptor can go on to accept any descriptor, and some loop receives
      it. */
  lemma AnySocketArrives<T(!new)>(s: Server<T>, fd: T) returns (s': Server<T>, i: nat)
    requires Reachable(s)
    ensures Leads(s, s', false) && s'.accepted == s.accepted + [fd]
    ensures i < |s'.loops| && fd in s'.loops[i].received
  {
    hide Leads, Reachable;
    var s1 := ComesToRest(s);
    AcceptorKnows(s1);
    var n := |s1.loops|;
    var s2 := s1.(acceptor := Putting(fd, s1.acceptor.idx % n), accepted := s1.accepted + [fd]);
    assert ServerNext(s1, Accept(fd), s2);
    LeadsThere(s1, Accept(fd), s2);
    s' := ComesToRest(s2);
    LeadsOver(s, s1, s2, false);
    LeadsOver(s, s2, s', false);
    var k := |s'.placed| - 1;
    assert Descriptors(s'.placed)[k] == s'.placed[k].fd == fd;
    i := s'.placed[k].loop;
    PlacedThere(s'.placed, k);
  }
}
