/** The timers of an event loop (4-minheap-internal.h, ev_loop.h): a 4-ary heap of watchers ordered by the deadline
    cached in each entry, in which every watcher knows its position; and timer_notify, which restarts the timers that
    are due and feeds them to the pending arrays. */
module TimerHeap {
  import opened EvLoop
  import opened History
  import opened QuadHeap

  /** min_heap_t. */
  datatype HeapEntry = HeapEntry(wt: Watcher, cache_at: real)

  /** The priority timer_watcher_init gives every timer. */
  const TIMER_PRIORITY: nat := NUMPRI / 2

  lemma PriorityInRange()
    ensures TIMER_PRIORITY < NUMPRI
  {
  }

  predicate Before(a: real, b: real) { a < b }

  function Keys(h: seq<HeapEntry>): (keys: seq<real>)
    ensures |keys| == |h| && forall i :: 0 <= i < |h| ==> keys[i] == h[i].cache_at
  {
    seq(|h|, i requires 0 <= i < |h| => h[i].cache_at)
  }

  lemma KeysOfSwap(h: seq<HeapEntry>, i: nat, j: nat)
    requires i < |h| && j < |h|
    ensures Keys(Swap(h, i, j)) == Swap(Keys(h), i, j)
  {
  }

  lemma Ordered()
    ensures StrictWeakOrder(Before)
  {
  }

  /** The scan for the least child. */
  method LeastChild(heap: seq<HeapEntry>, pos: nat, lchild: nat) returns (min: nat)
    requires lchild == LChild(pos) < |heap|
    ensures IsMinChild(Keys(heap), |heap|, pos, min, Before) && pos < min < |heap|
  {
    min := lchild;
    if lchild + DHEAD - 1 < |heap| {
      min := if heap[lchild + 1].cache_at < heap[min].cache_at then lchild + 1 else min;
      min := if heap[lchild + 2].cache_at < heap[min].cache_at then lchild + 2 else min;
      min := if heap[lchild + 3].cache_at < heap[min].cache_at then lchild + 3 else min;
      NoneBelow(heap, pos, min);
    } else {
      min := if lchild + 1 < |heap| && heap[lchild + 1].cache_at < heap[min].cache_at then lchild + 1 else min;
      min := if lchild + 2 < |heap| && heap[lchild + 2].cache_at < heap[min].cache_at then lchild + 2 else min;
      NoneBelow(heap, pos, min);
    }
  }

  lemma NoneBelow(heap: seq<HeapEntry>, pos: nat, min: nat)
    requires LChild(pos) <= min < LChild(pos) + DHEAD && min < |heap|
    requires forall i :: LChild(pos) <= i < LChild(pos) + DHEAD && i < |heap| ==> heap[min].cache_at <= heap[i].cache_at
    ensures IsMinChild(Keys(heap), |heap|, pos, min, Before)
  {
  }

  lemma HoleMoves(h: seq<HeapEntry>, pos: nat, other: nat, bak: HeapEntry)
    requires pos < |h| && other < |h| && other != pos
    ensures Swap(h[pos := bak], pos, other) == h[pos := h[other]][other := bak] && h[pos := bak][other] == h[other]
  {
  }

  /** What the watchers of a heap say about their positions, but for the one at pos. */
  ghost predicate PlacedBut(s: seq<HeapEntry>, pos: nat, active: map<Watcher, nat>) {
    pos < |s|
    && (forall i :: 0 <= i < |s| ==> s[i].wt in active)
    && (forall i :: 0 <= i < |s| && i != pos ==> active[s[i].wt] == i + 1 && s[i].wt != s[pos].wt)
  }

  ghost predicate Placed(s: seq<HeapEntry>, active: map<Watcher, nat>) {
    forall i :: 0 <= i < |s| ==> s[i].wt in active && active[s[i].wt] == i + 1
  }

  lemma Moved(s: seq<HeapEntry>, pos: nat, other: nat, active: map<Watcher, nat>)
    requires PlacedBut(s, pos, active) && other < |s| && other != pos
    ensures PlacedBut(Swap(s, pos, other), other, active[s[other].wt := pos + 1])
  {
  }

  /** The entries while one of them, now at pos, sinks. */
  ghost predicate Sinking(s: seq<HeapEntry>, pos: nat, s0: seq<HeapEntry>, active: map<Watcher, nat>) {
    PlacedBut(s, pos, active) && DownInv(Keys(s), |s|, pos, Before) && Permutation(s, s0)
  }

  lemma SinkStep(s: seq<HeapEntry>, pos: nat, min: nat, s0: seq<HeapEntry>, active: map<Watcher, nat>)
    requires Sinking(s, pos, s0, active)
    requires IsMinChild(Keys(s), |s|, pos, min, Before) && s[min].cache_at <= s[pos].cache_at
    ensures Sinking(Swap(s, pos, min), min, s0, active[s[min].wt := pos + 1]) && s[min].wt in active
  {
    Ordered();
    DownStep(Keys(s), |s|, pos, min, Before);
    KeysOfSwap(s, pos, min);
    SwapPermutes(s, pos, min, s0);
    Moved(s, pos, min, active);
  }

  lemma SinkDone(s: seq<HeapEntry>, pos: nat, min: nat, s0: seq<HeapEntry>, active: map<Watcher, nat>)
    requires Sinking(s, pos, s0, active)
    requires LChild(pos) >= |s| || (IsMinChild(Keys(s), |s|, pos, min, Before) && s[pos].cache_at < s[min].cache_at)
    ensures IsHeap(Keys(s), |s|, Before) && Permutation(s, s0) && Placed(s, active[s[pos].wt := pos + 1])
  {
  }

  /** The entries while one of them, now at pos, rises. */
  ghost predicate Rising(s: seq<HeapEntry>, pos: nat, s0: seq<HeapEntry>, active: map<Watcher, nat>) {
    PlacedBut(s, pos, active) && UpInv(Keys(s), |s|, pos, Before) && Permutation(s, s0)
  }

  lemma RiseStep(s: seq<HeapEntry>, pos: nat, s0: seq<HeapEntry>, active: map<Watcher, nat>)
    requires Rising(s, pos, s0, active) && 0 < pos && s[pos].cache_at <= s[Parent(pos)].cache_at
    ensures Rising(Swap(s, pos, Parent(pos)), Parent(pos), s0, active[s[Parent(pos)].wt := pos + 1])
    ensures s[Parent(pos)].wt in active
  {
    Ordered();
    UpStep(Keys(s), |s|, pos, Before);
    KeysOfSwap(s, pos, Parent(pos));
    SwapPermutes(s, pos, Parent(pos), s0);
    Moved(s, pos, Parent(pos), active);
  }

  lemma RiseDone(s: seq<HeapEntry>, pos: nat, s0: seq<HeapEntry>, active: map<Watcher, nat>)
    requires Rising(s, pos, s0, active) && (pos == 0 || s[Parent(pos)].cache_at < s[pos].cache_at)
    ensures IsHeap(Keys(s), |s|, Before) && Permutation(s, s0) && Placed(s, active[s[pos].wt := pos + 1])
  {
  }

  class Timers {
    /** The live entries. */
    var heap: seq<HeapEntry>
    var stack: seq<Watcher>

    ghost var timers: set<Watcher>

    constructor ()
      ensures heap == [] && stack == [] && timers == {}
    {
      heap, stack, timers := [], [], {};
    }

    ghost function Active(): (active: map<Watcher, nat>)
      reads this`timers, timers`active
      ensures active.Keys == timers
    {
      map w | w in timers :: w.active
    }

    /** Lets an entry sink to its place. */
    method ShiftDown(start: nat)
      requires start < |heap| && DownInv(Keys(heap), |heap|, start, Before)
      requires PlacedBut(heap, start, Active())
      modifies this`heap, timers`active
      ensures |heap| == |old(heap)| && IsHeap(Keys(heap), |heap|, Before)
      ensures Permutation(heap, old(heap)) && Placed(heap, Active())
    {
      var pos := start;
      var bak := heap[pos];
      var lchild := LChild(pos);
      ghost var s := heap;
      assert bak.wt in timers;
      assert Sinking(s, pos, s, Active());
      hide Swap, Sinking, DownInv, IsMinChild, IsHeap, Permutation, LChild, Parent, Keys, Placed, PlacedBut;
      while true
        invariant pos < |heap| == |old(heap)| && lchild == LChild(pos) && s == heap[pos := bak]
        invariant Sinking(s, pos, old(heap), Active())
        decreases |heap| - pos
      {
        if lchild >= |heap| {
          SinkDone(s, pos, 0, old(heap), Active());
          break;
        }
        var min := LeastChild(heap, pos, lchild);
        SameMinChild(Keys(heap), Keys(s), |s|, pos, min, Before);
        if bak.cache_at < heap[min].cache_at {
          SinkDone(s, pos, min, old(heap), Active());
          break;
        }
        SinkStep(s, pos, min, old(heap), Active());
        HoleMoves(heap, pos, min, bak);
        s := Swap(s, pos, min);
        Place(pos, heap[min]);
        lchild := LChild(min);
        pos := min;
      }
      Place(pos, bak);
    }

    /** Puts an entry into the heap and tells its watcher where. */
    method Place(pos: nat, e: HeapEntry)
      requires pos < |heap| && e.wt in timers
      modifies this`heap, e.wt`active
      ensures heap == old(heap)[pos := e] && Active() == old(Active())[e.wt := pos + 1]
    {
      heap := heap[pos := e];
      e.wt.active := pos + 1;
    }

    /** Lets an entry rise to its place. */
    method ShiftUp(start: nat)
      requires start < |heap| && UpInv(Keys(heap), |heap|, start, Before)
      requires PlacedBut(heap, start, Active())
      modifies this`heap, timers`active
      ensures |heap| == |old(heap)| && IsHeap(Keys(heap), |heap|, Before)
      ensures Permutation(heap, old(heap)) && Placed(heap, Active())
    {
      var pos := start;
      var bak := heap[pos];
      ghost var s := heap;
      assert bak.wt in timers;
      assert Rising(s, pos, s, Active());
      hide Swap, Rising, UpInv, IsHeap, Permutation, Keys, Before, Placed, PlacedBut;
      while pos != 0
        invariant pos < |heap| == |old(heap)| && s == heap[pos := bak]
        invariant Rising(s, pos, old(heap), Active())
      {
        var parent := Parent(pos);
        if heap[parent].cache_at < bak.cache_at {
          break;
        }
        RiseStep(s, pos, old(heap), Active());
        HoleMoves(heap, pos, parent, bak);
        s := Swap(s, pos, parent);
        Place(pos, heap[parent]);
        pos := parent;
      }
      RiseDone(s, pos, old(heap), Active());
      Place(pos, bak);
    }

    /** Restores order and positions after the entry at pos has been replaced. */
    method Adjust(pos: nat)
      requires pos < |heap| && IsHeapExcept(Keys(heap), |heap|, pos, Before)
      requires PlacedBut(heap, pos, Active())
      modifies this`heap, timers`active
      ensures |heap| == |old(heap)| && IsHeap(Keys(heap), |heap|, Before)
      ensures Permutation(heap, old(heap)) && Placed(heap, Active())
    {
      Ordered();
      if pos != 0 && heap[pos].cache_at < heap[Parent(pos)].cache_at {
        SmallerThanParent(Keys(heap), |heap|, pos, Before);
        ShiftUp(pos);
      } else {
        ShiftDown(pos);
      }
    }

    // ---- timer_watcher_start ------------------------------------------------------------------------------------

    /** Starts a timer. push lets the new entry rise before its deadline is cached, by the 0 that a slot not used before
        holds, so that it ends up at the root whenever it is due: the heap is ordered afterwards exactly if it is due
        no later than the others. */
    method Start(w: Watcher, now: real)
      requires Right(heap, Active(), At()) && (w !in timers ==> w.active == 0)
      requires forall v <- At() :: 0.0 < At()[v]
      modifies this`heap, this`timers, timers`active, w`active, w`at
      ensures old(w.active) != 0 ==> unchanged(this, w) && At() == old(At())
      ensures old(w.active) == 0 ==>
                && timers == old(timers) + {w} && At() == old(At())[w := old(w.at) + now]
                && heap != [] && heap[0] == HeapEntry(w, w.at)
                && Placed(heap, Active()) && Covered(heap, Active(), At())
                && (IsHeap(Keys(heap), |heap|, Before) <==> forall v <- old(At()) :: w.at <= old(At())[v])
    {
      hide Covered, IsHeap, Keys, Permutation, Placed, PlacedBut, Right, UpInv;
      Inactive(heap, Active(), At());
      if w.active != 0 {
        return;
      }
      ghost var h, at := heap, At();
      w.at := w.at + now;
      Pushed(heap, Active(), at, w);
      timers := timers + {w};
      heap := heap + [HeapEntry(w, 0.0)];
      assert Active() == old(Active())[w := 0];
      ShiftUp(|heap| - 1);
      RootIsNew(h, heap, old(Active()), Active(), at, w, w.at);
      heap := heap[w.active - 1 := HeapEntry(w, w.at)];
    }

    // ---- timer_notify -------------------------------------------------------------------------------------------

    ghost function At(): (at: map<Watcher, real>)
      reads this`timers, timers`at
      ensures at.Keys == timers
    {
      map w | w in timers :: w.at
    }

    /** Restarts the timer at the root. */
    method RestartTop(now: real) returns (et: Watcher)
      requires heap != [] && Right(heap, Active(), At())
      modifies this`heap, timers`active, timers`at
      ensures Right(heap, Active(), At()) && et == old(heap)[0].wt && et in timers
      ensures At() == old(At())[et := Restarted(old(At())[et], Repeats()[et], now)]
    {
      hide Active, At, Before, Covered, DownInv, IsHeap, Keys, Placed, PlacedBut, Repeats, Restarted, Right;
      TopIsTimer(heap, Active(), At());
      et := SetTop(now);
      Sink();
    }

    method Sink()
      requires heap != [] && DownInv(Keys(heap), |heap|, 0, Before) && PlacedBut(heap, 0, Active())
      requires Covered(heap, Active(), At())
      modifies this`heap, timers`active
      ensures Right(heap, Active(), At()) && At() == old(At())
    {
      hide Active, At, Before, Covered, DownInv, IsHeap, Keys, Permutation, Placed, PlacedBut, Right;
      ShiftDown(0);
      Reordered(old(heap), heap, old(Active()), Active(), At());
    }

    method SetTop(now: real) returns (et: Watcher)
      requires heap != [] && Right(heap, Active(), At()) && heap[0].wt in timers
      modifies this`heap, timers`at
      ensures et == old(heap)[0].wt && et in timers
      ensures At() == old(At())[et := Restarted(old(At())[et], Repeats()[et], now)]
      ensures heap != [] && DownInv(Keys(heap), |heap|, 0, Before) && PlacedBut(heap, 0, Active())
      ensures Covered(heap, Active(), At())
    {
      hide Active, At, Before, Covered, DownInv, Keys, PlacedBut, Repeats, Restarted, Right;
      et := heap[0].wt;
      Renewed(heap, Active(), At(), Restarted(At()[et], Repeats()[et], now));
      Restart(et, now);
      heap := heap[0 := HeapEntry(et, et.at)];
    }

    /** Puts off a timer by its repeat, but never into the past. */
    method Restart(et: Watcher, now: real)
      requires et in timers
      modifies et`at
      ensures At() == old(At())[et := Restarted(old(At())[et], Repeats()[et], now)] && At()[et] == et.at
    {
      et.at := et.at + et.repeat;
      if et.at < now {
        et.at := now;
      }
    }

    ghost function Repeats(): (repeats: map<Watcher, real>)
      reads this`timers, timers`repeat
      ensures repeats.Keys == timers
    {
      map w | w in timers :: w.repeat
    }

    /** The loop of timer_notify: restarts every timer that is due, and keeps them on the stack. */
    method RestartDue(now: real)
      requires Right(heap, Active(), At()) && stack == []
      modifies this`heap, this`stack, timers`active, timers`at
      ensures Right(heap, Active(), At()) && Fired(stack, old(At()), At(), Repeats(), now)
      ensures forall w <- At() :: now <= At()[w]
    {
      ghost var at0, repeats := At(), Repeats();
      hide Active, At, Due, Feeds, Fired, Keys, Repeats, Restarted, Right;
      NoneFired(at0, repeats, now);
      while heap != [] && heap[0].cache_at < now
        invariant Right(heap, Active(), At()) && Repeats() == repeats
        invariant Fired(stack, at0, At(), repeats, now)
        decreases Due(At(), now)
      {
        FireTop(now, at0);
      }
      NoneDue(heap, Active(), At(), now);
    }

    /** One turn of timer_notify. */
    method FireTop(now: real, ghost at0: map<Watcher, real>)
      requires heap != [] && heap[0].cache_at < now && Right(heap, Active(), At())
      requires Fired(stack, at0, At(), Repeats(), now)
      modifies this`heap, this`stack, timers`active, timers`at
      ensures Right(heap, Active(), At()) && Fired(stack, at0, At(), Repeats(), now) && Repeats() == old(Repeats())
      ensures Due(At(), now) < old(Due(At(), now))
    {
      hide Active, At, Due, Fired, Keys, Repeats, Restarted, Right;
      TopIsFirst(heap, Active(), At());
      NextFires(stack, heap[0].wt, at0, At(), Repeats(), now);
      var et := RestartTop(now);
      stack := stack + [et];
    }

    /** Feeds the stacked timers to the loop, from the top of the stack. If none of them was pending, that leaves them
        stacked on their pending array, upside down. */
    method InvertFeedDone(loop: EvLoop, ev: Mask, ghost pri: nat)
      requires loop.PendingsAgree() && timers <= loop.watchers && pri < |loop.pendings|
      requires InTimers()
      modifies this`stack, timers`pending, loop`pendings, loop`trace
      ensures stack == [] && loop.PendingsAgree()
      ensures loop.trace == old(loop.trace) + Feeds(old(stack), ev)
      ensures old(AreNew(stack, pri)) ==>
                loop.pendings == old(loop.pendings[pri := loop.pendings[pri] + Entries(stack, ev)])
    {
      ghost var unfed, fired, trace0, pendings0 := AreNew(stack, pri), stack, loop.trace, loop.pendings;
      Feeding0(stack, ev, pri, unfed, trace0, pendings0);
      hide AreNew, Entries, Feeding, Feeds, InTimers, EvLoop.PendingsAgree;
      while stack != []
        invariant loop.PendingsAgree() && InTimers() && (unfed ==> AreNew(stack, pri))
        invariant Feeding(stack, fired, ev, pri, unfed, loop.trace, trace0, loop.pendings, pendings0)
        decreases |stack|
      {
        FeedNext(loop, ev, pri, unfed, fired, trace0, pendings0);
      }
      FeedingDone(fired, ev, pri, unfed, loop.trace, trace0, loop.pendings, pendings0);
    }

    ghost predicate InTimers()
      reads this`stack, this`timers
    {
      Distinct(stack) && forall i :: 0 <= i < |stack| ==> stack[i] in timers
    }

    /** One turn of invert_feed_done. */
    method FeedNext(loop: EvLoop, ev: Mask, ghost pri: nat, ghost unfed: bool, ghost fired: seq<Watcher>,
                    ghost trace0: seq<Event<Watcher>>, ghost pendings0: seq<seq<EvPending>>)
      requires loop.PendingsAgree() && timers <= loop.watchers && stack != [] && InTimers()
      requires unfed ==> AreNew(stack, pri)
      requires Feeding(stack, fired, ev, pri, unfed, loop.trace, trace0, loop.pendings, pendings0)
      modifies this`stack, timers`pending, loop`pendings, loop`trace
      ensures loop.PendingsAgree() && |stack| < |old(stack)| && InTimers() && (unfed ==> AreNew(stack, pri))
      ensures Feeding(stack, fired, ev, pri, unfed, loop.trace, trace0, loop.pendings, pendings0)
    {
      hide FedTo, Feeding, EvLoop.PendingsAgree;
      var et := stack[|stack| - 1];
      ghost var before, trace, pendings := stack, loop.trace, loop.pendings;
      FeedTimer(loop, et, ev, pri, unfed);
      stack := stack[..|stack| - 1];
      assert InTimers() && (unfed ==> AreNew(stack, pri));
      FeedingStep(before, fired, ev, pri, unfed, trace, trace0, pendings, loop.pendings, pendings0);
    }

    method FeedTimer(loop: EvLoop, et: Watcher, ev: Mask, ghost pri: nat, ghost unfed: bool)
      requires loop.PendingsAgree() && et in loop.watchers
      requires unfed ==> et.pending == 0 && et.priority == pri
      modifies et`pending, loop`pendings, loop`trace
      ensures loop.PendingsAgree() && loop.trace == old(loop.trace) + [Fed(et, ev)]
      ensures unfed ==> FedTo(old(loop.pendings), loop.pendings, pri, EvPending(et, ev))
    {
      assert loop.WatcherOk(et) && et.priority < |loop.pendings|;
      hide EvLoop.PendingsAgree, EvLoop.WatcherOk;
      loop.FeedEvent(et, ev);
    }

    /** Restarts the timers that are due, and makes them pending. (Timers without a repeat are stopped instead; there
        are none here.) */
    method TimerNotify(loop: EvLoop, now: real) returns (ghost fired: seq<Watcher>)
      requires loop.PendingsAgree() && timers <= loop.watchers && stack == []
      requires Right(heap, Active(), At()) && forall w <- timers :: w.repeat != 0.0
      modifies this`heap, this`stack, timers`active, timers`at, timers`pending, loop`pendings, loop`trace
      ensures loop.PendingsAgree() && stack == [] && Right(heap, Active(), At())
      ensures Fired(fired, old(At()), At(), Repeats(), now) && forall w <- At() :: now <= At()[w]
      ensures forall w :: w in timers ==>
                var due, next := old(At())[w], old(At())[w] + Repeats()[w];
                At()[w] == if now <= due then due else if now <= next then next else now
      ensures loop.trace == old(loop.trace) + Feeds(fired, EV_TIMER)
      ensures old(AreNew(fired, TIMER_PRIORITY)) ==>
                loop.pendings == WithFired(old(loop.pendings), fired)
    {
      hide Active, At, Entries, Feeds, Keys, EvLoop.PendingsAgree, Repeats, Restarted, Right;
      RestartDue(now);
      fired := stack;
      Deadlines(fired, old(At()), At(), Repeats(), now);
      loop.SomeArrays();
      PriorityInRange();
      InvertFeedDone(loop, EV_TIMER, TIMER_PRIORITY);
    }

    // ---- dispatch -----------------------------------------------------------------------------------------------

    /** The start of a turn: brings the kernel up to date, and feeds what polling has found. */
    method UpdateAndPoll(loop: EvLoop, polled: seq<(nat, Mask)>)
      returns (ghost killed: seq<Watcher>, ghost updated: seq<Event<Watcher>>, ghost ends: seq<nat>)
      requires loop.Valid()
      modifies loop`fds, loop`fdchanges, loop`activecnt, loop`pendings, loop`trace, loop`kernel, loop`refused
      modifies loop`visited, loop`midway, loop.ios`active, loop.ios`pending
      ensures loop.Valid() && loop.Wishes() == Less(old(loop.Wishes()), loop.refused)
      ensures UpToDate(loop.fds, loop.kernel, loop.refused, loop.Wishes())
      ensures updated == old(loop.trace) + KillEvents(killed) && Lists(killed, old(loop.Wishes()), loop.refused)
      ensures updated <= loop.trace && PollFeeds(loop.trace, |updated|, ends, polled, loop.fds, loop.Wishes())
      ensures forall j :: |updated| <= j < |loop.trace| ==> loop.trace[j].Fed? && loop.trace[j].w in loop.ios
      ensures forall k :: 0 <= k < |killed| ==> killed[k] in loop.ios && killed[k].pending > 0
      ensures CountCalled(loop.trace) == CountCalled(old(loop.trace))
    {
      hide CountCalled, EvLoop.FdsAgree, EvLoop.PendingsAgree, Less, PollFeeds, Shares, UpToDate;
      loop.IosAreWatchers();
      killed := loop.UpdateFd();
      updated := loop.trace;
      KillsCallNobody(old(loop.trace), killed);
      ends := Poll(loop, polled);
      NoneCounted(loop.trace, |updated|);
      assert loop.trace[..|updated|] == updated;
    }

    /** Feeds what polling has found. */
    method Poll(loop: EvLoop, polled: seq<(nat, Mask)>) returns (ghost ends: seq<nat>)
      requires loop.Valid()
      modifies loop`pendings, loop`trace, loop.ios`pending
      ensures loop.Valid() && old(loop.trace) <= loop.trace
      ensures PollFeeds(loop.trace, |old(loop.trace)|, ends, polled, loop.fds, loop.Wishes())
      ensures forall j :: |old(loop.trace)| <= j < |loop.trace| ==> loop.trace[j].Fed? && loop.trace[j].w in loop.ios
      ensures forall w :: w in loop.watchers && old(w.pending) > 0 ==> w.pending > 0
    {
      hide Entry, EvLoop.FdsAgree, EvLoop.FeedsOf, EvLoop.PendingsAgree, EvLoop.Wishes, PollFeeds, Shares;
      ends := [|loop.trace|];
      PollsNothing(loop.trace, loop.fds, loop.Wishes());
      assert polled[..0] == [];
      for k := 0 to |polled|
        invariant loop.Valid() && old(loop.trace) <= loop.trace
        invariant PollFeeds(loop.trace, |old(loop.trace)|, ends, polled[..k], loop.fds, loop.Wishes())
        invariant forall j :: |old(loop.trace)| <= j < |loop.trace| ==>
                    loop.trace[j].Fed? && loop.trace[j].w in loop.ios
        invariant forall w :: w in loop.watchers && old(w.pending) > 0 ==> w.pending > 0
      {
        ghost var trace := loop.trace;
        loop.FeedFdEvent(polled[k].0, polled[k].1);
        PollsMore(trace, loop.trace, |old(loop.trace)|, ends, polled[..k], polled[k], loop.fds, loop.Wishes());
        SharesAreFeeds(trace, loop.trace, loop.fds, loop, polled[k].0, polled[k].1);
        ends := ends + [|loop.trace|];
        assert polled[..k] + [polled[k]] == polled[..k + 1];
      }
      assert polled[..|polled|] == polled;
    }

    /** A turn of dispatch. It brings the kernel up to date: then what the active ev_io objects want is registered, but
        for those of descriptors that were refused, which are killed. It feeds what polling has found, each watcher its
        share of each event, and the timers that are due, and calls what is pending. Whatever the callbacks do, loop and
        heap stay consistent; whoever was killed or fed is called, and told so, unless it is cleared before; and so is
        every timer that is due, if none of them was pending already in the order of their deadlines. If the callbacks
        do nothing, that is one stretch of the turn's calls. */
    method Turn(loop: EvLoop, polled: seq<(nat, Mask)>, now: real, scripts: seq<seq<Op>>, ghost pool: set<Watcher>)
      returns (ghost fired: seq<Watcher>, ghost before: seq<Event<Watcher>>,
               ghost first: seq<Event<Watcher>>, ghost last: seq<Event<Watcher>>, ghost polls: Polls)
      requires loop.Valid() && loop.PoolOk(pool) && AllLegal(scripts, pool, loop.ios, loop.watchers)
      requires timers <= loop.watchers && timers !! pool && stack == []
      requires Right(heap, Active(), At()) && forall w <- timers :: w.repeat != 0.0
      modifies this`heap, this`stack, timers`active, timers`at, loop, loop.watchers`pending, loop.dummy_watcher`pending
      modifies pool`active, pool`pending, pool`priority, pool`fd, pool`events
      ensures loop.Valid() && loop.PoolOk(pool) && stack == [] && Right(heap, Active(), At())
      ensures Fired(fired, old(At()), At(), Repeats(), now) && forall w <- At() :: now <= At()[w]
      ensures old(loop.trace) <= before && CountCalled(before) == CountCalled(old(loop.trace)) && before <= loop.trace
      ensures Polled(polls, old(loop.trace), old(loop.Wishes()), polled, before)
      ensures scripts == [] ==> loop.fds == polls.fds && loop.kernel == polls.kernel && loop.refused == polls.refused
      ensures before + Feeds(fired, EV_TIMER) <= loop.trace
      ensures AllAnswered(polls, before, |before + Feeds(fired, EV_TIMER)|, loop.trace)
      ensures AllTold(fired, EV_TIMER, |before + Feeds(fired, EV_TIMER)|, loop.trace)
      ensures old(AreNew(fired, TIMER_PRIORITY)) ==>
                ToldInOrder(fired, EV_TIMER, |before + Feeds(fired, EV_TIMER)|, loop.trace)
      ensures scripts == [] ==> forall p :: 0 <= p < |loop.pendings| ==> loop.pendings[p] == []
      ensures scripts == [] && old(AreNew(fired, TIMER_PRIORITY)) ==>
                loop.trace == before + Feeds(fired, EV_TIMER) + (first + CallsInOrder(fired, EV_TIMER) + last)
    {
      hide Active, AllCalls, AllLegal, AllTold, Answered, At, Awaits, CallsInOrder, CountCalled, EvLoop.FdsAgree,
           EvLoop.PendingsAgree, EvLoop.Wishes, Feeds, Fired, KillEvents, Less, Lists, PollFeeds, Repeats, Right,
           ToldInOrder, UpToDate, WithFired;
      loop.IosAreWatchers();
      ghost var killed, updated, ends := UpdateAndPoll(loop, polled);
      polls := Polls(loop.fds, loop.kernel, loop.refused, killed, updated, ends);
      before := loop.trace;
      loop.FedArePending(|updated|);
      ghost var told := before;
      fired, first, last := NotifyAndInvoke(loop, now, scripts, pool);
      told := before + Feeds(fired, EV_TIMER);
      PolledAreAnswered(before, |updated|, fired, loop.trace);
      forall k | 0 <= k < |killed| ensures Answered(loop.trace, |told|, killed[k], EV_ERROR) {
        AwaitsAtLeast(told, loop.trace, killed[k], EV_ERROR);
      }
    }

    /** The end of a turn. */
    method NotifyAndInvoke(loop: EvLoop, now: real, scripts: seq<seq<Op>>, ghost pool: set<Watcher>)
      returns (ghost fired: seq<Watcher>, ghost first: seq<Event<Watcher>>, ghost last: seq<Event<Watcher>>)
      requires loop.Valid() && loop.PoolOk(pool) && AllLegal(scripts, pool, loop.ios, loop.watchers)
      requires timers <= loop.watchers && timers !! pool && stack == []
      requires Right(heap, Active(), At()) && forall w <- timers :: w.repeat != 0.0
      modifies this`heap, this`stack, timers`active, timers`at, loop, loop.watchers`pending, loop.dummy_watcher`pending
      modifies pool`active, pool`pending, pool`priority, pool`fd, pool`events
      ensures loop.Valid() && loop.PoolOk(pool) && stack == [] && Right(heap, Active(), At())
      ensures Fired(fired, old(At()), At(), Repeats(), now) && forall w <- At() :: now <= At()[w]
      ensures old(loop.trace) <= loop.trace && forall i :: 0 <= i < |fired| ==> fired[i] in timers
      ensures old(loop.trace) + Feeds(fired, EV_TIMER) <= loop.trace
      ensures forall w :: w in old(loop.ios) && old(w.pending) > 0 ==>
                Awaits(old(loop.trace) + Feeds(fired, EV_TIMER), loop.trace, w)
      ensures scripts == [] ==> loop.fds == old(loop.fds) && loop.kernel == old(loop.kernel)
      ensures loop.refused == old(loop.refused)
      ensures AllTold(fired, EV_TIMER, |old(loop.trace) + Feeds(fired, EV_TIMER)|, loop.trace)
      ensures old(AreNew(fired, TIMER_PRIORITY)) ==>
                ToldInOrder(fired, EV_TIMER, |old(loop.trace) + Feeds(fired, EV_TIMER)|, loop.trace)
      ensures scripts == [] ==> forall p :: 0 <= p < |loop.pendings| ==> loop.pendings[p] == []
      ensures scripts == [] && old(AreNew(fired, TIMER_PRIORITY)) ==>
                loop.trace == old(loop.trace) + Feeds(fired, EV_TIMER) + (first + CallsInOrder(fired, EV_TIMER) + last)
    {
      hide Active, AllLegal, AllTold, AreNew, At, CallsInOrder, EvLoop.FdsAgree, EvLoop.PendingsAgree, Feeds, Fired,
           Repeats, Right, ToldInOrder, WithFired;
      ghost var pendings, trace := loop.pendings, loop.trace;
      loop.SomeArrays();
      fired := TimerNotify(loop, now);
      FiredAreTimers(fired, old(At()), At(), Repeats(), now, loop);
      first, last := InvokeFired(loop, scripts, pool, fired, trace, pendings, old(AreNew(fired, TIMER_PRIORITY)));
    }
  }

  /** invoke_pendings, when timers have just been fed. */
  method InvokeFired(loop: EvLoop, scripts: seq<seq<Op>>, ghost pool: set<Watcher>, ghost fired: seq<Watcher>,
                     ghost trace0: seq<Event<Watcher>>, ghost pendings0: seq<seq<EvPending>>, ghost unfed: bool)
    returns (ghost first: seq<Event<Watcher>>, ghost last: seq<Event<Watcher>>)
    requires loop.Valid() && loop.PoolOk(pool) && AllLegal(scripts, pool, loop.ios, loop.watchers)
    requires forall i :: 0 <= i < |fired| ==> fired[i] in loop.watchers && fired[i] !in pool
    requires loop.trace == trace0 + Feeds(fired, EV_TIMER)
    requires unfed ==> |pendings0| == NUMPRI && loop.pendings == WithFired(pendings0, fired)
    modifies loop, loop.watchers`pending, loop.dummy_watcher`pending
    modifies pool`active, pool`pending, pool`priority, pool`fd, pool`events
    ensures loop.Valid() && loop.PoolOk(pool) && old(loop.trace) <= loop.trace && old(loop.watchers) <= loop.watchers
    ensures forall w :: w in old(loop.watchers) && old(w.pending) > 0 ==> Awaits(old(loop.trace), loop.trace, w)
    ensures scripts == [] ==> loop.fds == old(loop.fds) && loop.kernel == old(loop.kernel)
    ensures loop.refused == old(loop.refused)
    ensures AllTold(fired, EV_TIMER, |old(loop.trace)|, loop.trace)
    ensures unfed ==> ToldInOrder(fired, EV_TIMER, |old(loop.trace)|, loop.trace)
    ensures scripts == [] ==> forall p :: 0 <= p < |loop.pendings| ==> loop.pendings[p] == []
    ensures scripts == [] && unfed ==>
              loop.trace == old(loop.trace) + (first + CallsInOrder(fired, EV_TIMER) + last)
  {
    hide AllCalls, AllLegal, CallsInOrder, ClearedIn, CountCalled, EvLoop.FdsAgree, EvLoop.PendingsAgree,
         EvLoop.Places, EvLoop.PoolOk, Feeds, JustFed, InTurn, Reached, WithFired;
    first, last := [], [];
    ghost var trace, places := loop.trace, loop.Places();
    loop.NotTheDummy();
    FiredArePending(loop, trace0, fired, EV_TIMER);
    if unfed {
      first, last := AroundFired(pendings0, fired, loop.dummy_watcher);
      FiredPlaces(loop, pendings0, fired);
    }
    loop.InvokePendings(scripts, pool);
    loop.SomeArrays();
    loop.Replays();
    FiredAreTold(fired, EV_TIMER, trace, loop.trace, places, pool);
    if unfed {
      FiredAreToldInOrder(fired, EV_TIMER, trace, loop.trace, places, pool);
    }
  }

  /** The first half of a turn: the descriptor table, the registrations and the descriptors refused once the kernel was
      up to date, the watchers killed, the history then, and where in the history each polled event ends. */
  datatype Polls = Polls(fds: map<nat, EvFd>, kernel: map<nat, Registration>, refused: set<nat>, killed: seq<Watcher>,
                         updated: seq<Event<Watcher>>, ends: seq<nat>)

  /** That is what the first half has come to: what the active watchers want is registered, but for those of refused
      descriptors, which have been killed; and what was polled has been fed. */
  ghost predicate Polled(polls: Polls, trace: seq<Event<Watcher>>, wishes: map<Watcher, Wish>,
                         polled: seq<(nat, Mask)>, trace': seq<Event<Watcher>>)
  {
    var left := Less(wishes, polls.refused);
    && UpToDate(polls.fds, polls.kernel, polls.refused, left)
    && polls.updated == trace + KillEvents(polls.killed) && Lists(polls.killed, wishes, polls.refused)
    && polls.updated <= trace' && PollFeeds(trace', |polls.updated|, polls.ends, polled, polls.fds, left)
  }

  /** Whatever was fed in the first half is answered after n events. */
  ghost predicate AllAnswered(polls: Polls, before: seq<Event<Watcher>>, n: nat, trace: seq<Event<Watcher>>) {
    && (forall j :: |polls.updated| <= j < |before| ==>
          before[j].Fed? && Answered(trace, n, before[j].w, before[j].events))
    && (forall k :: 0 <= k < |polls.killed| ==> Answered(trace, n, polls.killed[k], EV_ERROR))
  }

  /** From its n-th event on, the history is just that each polled event in turn is fed to the watchers of its
      descriptor, unless that has changed. */
  ghost predicate PollFeeds(trace: seq<Event<Watcher>>, n: nat, ends: seq<nat>, polled: seq<(nat, Mask)>,
                            fds: map<nat, EvFd>, wishes: map<Watcher, Wish>)
  {
    && |ends| == |polled| + 1 && ends[0] == n && ends[|polled|] == |trace|
    && (forall k :: 0 <= k < |ends| ==> ends[k] <= |trace|)
    && (forall k :: 0 <= k < |polled| ==> PollFed(trace, ends[k], ends[k + 1], polled[k], fds, wishes))
  }

  ghost predicate PollFed(trace: seq<Event<Watcher>>, start: nat, end: nat, found: (nat, Mask), fds: map<nat, EvFd>,
                          wishes: map<Watcher, Wish>)
  {
    && start <= end <= |trace|
    && if Entry(fds, found.0).ischanged then start == end else Shares(trace[start..end], wishes, found.0, found.1)
  }

  lemma PollsNothing(trace: seq<Event<Watcher>>, fds: map<nat, EvFd>, wishes: map<Watcher, Wish>)
    ensures PollFeeds(trace, |trace|, [|trace|], [], fds, wishes)
  {
  }

  lemma PollsMore(trace: seq<Event<Watcher>>, trace': seq<Event<Watcher>>, n: nat, ends: seq<nat>,
                  polled: seq<(nat, Mask)>, found: (nat, Mask), fds: map<nat, EvFd>, wishes: map<Watcher, Wish>)
    requires PollFeeds(trace, n, ends, polled, fds, wishes) && trace <= trace'
    requires Entry(fds, found.0).ischanged ==> trace' == trace
    requires !Entry(fds, found.0).ischanged ==> Shares(trace'[|trace|..], wishes, found.0, found.1)
    ensures PollFeeds(trace', n, ends + [|trace'|], polled + [found], fds, wishes)
  {
    hide Entry, Shares;
    var ends', polled' := ends + [|trace'|], polled + [found];
    forall k | 0 <= k < |polled'| ensures PollFed(trace', ends'[k], ends'[k + 1], polled'[k], fds, wishes) {
      if k < |polled| {
        assert PollFed(trace, ends[k], ends[k + 1], polled[k], fds, wishes);
        assert trace'[ends[k]..ends[k + 1]] == trace[ends[k]..ends[k + 1]];
      } else {
        assert trace'[|trace|..|trace'|] == trace'[|trace|..];
      }
    }
  }

  lemma SharesAreFeeds(trace: seq<Event<Watcher>>, trace': seq<Event<Watcher>>, fds: map<nat, EvFd>, loop: EvLoop,
                       fd: nat, ev: Mask)
    requires trace <= trace' && (Entry(fds, fd).ischanged ==> trace' == trace)
    requires !Entry(fds, fd).ischanged ==> Shares(trace'[|trace|..], loop.Wishes(), fd, ev)
    ensures forall j :: |trace| <= j < |trace'| ==> trace'[j].Fed? && trace'[j].w in loop.ios
  {
    hide Entry;
    forall j | |trace| <= j < |trace'| ensures trace'[j].Fed? && trace'[j].w in loop.ios {
      assert trace'[j] == trace'[|trace|..][j - |trace|];
    }
  }

  lemma AwaitsAtLeast(trace: seq<Event<Watcher>>, trace': seq<Event<Watcher>>, w: Watcher, ev: Mask)
    requires Awaits(trace, trace', w) && ev <= FedSince(trace, w).value
    ensures Answered(trace', |trace|, w, ev)
  {
    hide FedSince;
    AnsweredLess(trace', |trace|, w, FedSince(trace, w).value, ev);
  }

  /** Whatever was fed after n events, and before the timers, is answered after that. */
  lemma PolledAreAnswered(before: seq<Event<Watcher>>, n: nat, fired: seq<Watcher>, trace: seq<Event<Watcher>>)
    requires n <= |before| && forall j :: n <= j < |before| ==> before[j].Fed?
    requires forall j :: n <= j < |before| ==> Awaits(before + Feeds(fired, EV_TIMER), trace, before[j].w)
    ensures forall j :: n <= j < |before| ==>
              Answered(trace, |before + Feeds(fired, EV_TIMER)|, before[j].w, before[j].events)
  {
    hide Awaits, FedSince, Feeds;
    var told := before + Feeds(fired, EV_TIMER);
    FeedsOnlyFeed(fired, EV_TIMER);
    forall j | n <= j < |before| ensures Answered(trace, |told|, before[j].w, before[j].events) {
      assert told[j] == before[j] && told[..|told|] == told;
      StillFed(told, j, |told|);
      AwaitsAtLeast(told, trace, before[j].w, before[j].events);
    }
  }

  lemma {:induction false} FeedsOnlyFeed(ws: seq<Watcher>, ev: Mask)
    ensures forall k :: 0 <= k < |Feeds(ws, ev)| ==> Feeds(ws, ev)[k].Fed?
  {
    if ws != [] {
      FeedsOnlyFeed(ws[..|ws| - 1], ev);
    }
  }

  /** Each of the watchers is called, after n events, and told so much. */
  ghost predicate AllTold(ws: seq<Watcher>, ev: Mask, n: nat, trace: seq<Event<Watcher>>) {
    forall i :: 0 <= i < |ws| ==> Told(trace, n, |trace|, ws[i], ev)
  }

  /** After n events, none of the watchers is called before those in front of it have been called and told so much. */
  ghost predicate ToldInOrder(ws: seq<Watcher>, ev: Mask, n: nat, trace: seq<Event<Watcher>>) {
    forall i, j, k: nat :: 0 <= i < j < |ws| && n <= k && IsCall(trace, k, ws[j]) ==> Told(trace, n, k, ws[i], ev)
  }

  /** Watchers that are pending and have been fed so much since they were last called or cleared. */
  ghost predicate JustFed(ws: seq<Watcher>, ev: Mask, trace: seq<Event<Watcher>>, places: map<Watcher, Place>) {
    forall i :: 0 <= i < |ws| ==>
      && ws[i] in places && places[ws[i]].pending > 0 && places[ws[i]].priority < NUMPRI
      && FedSince(trace, ws[i]).Some? && ev <= FedSince(trace, ws[i]).value
  }

  lemma {:induction false} FeedsAreFed(trace: seq<Event<Watcher>>, ws: seq<Watcher>, ev: Mask, i: nat)
    requires i < |ws|
    ensures var fed := FedSince(trace + Feeds(ws, ev), ws[i]); fed.Some? && ev <= fed.value
    decreases |ws|
  {
    hide FedSince, Feeds;
    var n := |ws| - 1;
    var begun := trace + [Fed(ws[n], ev)];
    FeedTop(trace, ws, ev);
    if i < n {
      FeedsAreFed(begun, ws[..n], ev, i);
    } else {
      FedMore(trace, ws[n], ev, ws[n]);
      StaysFed(begun, ws[..n], ev, ws[n], ev);
    }
  }

  lemma {:induction false} StaysFed(trace: seq<Event<Watcher>>, ws: seq<Watcher>, ev: Mask, w: Watcher, told: Mask)
    requires FedSince(trace, w).Some? && told <= FedSince(trace, w).value
    ensures var fed := FedSince(trace + Feeds(ws, ev), w); fed.Some? && told <= fed.value
    decreases |ws|
  {
    hide FedSince, Feeds;
    if ws == [] {
      NoFeeds(trace, ev);
    } else {
      var n := |ws| - 1;
      var begun := trace + [Fed(ws[n], ev)];
      FeedTop(trace, ws, ev);
      FedMore(trace, ws[n], ev, w);
      StaysFed(begun, ws[..n], ev, w, told);
    }
  }

  lemma FiredArePending(loop: EvLoop, trace0: seq<Event<Watcher>>, fired: seq<Watcher>, ev: Mask)
    requires loop.PendingsAgree() && loop.trace == trace0 + Feeds(fired, ev)
    requires forall i :: 0 <= i < |fired| ==> fired[i] in loop.watchers
    ensures JustFed(fired, ev, loop.trace, loop.Places())
  {
    hide FedSince, Feeds;
    forall i | 0 <= i < |fired|
      ensures fired[i].pending > 0 && fired[i].priority < NUMPRI
      ensures FedSince(loop.trace, fired[i]).Some? && ev <= FedSince(loop.trace, fired[i]).value
    {
      FeedsAreFed(trace0, fired, ev, i);
      HeldIsFedSince(loop.trace, fired[i]);
      loop.PendingFacts(fired[i]);
    }
  }

  lemma FiredAreTold(fired: seq<Watcher>, ev: Mask, trace: seq<Event<Watcher>>, trace': seq<Event<Watcher>>,
                     places: map<Watcher, Place>, pool: set<Watcher>)
    requires trace <= trace' && Replay(trace').Some? && JustFed(fired, ev, trace, places)
    requires forall i :: 0 <= i < |fired| ==> fired[i] !in pool
    requires Reached(places, NUMPRI, |trace|, trace') && ClearedIn(trace', |trace|, pool)
    ensures AllTold(fired, ev, |trace|, trace')
  {
    hide FedSince, OnlyFed, Replay, Told;
    forall i | 0 <= i < |fired| ensures Told(trace', |trace|, |trace'|, fired[i], ev) {
      assert trace'[..|trace|] == trace && trace'[..|trace'|] == trace';
      ToldAll(trace', |trace|, |trace'|, fired[i], ev);
    }
  }

  lemma FiredAreToldInOrder(fired: seq<Watcher>, ev: Mask, trace: seq<Event<Watcher>>, trace': seq<Event<Watcher>>,
                            places: map<Watcher, Place>, pool: set<Watcher>)
    requires trace <= trace' && Replay(trace').Some? && JustFed(fired, ev, trace, places)
    requires forall i :: 0 <= i < |fired| ==> fired[i] !in pool
    requires forall i, j :: 0 <= i < j < |fired| ==> Ahead(places, fired[i], fired[j])
    requires InTurn(places, pool, |trace|, trace') && ClearedIn(trace', |trace|, pool)
    ensures ToldInOrder(fired, ev, |trace|, trace')
  {
    hide FedSince, OnlyFed, Replay, Told;
    forall i, j, k: nat | 0 <= i < j < |fired| && |trace| <= k && IsCall(trace', k, fired[j])
      ensures Told(trace', |trace|, k, fired[i], ev)
    {
      assert trace'[..|trace|] == trace;
      assert Ahead(places, fired[i], fired[j]);
      ToldAll(trace', |trace|, k, fired[i], ev);
    }
  }

  lemma {:induction false} EntryAt(ws: seq<Watcher>, ev: Mask, i: nat)
    requires i < |ws|
    ensures |Entries(ws, ev)| == |ws| && Entries(ws, ev)[|ws| - 1 - i] == EvPending(ws[i], ev)
  {
    var n := |ws| - 1;
    if i < n {
      EntryAt(ws[..n], ev, i);
    } else if n > 0 {
      EntryAt(ws[..n], ev, 0);
    }
  }

  /** Timers that have fired, and were not pending, lie upside down on the pending array. */
  lemma FiredPlaces(loop: EvLoop, pendings: seq<seq<EvPending>>, fired: seq<Watcher>)
    requires loop.PendingsAgree() && |pendings| == NUMPRI && loop.pendings == WithFired(pendings, fired)
    requires forall i :: 0 <= i < |fired| ==> fired[i] != loop.dummy_watcher
    ensures forall i, j :: 0 <= i < j < |fired| ==> Ahead(loop.Places(), fired[i], fired[j])
  {
    hide Entries, EvLoop.TraceAgrees;
    PriorityInRange();
    var size := |pendings[TIMER_PRIORITY]|;
    forall i | 0 <= i < |fired|
      ensures fired[i] in loop.watchers
      ensures loop.Places()[fired[i]] == Place(TIMER_PRIORITY, size + |fired| - i)
    {
      var k := size + |fired| - 1 - i;
      EntryAt(fired, EV_TIMER, i);
      assert loop.pendings[TIMER_PRIORITY][k] == EvPending(fired[i], EV_TIMER);
      assert loop.EntryOk(TIMER_PRIORITY, k, fired[i]);
    }
  }

  /** The pending arrays after timers that have fired have been made pending. */
  ghost function WithFired(pendings: seq<seq<EvPending>>, fired: seq<Watcher>): seq<seq<EvPending>> {
    if |pendings| <= TIMER_PRIORITY then pendings
    else pendings[TIMER_PRIORITY := pendings[TIMER_PRIORITY] + Entries(fired, EV_TIMER)]
  }

  lemma FiredAreTimers(fired: seq<Watcher>, at0: map<Watcher, real>, at: map<Watcher, real>,
                       repeats: map<Watcher, real>, now: real, loop: EvLoop)
    requires Fired(fired, at0, at, repeats, now) && at0.Keys <= loop.watchers && loop.PendingsAgree()
    ensures forall i :: 0 <= i < |fired| ==> fired[i] != loop.dummy_watcher && fired[i] in at0
  {
  }

  lemma AroundFired(pendings: seq<seq<EvPending>>, fired: seq<Watcher>, dummy: Watcher)
    returns (first: seq<Event<Watcher>>, last: seq<Event<Watcher>>)
    requires |pendings| == NUMPRI && forall i :: 0 <= i < |fired| ==> fired[i] != dummy
    ensures AllCalls(WithFired(pendings, fired), dummy) == first + CallsInOrder(fired, EV_TIMER) + last
  {
    hide AllCalls, CallsInOrder, CallsOf, Entries;
    PriorityInRange();
    var p, all := TIMER_PRIORITY, WithFired(pendings, fired);
    CallsAt(all, p, dummy);
    CalledFirstDeadlineFirst(pendings[p], fired, EV_TIMER, dummy);
    first := AllCalls(all[..p], dummy);
    last := CallsOf(pendings[p], dummy) + AllCalls(all[p + 1..], dummy);
  }

  /** A new loop, with an ev_io, and a timer that has been started. */
  method OneTimer(after: real, repeat: real, start: real, fd: nat)
    returns (loop: EvLoop, timers: Timers, timer: Watcher, iow: Watcher)
    requires 0.0 < after + start
    ensures fresh({loop, timers, timer, iow, loop.dummy_watcher}) && timer != iow && timer.repeat == repeat
    ensures loop.Valid() && loop.ios == {iow} && loop.watchers == {iow, timer} && loop.PoolOk({iow})
    ensures timers.timers == {timer} && timers.stack == [] && timers.At() == map[timer := after + start]
    ensures Right(timers.heap, timers.Active(), timers.At())
  {
    hide Covered, EvLoop.FdsAgree, EvLoop.PendingsAgree, IsHeap, Keys, Placed;
    loop := new EvLoop();
    loop.NotTheDummy();
    timers := new Timers();
    timer := new Watcher();
    iow := new Watcher();
    loop.TimerWatcherInit(timer, after, repeat);
    loop.IoWatcherInit(iow, fd, EV_READ, NUMPRI / 2);
    NothingIsRight();
    timers.Start(timer, start);
  }

  lemma OneStartIsLegal(w: Watcher, pool: set<Watcher>, ios: set<Watcher>, watchers: set<Watcher>)
    requires w in ios
    ensures AllLegal([[Start(w)]], pool, ios, watchers)
  {
    assert [[Start(w)]][1..] == [] && [Start(w)][1..] == [];
  }

  /** From there to the first turn of dispatch, in which the first callback starts the ev_io. If the timer is due, it is
      called. */
  method FirstTurn(after: real, repeat: real, start: real, now: real, fd: nat, polled: seq<(nat, Mask)>)
    returns (loop: EvLoop, timers: Timers, timer: Watcher)
    requires 0.0 < after + start && repeat != 0.0
    ensures loop.Valid() && Right(timers.heap, timers.Active(), timers.At())
    ensures after + start < now ==> Told(loop.trace, 0, |loop.trace|, timer, EV_TIMER)
  {
    hide AllLegal, AllTold, EvLoop.FdsAgree, EvLoop.PendingsAgree, EvLoop.PoolOk, Feeds, Fired, Right, Told,
         ToldInOrder;
    var iow;
    loop, timers, timer, iow := OneTimer(after, repeat, start, fd);
    OneStartIsLegal(iow, {iow}, loop.ios, loop.watchers);
    ghost var at := timers.At();
    ghost var fired, before, first, last, polls := timers.Turn(loop, polled, now, [[Start(iow)]], {iow});
    FiredIfDue(fired, at, timers.At(), timers.Repeats(), now, timer);
    if after + start < now {
      TellsAtAll(fired, EV_TIMER, |before + Feeds(fired, EV_TIMER)|, loop.trace, timer);
    }
  }

  lemma TellsAtAll(fired: seq<Watcher>, ev: Mask, n: nat, trace: seq<Event<Watcher>>, w: Watcher)
    requires AllTold(fired, ev, n, trace) && w in fired
    ensures Told(trace, 0, |trace|, w, ev)
  {
    var i :| 0 <= i < |fired| && fired[i] == w;
    var m: nat :| n <= m < |trace| && IsCall(trace, m, fired[i]) && ev <= trace[m].events;
    assert IsCall(trace, m, w);
  }

  /** Of two timers of which the second to be started is due last, that one is at the root, and the other is overlooked
      while it is due alone. */
  method StartTwo() returns (timers: Timers, first: Watcher)
    ensures first in timers.timers && first.at == 1.0
    ensures timers.heap != [] && timers.heap[0].cache_at == 2.0 && !IsHeap(Keys(timers.heap), |timers.heap|, Before)
  {
    hide Covered, IsHeap, Keys, Placed;
    timers := new Timers();
    NothingIsRight();
    first := new Watcher();
    var second := new Watcher();
    first.at, second.at := 1.0, 2.0;
    timers.Start(first, 0.0);
    timers.Start(second, 0.0);
  }

  /** An entry has been added to one pending array. */
  ghost predicate FedTo(pendings0: seq<seq<EvPending>>, pendings: seq<seq<EvPending>>, pri: nat, e: EvPending) {
    pri < |pendings0| && pendings == pendings0[pri := pendings0[pri] + [e]]
  }

  /** What is on the stack has still to be fed of what has fired. */
  ghost predicate Feeding(stack: seq<Watcher>, fired: seq<Watcher>, ev: Mask, pri: nat, unfed: bool,
                          trace: seq<Event<Watcher>>, trace0: seq<Event<Watcher>>,
                          pendings: seq<seq<EvPending>>, pendings0: seq<seq<EvPending>>)
  {
    && trace + Feeds(stack, ev) == trace0 + Feeds(fired, ev)
    && (unfed ==>
          && pri < |pendings0| == |pendings| && pendings == pendings0[pri := pendings[pri]]
          && pendings[pri] + Entries(stack, ev) == pendings0[pri] + Entries(fired, ev))
  }

  lemma Feeding0(fired: seq<Watcher>, ev: Mask, pri: nat, unfed: bool,
                 trace0: seq<Event<Watcher>>, pendings0: seq<seq<EvPending>>)
    requires pri < |pendings0|
    ensures Feeding(fired, fired, ev, pri, unfed, trace0, trace0, pendings0, pendings0)
  {
  }

  lemma FeedingStep(stack: seq<Watcher>, fired: seq<Watcher>, ev: Mask, pri: nat, unfed: bool,
                    trace: seq<Event<Watcher>>, trace0: seq<Event<Watcher>>,
                    pendings: seq<seq<EvPending>>, pendings1: seq<seq<EvPending>>, pendings0: seq<seq<EvPending>>)
    requires stack != [] && (unfed ==> FedTo(pendings, pendings1, pri, EvPending(stack[|stack| - 1], ev)))
    requires Feeding(stack, fired, ev, pri, unfed, trace, trace0, pendings, pendings0)
    ensures var et, rest := stack[|stack| - 1], stack[..|stack| - 1];
            Feeding(rest, fired, ev, pri, unfed, trace + [Fed(et, ev)], trace0, pendings1, pendings0)
  {
    FeedTop(trace, stack, ev);
    if unfed {
      EntryTop(pendings[pri], stack, ev);
    }
  }

  lemma FeedingDone(fired: seq<Watcher>, ev: Mask, pri: nat, unfed: bool,
                    trace: seq<Event<Watcher>>, trace0: seq<Event<Watcher>>,
                    pendings: seq<seq<EvPending>>, pendings0: seq<seq<EvPending>>)
    requires Feeding([], fired, ev, pri, unfed, trace, trace0, pendings, pendings0)
    ensures trace == trace0 + Feeds(fired, ev)
    ensures unfed ==> pri < |pendings0| && pendings == pendings0[pri := pendings0[pri] + Entries(fired, ev)]
  {
    NoFeeds(trace, ev);
    if unfed {
      NoEntries(pendings[pri], ev);
    }
  }

  /** None of the watchers is pending, and all have the same priority. */
  ghost predicate AreNew(ws: seq<Watcher>, pri: nat)
    reads ws`pending, ws`priority
  {
    forall i :: 0 <= i < |ws| ==> ws[i].pending == 0 && ws[i].priority == pri
  }

  /** What feeding a stack of watchers that are not pending adds to their pending array. */
  function Entries(stack: seq<Watcher>, ev: Mask): seq<EvPending> {
    if stack == [] then [] else
      var n := |stack| - 1;
      [EvPending(stack[n], ev)] + Entries(stack[..n], ev)
  }

  lemma EntryTop(q: seq<EvPending>, stack: seq<Watcher>, ev: Mask)
    requires stack != []
    ensures (q + [EvPending(stack[|stack| - 1], ev)]) + Entries(stack[..|stack| - 1], ev) == q + Entries(stack, ev)
  {
  }

  lemma NoEntries(q: seq<EvPending>, ev: Mask)
    ensures q + Entries([], ev) == q
  {
  }

  lemma FeedTop(trace: seq<Event<Watcher>>, stack: seq<Watcher>, ev: Mask)
    requires stack != []
    ensures (trace + [Fed(stack[|stack| - 1], ev)]) + Feeds(stack[..|stack| - 1], ev) == trace + Feeds(stack, ev)
  {
  }

  lemma NoFeeds(trace: seq<Event<Watcher>>, ev: Mask)
    ensures trace + Feeds([], ev) == trace
  {
  }

  /** What feeding a stack from its top records. */
  function Feeds(stack: seq<Watcher>, ev: Mask): seq<Event<Watcher>> {
    if stack == [] then [] else
      var n := |stack| - 1;
      [Fed(stack[n], ev)] + Feeds(stack[..n], ev)
  }

  /** The timers that are due. */
  ghost function Due(at: map<Watcher, real>, now: real): set<Watcher> {
    set w <- at | at[w] < now
  }

  /** Timers that have been due, first deadline first, each once, have been restarted, and no others. */
  ghost predicate Fired(fired: seq<Watcher>, at0: map<Watcher, real>, at: map<Watcher, real>,
                        repeats: map<Watcher, real>, now: real)
  {
    InOrder(fired, at0, at, now) && JustThey(fired, at0, at, repeats, now)
  }

  ghost predicate InOrder(fired: seq<Watcher>, at0: map<Watcher, real>, at: map<Watcher, real>, now: real) {
    && (forall i :: 0 <= i < |fired| ==> fired[i] in at0 && at0[fired[i]] < now)
    && (forall i, j :: 0 <= i < j < |fired| ==> fired[i] != fired[j] && at0[fired[i]] <= at0[fired[j]])
    && (forall i, w :: 0 <= i < |fired| && w in at ==> at0[fired[i]] <= at[w])
  }

  ghost predicate JustThey(fired: seq<Watcher>, at0: map<Watcher, real>, at: map<Watcher, real>,
                           repeats: map<Watcher, real>, now: real)
  {
    && at.Keys == at0.Keys == repeats.Keys
    && (forall w <- at :: at[w] == if w in fired then Restarted(at0[w], repeats[w], now) else at0[w])
  }

  lemma NoneFired(at: map<Watcher, real>, repeats: map<Watcher, real>, now: real)
    requires at.Keys == repeats.Keys
    ensures Fired([], at, at, repeats, now)
  {
  }

  lemma NextFires(fired: seq<Watcher>, et: Watcher, at0: map<Watcher, real>, at: map<Watcher, real>,
                  repeats: map<Watcher, real>, now: real)
    requires et in at && at[et] < now && (forall w <- at :: at[et] <= at[w]) && Fired(fired, at0, at, repeats, now)
    ensures var at' := at[et := Restarted(at[et], repeats[et], now)];
            Fired(fired + [et], at0, at', repeats, now) && Due(at', now) < Due(at, now)
  {
    var at' := at[et := Restarted(at[et], repeats[et], now)];
    assert et !in fired && et in at0 && at[et] == at0[et];
    assert JustThey(fired + [et], at0, at', repeats, now);
    hide JustThey;
    assert et in Due(at, now) && Due(at', now) == Due(at, now) - {et};
    assert now <= at'[et];
    hide Restarted, Due;
    assert InOrder(fired + [et], at0, at', now);
  }

  lemma NoneDue(h: seq<HeapEntry>, active: map<Watcher, nat>, at: map<Watcher, real>, now: real)
    requires Right(h, active, at) && (h == [] || h[0].cache_at >= now)
    ensures forall w <- at :: now <= at[w]
  {
    if h != [] {
      TopIsFirst(h, active, at);
    }
  }

  /** The deadline of a timer that was due at `at` and has been restarted. */
  function Restarted(at: real, repeat: real, now: real): real {
    if at + repeat < now then now else at + repeat
  }

  /** The heap holds every timer, with its deadline. */
  ghost predicate Covered(h: seq<HeapEntry>, active: map<Watcher, nat>, at: map<Watcher, real>) {
    && active.Keys == at.Keys
    && (forall i :: 0 <= i < |h| ==> h[i].wt in at && h[i].cache_at == at[h[i].wt])
    && (forall w <- active :: 0 < active[w] <= |h| && h[active[w] - 1].wt == w)
  }

  /** The heap is ordered, holds every timer with its deadline, and every timer knows where it is. */
  ghost predicate Right(h: seq<HeapEntry>, active: map<Watcher, nat>, at: map<Watcher, real>) {
    IsHeap(Keys(h), |h|, Before) && Placed(h, active) && Covered(h, active, at)
  }

  lemma Renewed(h: seq<HeapEntry>, active: map<Watcher, nat>, at: map<Watcher, real>, x: real)
    requires h != [] && Right(h, active, at)
    ensures var h' := h[0 := HeapEntry(h[0].wt, x)];
            DownInv(Keys(h'), |h'|, 0, Before) && PlacedBut(h', 0, active) && Covered(h', active, at[h[0].wt := x])
  {
    hide Before, Covered, DownInv, IsHeap, Keys, Placed, PlacedBut;
    RenewedOrder(h, x);
    RenewedPlaces(h, active, at, x);
    RenewedCover(h, active, at, x);
  }

  lemma RenewedOrder(h: seq<HeapEntry>, x: real)
    requires h != [] && IsHeap(Keys(h), |h|, Before)
    ensures var h' := h[0 := HeapEntry(h[0].wt, x)];
            DownInv(Keys(h'), |h'|, 0, Before)
  {
    hide Before, IsHeap, IsHeapExcept, Keys;
    Ordered();
    ReplaceInHeap(Keys(h), |h|, 0, x, Before);
    KeysOfUpdate(h, x);
  }

  lemma KeysOfUpdate(h: seq<HeapEntry>, x: real)
    requires h != []
    ensures Keys(h[0 := HeapEntry(h[0].wt, x)]) == Keys(h)[0 := x]
  {
  }

  lemma RenewedPlaces(h: seq<HeapEntry>, active: map<Watcher, nat>, at: map<Watcher, real>, x: real)
    requires h != [] && Placed(h, active)
    ensures PlacedBut(h[0 := HeapEntry(h[0].wt, x)], 0, active)
  {
  }

  lemma RenewedCover(h: seq<HeapEntry>, active: map<Watcher, nat>, at: map<Watcher, real>, x: real)
    requires h != [] && Placed(h, active) && Covered(h, active, at)
    ensures Covered(h[0 := HeapEntry(h[0].wt, x)], active, at[h[0].wt := x])
  {
  }

  lemma NothingIsRight()
    ensures Right([], map[], map[])
  {
  }

  lemma Inactive(h: seq<HeapEntry>, active: map<Watcher, nat>, at: map<Watcher, real>)
    requires Right(h, active, at)
    ensures forall w <- active :: active[w] != 0
  {
  }

  lemma Pushed(h: seq<HeapEntry>, active: map<Watcher, nat>, at: map<Watcher, real>, w: Watcher)
    requires Right(h, active, at) && w !in at
    ensures var s := h + [HeapEntry(w, 0.0)];
            UpInv(Keys(s), |s|, |h|, Before) && PlacedBut(s, |h|, active[w := 0]) && Covered(h, active, at)
  {
    hide Before, Covered, IsHeap, Keys, Placed, PlacedBut, UpInv;
    PushedOrder(Keys(h), 0.0);
    PushedKeys(h, w);
    PushedPlaces(h, active, at, w);
  }

  lemma PushedKeys(h: seq<HeapEntry>, w: Watcher)
    ensures Keys(h + [HeapEntry(w, 0.0)]) == Keys(h) + [0.0]
  {
  }

  lemma PushedPlaces(h: seq<HeapEntry>, active: map<Watcher, nat>, at: map<Watcher, real>, w: Watcher)
    requires Placed(h, active) && Covered(h, active, at) && w !in at
    ensures PlacedBut(h + [HeapEntry(w, 0.0)], |h|, active[w := 0])
  {
    hide Keys;
  }

  lemma PushedOrder(keys: seq<real>, key: real)
    requires IsHeap(keys, |keys|, Before)
    ensures UpInv(keys + [key], |keys| + 1, |keys|, Before)
  {
    hide Before;
    var more := keys + [key];
    forall i | 0 < i < |keys| ensures !Before(more[i], more[Parent(i)]) {
      assert !Before(keys[i], keys[Parent(i)]);
    }
  }

  lemma RootIsNew(h: seq<HeapEntry>, h': seq<HeapEntry>, active: map<Watcher, nat>, active': map<Watcher, nat>,
                  at: map<Watcher, real>, w: Watcher, x: real)
    requires Covered(h, active, at) && w !in at && active'.Keys == at.Keys + {w}
    requires forall v <- at :: 0.0 < at[v]
    requires Permutation(h', h + [HeapEntry(w, 0.0)]) && IsHeap(Keys(h'), |h'|, Before) && Placed(h', active')
    ensures h' != [] && active'[w] == 1
    ensures var h'' := h'[0 := HeapEntry(w, x)];
            && Placed(h'', active') && Covered(h'', active', at[w := x])
            && (IsHeap(Keys(h''), |h''|, Before) <==> forall v <- at :: x <= at[v])
  {
    hide Covered, IsHeap, Keys, Permutation;
    NewAtRoot(h, h', active, at, w);
    NewCovered(h, h', active, active', at, w, x);
    OrderedIfFirst(h', active', at, w, x);
  }

  lemma NewAtRoot(h: seq<HeapEntry>, h': seq<HeapEntry>, active: map<Watcher, nat>, at: map<Watcher, real>, w: Watcher)
    requires Covered(h, active, at) && forall v <- at :: 0.0 < at[v]
    requires Permutation(h', h + [HeapEntry(w, 0.0)]) && IsHeap(Keys(h'), |h'|, Before)
    ensures h' != [] && h'[0] == HeapEntry(w, 0.0)
  {
    var s := h + [HeapEntry(w, 0.0)];
    Ordered();
    assert s[|h|] == HeapEntry(w, 0.0);
    SameElement(s, h', |h|);
    var j :| 0 <= j < |h'| && h'[j] == HeapEntry(w, 0.0);
    RootIsMinimum(Keys(h'), |h'|, j, Before);
    SameElement(h', s, 0);
  }

  lemma NewCovered(h: seq<HeapEntry>, h': seq<HeapEntry>, active: map<Watcher, nat>, active': map<Watcher, nat>,
                   at: map<Watcher, real>, w: Watcher, x: real)
    requires Covered(h, active, at) && w !in at && active'.Keys == at.Keys + {w}
    requires IsHeap(Keys(h'), |h'|, Before) && Permutation(h', h + [HeapEntry(w, 0.0)]) && Placed(h', active')
    requires h' != [] && h'[0].wt == w
    ensures Placed(h'[0 := HeapEntry(w, x)], active') && Covered(h'[0 := HeapEntry(w, x)], active', at[w := x])
  {
    hide Covered, IsHeap, Keys, Permutation;
    CoveredMore(h, active, at, w);
    Reordered(h + [HeapEntry(w, 0.0)], h', active[w := |h| + 1], active', at[w := 0.0]);
    RenewedCover(h', active', at[w := 0.0], x);
    assert at[w := 0.0][w := x] == at[w := x];
  }

  lemma CoveredMore(h: seq<HeapEntry>, active: map<Watcher, nat>, at: map<Watcher, real>, w: Watcher)
    requires Covered(h, active, at) && w !in at
    ensures Covered(h + [HeapEntry(w, 0.0)], active[w := |h| + 1], at[w := 0.0])
    ensures active[w := |h| + 1].Keys == at.Keys + {w}
  {
  }

  lemma OrderedIfFirst(h': seq<HeapEntry>, active': map<Watcher, nat>, at: map<Watcher, real>, w: Watcher, x: real)
    requires h' != [] && IsHeap(Keys(h'), |h'|, Before) && w !in at
    requires Covered(h'[0 := HeapEntry(w, x)], active', at[w := x]) && Placed(h', active')
    ensures var h'' := h'[0 := HeapEntry(w, x)];
            IsHeap(Keys(h''), |h''|, Before) <==> forall v <- at :: x <= at[v]
  {
    var h'' := h'[0 := HeapEntry(w, x)];
    Ordered();
    if IsHeap(Keys(h''), |h''|, Before) {
      forall v <- at ensures x <= at[v] {
        RootIsMinimum(Keys(h''), |h''|, active'[v] - 1, Before);
      }
    }
    assert Keys(h'') == Keys(h')[0 := x];
  }

  lemma Reordered(h: seq<HeapEntry>, h': seq<HeapEntry>, active: map<Watcher, nat>, active': map<Watcher, nat>,
                  at: map<Watcher, real>)
    requires Covered(h, active, at) && active'.Keys == active.Keys
    requires IsHeap(Keys(h'), |h'|, Before) && Placed(h', active') && Permutation(h', h)
    ensures Right(h', active', at)
  {
    forall i | 0 <= i < |h'| ensures h'[i].wt in at && h'[i].cache_at == at[h'[i].wt] {
      SameElement(h', h, i);
    }
    forall w <- active' ensures 0 < active'[w] <= |h'| && h'[active'[w] - 1].wt == w {
      SameElement(h, h', active[w] - 1);
    }
  }

  lemma SameElement(s: seq<HeapEntry>, t: seq<HeapEntry>, i: nat)
    requires Permutation(s, t) && i < |s|
    ensures exists j :: 0 <= j < |t| && t[j] == s[i]
  {
    assert s[i] in multiset(t);
  }

  lemma TopIsTimer(h: seq<HeapEntry>, active: map<Watcher, nat>, at: map<Watcher, real>)
    requires h != [] && Right(h, active, at)
    ensures h[0].wt in at
  {
  }

  /** No timer is due before the one at the root. */
  lemma TopIsFirst(h: seq<HeapEntry>, active: map<Watcher, nat>, at: map<Watcher, real>)
    requires h != [] && Right(h, active, at)
    ensures h[0].wt in at && at[h[0].wt] == h[0].cache_at
    ensures forall w <- at :: h[0].cache_at <= at[w]
  {
    Ordered();
    forall w <- at ensures h[0].cache_at <= at[w] {
      RootIsMinimum(Keys(h), |h|, active[w] - 1, Before);
      assert h[active[w] - 1].cache_at == at[w];
    }
  }

  /** A timer has fired exactly if its deadline was over. */
  lemma FiredIfDue(fired: seq<Watcher>, at0: map<Watcher, real>, at: map<Watcher, real>, repeats: map<Watcher, real>,
                   now: real, w: Watcher)
    requires Fired(fired, at0, at, repeats, now) && (forall v <- at :: now <= at[v]) && w in at
    ensures w in fired <==> at0[w] < now
  {
  }

  /** A timer that was due is due again a repeat later, or now if that is over too. */
  lemma Deadlines(fired: seq<Watcher>, at0: map<Watcher, real>, at: map<Watcher, real>, repeats: map<Watcher, real>,
                  now: real)
    requires Fired(fired, at0, at, repeats, now) && forall w <- at :: now <= at[w]
    ensures at0.Keys == at.Keys == repeats.Keys
    ensures forall w <- at ::
              var due, next := at0[w], at0[w] + repeats[w];
              at[w] == if now <= due then due else if now <= next then next else now
  {
  }

  /** The calls made when timers that have fired are taken off their pending array again. */
  function CallsInOrder(fired: seq<Watcher>, ev: Mask): seq<Event<Watcher>> {
    if fired == [] then [] else [Called(fired[0], ev)] + CallsInOrder(fired[1..], ev)
  }

  /** Being stacked twice puts the timers that have fired back in the order of their deadlines. */
  lemma {:induction false} CalledFirstDeadlineFirst(q: seq<EvPending>, fired: seq<Watcher>, ev: Mask, dummy: Watcher)
    requires forall i :: 0 <= i < |fired| ==> fired[i] != dummy
    ensures CallsOf(q + Entries(fired, ev), dummy) == CallsInOrder(fired, ev) + CallsOf(q, dummy)
  {
    hide CallsOf, Entries;
    if fired == [] {
      NoEntries(q, ev);
    } else {
      var rest := q + Entries(fired[1..], ev);
      EntriesEnd(fired, ev);
      LastIsCalledFirst(rest, fired[0], ev, dummy);
      CalledFirstDeadlineFirst(q, fired[1..], ev, dummy);
      assert q + Entries(fired, ev) == rest + [EvPending(fired[0], ev)];
      assert CallsInOrder(fired, ev) == [Called(fired[0], ev)] + CallsInOrder(fired[1..], ev);
    }
  }

  lemma LastIsCalledFirst(q: seq<EvPending>, w: Watcher, ev: Mask, dummy: Watcher)
    requires w != dummy
    ensures CallsOf(q + [EvPending(w, ev)], dummy) == [Called(w, ev)] + CallsOf(q, dummy)
  {
  }

  lemma {:induction false} EntriesEnd(fired: seq<Watcher>, ev: Mask)
    requires fired != []
    ensures Entries(fired, ev) == Entries(fired[1..], ev) + [EvPending(fired[0], ev)]
  {
    if |fired| > 1 {
      var n := |fired| - 1;
      EntriesEnd(fired[..n], ev);
      assert fired[..n][1..] == fired[1..][..n - 1];
    }
  }
}
