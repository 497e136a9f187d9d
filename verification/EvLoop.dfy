/** The event loop's bookkeeping (ev_loop.h, ev_loop.cpp) over epoll (ev_epoll.cpp): watcher lists, cached interest
    masks and the kernel's registration table on one side; watchers' `pending` indexes and the pending arrays on the
    other. */
module EvLoop {
  import opened Basics
  import opened History

  const NUMPRI: nat := 5
  const TAGS: int := 0x1_0000_0000

  type Tag = t: int | 0 <= t < TAGS

  /** ev_watcher with the fields of ev_io and ev_timer. */
  class Watcher {
    var active: nat
    var pending: nat
    var priority: nat
    var fd: nat
    var events: Mask
    var at: real
    var repeat: real

    constructor ()
      ensures active == 0 && pending == 0 && priority == 0
    {
      active, pending, priority := 0, 0, 0;
      fd, events := 0, {};
      at, repeat := 0.0, 0.0;
    }
  }

  datatype EvPending = EvPending(w: Watcher, events: Mask)

  datatype EvFd = EvFd(head: seq<Watcher>, events: Mask, ischanged: bool, previous_evs: Mask, tag: Tag)

  /** The entry of fd in the descriptor table, an array that grows, zero-initialised, on access. */
  function Entry(fds: map<nat, EvFd>, fd: nat): EvFd {
    if fd in fds then fds[fd] else EvFd([], {}, false, {}, 0)
  }

  /** The table and change list after the first k watchers of fd have been stopped. */
  ghost predicate AfterStops(fds0: map<nat, EvFd>, changes0: seq<nat>, fd: nat, k: nat,
                             fds: map<nat, EvFd>, changes: seq<nat>)
  {
    var f := Entry(fds0, fd);
    k <= |f.head|
    && (if k == 0 then fds == fds0 && changes == changes0
        else fds == fds0[fd := Changed(f, f.head[k..])] && changes == Noted(changes0, f, fd))
  }

  lemma AfterNoStop(fds0: map<nat, EvFd>, changes0: seq<nat>, fd: nat)
    ensures AfterStops(fds0, changes0, fd, 0, fds0, changes0)
  {
  }

  lemma AfterOneMore(fds0: map<nat, EvFd>, changes0: seq<nat>, fd: nat, k: nat, fds: map<nat, EvFd>, changes: seq<nat>)
    requires AfterStops(fds0, changes0, fd, k, fds, changes) && Entry(fds, fd).head != []
    ensures var f := Entry(fds, fd);
            && AfterStops(fds0, changes0, fd, k + 1, fds[fd := Changed(f, f.head[1..])], Noted(changes, f, fd))
            && k < |Entry(fds0, fd).head|
  {
  }

  lemma AfterAllStops(fds0: map<nat, EvFd>, changes0: seq<nat>, fd: nat, k: nat, fds: map<nat, EvFd>, changes: seq<nat>)
    requires AfterStops(fds0, changes0, fd, k, fds, changes) && Entry(fds, fd).head == []
    ensures var f := Entry(fds0, fd);
            k == |f.head|
            && if f.head == [] then fds == fds0 && changes == changes0
               else fds == fds0[fd := Changed(f, [])] && changes == Noted(changes0, f, fd)
  {
  }

  /** What epoll keeps for a descriptor. */
  datatype Registration = Registration(events: Mask, tag: Tag)

  /** A registration in the kernel is the last one this loop made. */
  ghost predicate KernelAgrees(fds: map<nat, EvFd>, kernel: map<nat, Registration>, fd: nat) {
    fd in kernel ==> kernel[fd] == Registration(Entry(fds, fd).previous_evs, Entry(fds, fd).tag)
  }

  /** A descriptor that watchers want events of, and whose flag is clear, is registered for exactly them. */
  ghost predicate Registered(fds: map<nat, EvFd>, kernel: map<nat, Registration>, fd: nat) {
    var f := Entry(fds, fd);
    !f.ischanged && f.events != {} ==> fd in kernel && kernel[fd].events == f.events
  }

  /** Nobody wants events of a descriptor, or what its watchers want has yet to be told to the kernel. */
  predicate Closable(fds: map<nat, EvFd>, fd: nat) {
    Entry(fds, fd).ischanged || Entry(fds, fd).events == {}
  }

  /** The descriptors with watchers. */
  ghost function Busy(fds: map<nat, EvFd>): set<nat> {
    set fd | fd in fds && fds[fd].head != []
  }

  /** What is to be registered is registered already, and epoll_ctl will say so. */
  ghost predicate Found(fds: map<nat, EvFd>, kernel: map<nat, Registration>, fd: nat, oldev: Mask, newev: Mask) {
    fd in kernel && Entry(fds, fd).previous_evs == newev && (oldev == {} || newev == oldev)
  }

  /** The tag of the next registration. */
  function Bumped(tag: Tag): Tag { (tag + 1) % TAGS }

  function Lowered(tag: Tag): Tag { (tag - 1) % TAGS }

  /** A tag differs from the one before, and from all but one in 2^32. */
  lemma BumpedDiffers(tag: Tag)
    ensures Bumped(tag) != tag && Bumped(tag) == if tag == 0xFFFF_FFFF then 0 else tag + 1
  {
  }

  lemma LoweredAgain(tag: Tag)
    ensures Lowered(Bumped(tag)) == tag
  {
  }

  lemma IsBusy(fds: map<nat, EvFd>, fd: nat)
    requires fd in fds && fds[fd].head != []
    ensures fd in Busy(fds)
  {
  }

  datatype Ctl = Add | Mod

  datatype Errno = Ok | EExist | ENoEnt | EOther

  /** What a callback may do to the loop: set up, start or stop an ev_io, make a watcher pending, feed an event to the
      watchers of a descriptor, kill or close a descriptor. */
  datatype Op =
    | Init(w: Watcher, fd: nat, ev: Mask, pri: int)
    | Start(w: Watcher)
    | Stop(w: Watcher)
    | Feed(w: Watcher, ev: Mask)
    | FeedFd(fd: nat, ev: Mask)
    | Kill(fd: nat)
    | Close(fd: nat)

  /** Whether a callback may do this, given the ev_io objects there are, and those and all watchers set up so far. */
  ghost predicate Allowed(op: Op, pool: set<Watcher>, ios: set<Watcher>, watchers: set<Watcher>) {
    match op
    case Init(w, _, _, _) => w in pool
    case Start(w) => w in ios
    case Stop(w) => w in ios
    case Feed(w, _) => w in watchers
    case FeedFd(_, _) => true
    case Kill(_) => true
    case Close(_) => true
  }

  /** The watchers set up after an operation, and after a callback. */
  ghost function SetUp(op: Op, ws: set<Watcher>): set<Watcher> {
    if op.Init? then ws + {op.w} else ws
  }

  ghost function SetUpBy(script: seq<Op>, ws: set<Watcher>): set<Watcher> {
    if script == [] then ws else SetUpBy(script[1..], SetUp(script[0], ws))
  }

  /** Whether a callback, and one callback after another, may do this. */
  ghost predicate Legal(script: seq<Op>, pool: set<Watcher>, ios: set<Watcher>, watchers: set<Watcher>) {
    script != [] ==>
      && Allowed(script[0], pool, ios, watchers)
      && Legal(script[1..], pool, SetUp(script[0], ios), SetUp(script[0], watchers))
  }

  ghost predicate AllLegal(scripts: seq<seq<Op>>, pool: set<Watcher>, ios: set<Watcher>, watchers: set<Watcher>) {
    scripts != [] ==>
      && Legal(scripts[0], pool, ios, watchers)
      && AllLegal(scripts[1..], pool, SetUpBy(scripts[0], ios), SetUpBy(scripts[0], watchers))
  }

  lemma NextIsLegal(scripts: seq<seq<Op>>, k: nat, pool: set<Watcher>, ios: set<Watcher>, watchers: set<Watcher>)
    requires k < |scripts| && AllLegal(scripts[k..], pool, ios, watchers)
    ensures Legal(scripts[k], pool, ios, watchers)
    ensures AllLegal(scripts[k + 1..], pool, SetUpBy(scripts[k], ios), SetUpBy(scripts[k], watchers))
  {
    assert scripts[k..][0] == scripts[k] && scripts[k..][1..] == scripts[k + 1..];
  }

  lemma {:induction false} SetUpGrows(script: seq<Op>, ws: set<Watcher>)
    ensures ws <= SetUpBy(script, ws)
  {
    if script != [] {
      SetUpGrows(script[1..], SetUp(script[0], ws));
    }
  }

  /** What AcceptFdCb does about the sockets it receives, for each of which it creates an ev_io. */
  function AcceptScript(sockets: seq<(Watcher, nat)>): seq<Op> {
    if sockets == [] then [] else
      var (iow, fd) := sockets[0];
      [Init(iow, fd, EV_READ, NUMPRI / 2), Start(iow)] + AcceptScript(sockets[1..])
  }

  lemma {:induction false} AcceptIsLegal(sockets: seq<(Watcher, nat)>, pool: set<Watcher>, ios: set<Watcher>,
                                         watchers: set<Watcher>)
    requires forall k :: 0 <= k < |sockets| ==> sockets[k].0 in pool
    ensures Legal(AcceptScript(sockets), pool, ios, watchers)
  {
    if sockets != [] {
      var (iow, _) := sockets[0];
      AcceptIsLegal(sockets[1..], pool, ios + {iow}, watchers + {iow});
      assert AcceptScript(sockets)[1..][1..] == AcceptScript(sockets[1..]);
    }
  }

  /** A pending array after a watcher, whose entry is the k-th if it has one, has been fed an event. */
  function FedArray(q: seq<EvPending>, k: int, w: Watcher, ev: Mask): seq<EvPending> {
    if 0 <= k < |q| then q[k := EvPending(w, q[k].events + ev)] else q + [EvPending(w, ev)]
  }

  /** A pending array after its k-th entry, if there is one, has been handed to the dummy. */
  function ClearedArray(q: seq<EvPending>, k: int, dummy: Watcher): seq<EvPending> {
    if 0 <= k < |q| then q[k := EvPending(dummy, q[k].events)] else q
  }

  /** What killing a descriptor with these watchers records. */
  function KillEvents(head: seq<Watcher>): seq<Event<Watcher>> {
    if head == [] then [] else [Cleared(head[0]), Fed(head[0], EV_ERROR)] + KillEvents(head[1..])
  }

  lemma KillFirst(trace: seq<Event<Watcher>>, head: seq<Watcher>)
    requires head != []
    ensures ((trace + [Cleared(head[0])]) + [Fed(head[0], EV_ERROR)]) + KillEvents(head[1..])
            == trace + KillEvents(head)
  {
  }

  lemma {:induction false} KillsCallNobody(trace: seq<Event<Watcher>>, head: seq<Watcher>)
    ensures CountCalled(trace + KillEvents(head)) == CountCalled(trace)
    decreases |head|
  {
    if head == [] {
      assert trace + KillEvents(head) == trace;
    } else {
      var cleared := trace + [Cleared(head[0])];
      var fed := cleared + [Fed(head[0], EV_ERROR)];
      CountMore(trace, Cleared(head[0]));
      CountMore(cleared, Fed(head[0], EV_ERROR));
      KillFirst(trace, head);
      KillsCallNobody(fed, head[1..]);
    }
  }

  /** They are all about these watchers, none is a call, and none of the watchers is only fed. */
  lemma {:induction false} KillTellsAll(trace: seq<Event<Watcher>>, head: seq<Watcher>, pool: set<Watcher>)
    requires forall k :: 0 <= k < |head| ==> head[k] in pool
    ensures var killed := trace + KillEvents(head);
            && NoneCalled(killed, |trace|) && ClearedIn(killed, |trace|, pool)
            && forall k :: 0 <= k < |head| ==> !OnlyFed(killed, |trace|, head[k])
    decreases |head|
  {
    if head != [] {
      var begun := (trace + [Cleared(head[0])]) + [Fed(head[0], EV_ERROR)];
      var killed := trace + KillEvents(head);
      KillFirst(trace, head);
      KillTellsAll(begun, head[1..], pool);
      assert killed[|trace|] == Cleared(head[0]) && killed[|trace| + 1] == Fed(head[0], EV_ERROR);
      forall k | 0 <= k < |head| ensures !OnlyFed(killed, |trace|, head[k]) {
        if k > 0 {
          assert !OnlyFed(killed, |begun|, head[1..][k - 1]);
        }
      }
    }
  }

  lemma {:induction false} KillBoth(trace: seq<Event<Watcher>>, ws: seq<Watcher>, more: seq<Watcher>)
    ensures trace + KillEvents(ws + more) == (trace + KillEvents(ws)) + KillEvents(more)
    decreases |ws|
  {
    if ws == [] {
      assert ws + more == more && trace + KillEvents(ws) == trace;
    } else {
      var begun := (trace + [Cleared(ws[0])]) + [Fed(ws[0], EV_ERROR)];
      KillFirst(trace, ws);
      KillFirst(trace, ws + more);
      assert (ws + more)[1..] == ws[1..] + more;
      KillBoth(begun, ws[1..], more);
    }
  }

  lemma KillNobody(trace: seq<Event<Watcher>>)
    ensures trace + KillEvents([]) == trace
  {
  }

  /** The call made for the last entry of a pending array. */
  function LastCall(q: seq<EvPending>, dummy: Watcher): seq<Event<Watcher>>
    requires q != []
  {
    if Last(q).w == dummy then [] else [Called(Last(q).w, Last(q).events)]
  }

  /** The calls made for a pending array from its last entry to its first. */
  function CallsOf(q: seq<EvPending>, dummy: Watcher): seq<Event<Watcher>> {
    if q == [] then [] else LastCall(q, dummy) + CallsOf(Front(q), dummy)
  }

  /** The calls made for all the pending arrays, first array first. */
  function AllCalls(pendings: seq<seq<EvPending>>, dummy: Watcher): seq<Event<Watcher>> {
    if pendings == [] then [] else CallsOf(pendings[0], dummy) + AllCalls(pendings[1..], dummy)
  }

  lemma NextCalls(trace: seq<Event<Watcher>>, pendings: seq<seq<EvPending>>, p: nat, dummy: Watcher)
    requires p < |pendings|
    ensures trace + AllCalls(pendings[p..], dummy) ==
            (trace + CallsOf(pendings[p], dummy)) + AllCalls(pendings[p + 1..], dummy)
  {
    assert pendings[p..][1..] == pendings[p + 1..];
  }

  lemma NoCalls(trace: seq<Event<Watcher>>, dummy: Watcher)
    ensures trace + AllCalls([], dummy) == trace && trace + CallsOf([], dummy) == trace
  {
  }

  lemma NextCall(trace: seq<Event<Watcher>>, q: seq<EvPending>, dummy: Watcher)
    requires q != []
    ensures trace + CallsOf(q, dummy) == (trace + LastCall(q, dummy)) + CallsOf(Front(q), dummy)
  {
    hide LastCall;
  }

  lemma {:induction false} CallsAt(pendings: seq<seq<EvPending>>, p: nat, dummy: Watcher)
    requires p < |pendings|
    ensures AllCalls(pendings, dummy) ==
            AllCalls(pendings[..p], dummy) + (CallsOf(pendings[p], dummy) + AllCalls(pendings[p + 1..], dummy))
  {
    if p == 0 {
      assert AllCalls(pendings[..p], dummy) == [];
    } else {
      CallsAt(pendings[1..], p - 1, dummy);
      assert pendings[..p][1..] == pendings[1..][..p - 1];
      assert pendings[1..][p..] == pendings[p + 1..];
    }
  }

  /** The events some watcher of the list is interested in. */
  ghost function Interest(ws: seq<Watcher>): Mask
    reads ws`events
  {
    if ws == [] then {} else Interest(ws[..|ws| - 1]) + ws[|ws| - 1].events
  }

  /** An event bit is of interest exactly if some watcher of the list wants it. */
  lemma {:induction false} InterestIs(ws: seq<Watcher>, e: Bit)
    ensures e in Interest(ws) <==> exists k :: 0 <= k < |ws| && e in ws[k].events
  {
    if ws != [] {
      var n := |ws| - 1;
      InterestIs(ws[..n], e);
      if k :| 0 <= k < n && e in ws[k].events {
        assert ws[..n][k] == ws[k];
      }
    }
  }

  /** What an active ev_io wants to know. */
  datatype Wish = Wish(fd: nat, events: Mask)

  ghost predicate Wants(wishes: map<Watcher, Wish>, fd: nat, e: Bit) {
    exists w <- wishes :: wishes[w].fd == fd && e in wishes[w].events
  }

  /** These events feed each watcher of a descriptor its share of an event, once, if that is not empty. */
  ghost predicate Shares(feeds: seq<Event<Watcher>>, wishes: map<Watcher, Wish>, fd: nat, ev: Mask) {
    && (forall k :: 0 <= k < |feeds| ==>
          && feeds[k].Fed? && feeds[k].w in wishes && wishes[feeds[k].w].fd == fd
          && feeds[k].events == wishes[feeds[k].w].events * ev != {})
    && (forall j, k :: 0 <= j < k < |feeds| ==> feeds[j].w != feeds[k].w)
    && (forall w <- wishes :: wishes[w].fd == fd && wishes[w].events * ev != {} ==>
          exists k :: 0 <= k < |feeds| && feeds[k].w == w)
  }

  /** The wishes that are left when these descriptors have lost their watchers. */
  ghost function Less(wishes: map<Watcher, Wish>, lost: set<nat>): map<Watcher, Wish> {
    map w <- wishes | wishes[w].fd !in lost :: wishes[w]
  }

  /** These are the watchers of these descriptors, each once. */
  ghost predicate Lists(ws: seq<Watcher>, wishes: map<Watcher, Wish>, lost: set<nat>) {
    && Distinct(ws)
    && (forall k :: 0 <= k < |ws| ==> ws[k] in wishes && wishes[ws[k]].fd in lost)
    && (forall w <- wishes :: wishes[w].fd in lost ==> w in ws)
  }

  lemma NobodyListed(wishes: map<Watcher, Wish>)
    ensures Lists([], wishes, {})
  {
  }

  lemma ListsBoth(ws: seq<Watcher>, wishes: map<Watcher, Wish>, lost: set<nat>,
                  more: seq<Watcher>, wishes': map<Watcher, Wish>, lost': set<nat>)
    requires Lists(ws, wishes, lost) && wishes' == Less(wishes, lost) && Lists(more, wishes', lost')
    ensures Lists(ws + more, wishes, lost + lost')
  {
  }

  /** No flag is set; what the watchers of a descriptor want is registered for it, and it is not if it was refused. */
  ghost predicate UpToDate(fds: map<nat, EvFd>, kernel: map<nat, Registration>, refused: set<nat>,
                           wishes: map<Watcher, Wish>)
  {
    && (forall fd :: fd in fds ==> !fds[fd].ischanged)
    && (forall fd: nat, e: Bit :: e in Entry(fds, fd).events <==> Wants(wishes, fd, e))
    && (forall fd: nat :: Entry(fds, fd).events != {} ==>
          fd in kernel && kernel[fd].events == Entry(fds, fd).events)
    && refused !! kernel.Keys
  }

  function Without(ws: seq<Watcher>, w: Watcher): seq<Watcher> {
    if ws == [] then [] else if ws[0] == w then ws[1..] else [ws[0]] + Without(ws[1..], w)
  }

  /** fdchanges after a change to a descriptor that was in state f. */
  function Noted(changes: seq<nat>, f: EvFd, fd: nat): seq<nat> {
    if f.ischanged then changes else changes + [fd]
  }

  function Changed(f: EvFd, head: seq<Watcher>): EvFd { f.(head := head, ischanged := true) }

  ghost predicate Distinct<A>(s: seq<A>) {
    forall i, j :: 0 <= i < j < |s| ==> s[i] != s[j]
  }

  lemma {:induction false} WithoutRemoves(ws: seq<Watcher>, w: Watcher)
    requires Distinct(ws) && w in ws
    ensures Distinct(Without(ws, w)) && |Without(ws, w)| == |ws| - 1
    ensures forall v :: v in Without(ws, w) <==> v in ws && v != w
  {
    assert ws == [ws[0]] + ws[1..];
    if ws[0] != w {
      WithoutRemoves(ws[1..], w);
      assert ws[0] !in Without(ws[1..], w);
    }
  }

  class EvLoop {
    /** One array per priority, up to its pendingcnt; what lies above is never read. */
    var pendings: seq<seq<EvPending>>
    const dummy_watcher: Watcher

    var fds: map<nat, EvFd>
    /** Up to fdchangescnt. */
    var fdchanges: seq<nat>
    var activecnt: int

    /** Everything that has been fed, cleared and called. */
    ghost var trace: seq<Event<Watcher>>

    /** What each callback has done. */
    ghost var performed: seq<seq<Op>>

    /** The kernel's side of this epoll instance. */
    var kernel: map<nat, Registration>

    /** The watchers that have been initialised for this loop, and those of them that are ev_io. */
    ghost var watchers: set<Watcher>
    ghost var ios: set<Watcher>

    /** How many entries of fdchanges update_fd has visited, and which descriptor it is changing the registration of. */
    ghost var visited: nat
    ghost var midway: set<nat>

    /** The descriptors the kernel has refused to register during the last update_fd. */
    ghost var refused: set<nat>

    constructor ()
      ensures Valid() && watchers == {} && ios == {} && fresh(dummy_watcher)
      ensures fds == map[] && kernel == map[] && fdchanges == [] && activecnt == 0
      ensures pendings == seq(NUMPRI, i => []) && trace == []
    {
      dummy_watcher := new Watcher();
      pendings := seq(NUMPRI, i => []);
      fds, kernel := map[], map[];
      fdchanges, activecnt := [], 0;
      watchers, ios, trace, performed := {}, {}, [], [];
      visited, midway, refused := 0, {}, {};
    }

    // ---- pendings -------------------------------------------------------------------------------------------

    /** Watchers and pending arrays agree, and hold what the history says they should. */
    ghost predicate PendingsAgree()
      reads this`pendings, this`watchers, this`trace, watchers`pending, watchers`priority
    {
      SlotsAgree() && TraceAgrees()
    }

    /** A watcher says it is pending at k exactly when the k-th entry of its priority is it, so each watcher occurs at
        most once; every other entry is the dummy. */
    ghost predicate SlotsAgree()
      reads this`pendings, this`watchers, watchers`pending, watchers`priority
    {
      && |pendings| == NUMPRI
      && dummy_watcher !in watchers
      && (forall w :: w in watchers ==> WatcherOk(w))
      && (forall p, k :: 0 <= p < NUMPRI && 0 <= k < |pendings[p]| ==> EntryOk(p, k, pendings[p][k].w))
    }

    ghost predicate TraceAgrees()
      requires SlotsAgree()
      reads this`pendings, this`watchers, this`trace, watchers`pending, watchers`priority
    {
      && Replay(trace).Some?
      && (forall w :: w in Replay(trace).value ==> w in watchers)
      && (forall w :: w in watchers ==> HeldOk(w))
    }

    ghost predicate HeldOk(w: Watcher)
      requires |pendings| == NUMPRI && WatcherOk(w) && Replay(trace).Some?
      reads this`pendings, this`trace, w`pending, w`priority
    {
      var m := Replay(trace).value;
      (w in m <==> w.pending > 0) && (w in m ==> m[w] == pendings[w.priority][w.pending - 1].events)
    }

    ghost predicate WatcherOk(w: Watcher)
      reads this`pendings, w`pending, w`priority
      requires |pendings| == NUMPRI
    {
      && w.priority < NUMPRI
      && (w.pending > 0 ==>
            w.pending <= |pendings[w.priority]| && pendings[w.priority][w.pending - 1].w == w)
    }

    ghost predicate EntryOk(p: nat, k: nat, w: Watcher)
      reads this`watchers, watchers`pending, watchers`priority
    {
      w == dummy_watcher || (w in watchers && w.priority == p && w.pending == k + 1)
    }

    /** Puts a watcher into the pending array, or adds the event to its entry if it is there. */
    method FeedEvent(w: Watcher, ev: Mask)
      requires PendingsAgree() && w in watchers
      modifies this`pendings, this`trace, w`pending
      ensures PendingsAgree() && w.pending > 0
      ensures old(w.pending) > 0 ==> w.pending == old(w.pending)
      ensures pendings == old(pendings[w.priority := FedArray(pendings[w.priority], w.pending - 1, w, ev)])
      ensures trace == old(trace) + [Fed(w, ev)]
    {
      hide FedArray, OnlyEntryOf, Replay, SameElse, SlotsAgree, TraceAgrees;
      PendingFacts(w);
      PutPending(w, ev);
      ReplayMore(trace, Fed(w, ev));
      trace := trace + [Fed(w, ev)];
      TraceStays(w);
    }

    lemma PendingFacts(w: Watcher)
      requires PendingsAgree() && w in watchers
      ensures |pendings| == NUMPRI && WatcherOk(w) && Replay(trace).Some? && HeldOk(w)
    {
    }

    lemma LastFacts(pri: nat)
      requires PendingsAgree() && pri < NUMPRI && pendings[pri] != []
      ensures |pendings| == NUMPRI && Replay(trace).Some? && dummy_watcher !in Replay(trace).value
      ensures var w := pendings[pri][|pendings[pri]| - 1].w;
              w in watchers ==> WatcherOk(w) && HeldOk(w) && w.priority == pri && w.pending == |pendings[pri]|
    {
    }

    method PutPending(w: Watcher, ev: Mask)
      requires SlotsAgree() && w in watchers
      modifies this`pendings, w`pending
      ensures SlotsAgree() && OnlyEntryOf(w) && WatcherOk(w)
      ensures w.pending == if old(w.pending) > 0 then old(w.pending) else |pendings[w.priority]|
      ensures w.pending > 0 && pendings[w.priority][w.pending - 1].events ==
              if old(w.pending) > 0 then old(pendings[w.priority][w.pending - 1].events) + ev else ev
      ensures pendings == old(pendings[w.priority := FedArray(pendings[w.priority], w.pending - 1, w, ev)])
    {
      var pri := w.priority;
      assert WatcherOk(w);
      if w.pending > 0 {
        var e := pendings[pri][w.pending - 1];
        pendings := pendings[pri := pendings[pri][w.pending - 1 := e.(events := e.events + ev)]];
      } else {
        w.pending := |pendings[pri]| + 1;
        pendings := pendings[pri := pendings[pri] + [EvPending(w, ev)]];
      }
      assert OnlyEntryOf(w);
      SlotsStay(w);
    }

    /** Turns the watcher's entry, if it has one, into the dummy's. */
    method ClearPending(w: Watcher)
      requires PendingsAgree() && w in watchers
      modifies this`pendings, this`trace, w`pending
      ensures PendingsAgree() && w.pending == 0
      ensures pendings == old(pendings[w.priority := ClearedArray(pendings[w.priority], w.pending - 1, dummy_watcher)])
      ensures trace == old(trace) + [Cleared(w)]
    {
      hide ClearedArray, OnlyEntryOf, Replay, SameElse, SlotsAgree, TraceAgrees;
      PendingFacts(w);
      DropPending(w);
      ReplayMore(trace, Cleared(w));
      trace := trace + [Cleared(w)];
      TraceStays(w);
    }

    method DropPending(w: Watcher)
      requires SlotsAgree() && w in watchers
      modifies this`pendings, w`pending
      ensures SlotsAgree() && OnlyEntryOf(w) && WatcherOk(w) && w.pending == 0
      ensures pendings == old(pendings[w.priority := ClearedArray(pendings[w.priority], w.pending - 1, dummy_watcher)])
    {
      assert WatcherOk(w);
      if w.pending > 0 {
        var pri, k := w.priority, w.pending - 1;
        pendings := pendings[pri := pendings[pri][k := EvPending(dummy_watcher, pendings[pri][k].events)]];
        w.pending := 0;
      }
      assert OnlyEntryOf(w);
      SlotsStay(w);
    }

    /** One turn of invoke_pendings, up to the callback it makes: takes the last entry of a priority. */
    method TakePending(pri: nat) returns (w: Watcher, ev: Mask)
      requires PendingsAgree() && pri < NUMPRI && pendings[pri] != []
      modifies this`pendings, this`trace, watchers`pending, dummy_watcher`pending
      ensures PendingsAgree()
      ensures var q := old(pendings[pri]);
              EvPending(w, ev) == q[|q| - 1] && pendings == old(pendings)[pri := q[..|q| - 1]]
      ensures w == dummy_watcher || (w in watchers && old(w.pending) > 0 && w.pending == 0)
      ensures forall v :: v in watchers && v != w ==> v.pending == old(v.pending)
      ensures trace == old(trace) + if w == dummy_watcher then [] else [Called(w, ev)]
    {
      hide OnlyEntryOf, Replay, SameElse, SlotsAgree, TraceAgrees;
      LastFacts(pri);
      w, ev := PopPending(pri);
      if w != dummy_watcher {
        ReplayMore(trace, Called(w, ev));
        trace := trace + [Called(w, ev)];
      }
      TraceStays(w);
    }

    method PopPending(pri: nat) returns (w: Watcher, ev: Mask)
      requires SlotsAgree() && pri < NUMPRI && pendings[pri] != []
      modifies this`pendings, watchers`pending, dummy_watcher`pending
      ensures SlotsAgree() && OnlyEntryOf(w) && w.pending == 0
      ensures var q := old(pendings[pri]);
              EvPending(w, ev) == q[|q| - 1] && pendings == old(pendings)[pri := q[..|q| - 1]]
      ensures w == dummy_watcher || (w in watchers && w.priority == pri && old(w.pending) == |old(pendings[pri])|)
      ensures dummy_watcher !in watchers
      ensures forall v :: v in watchers && v != w ==> v.pending == old(v.pending)
    {
      var n := |pendings[pri]| - 1;
      w, ev := pendings[pri][n].w, pendings[pri][n].events;
      assert EntryOk(pri, n, w) && (w in watchers ==> WatcherOk(w));
      pendings := pendings[pri := pendings[pri][..n]];
      w.pending := 0;
      assert OnlyEntryOf(w);
      SlotsStay(w);
    }

    /** Only one watcher, and entries that are its or the dummy's, have changed. */
    twostate predicate OnlyEntryOf(new w: Watcher)
      reads this`pendings, this`watchers, watchers`pending, watchers`priority, w`pending, w`priority
    {
      && watchers == old(watchers) && |pendings| == |old(pendings)| == NUMPRI
      && (forall v :: v in watchers ==> v.priority == old(v.priority))
      && (forall v :: v in watchers && v != w ==> v.pending == old(v.pending))
      && (forall p, k :: 0 <= p < NUMPRI && 0 <= k < |old(pendings)[p]| && old(pendings)[p][k].w != w ==>
            k < |pendings[p]| && pendings[p][k] == old(pendings)[p][k])
      && (forall p, k :: 0 <= p < NUMPRI && 0 <= k < |pendings[p]| ==>
            || pendings[p][k].w == dummy_watcher
            || (w in watchers && pendings[p][k].w == w && w.priority == p && w.pending == k + 1)
            || (k < |old(pendings)[p]| && pendings[p][k] == old(pendings)[p][k] && pendings[p][k].w != w))
    }

    twostate lemma SlotsStay(w: Watcher)
      requires old(SlotsAgree()) && OnlyEntryOf(w)
      requires w in watchers ==> WatcherOk(w)
      ensures SlotsAgree()
    {
      forall v | v in watchers ensures WatcherOk(v) {
        assert old(WatcherOk(v));
      }
      forall p, k | 0 <= p < NUMPRI && 0 <= k < |pendings[p]| ensures EntryOk(p, k, pendings[p][k].w) {
        if pendings[p][k].w != dummy_watcher && pendings[p][k].w != w {
          assert old(EntryOk(p, k, pendings[p][k].w));
        }
      }
    }

    /** A step of the history is about one watcher, or about none. */
    twostate lemma TraceStays(w: Watcher)
      requires old(SlotsAgree() && TraceAgrees()) && SlotsAgree() && OnlyEntryOf(w)
      requires w in watchers ==> Replay(trace).Some? && HeldOk(w)
      requires old(Replay(trace)).Some? && Replay(trace).Some?
      requires SameElse(old(Replay(trace)).value, Replay(trace).value, w)
      requires w in Replay(trace).value ==> w in watchers
      ensures TraceAgrees()
    {
      forall v | v in watchers ensures HeldOk(v) {
        assert v != w ==> old(HeldOk(v) && WatcherOk(v));
        if v != w && v.pending > 0 {
          ghost var e := old(pendings)[v.priority][v.pending - 1];
          assert e.w == v && pendings[v.priority][v.pending - 1] == e;
        }
      }
    }

    // ---- descriptors ----------------------------------------------------------------------------------------

    /** A watcher is active exactly when it is on the list of its descriptor, once. */
    ghost predicate ListsAgree()
      reads this`fds, this`ios, this`watchers, ios`active, ios`fd
    {
      && ios <= watchers
      && (forall fd :: fd in fds ==> ListOk(fd))
      && (forall w :: w in ios ==> w.active <= 1 && (w.active == 1 ==> w in Entry(fds, w.fd).head))
    }

    ghost predicate ListOk(fd: nat)
      reads this`fds, this`ios, ios`active, ios`fd
    {
      Distinct(Entry(fds, fd).head)
      && forall w :: w in Entry(fds, fd).head ==> w in ios && w.active == 1 && w.fd == fd
    }

    /** The descriptors flagged as changed are those still to be visited in fdchanges, each once. */
    ghost predicate ChangesAgree()
      reads this`fds, this`fdchanges, this`visited
    {
      && visited <= |fdchanges|
      && Distinct(fdchanges[visited..])
      && (forall fd :: fd in fdchanges[visited..] ==> fd in fds && fds[fd].ischanged)
      && (forall fd :: fd in fds && fds[fd].ischanged ==> fd in fdchanges[visited..])
    }

    /** Where nothing has changed, the cached mask is what the watchers want. */
    ghost predicate MasksAgree()
      reads this`fds, this`ios, ios`active, ios`fd, ios`events
    {
      forall fd :: fd in fds && !fds[fd].ischanged ==> ListOk(fd) && MaskOk(fd)
    }

    ghost predicate MaskOk(fd: nat)
      reads this`fds, this`ios, ios`active, ios`fd, ios`events
      requires ListOk(fd)
    {
      Entry(fds, fd).events == Interest(Entry(fds, fd).head)
    }

    /** Lists, masks, change flags and registrations agree. */
    ghost predicate FdsAgree()
      reads this`fds, this`fdchanges, this`kernel, this`ios, this`watchers, this`visited, this`midway
      reads ios`active, ios`fd, ios`events
    {
      && ListsAgree() && ChangesAgree() && MasksAgree()
      && (forall fd :: fd !in midway ==> KernelAgrees(fds, kernel, fd) && Registered(fds, kernel, fd))
    }

    /** The invariant between calls, and of every call update_fd makes on the way. */
    ghost predicate Consistent()
      reads this, ios`active, ios`fd, ios`events
      reads watchers`pending, watchers`priority
    {
      PendingsAgree() && FdsAgree()
    }

    ghost predicate Valid()
      reads this, ios`active, ios`fd, ios`events
      reads watchers`pending, watchers`priority
    {
      Consistent() && visited == 0 && midway == {}
    }

    /** Whatever happens to a loop, a callback is told exactly what its watcher was fed since it was last called or
        stopped. */
    lemma EveryCallIsComplete(k: nat)
      requires Valid() && k < |trace| && trace[k].Called?
      ensures FedSince(trace[..k], trace[k].w) == Some(trace[k].events)
    {
      CalledWithAllThatWasFed(trace, k);
    }

    /** A watcher that has been stopped, or called, is not called again without having been fed. */
    lemma NoCallIsStale(i: nat, k: nat)
      requires Valid() && i < k < |trace| && !trace[i].Fed? && trace[k].Called? && trace[k].w == trace[i].w
      ensures exists j :: i < j < k && trace[j].Fed? && trace[j].w == trace[i].w
    {
      NoStaleCall(trace, i, k);
    }

    /** Notes that the watchers of fd have changed; once, however often it happens before update_fd. */
    method FdChange(fd: nat)
      modifies this`fds, this`fdchanges
      ensures fds == old(fds)[fd := old(Entry(fds, fd)).(ischanged := true)]
      ensures fdchanges == Noted(old(fdchanges), old(Entry(fds, fd)), fd)
    {
      var ischanged := Entry(fds, fd).ischanged;
      fds := fds[fd := Entry(fds, fd).(ischanged := true)];
      if !ischanged {
        fdchanges := fdchanges + [fd];
      }
    }

    /** Consistency after one descriptor's list has changed and been noted, given what its new list is. */
    twostate lemma ListChanged(w: Watcher)
      requires old(FdsAgree()) && w in ios
      requires watchers == old(watchers) && ios == old(ios)
      requires kernel == old(kernel) && visited == old(visited) && midway == old(midway)
      requires forall v :: v in ios ==> v.fd == old(v.fd) && v.events == old(v.events)
      requires forall v :: v in ios && v != w ==> v.active == old(v.active)
      requires fds == old(fds)[w.fd := Changed(old(Entry(fds, w.fd)), Entry(fds, w.fd).head)]
      requires fdchanges == Noted(old(fdchanges), old(Entry(fds, w.fd)), w.fd)
      requires Distinct(Entry(fds, w.fd).head) && w.active <= 1
      requires forall v :: v in Entry(fds, w.fd).head <==>
                 (v in old(Entry(fds, w.fd)).head && v != w) || (v == w && w.active == 1)
      ensures FdsAgree()
    {
      ListsAfterChange(w);
      ChangeNoted(w.fd);
      MasksKept();
      forall g | g !in midway ensures KernelAgrees(fds, kernel, g) && Registered(fds, kernel, g) {
        assert old(KernelAgrees(fds, kernel, g) && Registered(fds, kernel, g));
      }
    }

    twostate lemma ListsAfterChange(w: Watcher)
      requires old(ListsAgree()) && w in ios
      requires watchers == old(watchers) && ios == old(ios)
      requires forall v :: v in ios ==> v.fd == old(v.fd)
      requires forall v :: v in ios && v != w ==> v.active == old(v.active)
      requires fds == old(fds)[w.fd := Changed(old(Entry(fds, w.fd)), Entry(fds, w.fd).head)]
      requires Distinct(Entry(fds, w.fd).head) && w.active <= 1
      requires forall v :: v in Entry(fds, w.fd).head <==>
                 (v in old(Entry(fds, w.fd)).head && v != w) || (v == w && w.active == 1)
      ensures ListsAgree()
    {
      assert old(w.fd in fds ==> ListOk(w.fd));
      forall g | g in fds ensures ListOk(g) {
        if g != w.fd {
          assert old(ListOk(g));
        }
      }
    }

    twostate lemma ChangeNoted(fd: nat)
      requires old(ChangesAgree()) && visited == old(visited)
      requires fds == old(fds)[fd := Changed(old(Entry(fds, fd)), Entry(fds, fd).head)]
      requires fdchanges == Noted(old(fdchanges), old(Entry(fds, fd)), fd)
      ensures ChangesAgree()
    {
      if !old(Entry(fds, fd)).ischanged {
        assert fdchanges[visited..] == old(fdchanges)[visited..] + [fd];
        assert fd !in old(fdchanges)[visited..];
      }
    }

    /** Masks of descriptors whose flag is still clear. */
    twostate lemma MasksKept()
      requires old(ListsAgree() && MasksAgree()) && ListsAgree()
      requires ios == old(ios) && forall v :: v in ios ==> v.events == old(v.events)
      requires forall g :: g in fds && !fds[g].ischanged ==>
                 && g in old(fds) && !old(fds)[g].ischanged
                 && fds[g].head == old(fds)[g].head && fds[g].events == old(fds)[g].events
      ensures MasksAgree()
    {
      forall g | g in fds && !fds[g].ischanged ensures MaskOk(g) {
        assert old(MaskOk(g));
        assert old(ListOk(g));
        SameInterest(fds[g].head);
      }
    }

    twostate lemma {:induction false} SameInterest(ws: seq<Watcher>)
      requires forall w :: w in ws ==> old(allocated(w)) && w.events == old(w.events)
      ensures Interest(ws) == old(Interest(ws))
    {
      if ws != [] {
        SameInterest(ws[..|ws| - 1]);
      }
    }

    twostate predicate OnlyMoved(w: Watcher)
      reads this, ios`fd, ios`events, ios`active
    {
      && w in ios && watchers == old(watchers) && ios == old(ios)
      && kernel == old(kernel) && visited == old(visited) && midway == old(midway)
      && (forall v :: v in ios ==> v.fd == old(v.fd) && v.events == old(v.events))
      && (forall v :: v in ios && v != w ==> v.active == old(v.active))
      && fdchanges == Noted(old(fdchanges), old(Entry(fds, w.fd)), w.fd)
    }

    /** watcher_list_add, with the bookkeeping around it, keeps the loop consistent. */
    twostate lemma Linked(w: Watcher)
      requires old(FdsAgree()) && OnlyMoved(w)
      requires old(w.active) == 0 && w.active == 1
      requires fds == old(fds)[w.fd := Changed(old(Entry(fds, w.fd)), [w] + old(Entry(fds, w.fd)).head)]
      ensures FdsAgree()
    {
      assert old(w.fd in fds ==> ListOk(w.fd));
      assert w !in old(Entry(fds, w.fd)).head;
      ListChanged(w);
    }

    /** So does watcher_list_del. */
    twostate lemma Unlinked(w: Watcher)
      requires old(FdsAgree()) && OnlyMoved(w)
      requires old(w.active) == 1 && w.active == 0
      requires fds == old(fds)[w.fd := Changed(old(Entry(fds, w.fd)), Without(old(Entry(fds, w.fd)).head, w))]
      ensures FdsAgree() && w !in Entry(fds, w.fd).head
    {
      assert old(w.fd in fds ==> ListOk(w.fd));
      WithoutRemoves(old(Entry(fds, w.fd)).head, w);
      ListChanged(w);
    }

    lemma ActiveOnce(w: Watcher)
      requires FdsAgree() && w in ios
      ensures w in watchers && w.active <= 1
    {
    }

    method IoWatcherStart(w: Watcher)
      requires Valid() && w in ios
      modifies this`fds, this`fdchanges, this`activecnt, w`active
      ensures Valid() && w.active == 1
      ensures old(w.active) != 0 ==>
                fds == old(fds) && fdchanges == old(fdchanges) && activecnt == old(activecnt)
      ensures old(w.active) == 0 ==>
                && fds == old(fds)[w.fd := Changed(old(Entry(fds, w.fd)), [w] + old(Entry(fds, w.fd)).head)]
                && fdchanges == Noted(old(fdchanges), old(Entry(fds, w.fd)), w.fd)
                && activecnt == old(activecnt) + 1
    {
      hide Changed, Entry, FdsAgree, Noted, PendingsAgree;
      ActiveOnce(w);
      if w.active != 0 {
        return;
      }
      Enlist(w);
    }

    /** watcher_enable, watcher_list_add and fd_change. */
    method Enlist(w: Watcher)
      requires FdsAgree() && w in ios && w.active == 0
      modifies this`fds, this`fdchanges, this`activecnt, w`active
      ensures FdsAgree() && w.active == 1
      ensures fds == old(fds)[w.fd := Changed(old(Entry(fds, w.fd)), [w] + old(Entry(fds, w.fd)).head)]
      ensures fdchanges == Noted(old(fdchanges), old(Entry(fds, w.fd)), w.fd)
      ensures activecnt == old(activecnt) + 1
    {
      hide Entry, FdsAgree, Noted;
      w.active := 1;
      activecnt := activecnt + 1;
      LinkAndNote(w.fd, [w] + Entry(fds, w.fd).head);
      Linked(w);
    }

    /** Gives a descriptor a new watcher list and notes the change. */
    method LinkAndNote(fd: nat, head: seq<Watcher>)
      modifies this`fds, this`fdchanges
      ensures fds == old(fds)[fd := Changed(old(Entry(fds, fd)), head)]
      ensures fdchanges == Noted(old(fdchanges), old(Entry(fds, fd)), fd)
    {
      fds := fds[fd := Entry(fds, fd).(head := head)];
      FdChange(fd);
    }

    method IoWatcherStop(w: Watcher)
      requires Consistent() && w in ios
      modifies this`fds, this`fdchanges, this`activecnt, this`pendings, this`trace, w`active, w`pending
      ensures Consistent() && w.active == 0 && w.pending == 0 && trace == old(trace) + [Cleared(w)]
      ensures old(w.active) == 0 ==>
                fds == old(fds) && fdchanges == old(fdchanges) && activecnt == old(activecnt)
      ensures old(w.active) == 1 ==>
                && fds == old(fds)[w.fd := Changed(old(Entry(fds, w.fd)), Without(old(Entry(fds, w.fd)).head, w))]
                && fdchanges == Noted(old(fdchanges), old(Entry(fds, w.fd)), w.fd)
                && activecnt == old(activecnt) - 1
    {
      hide Changed, ClearedArray, Entry, FdsAgree, Noted, PendingsAgree, Without;
      ActiveOnce(w);
      ClearPending(w);
      if w.active == 0 {
        return;
      }
      Delist(w);
    }

    /** watcher_list_del, watcher_disable and fd_change. */
    method Delist(w: Watcher)
      requires FdsAgree() && w in ios && w.active == 1
      modifies this`fds, this`fdchanges, this`activecnt, w`active
      ensures FdsAgree() && w.active == 0
      ensures fds == old(fds)[w.fd := Changed(old(Entry(fds, w.fd)), Without(old(Entry(fds, w.fd)).head, w))]
      ensures fdchanges == Noted(old(fdchanges), old(Entry(fds, w.fd)), w.fd)
      ensures activecnt == old(activecnt) - 1
    {
      hide Entry, FdsAgree, Noted, Without;
      LinkAndNote(w.fd, Without(Entry(fds, w.fd).head, w));
      w.active := 0;
      activecnt := activecnt - 1;
      Unlinked(w);
    }

    /** close(fd), which ends the registration. The loop stays consistent exactly if nobody wants events of the
        descriptor, as when nobody watches it, or a change to it has yet to be told to the kernel. */
    method CloseFd(fd: nat)
      requires Consistent()
      modifies this`kernel
      ensures kernel == old(kernel) - {fd}
      ensures Closable(fds, fd) ==> Consistent() && KernelAgrees(fds, kernel, fd) && Registered(fds, kernel, fd)
      ensures fd !in midway ==> (Consistent() <==> Closable(fds, fd))
    {
      hide Closable, Entry, FdsAgree, KernelAgrees, PendingsAgree, Registered;
      kernel := kernel - {fd};
      if Closable(fds, fd) {
        Closed(fd);
      } else {
        ClosedTooEarly(fd);
      }
    }

    lemma ClosedTooEarly(fd: nat)
      requires !Closable(fds, fd) && fd !in kernel
      ensures fd !in midway ==> !FdsAgree()
    {
      assert !Registered(fds, kernel, fd);
    }

    lemma NobodyWants(fd: nat)
      requires FdsAgree() && Entry(fds, fd).head == []
      ensures Closable(fds, fd)
    {
      assert fd in fds && !fds[fd].ischanged ==> MaskOk(fd);
    }

    /** Stops every watcher of a descriptor that has become invalid, feeds each of them EV_ERROR, and closes it, which
        ends its registration. */
    method KillFd(fd: nat)
      requires Consistent()
      modifies this`fds, this`fdchanges, this`activecnt, this`pendings, this`trace, this`kernel, ios`active, ios`pending
      ensures Consistent() && KernelAgrees(fds, kernel, fd) && Registered(fds, kernel, fd)
      ensures kernel == old(kernel) - {fd}
      ensures KillChanges(fd) && trace == old(trace) + KillEvents(old(Entry(fds, fd)).head)
      ensures forall w :: w in ios ==> KeptOrKilled(w) && w.active == if w.fd == fd then 0 else old(w.active)
      ensures activecnt == old(activecnt) - |old(Entry(fds, fd)).head|
    {
      hide Closable, Entry, FdsAgree, KeptOrKilled, KernelAgrees, KillChanges, KillEvents, PendingsAgree, Registered;
      StopAll(fd);
      OnlyItsOwn(fd);
      NobodyWants(fd);
      CloseFd(fd);
    }

    /** The loop of kill_fd. */
    method StopAll(fd: nat)
      requires Consistent()
      modifies this`fds, this`fdchanges, this`activecnt, this`pendings, this`trace, ios`active, ios`pending
      ensures Consistent() && KillChanges(fd) && trace == old(trace) + KillEvents(old(Entry(fds, fd)).head)
      ensures forall w :: w in ios ==> KeptOrKilled(w)
      ensures activecnt == old(activecnt) - |old(Entry(fds, fd)).head|
    {
      hide FdsAgree, PendingsAgree, AfterStops, KillEvents, Noted;
      ghost var k := 0;
      ghost var fds0, changes0 := fds, fdchanges;
      AfterNoStop(fds, fdchanges, fd);
      while Entry(fds, fd).head != []
        invariant Consistent() && AfterStops(fds0, changes0, fd, k, fds, fdchanges)
        invariant trace + KillEvents(Entry(fds, fd).head) == old(trace) + KillEvents(old(Entry(fds, fd)).head)
        invariant activecnt == old(activecnt) - k
        invariant forall w :: w in ios ==> KeptOrKilled(w)
        decreases |Entry(fds0, fd).head| - k
      {
        var iow := Entry(fds, fd).head[0];
        FirstIsActive(fd);
        AfterOneMore(fds0, changes0, fd, k, fds, fdchanges);
        KillFirst(trace, Entry(fds, fd).head);
        KillOne(fd, iow);
        k := k + 1;
      }
      KillNobody(trace);
      AfterAllStops(fds0, changes0, fd, k, fds, fdchanges);
    }

    /** A watcher that is as it was, or has been stopped and told so. */
    twostate predicate KeptOrKilled(w: Watcher)
      reads w
    {
      if w.active == old(w.active) then w.pending == old(w.pending)
      else w.active < old(w.active) && w.pending > 0
    }

    lemma FirstIsActive(fd: nat)
      requires FdsAgree() && Entry(fds, fd).head != []
      ensures ios <= watchers && Entry(fds, fd).head[0] in ios
      ensures Entry(fds, fd).head[0].active == 1 && Entry(fds, fd).head[0].fd == fd
      ensures Without(Entry(fds, fd).head, Entry(fds, fd).head[0]) == Entry(fds, fd).head[1..]
    {
    }

    /** close(fd): nothing else refers to the registration. */
    twostate lemma Closed(fd: nat)
      requires old(FdsAgree()) && Closable(fds, fd)
      requires watchers == old(watchers) && ios == old(ios) && kernel == old(kernel) - {fd}
      requires visited == old(visited) && midway == old(midway) && fds == old(fds) && fdchanges == old(fdchanges)
      requires forall v :: v in ios ==> v.fd == old(v.fd) && v.events == old(v.events) && v.active == old(v.active)
      ensures FdsAgree() && KernelAgrees(fds, kernel, fd) && Registered(fds, kernel, fd)
    {
      forall g | g !in midway ensures KernelAgrees(fds, kernel, g) && Registered(fds, kernel, g) {
        assert old(KernelAgrees(fds, kernel, g)) && old(Registered(fds, kernel, g));
        assert g in fds && !fds[g].ischanged ==> MaskOk(g);
      }
      assert fd in fds && !fds[fd].ischanged ==> MaskOk(fd);
    }

    /** What kill_fd does to the descriptor table. */
    twostate predicate KillChanges(fd: nat)
      reads this`fds, this`fdchanges
    {
      if old(Entry(fds, fd)).head == [] then fds == old(fds) && fdchanges == old(fdchanges)
      else fds == old(fds)[fd := Changed(old(Entry(fds, fd)), [])]
           && fdchanges == Noted(old(fdchanges), old(Entry(fds, fd)), fd)
    }

    /** One turn of kill_fd's loop. */
    method KillOne(fd: nat, iow: Watcher)
      requires Consistent() && Entry(fds, fd).head != [] && iow == Entry(fds, fd).head[0]
      modifies this`fds, this`fdchanges, this`activecnt, this`pendings, this`trace, iow`active, iow`pending
      ensures Consistent() && iow.active == 0 && iow.pending > 0
      ensures trace == (old(trace) + [Cleared(iow)]) + [Fed(iow, EV_ERROR)]
      ensures var f := old(Entry(fds, fd));
              && |f.head| > 0
              && fds == old(fds)[fd := Changed(f, f.head[1..])]
              && fdchanges == Noted(old(fdchanges), f, fd)
      ensures activecnt == old(activecnt) - 1
    {
      hide Changed, Entry, FdsAgree, FedArray, Noted, PendingsAgree, Without;
      FirstIsActive(fd);
      IoWatcherStop(iow);
      FeedEvent(iow, EV_ERROR);
    }

    /** Watchers of other descriptors are as they were, those of this one have all been stopped. */
    twostate lemma OnlyItsOwn(fd: nat)
      requires old(FdsAgree()) && FdsAgree() && ios == old(ios) && KillChanges(fd)
      requires forall w :: w in ios ==> w.fd == old(w.fd) && KeptOrKilled(w)
      ensures Entry(fds, fd).head == []
      ensures forall w :: w in ios ==> w.active == if w.fd == fd then 0 else old(w.active)
    {
      forall w | w in ios ensures w.active == if w.fd == fd then 0 else old(w.active) {
        if w.fd != fd && old(w.active) == 1 {
          assert w in Entry(fds, w.fd).head && w.fd in fds && ListOk(w.fd);
        }
      }
    }

    // ---- the kernel's registration table ----------------------------------------------------------------------

    /** epoll_ctl: refuses to add what is registered or to modify what is not, and may refuse anything else. */
    method EpollCtl(op: Ctl, fd: nat, ev: Registration) returns (err: Errno)
      modifies this`kernel, this`refused
      ensures err == EExist <==> op == Add && fd in old(kernel)
      ensures err == ENoEnt <==> op == Mod && fd !in old(kernel)
      ensures kernel == if err == Ok then old(kernel)[fd := ev] else old(kernel)
      ensures refused == old(refused) + if err == EOther then {fd} else {}
    {
      var refuses: bool := *;
      if op == Add && fd in kernel {
        err := EExist;
      } else if op == Mod && fd !in kernel {
        err := ENoEnt;
      } else if refuses {
        err := EOther;
        refused := refused + {fd};
      } else {
        err := Ok;
        kernel := kernel[fd := ev];
      }
    }

    /** backend_modify as far as its calls of epoll_ctl. */
    method TryRegister(fd: nat, oldev: Mask, newev: Mask) returns (done: bool)
      requires newev != {} && KernelAgrees(fds, kernel, fd)
      modifies this`fds, this`kernel, this`refused
      ensures fds == old(fds)[fd := old(Entry(fds, fd)).(previous_evs := newev, tag := Entry(fds, fd).tag)]
      ensures kernel == if done then old(kernel)[fd := Registration(newev, Entry(fds, fd).tag)] else old(kernel)
      ensures Entry(fds, fd).tag == if old(Found(fds, kernel, fd, oldev, newev)) then old(Entry(fds, fd).tag)
                                    else Bumped(old(Entry(fds, fd).tag))
      ensures refused == old(refused) + if done then {} else {fd}
      ensures Entry(fds, fd).tag == old(Entry(fds, fd).tag) <==> old(Found(fds, kernel, fd, oldev, newev))
      ensures !done ==> !old(Found(fds, kernel, fd, oldev, newev))
    {
      BumpedDiffers(Entry(fds, fd).tag);
      var f := Entry(fds, fd);
      var old_previous_evs := f.previous_evs;
      var ev := Registration(newev, Bumped(f.tag));
      fds := fds[fd := f.(previous_evs := newev, tag := ev.tag)];

      var err := EpollCtl(if oldev != {} && newev != oldev then Mod else Add, fd, ev);
      if err == Ok {
        return true;
      }
      if err == ENoEnt {
        err := EpollCtl(Add, fd, ev);
        if err == Ok {
          return true;
        }
      } else if err == EExist {
        if old_previous_evs == newev {
          LoweredAgain(f.tag);
          fds := fds[fd := f.(previous_evs := newev, tag := Lowered(ev.tag))];
          return true;
        }
        err := EpollCtl(Mod, fd, ev);
        if err == Ok {
          return true;
        }
      }
      return false;
    }

    /** Registers what the watchers of a descriptor want, or finds it registered; if the kernel refuses, the descriptor
        is killed. A descriptor nobody wants events of is left as it is. The tag changes exactly with the
        registration. */
    method BackendModify(fd: nat, oldev: Mask, newev: Mask) returns (ghost killed: seq<Watcher>)
      requires Consistent() && fd in midway && KernelAgrees(fds, kernel, fd)
      requires fd in fds && !fds[fd].ischanged && fds[fd].events == newev
      requires newev != {} ==> fd !in refused && fds[fd].head != []
      modifies this`fds, this`fdchanges, this`activecnt, this`pendings, this`trace, this`kernel, this`refused
      modifies ios`active, ios`pending
      ensures Consistent() && KernelAgrees(fds, kernel, fd) && Registered(fds, kernel, fd)
      ensures fd in fds && kernel == if newev == {} then old(kernel)
                                     else if refused != old(refused) then old(kernel) - {fd}
                                     else old(kernel)[fd := Registration(newev, fds[fd].tag)]
      ensures newev == {} ==> refused == old(refused)
      ensures refused == old(refused) ==> fdchanges == old(fdchanges) && Busy(fds) == old(Busy(fds))
      ensures refused != old(refused) ==>
                refused == old(refused) + {fd} && fd in old(Busy(fds)) && Busy(fds) == old(Busy(fds)) - {fd}
      ensures fds[fd].tag ==
              if newev == {} || refused != old(refused) || old(Found(fds, kernel, fd, oldev, newev))
              then old(fds)[fd].tag
              else Bumped(old(fds)[fd].tag)
      ensures fds[fd].tag != old(fds)[fd].tag <==>
                newev != {} && refused == old(refused) && !old(Found(fds, kernel, fd, oldev, newev))
      ensures forall w :: w in ios ==>
                KeptOrKilled(w) && w.active == if refused != old(refused) && w.fd == fd then 0 else old(w.active)
      ensures trace == old(trace) + KillEvents(killed)
      ensures killed == if refused != old(refused) then old(fds)[fd].head else []
    {
      hide Busy, Bumped, FdsAgree, Found, KernelAgrees, KillEvents, Lowered, PendingsAgree;
      killed := [];
      KillNobody(trace);
      if newev == {} {
        return;
      }
      IsBusy(fds, fd);
      LoweredAgain(fds[fd].tag);
      BumpedDiffers(fds[fd].tag);
      var done := Register(fd, oldev, newev);
      if !done {
        killed := fds[fd].head;
        Drop(fd);
      }
    }

    method Register(fd: nat, oldev: Mask, newev: Mask) returns (done: bool)
      requires FdsAgree() && fd in midway && KernelAgrees(fds, kernel, fd)
      requires fd in fds && !fds[fd].ischanged && fds[fd].events == newev != {}
      modifies this`fds, this`kernel, this`refused
      ensures FdsAgree() && Busy(fds) == old(Busy(fds)) && fd in fds && fds[fd].head == old(fds)[fd].head
      ensures fds[fd].tag == if old(Found(fds, kernel, fd, oldev, newev)) then old(fds)[fd].tag
                             else Bumped(old(fds)[fd].tag)
      ensures !done ==> !old(Found(fds, kernel, fd, oldev, newev))
      ensures done ==> KernelAgrees(fds, kernel, fd) && Registered(fds, kernel, fd)
      ensures kernel == if done then old(kernel)[fd := Registration(newev, fds[fd].tag)] else old(kernel)
      ensures refused == old(refused) + if done then {} else {fd}
    {
      hide Bumped, Busy, FdsAgree, Found;
      done := TryRegister(fd, oldev, newev);
      OnlyMidway(fd);
    }

    /** The end of backend_modify, for an invalid descriptor. */
    method Drop(fd: nat)
      requires Consistent() && fd in midway && fd in fds && fds[fd].head != []
      modifies this`fds, this`fdchanges, this`activecnt, this`pendings, this`trace, this`kernel, ios`active, ios`pending
      ensures Consistent() && KernelAgrees(fds, kernel, fd) && Registered(fds, kernel, fd)
      ensures Busy(fds) == old(Busy(fds)) - {fd} && fd in fds && fds[fd].tag == Lowered(old(fds)[fd].tag)
      ensures kernel == old(kernel) - {fd} && trace == old(trace) + KillEvents(old(fds)[fd].head)
      ensures forall w :: w in ios ==> KeptOrKilled(w) && w.active == if w.fd == fd then 0 else old(w.active)
    {
      hide Busy, FdsAgree, KeptOrKilled, KernelAgrees, KillChanges, KillEvents, Lowered, PendingsAgree, Registered;
      KillFd(fd);
      NoLongerBusy(fd);
      LowerTag(fd);
    }

    method LowerTag(fd: nat)
      requires FdsAgree() && fd in midway && fd in fds && fd !in kernel && Registered(fds, kernel, fd)
      modifies this`fds
      ensures FdsAgree() && KernelAgrees(fds, kernel, fd) && Registered(fds, kernel, fd) && Busy(fds) == old(Busy(fds))
      ensures fd in fds && fds[fd].tag == Lowered(old(fds)[fd].tag)
    {
      fds := fds[fd := fds[fd].(tag := Lowered(fds[fd].tag))];
      OnlyMidway(fd);
    }

    twostate lemma NoLongerBusy(fd: nat)
      requires old(fd in fds && fds[fd].head != []) && KillChanges(fd)
      ensures fd in fds && Busy(fds) == old(Busy(fds)) - {fd} && fds[fd].tag == old(fds)[fd].tag
    {
    }

    /** What happens to a descriptor's registration while it is being changed concerns nothing else. */
    twostate lemma OnlyMidway(fd: nat)
      requires old(FdsAgree()) && fd in midway && midway == old(midway) && fd in old(fds)
      requires watchers == old(watchers) && ios == old(ios) && visited == old(visited) && fdchanges == old(fdchanges)
      requires forall v :: v in ios ==> v.fd == old(v.fd) && v.events == old(v.events) && v.active == old(v.active)
      requires forall g :: g != fd ==> (g in kernel <==> g in old(kernel))
      requires forall g :: g != fd && g in kernel && g in old(kernel) ==> kernel[g] == old(kernel)[g]
      requires var f := Entry(fds, fd);
               fds == old(fds)[fd := old(fds[fd]).(previous_evs := f.previous_evs, tag := f.tag)]
      ensures FdsAgree() && Busy(fds) == old(Busy(fds))
    {
      assert forall g :: g in fds ==>
               && g in old(fds) && fds[g].head == old(fds)[g].head
               && fds[g].events == old(fds)[g].events && fds[g].ischanged == old(fds)[g].ischanged;
      ListsAndChangesKept();
      MasksKept();
      forall g | g !in midway ensures KernelAgrees(fds, kernel, g) && Registered(fds, kernel, g) {
        assert old(KernelAgrees(fds, kernel, g) && Registered(fds, kernel, g));
      }
    }

    twostate lemma ListsAndChangesKept()
      requires old(ListsAgree() && ChangesAgree())
      requires watchers == old(watchers) && ios == old(ios) && visited == old(visited) && fdchanges == old(fdchanges)
      requires forall v :: v in ios ==> v.fd == old(v.fd) && v.active == old(v.active)
      requires fds.Keys == old(fds).Keys
      requires forall g :: g in fds && g in old(fds) ==>
                 fds[g].head == old(fds)[g].head && fds[g].ischanged == old(fds)[g].ischanged
      ensures ListsAgree() && ChangesAgree() && Busy(fds) == old(Busy(fds))
    {
      forall g | g in fds ensures ListOk(g) {
        assert old(ListOk(g));
      }
      ghost var left := fdchanges[visited..];
      assert forall g :: g in left ==> g in old(fds) && old(fds)[g].ischanged;
    }

    // ---- update_fd --------------------------------------------------------------------------------------------

    ghost function Wishes(): map<Watcher, Wish>
      reads this`ios, ios`active, ios`fd, ios`events
    {
      map w | w in ios && w.active == 1 :: Wish(w.fd, w.events)
    }

    twostate lemma WishesLeft(lost: set<nat>)
      requires old(FdsAgree()) && ios == old(ios)
      requires forall w :: w in ios ==>
                 && w.fd == old(w.fd) && w.events == old(w.events)
                 && w.active == if w.fd in lost then 0 else old(w.active)
      ensures Wishes() == Less(old(Wishes()), lost)
    {
    }

    lemma HeadIsListed(fd: nat)
      requires FdsAgree()
      ensures Lists(Entry(fds, fd).head, Wishes(), {fd})
    {
      assert fd in fds ==> ListOk(fd);
    }

    /** The loop over a watcher list in update_fd. */
    method EventsOf(head: seq<Watcher>) returns (events: Mask)
      ensures events == Interest(head)
    {
      events := {};
      var k := 0;
      while k < |head|
        invariant 0 <= k <= |head|
        invariant events == Interest(head[..k])
      {
        assert head[..k + 1][..k] == head[..k];
        events := events + head[k].events;
        k := k + 1;
      }
      assert head[..k] == head;
    }

    /** The descriptor at which update_fd is now is no longer flagged, and its mask is what its watchers want. */
    twostate lemma Visited(fd: nat)
      requires old(FdsAgree() && visited < |fdchanges| && fdchanges[visited] == fd && midway == {})
      requires watchers == old(watchers) && ios == old(ios) && kernel == old(kernel) && fdchanges == old(fdchanges)
      requires forall v :: v in ios ==> v.fd == old(v.fd) && v.events == old(v.events) && v.active == old(v.active)
      requires visited == old(visited) + 1 && midway == {fd}
      requires fds == old(fds)[fd := old(Entry(fds, fd)).(ischanged := false, events := Interest(Entry(fds, fd).head))]
      ensures fd in old(fds) && old(fds)[fd].ischanged && FdsAgree()
      ensures KernelAgrees(fds, kernel, fd) && Busy(fds) == old(Busy(fds))
    {
      VisitedChanges(fd);
      assert forall g :: g in fds ==> g in old(fds) && fds[g].head == old(fds)[g].head;
      assert ListsAgree() by {
        forall g | g in fds ensures ListOk(g) {
          assert old(ListOk(g));
        }
      }
      assert KernelAgrees(fds, kernel, fd) by {
        assert old(KernelAgrees(fds, kernel, fd));
      }
      VisitedMasks(fd);
      forall g | g !in midway ensures KernelAgrees(fds, kernel, g) && Registered(fds, kernel, g) {
        assert old(KernelAgrees(fds, kernel, g) && Registered(fds, kernel, g));
      }
    }

    twostate lemma VisitedChanges(fd: nat)
      requires old(ChangesAgree() && visited < |fdchanges| && fdchanges[visited] == fd)
      requires fdchanges == old(fdchanges) && visited == old(visited) + 1
      requires fds == old(fds)[fd := Entry(fds, fd)] && !Entry(fds, fd).ischanged
      ensures ChangesAgree() && fd in old(fds) && old(fds)[fd].ischanged
    {
      ghost var left := old(fdchanges)[old(visited)..];
      assert left[0] == fd && fd in left && left[1..] == fdchanges[visited..];
      assert fd !in left[1..];
      assert forall g :: g in left <==> g == fd || g in left[1..];
    }

    twostate lemma VisitedMasks(fd: nat)
      requires old(ListsAgree() && MasksAgree()) && ListsAgree() && ios == old(ios)
      requires forall v :: v in ios ==> v.events == old(v.events)
      requires fds == old(fds)[fd := Entry(fds, fd)] && Entry(fds, fd).events == Interest(Entry(fds, fd).head)
      ensures MasksAgree()
    {
      forall g | g in fds && !fds[g].ischanged ensures MaskOk(g) {
        if g != fd {
          assert old(MaskOk(g)) && old(ListOk(g));
          SameInterest(fds[g].head);
        }
      }
    }

    /** The first half of a turn of update_fd: clears the flag and computes the mask anew. */
    method Recompute(fd: nat)
      requires FdsAgree() && midway == {} && visited < |fdchanges| && fdchanges[visited] == fd
      modifies this`fds, this`visited, this`midway
      ensures FdsAgree() && KernelAgrees(fds, kernel, fd) && visited == old(visited) + 1 && midway == {fd}
      ensures Busy(fds) == old(Busy(fds)) && fd in old(fds) && old(fds)[fd].ischanged
      ensures fd in fds && fds[fd] == old(Entry(fds, fd)).(ischanged := false, events := Entry(fds, fd).events)
      ensures fds[fd].head == [] ==> fds[fd].events == {}
    {
      hide Busy, FdsAgree, KernelAgrees;
      var events := EventsOf(Entry(fds, fd).head);
      fds := fds[fd := Entry(fds, fd).(ischanged := false, events := events)];
      visited, midway := visited + 1, {fd};
      Visited(fd);
    }

    /** The second half: tells the kernel. */
    method Tell(fd: nat, oldev: Mask, ischanged: bool) returns (ghost killed: seq<Watcher>)
      requires Consistent() && midway == {fd} && KernelAgrees(fds, kernel, fd) && ischanged
      requires refused !! Busy(fds) && refused !! kernel.Keys
      requires fd in fds && !fds[fd].ischanged && (fds[fd].head == [] ==> fds[fd].events == {})
      modifies this`fds, this`fdchanges, this`activecnt, this`pendings, this`trace, this`kernel, this`refused
      modifies this`midway, ios`active, ios`pending
      ensures Consistent() && midway == {}
      ensures Busy(fds) < old(Busy(fds)) || (Busy(fds) == old(Busy(fds)) && fdchanges == old(fdchanges))
      ensures old(refused) <= refused && refused !! Busy(fds) && refused !! kernel.Keys
      ensures trace == old(trace) + KillEvents(killed) && Lists(killed, old(Wishes()), refused - old(refused))
      ensures forall w :: w in ios ==>
                KeptOrKilled(w) && w.active == if w.fd in refused - old(refused) then 0 else old(w.active)
    {
      hide FdsAgree, KernelAgrees, KillEvents, Lists, PendingsAgree, Registered, Wishes;
      killed := [];
      KillNobody(trace);
      NobodyListed(Wishes());
      HeadIsListed(fd);
      var changed := ischanged || oldev != Entry(fds, fd).events;
      ghost var refused0 := refused;
      assert Entry(fds, fd).events != {} ==> fd in Busy(fds) && fd !in refused;
      if changed {
        killed := BackendModify(fd, oldev, Entry(fds, fd).events);
        assert kernel.Keys <= old(kernel).Keys + {fd} && (refused != refused0 ==> fd !in kernel);
        assert fd in refused0 ==> kernel == old(kernel);
        assert refused - refused0 == if refused != refused0 then {fd} else {};
      }
      label told:
      midway := {};
      Settled@told(fd);
    }

    twostate lemma Settled(fd: nat)
      requires old(FdsAgree() && midway == {fd} && KernelAgrees(fds, kernel, fd) && Registered(fds, kernel, fd))
      requires watchers == old(watchers) && ios == old(ios) && kernel == old(kernel) && fdchanges == old(fdchanges)
      requires midway == {} && visited == old(visited) && fds == old(fds)
      requires forall v :: v in ios ==> v.fd == old(v.fd) && v.events == old(v.events) && v.active == old(v.active)
      ensures FdsAgree()
    {
    }

    /** One turn of update_fd. */
    method UpdateNext(fd: nat) returns (ghost killed: seq<Watcher>)
      requires Consistent() && midway == {} && visited < |fdchanges| && fdchanges[visited] == fd
      requires refused !! Busy(fds) && refused !! kernel.Keys
      modifies this`fds, this`fdchanges, this`activecnt, this`pendings, this`trace, this`kernel, this`refused
      modifies this`visited, this`midway, ios`active, ios`pending
      ensures Consistent() && midway == {} && visited == old(visited) + 1 <= |fdchanges|
      ensures Busy(fds) < old(Busy(fds)) || (Busy(fds) == old(Busy(fds)) && fdchanges == old(fdchanges))
      ensures old(refused) <= refused && refused !! Busy(fds) && refused !! kernel.Keys
      ensures trace == old(trace) + KillEvents(killed) && Lists(killed, old(Wishes()), refused - old(refused))
      ensures forall w :: w in ios ==>
                KeptOrKilled(w) && w.active == if w.fd in refused - old(refused) then 0 else old(w.active)
    {
      hide Busy, FdsAgree, KernelAgrees, KillEvents, Lists, PendingsAgree, Wishes;
      var f := Entry(fds, fd);
      Recompute(fd);
      killed := Tell(fd, f.events, f.ischanged);
      VisitedSome();
    }

    lemma VisitedSome()
      requires FdsAgree()
      ensures visited <= |fdchanges|
    {
    }

    /** The loop of update_fd. The array it walks may grow on the way, by the descriptors it kills, but then fewer
        descriptors have watchers. */
    method WalkChanges() returns (ghost killed: seq<Watcher>)
      requires Valid() && refused == {}
      modifies this`fds, this`fdchanges, this`activecnt, this`pendings, this`trace, this`kernel, this`refused
      modifies this`visited, this`midway, ios`active, ios`pending
      ensures Consistent() && midway == {} && visited == |fdchanges| && refused !! kernel.Keys
      ensures trace == old(trace) + KillEvents(killed) && Lists(killed, old(Wishes()), refused)
      ensures forall w :: w in ios ==> KeptOrKilled(w) && w.active == if w.fd in refused then 0 else old(w.active)
    {
      hide Busy, FdsAgree, KillEvents, Lists, PendingsAgree, Wishes;
      var i := 0;
      killed := [];
      KillNobody(trace);
      NobodyListed(Wishes());
      while i < |fdchanges|
        invariant Consistent() && midway == {} && visited == i <= |fdchanges|
        invariant refused !! Busy(fds) && refused !! kernel.Keys
        invariant trace == old(trace) + KillEvents(killed) && Lists(killed, old(Wishes()), refused)
        invariant forall w :: w in ios ==> KeptOrKilled(w) && w.active == if w.fd in refused then 0 else old(w.active)
        decreases Busy(fds), |fdchanges| - i
      {
        ghost var refused0, wishes := refused, Wishes();
        WishesLeft(refused);
        ghost var more := UpdateNext(fdchanges[i]);
        KillBoth(old(trace), killed, more);
        ListsBoth(killed, old(Wishes()), refused0, more, wishes, refused - refused0);
        assert refused0 + (refused - refused0) == refused;
        killed := killed + more;
        i := i + 1;
      }
    }

    /** Brings cached masks and kernel up to date with the watcher lists. Only descriptors that the kernel refused lose
        watchers, namely all they have, and each of those learns of it; and such a descriptor is no longer
        registered. */
    method UpdateFd() returns (ghost killed: seq<Watcher>)
      requires Valid()
      modifies this`fds, this`fdchanges, this`activecnt, this`pendings, this`trace, this`kernel, this`refused
      modifies this`visited, this`midway, ios`active, ios`pending
      ensures Valid() && fdchanges == []
      ensures forall fd :: fd in fds ==>
                && !fds[fd].ischanged && fds[fd].events == Interest(fds[fd].head)
                && (fds[fd].events != {} ==> fd in kernel && kernel[fd].events == fds[fd].events)
      ensures forall w :: w in ios ==> KeptOrKilled(w) && w.active == if w.fd in refused then 0 else old(w.active)
      ensures forall fd :: fd in refused ==> fd !in kernel
      ensures trace == old(trace) + KillEvents(killed) && Lists(killed, old(Wishes()), refused)
      ensures Wishes() == Less(old(Wishes()), refused)
      ensures UpToDate(fds, kernel, refused, Wishes())
      ensures forall fd: nat, e: Bit :: e in Entry(fds, fd).events <==>
                exists w :: w in ios && w.active == 1 && w.fd == fd && e in w.events
    {
      hide FdsAgree, Interest, KillEvents, Lists, PendingsAgree, Wishes;
      refused := {};
      killed := WalkChanges();
      label walked:
      fdchanges := [];
      visited := 0;
      AllVisited@walked();
      WishesLeft(refused);
      AllToldTheKernel();
      WishesAre();
    }

    lemma WishesAre()
      ensures forall fd: nat, e: Bit :: Wants(Wishes(), fd, e) <==>
                exists w :: w in ios && w.active == 1 && w.fd == fd && e in w.events
    {
      forall fd: nat, e: Bit
        ensures Wants(Wishes(), fd, e) <==> exists w :: w in ios && w.active == 1 && w.fd == fd && e in w.events
      {
        if w :| w in ios && w.active == 1 && w.fd == fd && e in w.events {
          assert Wishes()[w] == Wish(fd, w.events);
        }
      }
    }

    /** Where no flag is set, what is registered is what the active watchers want. */
    lemma AllToldTheKernel()
      requires Valid() && refused !! kernel.Keys
      requires forall fd :: fd in fds ==>
                 && !fds[fd].ischanged && fds[fd].events == Interest(fds[fd].head)
                 && (fds[fd].events != {} ==> fd in kernel && kernel[fd].events == fds[fd].events)
      ensures UpToDate(fds, kernel, refused, Wishes())
    {
      forall fd: nat, e: Bit ensures e in Entry(fds, fd).events <==> Wants(Wishes(), fd, e) {
        HeadWants(fd, e);
      }
    }

    lemma HeadWants(fd: nat, e: Bit)
      requires ListsAgree()
      ensures e in Interest(Entry(fds, fd).head) <==> Wants(Wishes(), fd, e)
    {
      var head := Entry(fds, fd).head;
      InterestIs(head, e);
      assert fd in fds ==> ListOk(fd);
      if k :| 0 <= k < |head| && e in head[k].events {
        assert head[k] in head;
        assert Wishes()[head[k]] == Wish(fd, head[k].events);
      }
      if w :| w in Wishes() && Wishes()[w].fd == fd && e in Wishes()[w].events {
        assert w in head;
      }
    }

    twostate lemma AllVisited()
      requires old(FdsAgree() && midway == {} && visited == |fdchanges|)
      requires watchers == old(watchers) && ios == old(ios) && kernel == old(kernel) && fds == old(fds)
      requires midway == {} && visited == 0 && fdchanges == []
      requires forall v :: v in ios ==> v.fd == old(v.fd) && v.events == old(v.events) && v.active == old(v.active)
      ensures FdsAgree()
      ensures forall fd :: fd in fds ==>
                && !fds[fd].ischanged && fds[fd].events == Interest(fds[fd].head)
                && (fds[fd].events != {} ==> fd in kernel && kernel[fd].events == fds[fd].events)
    {
      assert old(fdchanges[visited..]) == [];
      assert ChangesAgree() && ListsAgree();
      forall fd | fd in fds
        ensures !fds[fd].ischanged && fds[fd].events == Interest(fds[fd].head)
        ensures fds[fd].events != {} ==> fd in kernel && kernel[fd].events == fds[fd].events
      {
        assert MaskOk(fd) && Registered(fds, kernel, fd);
      }
    }

    // ---- entry points -----------------------------------------------------------------------------------------

    /** Sets up a watcher; nothing happens to an active one. It may have been set up before, but then it must not be
        pending, for its entry is forgotten here without being cleared: the loop stays consistent exactly then. */
    method IoWatcherInit(w: Watcher, fd: nat, ev: Mask, pri: int)
      requires Valid() && w != dummy_watcher
      requires if w in watchers then w in ios else w.active == 0
      modifies w`active, w`pending, w`priority, w`fd, w`events, this`watchers, this`ios
      ensures Valid() <==> old(w.active != 0 || w !in watchers || w.pending == 0)
      ensures old(w !in watchers ==> w.pending == 0) ==> (Valid() <==> old(w.active != 0 || w.pending == 0))
      ensures old(w.active) != 0 ==> unchanged(w) && watchers == old(watchers) && ios == old(ios)
      ensures old(w.active) == 0 ==>
                && w.priority == (if pri < 0 then 0 else if pri > NUMPRI - 1 then NUMPRI - 1 else pri)
                && w.fd == fd && w.events == ev && w.active == 0 && w.pending == 0
                && watchers == old(watchers) + {w} && ios == old(ios) + {w}
    {
      hide FdsAgree, PendingsAgree;
      if w.active != 0 {
        return;
      }
      w.priority := if pri < 0 then 0 else if pri > NUMPRI - 1 then NUMPRI - 1 else pri;
      w.active, w.pending := 0, 0;
      w.events, w.fd := ev, fd;
      watchers, ios := watchers + {w}, ios + {w};
      FdsStillAgree(w);
      if old(w in watchers && w.pending > 0) {
        EntryForgotten(w);
      } else {
        PendingsStillAgree(w);
      }
    }

    /** Sets up a timer, with the middle priority, under the same condition. */
    method TimerWatcherInit(w: Watcher, after: real, repeat: real)
      requires Valid() && w != dummy_watcher && w !in ios
      requires w !in watchers ==> w.active == 0
      modifies w`active, w`pending, w`priority, w`at, w`repeat, this`watchers
      ensures Valid() <==> old(w.active != 0 || w !in watchers || w.pending == 0)
      ensures old(w.active) != 0 ==> unchanged(w) && watchers == old(watchers)
      ensures old(w.active) == 0 ==>
                && w.active == 0 && w.pending == 0 && w.priority == NUMPRI / 2
                && w.at == after && w.repeat == repeat && watchers == old(watchers) + {w}
    {
      hide FdsAgree, PendingsAgree;
      if w.active != 0 {
        return;
      }
      w.active, w.pending, w.priority := 0, 0, NUMPRI / 2;
      w.at, w.repeat := after, repeat;
      watchers := watchers + {w};
      MoreWatchers();
      if old(w in watchers && w.pending > 0) {
        EntryForgotten(w);
      } else {
        PendingsStillAgree(w);
      }
    }

    twostate lemma MoreWatchers()
      requires old(FdsAgree()) && old(watchers) <= watchers && ios == old(ios)
      requires fds == old(fds) && fdchanges == old(fdchanges) && kernel == old(kernel)
      requires visited == old(visited) && midway == old(midway)
      requires forall v :: v in ios ==> v.fd == old(v.fd) && v.events == old(v.events) && v.active == old(v.active)
      ensures FdsAgree()
    {
      forall g | g in fds ensures ListOk(g) {
        assert old(ListOk(g));
      }
      MasksKept();
      forall g | g !in midway ensures KernelAgrees(fds, kernel, g) && Registered(fds, kernel, g) {
        assert old(KernelAgrees(fds, kernel, g) && Registered(fds, kernel, g));
      }
    }

    /** A watcher whose descriptor has been killed is inactive and still pending, so setting it up again breaks the
        loop. */
    method KillAndSetUpAgain(w: Watcher, fd: nat, ev: Mask, pri: int)
      requires Valid() && w in ios && w.active == 1
      modifies this, ios`active, ios`pending, w`priority, w`fd, w`events
      ensures !Valid()
    {
      hide FdsAgree, PendingsAgree;
      WatchersOnly(w);
      KillFd(w.fd);
      IoWatcherInit(w, fd, ev, pri);
    }

    lemma WatchersOnly(w: Watcher)
      requires Valid() && w in ios
      ensures w in watchers && w != dummy_watcher
    {
    }

    /** There is such a loop for every descriptor, mask and priority. */
    static method SetUpTwice(fd: nat, ev: Mask, pri: int) returns (loop: EvLoop)
      ensures !loop.Valid()
    {
      loop := new EvLoop();
      var w := new Watcher();
      loop.IoWatcherInit(w, fd, ev, pri);
      loop.IoWatcherStart(w);
      loop.KillAndSetUpAgain(w, fd, ev, pri);
    }

    twostate lemma FdsStillAgree(w: Watcher)
      requires old(FdsAgree()) && old(if w in watchers then w in ios else true) && old(w.active) == 0 == w.active
      requires watchers == old(watchers) + {w} && ios == old(ios) + {w}
      requires fds == old(fds) && fdchanges == old(fdchanges) && kernel == old(kernel)
      requires visited == old(visited) && midway == old(midway)
      requires forall v :: v in ios && v != w ==>
                 v.fd == old(v.fd) && v.events == old(v.events) && v.active == old(v.active)
      ensures FdsAgree()
    {
      assert ListsAgree() by {
        forall g | g in fds ensures ListOk(g) {
          assert old(ListOk(g));
          assert forall v :: v in fds[g].head ==> v != w;
        }
      }
      assert MasksAgree() by {
        forall g | g in fds && !fds[g].ischanged ensures MaskOk(g) {
          assert old(MaskOk(g)) && old(ListOk(g));
          assert forall v :: v in fds[g].head ==> v != w;
          SameInterest(fds[g].head);
        }
      }
      forall g | g !in midway ensures KernelAgrees(fds, kernel, g) && Registered(fds, kernel, g) {
        assert old(KernelAgrees(fds, kernel, g) && Registered(fds, kernel, g));
      }
    }

    twostate lemma EntryForgotten(w: Watcher)
      requires old(PendingsAgree() && w in watchers && w.pending > 0)
      requires w.pending == 0 && pendings == old(pendings)
      ensures !PendingsAgree()
    {
      assert old(WatcherOk(w));
      ghost var p, k := old(w.priority), old(w.pending) - 1;
      assert pendings[p][k].w == w;
      assert !EntryOk(p, k, pendings[p][k].w);
    }

    twostate lemma PendingsStillAgree(w: Watcher)
      requires old(PendingsAgree() && (w in watchers ==> w.pending == 0)) && w != dummy_watcher
      requires w.pending == 0 && w.priority < NUMPRI
      requires watchers == old(watchers) + {w} && pendings == old(pendings) && trace == old(trace)
      requires forall v :: v in watchers && v != w ==> v.pending == old(v.pending) && v.priority == old(v.priority)
      ensures PendingsAgree()
    {
      forall v | v in watchers ensures WatcherOk(v) {
        assert v != w ==> old(WatcherOk(v));
      }
      forall p, k | 0 <= p < NUMPRI && 0 <= k < |pendings[p]| ensures EntryOk(p, k, pendings[p][k].w) {
        assert old(EntryOk(p, k, pendings[p][k].w));
      }
      assert SlotsAgree();
      forall v | v in watchers ensures HeldOk(v) {
        assert v != w ==> old(HeldOk(v));
        assert old(w in watchers ==> HeldOk(w));
      }
    }

    /** Feeds the watchers of a descriptor what they want of an event, unless their wishes have changed meanwhile. */
    method FeedFdEvent(fd: nat, ev: Mask)
      requires Consistent()
      modifies this`pendings, this`trace, ios`pending
      ensures Consistent()
      ensures trace == if Entry(fds, fd).ischanged then old(trace)
                       else old(trace) + old(FeedsOf(Entry(fds, fd).head, ev))
      ensures old(trace) <= trace && (!Entry(fds, fd).ischanged ==> Shares(trace[|old(trace)|..], Wishes(), fd, ev))
      ensures forall v :: v in watchers && old(v.pending) > 0 ==> v.pending == old(v.pending)
    {
      hide Entry, FdsAgree, FeedsOf, PendingsAgree, Shares, Wishes;
      AllAreIos(fd);
      FeedsAreShares(fd, ev);
      if !Entry(fds, fd).ischanged {
        ghost var feeds := FeedsOf(Entry(fds, fd).head, ev);
        FeedList(Entry(fds, fd).head, ev);
        assert trace[|old(trace)|..] == feeds;
      }
    }

    lemma FeedsAreShares(fd: nat, ev: Mask)
      requires FdsAgree()
      ensures Shares(FeedsOf(Entry(fds, fd).head, ev), Wishes(), fd, ev)
    {
      var head := Entry(fds, fd).head;
      assert fd in fds ==> ListOk(fd);
      FeedsAre(head, ev);
      var feeds := FeedsOf(head, ev);
      forall k | 0 <= k < |feeds| ensures feeds[k].w in ios && feeds[k].w.active == 1 && feeds[k].w.fd == fd {
        assert feeds[k].w in head;
      }
      forall w <- Wishes() | Wishes()[w].fd == fd && Wishes()[w].events * ev != {}
        ensures exists k :: 0 <= k < |feeds| && feeds[k].w == w
      {
        var i :| 0 <= i < |head| && head[i] == w;
      }
    }

    static lemma {:induction false} FeedsAre(head: seq<Watcher>, ev: Mask)
      requires Distinct(head)
      ensures var feeds := FeedsOf(head, ev);
              && (forall k :: 0 <= k < |feeds| ==>
                    feeds[k].Fed? && feeds[k].w in head && feeds[k].events == feeds[k].w.events * ev != {})
              && (forall j, k :: 0 <= j < k < |feeds| ==> feeds[j].w != feeds[k].w)
              && (forall i :: 0 <= i < |head| && head[i].events * ev != {} ==>
                    exists k :: 0 <= k < |feeds| && feeds[k].w == head[i])
    {
      if head != [] {
        var n := |head| - 1;
        var rest, w := head[..n], head[n];
        FeedsAre(rest, ev);
        var before, feeds := FeedsOf(rest, ev), FeedsOf(head, ev);
        assert w !in rest;
        forall i | 0 <= i < |head| && head[i].events * ev != {}
          ensures exists k :: 0 <= k < |feeds| && feeds[k].w == head[i]
        {
          if i < n {
            assert rest[i] == head[i];
            var k :| 0 <= k < |before| && before[k].w == rest[i];
            assert feeds[k].w == head[i];
          } else {
            assert feeds[|before|].w == head[i];
          }
        }
      }
    }

    method FeedList(head: seq<Watcher>, ev: Mask)
      requires PendingsAgree() && forall k :: 0 <= k < |head| ==> head[k] in watchers
      modifies this`pendings, this`trace, head`pending
      ensures PendingsAgree() && trace == old(trace) + old(FeedsOf(head, ev))
      ensures forall v :: v in watchers && old(v.pending) > 0 ==> v.pending == old(v.pending)
    {
      hide FedArray, PendingsAgree;
      var k := 0;
      while k < |head|
        invariant 0 <= k <= |head| && PendingsAgree()
        invariant trace == old(trace) + old(FeedsOf(head[..k], ev))
        invariant forall v :: v in watchers && old(v.pending) > 0 ==> v.pending == old(v.pending)
      {
        assert head[..k + 1][..k] == head[..k];
        var evhit := head[k].events * ev;
        if evhit != {} {
          FeedEvent(head[k], evhit);
        }
        k := k + 1;
      }
      assert head[..k] == head;
    }

    lemma AllAreIos(fd: nat)
      requires FdsAgree()
      ensures ios <= watchers && forall k :: 0 <= k < |Entry(fds, fd).head| ==> Entry(fds, fd).head[k] in ios
    {
    }

    /** What the watchers of a list want of an event. */
    static ghost function FeedsOf(head: seq<Watcher>, ev: Mask): seq<Event<Watcher>>
      reads head`events
    {
      if head == [] then [] else
        var w := head[|head| - 1];
        FeedsOf(head[..|head| - 1], ev) + if w.events * ev != {} then [Fed(w, w.events * ev)] else []
    }

    static lemma {:induction false} FeedsOnlyFeed(head: seq<Watcher>, ev: Mask)
      ensures forall k :: 0 <= k < |FeedsOf(head, ev)| ==> FeedsOf(head, ev)[k].Fed?
    {
      if head != [] {
        FeedsOnlyFeed(head[..|head| - 1], ev);
      }
    }

    static lemma {:induction false} FeedsCallNobody(trace: seq<Event<Watcher>>, head: seq<Watcher>, ev: Mask)
      ensures CountCalled(trace + FeedsOf(head, ev)) == CountCalled(trace)
    {
      if head == [] {
        assert trace + FeedsOf(head, ev) == trace;
      } else {
        var w, rest := head[|head| - 1], head[..|head| - 1];
        FeedsCallNobody(trace, rest, ev);
        var fed := trace + FeedsOf(rest, ev);
        CountMore(fed, Fed(w, w.events * ev));
        assert trace + FeedsOf(head, ev) == fed || trace + FeedsOf(head, ev) == fed + [Fed(w, w.events * ev)];
      }
    }

    // ---- invoke_pendings --------------------------------------------------------------------------------------

    /** The ev_io objects there are: some are set up for this loop; the others are as they were created. */
    ghost predicate PoolOk(pool: set<Watcher>)
      reads this`ios, this`watchers, pool`active, pool`pending
    {
      && ios <= pool && dummy_watcher !in pool && pool * watchers <= ios
      && forall w :: w in pool && w !in watchers ==> w.active == 0 && w.pending == 0
    }

    /** Where watchers are pending. */
    ghost function Places(): (places: map<Watcher, Place>)
      reads this`watchers, watchers`priority, watchers`pending
      ensures places.Keys == watchers
    {
      map w | w in watchers :: Place(w.priority, w.pending)
    }

    /** What a callback leaves alone: it calls nobody, clears only ev_io objects, and whoever is pending, and at most
        fed once more, stays where it is. */
    twostate predicate Discreet(pool: set<Watcher>)
      reads this`trace, this`watchers, watchers`priority, watchers`pending
    {
      && old(trace) <= trace && NoneCalled(trace, |old(trace)|) && ClearedIn(trace, |old(trace)|, pool)
      && Kept(old(Places()), |old(trace)|, trace, Places())
    }

    lemma IosAreWatchers()
      requires FdsAgree()
      ensures ios <= watchers
    {
    }

    /** What an operation is for. */
    twostate predicate Did(op: Op)
      reads this, ios`active, ios`fd, ios`events, Subject(op)
    {
      match op
      case Init(w, fd, ev, pri) =>
        old(w.active == 0 && w.pending == 0) ==> w.fd == fd && w.events == ev && w.active == 0
      case Start(w) => w.active == 1 && (old(w.active) == 0 ==> Entry(fds, w.fd).ischanged)
      case Stop(w) => w.active == 0 && w.pending == 0
      case Feed(w, ev) => w.pending > 0 && trace == old(trace) + [Fed(w, ev)]
      case FeedFd(fd, ev) =>
        old(trace) <= trace && (!Entry(fds, fd).ischanged ==> Shares(trace[|old(trace)|..], Wishes(), fd, ev))
      case Kill(fd) => fd !in kernel && forall w :: w in ios && w.fd == fd ==> w.active == 0
      case Close(fd) => Closable(fds, fd) ==> fd !in kernel
    }

    static ghost function Subject(op: Op): set<Watcher> {
      if op.Init? || op.Start? || op.Stop? || op.Feed? then {op.w} else {}
    }

    /** One thing a callback does. An operation that would break the loop is left out: setting up a watcher that is
        pending but not active, and closing a descriptor that the kernel is watching. */
    method Perform(op: Op, ghost pool: set<Watcher>)
      requires Valid() && PoolOk(pool) && Allowed(op, pool, ios, watchers) && performed != []
      modifies this`fds, this`fdchanges, this`activecnt, this`pendings, this`trace, this`kernel, this`watchers, this`ios
      modifies this`performed, watchers`pending, pool`active, pool`pending, pool`priority, pool`fd, pool`events
      ensures Valid() && PoolOk(pool) && Discreet(pool) && Did(op)
      ensures performed == Front(old(performed)) + [Last(old(performed)) + [op]]
      ensures ios == SetUp(op, old(ios)) && watchers == SetUp(op, old(watchers))
    {
      hide Discreet, FdsAgree, Legal, PendingsAgree, PoolOk;
      Execute(op, pool);
      performed := Front(performed) + [Last(performed) + [op]];
    }

    /** The operation itself. */
    method Execute(op: Op, ghost pool: set<Watcher>)
      requires Valid() && PoolOk(pool) && Allowed(op, pool, ios, watchers)
      modifies this`fds, this`fdchanges, this`activecnt, this`pendings, this`trace, this`kernel, this`watchers, this`ios
      modifies watchers`pending, pool`active, pool`pending, pool`priority, pool`fd, pool`events
      ensures Valid() && PoolOk(pool) && Discreet(pool) && Did(op)
      ensures ios == SetUp(op, old(ios)) && watchers == SetUp(op, old(watchers))
    {
      hide Discreet, FdsAgree, KernelAgrees, PendingsAgree, Registered, Shares, Wishes;
      IosAreWatchers();
      match op {
        case Init(w, fd, ev, pri) =>
          PerformInit(w, fd, ev, pri, pool);
        case Start(w) =>
          PerformStart(w, pool);
        case Stop(w) =>
          PerformStop(w, pool);
        case Feed(w, ev) =>
          PerformFeed(w, ev, pool);
        case FeedFd(fd, ev) =>
          PerformFeedFd(fd, ev, pool);
        case Kill(fd) =>
          PerformKill(fd, pool);
        case Close(fd) =>
          PerformClose(fd, pool);
      }
    }

    method PerformInit(w: Watcher, fd: nat, ev: Mask, pri: int, ghost pool: set<Watcher>)
      requires Valid() && PoolOk(pool) && w in pool
      modifies this`watchers, this`ios, w`active, w`pending, w`priority, w`fd, w`events
      ensures Valid() && PoolOk(pool) && Discreet(pool)
      ensures ios == old(ios) + {w} && watchers == old(watchers) + {w}
      ensures old(w.active == 0 && w.pending == 0) ==> w.fd == fd && w.events == ev && w.active == 0
    {
      hide FdsAgree, PendingsAgree;
      IosAreWatchers();
      if w.active != 0 || w.pending == 0 {
        IoWatcherInit(w, fd, ev, pri);
      }
    }

    method PerformStart(w: Watcher, ghost pool: set<Watcher>)
      requires Valid() && w in ios
      modifies this`fds, this`fdchanges, this`activecnt, w`active
      ensures Valid() && Discreet(pool) && w.active == 1 && (old(w.active) == 0 ==> Entry(fds, w.fd).ischanged)
    {
      hide FdsAgree, Noted, PendingsAgree;
      IoWatcherStart(w);
    }

    method PerformStop(w: Watcher, ghost pool: set<Watcher>)
      requires Valid() && w in ios && ios <= pool
      modifies this`fds, this`fdchanges, this`activecnt, this`pendings, this`trace, w`active, w`pending
      ensures Valid() && Discreet(pool) && w.active == 0 && w.pending == 0
    {
      hide Changed, Entry, FdsAgree, Noted, PendingsAgree, Without;
      IoWatcherStop(w);
      assert trace[|old(trace)|] == Cleared(w);
    }

    method PerformFeed(w: Watcher, ev: Mask, ghost pool: set<Watcher>)
      requires Valid() && w in watchers
      modifies this`pendings, this`trace, w`pending
      ensures Valid() && Discreet(pool) && w.pending > 0 && trace == old(trace) + [Fed(w, ev)]
    {
      hide FdsAgree, FedArray, OnlyFed, PendingsAgree;
      FeedEvent(w, ev);
    }

    method PerformFeedFd(fd: nat, ev: Mask, ghost pool: set<Watcher>)
      requires Valid()
      modifies this`pendings, this`trace, ios`pending
      ensures Valid() && Discreet(pool)
      ensures old(trace) <= trace && (!Entry(fds, fd).ischanged ==> Shares(trace[|old(trace)|..], Wishes(), fd, ev))
    {
      hide Entry, FdsAgree, FeedsOf, OnlyFed, PendingsAgree, Shares, Wishes;
      FeedsOnlyFeed(Entry(fds, fd).head, ev);
      FeedFdEvent(fd, ev);
    }

    method PerformKill(fd: nat, ghost pool: set<Watcher>)
      requires Valid() && ios <= pool
      modifies this`fds, this`fdchanges, this`activecnt, this`pendings, this`trace, this`kernel, ios`active, ios`pending
      ensures Valid() && Discreet(pool)
      ensures fd !in kernel && forall w :: w in ios && w.fd == fd ==> w.active == 0
    {
      hide Entry, FdsAgree, KernelAgrees, KillChanges, KillEvents, OnlyFed, PendingsAgree, Registered;
      AllAreIos(fd);
      KilledAreTold(fd, pool);
      KillFd(fd);
    }

    method PerformClose(fd: nat, ghost pool: set<Watcher>)
      requires Valid()
      modifies this`kernel
      ensures Valid() && Discreet(pool) && (Closable(fds, fd) ==> fd !in kernel)
    {
      hide Closable, FdsAgree, KernelAgrees, PendingsAgree, Registered;
      if Closable(fds, fd) {
        CloseFd(fd);
      }
    }

    /** The loop of AcceptFdCb, for the sockets there are and an ev_io for each: they all end up active, on the lists of
        their sockets, for reading. */
    method AcceptFdCb(sockets: seq<(Watcher, nat)>, ghost pool: set<Watcher>)
      requires Valid() && PoolOk(pool)
      requires forall k :: 0 <= k < |sockets| ==> sockets[k].0 in pool && sockets[k].0 !in watchers
      requires forall j, k :: 0 <= j < k < |sockets| ==> sockets[j].0 != sockets[k].0
      modifies this`fds, this`fdchanges, this`activecnt, this`watchers, this`ios
      modifies set k | 0 <= k < |sockets| :: sockets[k].0
      ensures Valid() && PoolOk(pool)
      ensures forall k :: 0 <= k < |sockets| ==>
                var (iow, fd) := sockets[k];
                iow.active == 1 && iow.fd == fd && iow.events == EV_READ && iow in Entry(fds, fd).head
    {
      hide FdsAgree, PendingsAgree, Discreet;
      for k := 0 to |sockets|
        invariant Valid() && PoolOk(pool)
        invariant forall j :: k <= j < |sockets| ==> sockets[j].0 !in watchers
        invariant forall j :: 0 <= j < k ==>
                    sockets[j].0 in ios && sockets[j].0.active == 1
                    && sockets[j].0.fd == sockets[j].1 && sockets[j].0.events == EV_READ
      {
        var (iow, fd) := sockets[k];
        PerformInit(iow, fd, EV_READ, NUMPRI / 2, pool);
        PerformStart(iow, pool);
      }
      ActiveAreListed();
    }

    lemma ActiveAreListed()
      requires FdsAgree()
      ensures forall w :: w in ios && w.active == 1 ==> w in Entry(fds, w.fd).head
    {
    }

    /** What killing a descriptor records is about its active watchers, and about all of them. */
    lemma KilledAreTold(fd: nat, pool: set<Watcher>)
      requires FdsAgree() && ios <= pool
      ensures var killed := trace + KillEvents(Entry(fds, fd).head);
              && NoneCalled(killed, |trace|) && ClearedIn(killed, |trace|, pool)
              && forall w :: w in ios && w.fd == fd && w.active != 0 ==> !OnlyFed(killed, |trace|, w)
    {
      hide KillEvents, OnlyFed;
      var head := Entry(fds, fd).head;
      KillTellsAll(trace, head, pool);
      forall w | w in ios && w.fd == fd && w.active != 0
        ensures !OnlyFed(trace + KillEvents(head), |trace|, w)
      {
        var k :| 0 <= k < |head| && head[k] == w;
      }
    }

    /** A callback, as the list of what it does. */
    method Callback(script: seq<Op>, ghost pool: set<Watcher>)
      requires Valid() && PoolOk(pool) && Legal(script, pool, ios, watchers)
      modifies this`fds, this`fdchanges, this`activecnt, this`pendings, this`trace, this`kernel, this`watchers, this`ios
      modifies this`performed, watchers`pending, pool`active, pool`pending, pool`priority, pool`fd, pool`events
      ensures Valid() && PoolOk(pool) && Discreet(pool) && CountCalled(trace) == CountCalled(old(trace))
      ensures ios == SetUpBy(script, old(ios)) && watchers == SetUpBy(script, old(watchers)) <= old(watchers) + pool
      ensures performed == old(performed) + [script]
    {
      hide ClearedIn, CountCalled, FdsAgree, Kept, NoneCalled, PendingsAgree, Places;
      assert script[0..] == script;
      performed := performed + [[]];
      NothingYet(trace, Places(), pool);
      for k := 0 to |script|
        invariant Valid() && PoolOk(pool) && Discreet(pool)
        invariant Legal(script[k..], pool, ios, watchers) && watchers <= old(watchers) + pool
        invariant SetUpBy(script[k..], ios) == SetUpBy(script, old(ios))
        invariant SetUpBy(script[k..], watchers) == SetUpBy(script, old(watchers))
        invariant performed == old(performed) + [script[..k]]
      {
        assert script[k..][0] == script[k] && script[k..][1..] == script[k + 1..];
        ghost var trace1, places1 := trace, Places();
        Perform(script[k], pool);
        assert script[..k] + [script[k]] == script[..k + 1];
        DiscreetOn(old(Places()), pool, |old(trace)|, trace1, places1, trace, Places());
      }
      assert script[..|script|] == script;
      NoneCounted(trace, |old(trace)|);
      assert trace[..|old(trace)|] == old(trace);
    }

    lemma Top(pri: nat)
      requires PendingsAgree() && pri < NUMPRI && |pendings| == NUMPRI && pendings[pri] != []
      ensures dummy_watcher !in watchers
      ensures var w, places := pendings[pri][|pendings[pri]| - 1].w, Places();
              && (w != dummy_watcher ==> w in places && places[w] == Place(pri, |pendings[pri]|))
              && forall v <- places :: places[v].priority == pri ==> places[v].pending <= |pendings[pri]|
    {
      hide TraceAgrees;
      LastFacts(pri);
      assert EntryOk(pri, |pendings[pri]| - 1, pendings[pri][|pendings[pri]| - 1].w);
      assert forall v :: v in watchers ==> WatcherOk(v);
    }

    lemma InRange()
      requires PendingsAgree()
      ensures forall w :: w in watchers ==> w.priority < NUMPRI && Places()[w] == Place(w.priority, w.pending)
    {
      assert forall v :: v in watchers ==> WatcherOk(v);
    }

    lemma NoneLeft(pri: nat)
      requires PendingsAgree() && pri < NUMPRI && |pendings| == NUMPRI && pendings[pri] == []
      ensures forall w <- Places() :: Places()[w].priority == pri ==> Places()[w].pending == 0
    {
      assert forall v :: v in watchers ==> WatcherOk(v);
    }

    ghost function Min(a: int, b: int): int { if a < b then a else b }

    /** The loop of invoke_pendings over one priority. The k-th callback does what the k-th script says, the others do
        nothing. */
    method InvokePriority(pri: nat, scripts: seq<seq<Op>>, calls0: nat, ghost pool: set<Watcher>,
                          ghost places0: map<Watcher, Place>, ghost n: nat) returns (calls: nat)
      requires Valid() && pri < NUMPRI && calls0 <= |scripts|
      requires PoolOk(pool) && AllLegal(scripts[calls0..], pool, ios, watchers)
      requires Orderly(places0, pool, n, trace, Places()) && Reached(places0, pri, n, trace)
      modifies this`fds, this`fdchanges, this`activecnt, this`pendings, this`trace, this`kernel, this`watchers, this`ios
      modifies this`performed, watchers`pending, dummy_watcher`pending
      modifies pool`active, pool`pending, pool`priority, pool`fd, pool`events
      ensures Valid() && calls0 <= calls <= |scripts|
      ensures PoolOk(pool) && AllLegal(scripts[calls..], pool, ios, watchers) && Grown(pool)
      ensures old(trace) <= trace && |pendings| == |old(pendings)| == NUMPRI && pendings[pri] == []
      ensures Orderly(places0, pool, n, trace, Places()) && Reached(places0, pri + 1, n, trace)
      ensures performed == old(performed) + scripts[calls0..calls]
      ensures calls == Min(|scripts|, calls0 + (CountCalled(trace) - CountCalled(old(trace))))
      ensures calls0 == |scripts| ==>
                && pendings == old(pendings)[pri := []] && fds == old(fds) && kernel == old(kernel)
                && trace == old(trace) + CallsOf(old(pendings)[pri], dummy_watcher)
    {
      hide AllLegal, CallsOf, CountCalled, FdsAgree, LastCall, Orderly, PendingsAgree, Places, PoolOk, Reached;
      SomeArrays();
      calls := calls0;
      while pendings[pri] != []
        invariant Valid() && calls0 <= calls <= |scripts|
        invariant PoolOk(pool) && AllLegal(scripts[calls..], pool, ios, watchers) && Grown(pool)
        invariant old(trace) <= trace && |pendings| == |old(pendings)| == NUMPRI
        invariant Orderly(places0, pool, n, trace, Places()) && Reached(places0, pri, n, trace)
        invariant performed == old(performed) + scripts[calls0..calls]
        invariant calls == Min(|scripts|, calls0 + (CountCalled(trace) - CountCalled(old(trace))))
        invariant calls0 == |scripts| ==>
                    && pendings == old(pendings)[pri := pendings[pri]] && fds == old(fds) && kernel == old(kernel)
                    && trace + CallsOf(pendings[pri], dummy_watcher)
                       == old(trace) + CallsOf(old(pendings)[pri], dummy_watcher)
        decreases |scripts| - calls, |pendings[pri]|
      {
        NextCall(trace, pendings[pri], dummy_watcher);
        calls := InvokeLast(pri, scripts, calls, pool, places0, n);
      }
      NoCalls(trace, dummy_watcher);
      NoneLeft(pri);
      ReachedMore(places0, pri, pool, n, trace, trace, Places());
    }

    /** Callbacks set up objects of the pool, and set none down. */
    twostate predicate Grown(pool: set<Watcher>)
      reads this`ios, this`watchers
    {
      old(ios) <= ios && old(watchers) <= watchers <= old(watchers) + pool
    }

    /** Up to the callback. */
    method TakeLast(pri: nat, ghost pool: set<Watcher>, ghost places0: map<Watcher, Place>, ghost n: nat)
      returns (w: Watcher)
      requires pri < NUMPRI == |pendings| && pendings[pri] != []
      requires PendingsAgree() && Orderly(places0, pool, n, trace, Places()) && Reached(places0, pri, n, trace)
      modifies this`pendings, this`trace, watchers`pending, dummy_watcher`pending
      ensures var called := LastCall(old(pendings)[pri], dummy_watcher);
              && trace == old(trace) + called && CountCalled(trace) == CountCalled(old(trace)) + |called|
              && |called| == if w == dummy_watcher then 0 else 1
      ensures pendings == old(pendings)[pri := Front(old(pendings)[pri])]
      ensures PendingsAgree() && Orderly(places0, pool, n, trace, Places())
      ensures w == dummy_watcher || w in watchers
      ensures forall v :: v in watchers && v.pending > 0 ==> old(v.pending) > 0
    {
      hide CountCalled, Orderly, PendingsAgree;
      ghost var before, places := trace, Places();
      Top(pri);
      var ev;
      w, ev := TakePending(pri);
      CountMore(before, Called(w, ev));
      if w != dummy_watcher {
        LastIsCalled(places0, pool, n, before, places, w, ev, Places());
      } else {
        assert Places() == places && trace == before;
      }
    }

    /** One turn of invoke_pendings. */
    method InvokeLast(pri: nat, scripts: seq<seq<Op>>, calls0: nat, ghost pool: set<Watcher>,
                      ghost places0: map<Watcher, Place>, ghost n: nat) returns (calls: nat)
      requires pri < NUMPRI == |pendings| && pendings[pri] != [] && calls0 <= |scripts|
      requires Valid() && PoolOk(pool) && AllLegal(scripts[calls0..], pool, ios, watchers)
      requires Orderly(places0, pool, n, trace, Places()) && Reached(places0, pri, n, trace)
      modifies this`fds, this`fdchanges, this`activecnt, this`pendings, this`trace, this`kernel, this`watchers, this`ios
      modifies this`performed, watchers`pending, dummy_watcher`pending
      modifies pool`active, pool`pending, pool`priority, pool`fd, pool`events
      ensures var called := LastCall(old(pendings)[pri], dummy_watcher);
              && old(trace) + called <= trace && CountCalled(trace) == CountCalled(old(trace)) + |called|
              && calls0 <= calls == Min(|scripts|, calls0 + |called|)
              && performed == old(performed) + scripts[calls0..calls]
              && (calls == calls0 ==>
                    && pendings == old(pendings)[pri := Front(old(pendings)[pri])] && trace == old(trace) + called
                    && fds == old(fds) && kernel == old(kernel))
      ensures Valid() && |pendings| == NUMPRI && old(trace) <= trace
      ensures Orderly(places0, pool, n, trace, Places()) && Reached(places0, pri, n, trace)
      ensures PoolOk(pool) && AllLegal(scripts[calls..], pool, ios, watchers) && Grown(pool)
    {
      hide AllLegal, ClearedIn, CountCalled, FdsAgree, Kept, LastCall, Legal, NoneCalled, Orderly, PendingsAgree,
           Places, Reached, SetUpBy;
      calls := calls0;
      var w := TakeLast(pri, pool, places0, n);
      if w != dummy_watcher && calls < |scripts| {
        NextIsLegal(scripts, calls, pool, ios, watchers);
        SetUpGrows(scripts[calls], ios);
        SetUpGrows(scripts[calls], watchers);
        ghost var trace1, places1 := trace, Places();
        Callback(scripts[calls], pool);
        CallbackKeepsOrder(places0, pool, n, trace1, places1, trace, Places());
        calls := calls + 1;
      }
      SomeArrays();
      ReachedStill(places0, pri, n, old(trace), trace);
    }

    /** Calls everything that is pending, lowest priority number first and last come first served, each time running
        the next callback. Whatever callbacks do, the loop stays consistent, and whatever was pending is called unless a
        callback stops it: at one priority last come first served. If callbacks do nothing, all the calls are known. */
    method InvokePendings(scripts: seq<seq<Op>>, ghost pool: set<Watcher>)
      requires Valid() && PoolOk(pool) && AllLegal(scripts, pool, ios, watchers)
      modifies this`fds, this`fdchanges, this`activecnt, this`pendings, this`trace, this`kernel, this`watchers, this`ios
      modifies this`performed, watchers`pending, dummy_watcher`pending
      modifies pool`active, pool`pending, pool`priority, pool`fd, pool`events
      ensures Valid() && PoolOk(pool) && Grown(pool) && old(trace) <= trace
      ensures forall w :: w in old(watchers) && old(w.pending) > 0 ==> !OnlyFed(trace, |old(trace)|, w)
      ensures Reached(old(Places()), NUMPRI, |old(trace)|, trace) && ClearedIn(trace, |old(trace)|, pool)
      ensures InTurn(old(Places()), pool, |old(trace)|, trace)
      ensures CountCalled(trace) >= CountCalled(old(trace))
      ensures performed == old(performed) + scripts[..Min(|scripts|, CountCalled(trace) - CountCalled(old(trace)))]
      ensures forall w :: w in old(watchers) && old(w.pending) > 0 ==> Awaits(old(trace), trace, w)
      ensures scripts == [] ==>
                && fds == old(fds) && kernel == old(kernel)
                && trace == old(trace) + AllCalls(old(pendings), dummy_watcher)
                && forall p :: 0 <= p < NUMPRI ==> pendings[p] == []
    {
      hide AllCalls, AllLegal, CallsOf, ClearedIn, CountCalled, FdsAgree, Kept, InTurn, PendingsAgree, Places,
           PoolOk, Reached, Awaits;
      SomeArrays();
      OrderlyAtFirst(Places(), pool, trace);
      InRange();
      ghost var held := Held();
      var calls := 0;
      assert scripts[0..] == scripts;
      for pri := 0 to NUMPRI
        invariant Valid() && old(trace) <= trace && |pendings| == |old(pendings)| == NUMPRI
        invariant Orderly(old(Places()), pool, |old(trace)|, trace, Places())
        invariant Reached(old(Places()), pri, |old(trace)|, trace)
        invariant CountCalled(trace) >= CountCalled(old(trace))
        invariant 0 <= calls == Min(|scripts|, CountCalled(trace) - CountCalled(old(trace)))
        invariant PoolOk(pool) && AllLegal(scripts[calls..], pool, ios, watchers) && Grown(pool)
        invariant performed == old(performed) + scripts[..calls]
        invariant scripts == [] ==> fds == old(fds) && kernel == old(kernel)
        invariant scripts == [] ==> forall p :: 0 <= p < pri ==> pendings[p] == []
        invariant scripts == [] ==>
                    trace + AllCalls(pendings[pri..], dummy_watcher)
                    == old(trace) + AllCalls(old(pendings), dummy_watcher)
      {
        ghost var pendings0, calls0 := pendings, calls;
        NextCalls(trace, pendings, pri, dummy_watcher);
        calls := InvokePriority(pri, scripts, calls, pool, old(Places()), |old(trace)|);
        assert scripts[..calls0] + scripts[calls0..calls] == scripts[..calls];
        assert scripts == [] ==> pendings[pri + 1..] == pendings0[pri + 1..];
      }
      AllReached(old(Places()), NUMPRI, |old(trace)|, trace);
      Replays();
      forall w | w in old(watchers) && old(w.pending) > 0 ensures Awaits(old(trace), trace, w) {
        assert !OnlyFed(trace, |old(trace)|, w);
        IsAnswered(old(trace), trace, w, held[w]);
      }
      assert pendings[NUMPRI..] == [];
      NoCalls(trace, dummy_watcher);
    }

    lemma NotTheDummy()
      requires PendingsAgree()
      ensures dummy_watcher !in watchers
    {
    }

    /** What those that are pending have to be told. */
    ghost function Held(): (held: map<Watcher, Mask>)
      requires PendingsAgree()
      reads this`pendings, this`watchers, this`trace, watchers`pending, watchers`priority
      ensures forall w :: w in watchers && w.pending > 0 ==> w in held && FedSince(trace, w) == Some(held[w])
    {
      assert forall w :: w in watchers ==> HeldOk(w);
      HeldAre(trace);
      Replay(trace).value
    }

    /** Whoever was fed since the history had n events is pending, if since then everybody was only fed. */
    lemma FedArePending(n: nat)
      requires PendingsAgree() && n <= |trace|
      requires forall j :: n <= j < |trace| ==> trace[j].Fed? && trace[j].w in watchers
      ensures forall j :: n <= j < |trace| ==> trace[j].w.pending > 0
    {
      hide FedSince, Replay, SlotsAgree;
      forall j | n <= j < |trace| ensures trace[j].w.pending > 0 {
        StillFed(trace, j, |trace|);
        assert trace[..|trace|] == trace;
        HeldIsFedSince(trace, trace[j].w);
        PendingFacts(trace[j].w);
      }
    }

    lemma Replays()
      requires PendingsAgree()
      ensures Replay(trace).Some?
    {
    }

    lemma SomeArrays()
      requires PendingsAgree()
      ensures |pendings| == NUMPRI
    {
    }
  }
}
