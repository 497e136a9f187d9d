/** What happens to the pending watchers of an event loop, as a history: which events a callback has to be told
    (ev_loop.h), and in which order callbacks are called that were pending at the same time (ev_loop.cpp). */
module History {
  import opened Basics

  /** A mask of event bits, as the set of bits that are 1. EV_ERROR does not fit the 16 bits in which a callback gets
      its events, so of it nothing arrives. */
  datatype Bit = Readable | Writable | TimedOut

  type Mask = set<Bit>

  const EV_READ: Mask := {Readable}
  const EV_TIMER: Mask := {TimedOut}
  const EV_ERROR: Mask := {}

  /** What a history of the loop records about pending watchers: the events fed to one, that its pending events were
      thrown away, that its callback was called. */
  datatype Event<!W> = Fed(w: W, events: Mask) | Cleared(w: W) | Called(w: W, events: Mask)

  /** The events each watcher still has to be told after a history, if in it every call told a watcher exactly what it
      had been fed since it was last called or cleared. */
  function Replay<W(==)>(trace: seq<Event<W>>): Option<map<W, Mask>> {
    if trace == [] then Some(map[]) else
      match Replay(trace[..|trace| - 1])
      case None => None
      case Some(held) => Record(held, trace[|trace| - 1])
  }

  function Record<W(==)>(held: map<W, Mask>, e: Event<W>): Option<map<W, Mask>> {
    match e
    case Fed(w, ev) => Some(held[w := if w in held then held[w] + ev else ev])
    case Cleared(w) => Some(held - {w})
    case Called(w, ev) => if w in held && held[w] == ev then Some(held - {w}) else None
  }

  ghost predicate SameElse<W>(held0: map<W, Mask>, held: map<W, Mask>, w: W) {
    && (forall v <- held :: v != w ==> v in held0)
    && (forall v <- held0 :: v != w ==> v in held && held[v] == held0[v])
  }

  lemma ReplayMore<W>(trace: seq<Event<W>>, e: Event<W>)
    requires Replay(trace).Some?
    ensures var held, more := Replay(trace).value, Replay(trace + [e]);
            more == Record(held, e) && (more.Some? ==> SameElse(held, more.value, e.w))
  {
  }

  /** How often callbacks have been called. */
  ghost function CountCalled<W>(trace: seq<Event<W>>): nat {
    if trace == [] then 0 else CountCalled(trace[..|trace| - 1]) + if trace[|trace| - 1].Called? then 1 else 0
  }

  lemma CountMore<W>(trace: seq<Event<W>>, e: Event<W>)
    ensures CountCalled(trace + [e]) == CountCalled(trace) + if e.Called? then 1 else 0
  {
    assert (trace + [e])[..|trace|] == trace;
  }

  /** What a watcher has been fed since it was last called or cleared, if anything. */
  ghost function FedSince<W>(trace: seq<Event<W>>, w: W): Option<Mask> {
    if trace == [] then None else
      var before, e := FedSince(trace[..|trace| - 1], w), trace[|trace| - 1];
      if e.w != w then before
      else if !e.Fed? then None
      else Some(if before.Some? then before.value + e.events else e.events)
  }

  lemma FedMore<W>(trace: seq<Event<W>>, u: W, ev: Mask, w: W)
    ensures FedSince(trace + [Fed(u, ev)], w) ==
            if u != w then FedSince(trace, w)
            else Some(if FedSince(trace, w).Some? then FedSince(trace, w).value + ev else ev)
  {
    assert (trace + [Fed(u, ev)])[..|trace|] == trace;
  }

  lemma {:induction false} HeldIsFedSince<W>(trace: seq<Event<W>>, w: W)
    requires Replay(trace).Some?
    ensures FedSince(trace, w) == if w in Replay(trace).value then Some(Replay(trace).value[w]) else None
  {
    if trace != [] {
      HeldIsFedSince(trace[..|trace| - 1], w);
    }
  }

  lemma {:induction false} ReplayPrefix<W>(trace: seq<Event<W>>, n: nat)
    requires Replay(trace).Some? && n <= |trace|
    ensures Replay(trace[..n]).Some?
  {
    if n == |trace| {
      assert trace[..n] == trace;
    } else {
      ReplayPrefix(trace[..|trace| - 1], n);
      assert trace[..|trace| - 1][..n] == trace[..n];
    }
  }

  /** In a history that replays, a callback is told exactly what its watcher was fed since it was last called or
      stopped. */
  lemma CalledWithAllThatWasFed<W>(trace: seq<Event<W>>, k: nat)
    requires Replay(trace).Some? && k < |trace| && trace[k].Called?
    ensures FedSince(trace[..k], trace[k].w) == Some(trace[k].events)
  {
    ReplayPrefix(trace, k + 1);
    assert trace[..k + 1][..k] == trace[..k];
    HeldIsFedSince(trace[..k], trace[k].w);
  }

  lemma {:induction false} NotHeld<W>(trace: seq<Event<W>>, w: W, i: nat, n: nat)
    requires i < n <= |trace| && Replay(trace[..n]).Some? && trace[i].w == w && !trace[i].Fed?
    requires forall j :: i < j < n ==> trace[j].w == w ==> !trace[j].Fed?
    ensures w !in Replay(trace[..n]).value
  {
    assert trace[..n][..n - 1] == trace[..n - 1];
    if i < n - 1 {
      NotHeld(trace, w, i, n - 1);
    }
  }

  /** A watcher that has been stopped, or called, is not called again for what it was fed before that. */
  lemma NoStaleCall<W>(trace: seq<Event<W>>, i: nat, k: nat)
    requires Replay(trace).Some? && i < k < |trace|
    requires !trace[i].Fed? && trace[k].Called? && trace[k].w == trace[i].w
    ensures exists j :: i < j < k && trace[j].Fed? && trace[j].w == trace[i].w
  {
    ReplayPrefix(trace, k + 1);
    assert trace[..k + 1][..k] == trace[..k];
    if forall j :: i < j < k ==> trace[j].w == trace[i].w ==> !trace[j].Fed? {
      NotHeld(trace, trace[i].w, i, k);
      assert false;
    }
  }

  // ---- the order of calls -------------------------------------------------------------------------------------

  /** A watcher's priority, and its place in the pending array of that, counted from 1; 0 if it is not pending. */
  datatype Place = Place(priority: nat, pending: nat)

  ghost predicate IsCall<W>(trace: seq<Event<W>>, k: int, w: W) {
    0 <= k < |trace| && trace[k].Called? && trace[k].w == w
  }

  /** From its n-th event on, a history says of a watcher at most that it was fed. */
  ghost predicate OnlyFed<W>(trace: seq<Event<W>>, n: nat, w: W) {
    forall k :: n <= k < |trace| && trace[k].w == w ==> trace[k].Fed?
  }

  /** From the n-th event on nobody is called. */
  ghost predicate NoneCalled<W>(trace: seq<Event<W>>, n: nat) {
    forall k :: n <= k < |trace| ==> !trace[k].Called?
  }

  lemma {:induction false} NoneCounted<W>(trace: seq<Event<W>>, n: nat)
    requires n <= |trace| && NoneCalled(trace, n)
    ensures CountCalled(trace) == CountCalled(trace[..n])
  {
    if n == |trace| {
      assert trace[..n] == trace;
    } else {
      NoneCounted(trace[..|trace| - 1], n);
      assert trace[..|trace| - 1][..n] == trace[..n];
    }
  }

  /** From the n-th event on only watchers of the pool are cleared. */
  ghost predicate ClearedIn<W>(trace: seq<Event<W>>, n: nat, pool: set<W>) {
    forall k :: n <= k < |trace| && trace[k].Cleared? ==> trace[k].w in pool
  }

  /** A watcher that was pending when the history had n events, and has only been fed since, is still where it was. */
  ghost predicate Kept<W>(places0: map<W, Place>, n: nat, trace: seq<Event<W>>, places: map<W, Place>) {
    forall v <- places0 :: places0[v].pending > 0 && OnlyFed(trace, n, v) ==> v in places && places[v] == places0[v]
  }

  /** Both are pending, and it is v's turn before w's: its priority number is lower, or its place higher. */
  ghost predicate Ahead<W>(places: map<W, Place>, v: W, w: W) {
    && v in places && w in places && places[v].pending > 0 && places[w].pending > 0
    && (places[v].priority < places[w].priority
        || (places[v].priority == places[w].priority && places[v].pending > places[w].pending))
  }

  /** Of two watchers that were pending when the history had n events, the one behind is not called before the one ahead
      has been called or stopped. */
  ghost predicate InTurn<W>(places0: map<W, Place>, pool: set<W>, n: nat, trace: seq<Event<W>>) {
    forall v, w, k: nat ::
      v in places0 && w in places0 && Ahead(places0, v, w) && w !in pool && n <= k < |trace| && IsCall(trace, k, w)
      ==> !OnlyFed(trace[..k], n, v)
  }

  ghost predicate Orderly<W>(places0: map<W, Place>, pool: set<W>, n: nat, trace: seq<Event<W>>,
                             places: map<W, Place>)
  {
    && n <= |trace| && Kept(places0, n, trace, places)
    && InTurn(places0, pool, n, trace) && ClearedIn(trace, n, pool)
  }

  /** Whoever was pending at these priorities when the history had n events has been called or stopped. */
  ghost predicate Reached<W>(places0: map<W, Place>, below: nat, n: nat, trace: seq<Event<W>>) {
    forall w <- places0 :: places0[w].pending > 0 && places0[w].priority < below ==> !OnlyFed(trace, n, w)
  }

  lemma AllReached<W>(places0: map<W, Place>, below: nat, n: nat, trace: seq<Event<W>>)
    requires Reached(places0, below, n, trace) && forall w <- places0 :: places0[w].priority < below
    ensures forall w <- places0 :: places0[w].pending > 0 ==> !OnlyFed(trace, n, w)
  {
  }

  lemma OnlyFedBefore<W>(trace: seq<Event<W>>, trace': seq<Event<W>>, n: nat, w: W)
    requires trace <= trace' && OnlyFed(trace', n, w)
    ensures OnlyFed(trace, n, w)
  {
    assert forall k :: 0 <= k < |trace| ==> trace'[k] == trace[k];
  }

  lemma OrderlyAtFirst<W>(places: map<W, Place>, pool: set<W>, trace: seq<Event<W>>)
    ensures Orderly(places, pool, |trace|, trace, places) && Reached(places, 0, |trace|, trace)
  {
  }

  lemma NothingYet<W>(trace: seq<Event<W>>, places: map<W, Place>, pool: set<W>)
    ensures NoneCalled(trace, |trace|) && ClearedIn(trace, |trace|, pool) && Kept(places, |trace|, trace, places)
  {
  }

  lemma ReachedStill<W>(places0: map<W, Place>, below: nat, n: nat, trace: seq<Event<W>>, trace': seq<Event<W>>)
    requires Reached(places0, below, n, trace) && trace <= trace'
    ensures Reached(places0, below, n, trace')
  {
    forall w <- places0 | places0[w].pending > 0 && places0[w].priority < below ensures !OnlyFed(trace', n, w) {
      if OnlyFed(trace', n, w) {
        OnlyFedBefore(trace, trace', n, w);
        assert false;
      }
    }
  }

  /** Nothing happening to the others, the last entry of a priority is called: it is the one ahead of all others, when
      those of lower priority numbers have been reached. */
  lemma LastIsCalled<W>(places0: map<W, Place>, pool: set<W>, n: nat, trace: seq<Event<W>>, places: map<W, Place>,
                        w: W, ev: Mask, places': map<W, Place>)
    requires Orderly(places0, pool, n, trace, places) && w in places && places[w].pending > 0
    requires Reached(places0, places[w].priority, n, trace)
    requires forall v <- places :: places[v].priority == places[w].priority ==> places[v].pending <= places[w].pending
    requires places'.Keys == places.Keys && forall v <- places :: v != w ==> places'[v] == places[v]
    ensures Orderly(places0, pool, n, trace + [Called(w, ev)], places')
  {
    var trace' := trace + [Called(w, ev)];
    forall v <- places0 | places0[v].pending > 0 && OnlyFed(trace', n, v)
      ensures v in places' && places'[v] == places0[v]
    {
      OnlyFedBefore(trace, trace', n, v);
      assert trace'[|trace|].w == w;
    }
    forall v, u, k: nat | v in places0 && u in places0 && Ahead(places0, v, u) && u !in pool
                          && n <= k < |trace'| && IsCall(trace', k, u)
      ensures !OnlyFed(trace'[..k], n, v)
    {
      if k < |trace| {
        assert trace'[..k] == trace[..k] && IsCall(trace, k, u);
      } else {
        assert trace'[..k] == trace && u == w;
        NotOvertaken(places0, pool, n, trace, places, v, w);
      }
    }
  }

  lemma NotOvertaken<W>(places0: map<W, Place>, pool: set<W>, n: nat, trace: seq<Event<W>>, places: map<W, Place>,
                        v: W, w: W)
    requires Orderly(places0, pool, n, trace, places) && Ahead(places0, v, w) && w !in pool && w in places
    requires Reached(places0, places[w].priority, n, trace)
    requires forall u <- places :: places[u].priority == places[w].priority ==> places[u].pending <= places[w].pending
    ensures !OnlyFed(trace, n, v)
  {
    if !OnlyFed(trace, n, w) {
      var k :| n <= k < |trace| && trace[k].w == w && !trace[k].Fed?;
      assert IsCall(trace, k, w);
      if OnlyFed(trace, n, v) {
        OnlyFedBefore(trace[..k], trace, n, v);
        assert false;
      }
    }
  }

  /** What happens while a callback runs. */
  lemma CallbackKeepsOrder<W>(places0: map<W, Place>, pool: set<W>, n: nat, trace: seq<Event<W>>,
                              places: map<W, Place>, trace': seq<Event<W>>, places': map<W, Place>)
    requires Orderly(places0, pool, n, trace, places) && trace <= trace'
    requires Kept(places, |trace|, trace', places') && NoneCalled(trace', |trace|) && ClearedIn(trace', |trace|, pool)
    ensures Orderly(places0, pool, n, trace', places')
  {
    KeptOn(places0, n, trace, places, trace', places');
    forall v, u, k: nat | v in places0 && u in places0 && Ahead(places0, v, u) && u !in pool
                          && n <= k < |trace'| && IsCall(trace', k, u)
      ensures !OnlyFed(trace'[..k], n, v)
    {
      assert trace'[..k] == trace[..k] && IsCall(trace, k, u);
    }
    assert forall k :: 0 <= k < |trace| ==> trace'[k] == trace[k];
  }

  lemma KeptOn<W>(places0: map<W, Place>, n: nat, trace: seq<Event<W>>, places: map<W, Place>,
                  trace': seq<Event<W>>, places': map<W, Place>)
    requires n <= |trace| && trace <= trace'
    requires Kept(places0, n, trace, places) && Kept(places, |trace|, trace', places')
    ensures Kept(places0, n, trace', places')
  {
    forall v <- places0 | places0[v].pending > 0 && OnlyFed(trace', n, v)
      ensures v in places' && places'[v] == places0[v]
    {
      OnlyFedBefore(trace, trace', n, v);
      assert OnlyFed(trace', |trace|, v);
    }
  }

  lemma DiscreetOn<W>(places0: map<W, Place>, pool: set<W>, n: nat, trace: seq<Event<W>>, places: map<W, Place>,
                      trace': seq<Event<W>>, places': map<W, Place>)
    requires n <= |trace| && trace <= trace'
    requires NoneCalled(trace, n) && ClearedIn(trace, n, pool) && Kept(places0, n, trace, places)
    requires NoneCalled(trace', |trace|) && ClearedIn(trace', |trace|, pool) && Kept(places, |trace|, trace', places')
    ensures NoneCalled(trace', n) && ClearedIn(trace', n, pool) && Kept(places0, n, trace', places')
  {
    KeptOn(places0, n, trace, places, trace', places');
    assert forall k :: 0 <= k < |trace| ==> trace'[k] == trace[k];
  }

  /** A priority at which nobody is pending any more. */
  lemma ReachedMore<W>(places0: map<W, Place>, below: nat, pool: set<W>, n: nat, trace: seq<Event<W>>,
                       trace': seq<Event<W>>, places': map<W, Place>)
    requires Reached(places0, below, n, trace) && trace <= trace' && Orderly(places0, pool, n, trace', places')
    requires forall w <- places' :: places'[w].priority == below ==> places'[w].pending == 0
    ensures Reached(places0, below + 1, n, trace')
  {
    forall w <- places0 | places0[w].pending > 0 && places0[w].priority < below + 1 ensures !OnlyFed(trace', n, w) {
      if OnlyFed(trace', n, w) {
        OnlyFedBefore(trace, trace', n, w);
        assert false;
      }
    }
  }

  // ---- what they are told ---------------------------------------------------------------------------------------

  /** Between the n-th and the k-th event, a watcher is called and told these events, perhaps among others. */
  ghost predicate Told<W>(trace: seq<Event<W>>, n: nat, k: nat, w: W, ev: Mask) {
    exists m: nat :: n <= m < k && IsCall(trace, m, w) && ev <= trace[m].events
  }

  /** A watcher that is not cleared, and not only fed, is called and told what it had been fed. */
  lemma {:induction false} ToldAll<W>(trace: seq<Event<W>>, n: nat, k: nat, w: W, ev: Mask)
    requires Replay(trace).Some? && n <= k <= |trace|
    requires FedSince(trace[..n], w).Some? && ev <= FedSince(trace[..n], w).value
    requires !OnlyFed(trace[..k], n, w) && forall j :: n <= j < k && trace[j].w == w ==> !trace[j].Cleared?
    ensures Told(trace, n, k, w, ev)
    decreases k - n
  {
    assert n < k;
    assert trace[..n + 1][..n] == trace[..n];
    if IsCall(trace, n, w) {
      CalledWithAllThatWasFed(trace, n);
    } else {
      ToldAll(trace, n + 1, k, w, ev);
    }
  }

  /** After n events, the next thing that happens to a watcher, but for feeding, is that it is called and told so much,
      or cleared. */
  ghost predicate Answered<W>(trace: seq<Event<W>>, n: nat, w: W, ev: Mask) {
    exists m: nat :: n <= m < |trace| && trace[m].w == w && OnlyFed(trace[..m], n, w)
                     && (trace[m].Cleared? || (trace[m].Called? && ev <= trace[m].events))
  }

  lemma {:induction false} AnswersAll<W>(trace: seq<Event<W>>, n: nat, w: W, ev: Mask)
    requires Replay(trace).Some? && n <= |trace|
    requires FedSince(trace[..n], w).Some? && ev <= FedSince(trace[..n], w).value && !OnlyFed(trace, n, w)
    ensures Answered(trace, n, w, ev)
    decreases |trace| - n
  {
    assert n < |trace|;
    assert trace[..n + 1][..n] == trace[..n];
    if trace[n].w == w && !trace[n].Fed? {
      if trace[n].Called? {
        CalledWithAllThatWasFed(trace, n);
      }
      assert OnlyFed(trace[..n], n, w);
    } else {
      AnswersAll(trace, n + 1, w, ev);
      var m: nat :| n + 1 <= m < |trace| && trace[m].w == w && OnlyFed(trace[..m], n + 1, w)
                    && (trace[m].Cleared? || (trace[m].Called? && ev <= trace[m].events));
      assert OnlyFed(trace[..m], n, w);
    }
  }

  /** What a watcher was fed with the j-th event it still has to be told after n events, if after that everybody was
      only fed. */
  lemma {:induction false} StillFed<W>(trace: seq<Event<W>>, j: nat, n: nat)
    requires j < n <= |trace| && forall k :: j <= k < n ==> trace[k].Fed?
    ensures var fed := FedSince(trace[..n], trace[j].w); fed.Some? && trace[j].events <= fed.value
    decreases n
  {
    assert trace[..n][..n - 1] == trace[..n - 1];
    if j < n - 1 {
      StillFed(trace, j, n - 1);
    }
  }

  /** Since the history had the events of trace, the next thing to happen to a watcher, but for feeding, is that it is
      called and told everything it then had to be told, or cleared. */
  ghost predicate Awaits<W>(trace: seq<Event<W>>, trace': seq<Event<W>>, w: W) {
    FedSince(trace, w).Some? && Answered(trace', |trace|, w, FedSince(trace, w).value)
  }

  lemma IsAnswered<W>(trace: seq<Event<W>>, trace': seq<Event<W>>, w: W, ev: Mask)
    requires trace <= trace' && Replay(trace').Some? && FedSince(trace, w) == Some(ev) && !OnlyFed(trace', |trace|, w)
    ensures Awaits(trace, trace', w)
  {
    assert trace'[..|trace|] == trace;
    AnswersAll(trace', |trace|, w, ev);
  }

  lemma HeldAre<W>(trace: seq<Event<W>>)
    requires Replay(trace).Some?
    ensures forall w <- Replay(trace).value :: FedSince(trace, w) == Some(Replay(trace).value[w])
  {
    forall w <- Replay(trace).value ensures FedSince(trace, w) == Some(Replay(trace).value[w]) {
      HeldIsFedSince(trace, w);
    }
  }

  lemma AnsweredLess<W>(trace: seq<Event<W>>, n: nat, w: W, ev: Mask, ev': Mask)
    requires Answered(trace, n, w, ev) && ev' <= ev
    ensures Answered(trace, n, w, ev')
  {
    var m: nat :| n <= m < |trace| && trace[m].w == w && OnlyFed(trace[..m], n, w)
                  && (trace[m].Cleared? || (trace[m].Called? && ev <= trace[m].events));
  }
}
