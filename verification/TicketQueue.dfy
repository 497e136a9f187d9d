/** The specification of the ring: a bounded queue of numbered tickets. Numbers are handed out to producers and to
    consumers in order; a producer may publish late, and the value it publishes under a number is the value
    delivered under that number. */
module TicketQueue {
  import opened Basics

  datatype Ticket<T> =
    | Claimed(producer: nat)
    | Published(producer: nat, value: T)
    | Taken(producer: nat, value: T, consumer: nat)
    | Delivered(producer: nat, value: T, consumer: nat)
  {
    ghost predicate HasValue(v: T) { !Claimed? && value == v }
  }

  type Positive = n: nat | n > 0 witness 1

  datatype Queue<T> = Queue(capacity: Positive, tickets: seq<Ticket<T>>, taken: nat)

  datatype Event<T> =
    | Internal
    | Claim(producer: nat, num: nat)
    | Publish(producer: nat, num: nat, value: T)
    | Take(consumer: nat, num: nat)
    | Deliver(consumer: nat, num: nat, value: T)

  function Empty<T>(capacity: Positive): Queue<T> { Queue(capacity, [], 0) }

  ghost predicate Enabled<T>(q: Queue<T>, e: Event<T>) {
    match e
    case Internal => true
    case Claim(_, num) =>
      // the next number, and the one a turn back has been delivered
      num == |q.tickets| && (num >= q.capacity ==> q.tickets[num - q.capacity].Delivered?)
    case Publish(p, num, _) => num < |q.tickets| && q.tickets[num] == Claimed(p)
    case Take(_, num) => num == q.taken < |q.tickets| && q.tickets[num].Published?
    case Deliver(c, num, v) =>
      num < |q.tickets| && q.tickets[num].Taken? && q.tickets[num].consumer == c && q.tickets[num].value == v
  }

  ghost function Apply<T>(q: Queue<T>, e: Event<T>): Queue<T>
    requires Enabled(q, e)
  {
    match e
    case Internal => q
    case Claim(p, _) => q.(tickets := q.tickets + [Claimed(p)])
    case Publish(p, num, v) => q.(tickets := q.tickets[num := Published(p, v)])
    case Take(c, num) =>
      var t := q.tickets[num];
      q.(tickets := q.tickets[num := Taken(t.producer, t.value, c)], taken := q.taken + 1)
    case Deliver(c, num, v) =>
      q.(tickets := q.tickets[num := Delivered(q.tickets[num].producer, v, c)])
  }

  /** A trace of events the queue can perform from empty, with the queue it leaves. */
  ghost predicate IsTrace<T(!new)>(events: seq<Event<T>>, capacity: Positive, q: Queue<T>)
    decreases |events|
  {
    if events == [] then q == Empty(capacity)
    else exists before :: IsTrace(Front(events), capacity, before)
                          && Enabled(before, Last(events))
                          && q == Apply(before, Last(events))
  }

  /** Every value a ticket carries was published under its number, by its producer, earlier in the trace. */
  lemma {:induction false} ValueWasPublished<T(!new)>(events: seq<Event<T>>, capacity: Positive, q: Queue<T>, num: nat)
    requires IsTrace(events, capacity, q)
    requires num < |q.tickets| && !q.tickets[num].Claimed?
    ensures exists i :: 0 <= i < |events| && events[i] == Publish(q.tickets[num].producer, num, q.tickets[num].value)
    decreases |events|
  {
    var n := |events| - 1;
    var e := events[n];
    var before :| IsTrace(Front(events), capacity, before) && Enabled(before, e) && q == Apply(before, e);
    if num < |before.tickets| && !before.tickets[num].Claimed? {
      ValueWasPublished(Front(events), capacity, before, num);
      var i :| 0 <= i < n && Front(events)[i] == Publish(q.tickets[num].producer, num, q.tickets[num].value);
      assert events[i] == Front(events)[i];
    } else {
      assert events[n] == Publish(q.tickets[num].producer, num, q.tickets[num].value);
    }
  }

  function CountClaims<T>(events: seq<Event<T>>): nat {
    if events == [] then 0
    else CountClaims(Front(events)) + (if Last(events).Claim? then 1 else 0)
  }

  function CountTakes<T>(events: seq<Event<T>>): nat {
    if events == [] then 0
    else CountTakes(Front(events)) + (if Last(events).Take? then 1 else 0)
  }

  ghost predicate InOrder<T>(q: Queue<T>) {
    && q.taken <= |q.tickets| <= q.taken + q.capacity
    && (forall k :: 0 <= k < |q.tickets| ==> (k < q.taken <==> q.tickets[k].Taken? || q.tickets[k].Delivered?))
    && (forall k :: 0 <= k < |q.tickets| - q.capacity ==> q.tickets[k].Delivered?)
  }

  lemma ApplyKeepsOrder<T>(q: Queue<T>, e: Event<T>)
    requires InOrder(q) && Enabled(q, e)
    ensures InOrder(Apply(q, e)) && Apply(q, e).capacity == q.capacity
  {
  }

  lemma EmptyInOrder<T>(capacity: Positive)
    ensures var q := Empty<T>(capacity); InOrder(q) && q.capacity == capacity && q.tickets == [] && q.taken == 0
  {
  }

  lemma ApplyCounts<T>(q: Queue<T>, e: Event<T>)
    requires Enabled(q, e)
    ensures |Apply(q, e).tickets| == |q.tickets| + (if e.Claim? then 1 else 0)
    ensures Apply(q, e).taken == q.taken + (if e.Take? then 1 else 0)
    ensures e.Claim? ==> e.num == |q.tickets|
    ensures e.Take? ==> e.num == q.taken
  {
  }

  /** The numbers claimed are exactly 0, 1, 2, ...: a claim is numbered by the claims before it, and likewise a take.
      At any time the numbers below `taken` are exactly those consumers have claimed, and claims never run more than
      a turn ahead. */
  lemma {:induction false} NumbersAreHandedOutInOrder<T(!new)>(events: seq<Event<T>>, capacity: Positive, q: Queue<T>)
    requires IsTrace(events, capacity, q)
    ensures q.capacity == capacity && InOrder(q)
    ensures |q.tickets| == CountClaims(events) && q.taken == CountTakes(events)
    ensures forall i :: 0 <= i < |events| && events[i].Claim? ==> events[i].num == CountClaims(events[..i])
    ensures forall i :: 0 <= i < |events| && events[i].Take? ==> events[i].num == CountTakes(events[..i])
    decreases |events|
  {
    hide Apply, Empty, Enabled, InOrder;
    if events == [] {
      EmptyInOrder<T>(capacity);
    } else {
      var before :| IsTrace(Front(events), capacity, before) && Enabled(before, Last(events))
                    && q == Apply(before, Last(events));
      NumbersAreHandedOutInOrder(Front(events), capacity, before);
      ApplyKeepsOrder(before, Last(events));
      ApplyCounts(before, Last(events));
      assert forall i :: 0 <= i < |events| - 1 ==> Front(events)[i] == events[i] && Front(events)[..i] == events[..i];
      assert events[..|events| - 1] == Front(events);
    }
  }

  lemma Settled<T>(q: Queue<T>, e: Event<T>, num: nat)
    requires Enabled(q, e)
    ensures var q' := Apply(q, e);
            && |q.tickets| <= |q'.tickets|
            && (e.Publish? && e.num == num ==>
                  num < |q.tickets| && q'.tickets[num] == Published(e.producer, e.value) && q.tickets[num].Claimed?)
            && (e.Deliver? && e.num == num ==>
                  && num < |q.tickets| && q'.tickets[num].Delivered? && q'.tickets[num].value == e.value
                  && q.tickets[num].Taken?)
            && (num < |q.tickets| && !q.tickets[num].Claimed? ==>
                  && q'.tickets[num].HasValue(q.tickets[num].value)
                  && q'.tickets[num].producer == q.tickets[num].producer)
            && (num < |q.tickets| && q.tickets[num].Delivered? ==> q'.tickets[num] == q.tickets[num])
  {
  }

  /** A number is published at most once and delivered at most once in a trace. */
  lemma {:induction false} PublishedAndDeliveredOnce<T(!new)>(
      events: seq<Event<T>>, capacity: Positive, q: Queue<T>, num: nat, i: nat)
    requires IsTrace(events, capacity, q) && i < |events|
    ensures events[i].Publish? && events[i].num == num ==>
              && num < |q.tickets| && q.tickets[num].HasValue(events[i].value)
              && q.tickets[num].producer == events[i].producer
              && forall j :: i < j < |events| ==> !(events[j].Publish? && events[j].num == num)
    ensures events[i].Deliver? && events[i].num == num ==>
              num < |q.tickets| && q.tickets[num].Delivered? && q.tickets[num].value == events[i].value
              && forall j :: i < j < |events| ==> !(events[j].Deliver? && events[j].num == num)
    decreases |events|
  {
    hide Apply, Empty, Enabled;
    var n := |events| - 1;
    var before :| IsTrace(Front(events), capacity, before) && Enabled(before, events[n])
                  && q == Apply(before, events[n]);
    Settled(before, events[n], num);
    if i < n {
      PublishedAndDeliveredOnce(Front(events), capacity, before, num, i);
      assert forall j :: 0 <= j < n ==> Front(events)[j] == events[j];
    }
  }

  /** First in, first out by number, over a whole trace: what is delivered under a number is what was published
      under it, it was published before, and nothing else was. */
  lemma DeliversWhatWasPublished<T(!new)>(events: seq<Event<T>>, capacity: Positive, q: Queue<T>, j: nat)
    requires IsTrace(events, capacity, q) && j < |events| && events[j].Deliver?
    ensures exists i, p ::
              && 0 <= i < j
              && events[i] == Publish(p, events[j].num, events[j].value)
              && forall k :: 0 <= k < |events| && events[k].Publish? && events[k].num == events[j].num ==> k == i
    decreases |events|
  {
    hide Apply, Empty, Enabled;
    var n := |events| - 1;
    var before :| IsTrace(Front(events), capacity, before) && Enabled(before, events[n])
                  && q == Apply(before, events[n]);
    var num := events[j].num;
    Settled(before, events[n], num);
    if j == n {
      ValueWasPublished(Front(events), capacity, before, num);
      var i :| 0 <= i < n && Front(events)[i] == Publish(before.tickets[num].producer, num, events[j].value);
      assert events[i] == Front(events)[i];
      forall k | 0 <= k < |events| && events[k].Publish? && events[k].num == num ensures k == i {
        PublishedAndDeliveredOnce(events, capacity, q, num, k);
        PublishedAndDeliveredOnce(events, capacity, q, num, i);
      }
      assert events[i] == Publish(before.tickets[num].producer, events[j].num, events[j].value);
    } else {
      DeliversWhatWasPublished(Front(events), capacity, before, j);
      var i, p :| 0 <= i < j && Front(events)[i] == Publish(p, num, events[j].value);
      assert events[i] == Front(events)[i];
      forall k | 0 <= k < |events| && events[k].Publish? && events[k].num == num ensures k == i {
        PublishedAndDeliveredOnce(events, capacity, q, num, k);
        PublishedAndDeliveredOnce(events, capacity, q, num, i);
      }
    }
  }
}
