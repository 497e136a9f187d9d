/** What several modules use. */
module Basics {

  datatype Option<+T> = None | Some(value: T)

  function Front<A>(s: seq<A>): seq<A>
    requires s != []
  {
    s[..|s| - 1]
  }

  function Last<A>(s: seq<A>): A
    requires s != []
  {
    s[|s| - 1]
  }

  /** Where an event loop is that sleeps on the eventfd of a queue and drains the queue when it is woken. */
  datatype LoopPc =
    | Waiting              // in epoll_wait
    | Reading              // the callback runs: read(event_fd_) not yet done
    | Clearing             // flag_ = false not yet done
    | Draining             // the loop over the queue
}
