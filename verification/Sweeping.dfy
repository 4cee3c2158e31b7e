/** Runs of calls under a monotone clock, with sweeps between them that nobody asked for. */
module Sweeping {
  type Time = nat

  datatype Event<Op> =
    | Call(op: Op, at: Time)
    | Sweep(at: Time)

  /** Event times never run backwards, nor past now. */
  predicate Ordered<Op>(history: seq<Event<Op>>, now: Time) {
    history == []
    || (history[|history| - 1].at <= now
        && Ordered(history[..|history| - 1], history[|history| - 1].at))
  }

  function WithoutSweeps<Op>(history: seq<Event<Op>>): seq<Event<Op>> {
    if history == [] then []
    else
      var earlier := WithoutSweeps(history[..|history| - 1]);
      var e := history[|history| - 1];
      if e.Sweep? then earlier else earlier + [e]
  }

  lemma OrderedLater<Op>(history: seq<Event<Op>>, now: Time, later: Time)
    requires Ordered(history, now) && now <= later
    ensures Ordered(history, later)
  {
  }

  /** A call that is kept stays the last one. */
  lemma KeptLast<Op>(earlier: seq<Event<Op>>, e: Event<Op>)
    ensures var kept := WithoutSweeps(earlier) + [e];
            kept[..|kept| - 1] == WithoutSweeps(earlier)
  {
  }
}
