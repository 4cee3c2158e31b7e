/**
 The progressive login delay: 64-bit shift arithmetic for the curve, and an in-process map
 of failure counts that forgets idle accounts. Durations are int64 nanoseconds.
 */
module LoginBackoff {
  import opened UserModel
  import opened Sweeping

  const THRESHOLD := 3
  const MILLISECOND := 1_000_000
  const BASE := 250 * MILLISECOND
  const CAP := 4_000 * MILLISECOND
  const IDLE_RESET := 15 * 60 * 1_000 * MILLISECOND

  // ---------- The curve ----------

  const TWO_32 := 0x1_0000_0000
  const TWO_63 := 0x8000_0000_0000_0000
  const TWO_64 := 0x1_0000_0000_0000_0000

  function Pow2(n: nat): nat {
    if n == 0 then 1 else 2 * Pow2(n - 1)
  }

  /** x as a two's complement 64-bit integer. */
  function Wrap64(x: int): int {
    if x % TWO_64 < TWO_63 then x % TWO_64 else x % TWO_64 - TWO_64
  }

  /** A left shift of an int64, which a count of 64 or more empties. */
  function ShiftLeft64(x: int, count: nat): int {
    if count >= 64 then 0 else Wrap64(x * Pow2(count))
  }

  function DelayAfter(failures: nat): int {
    if failures < THRESHOLD then 0
    else
      var d := ShiftLeft64(BASE, failures - THRESHOLD);
      if d > CAP || d <= 0 then CAP else d
  }

  /** The curve as it is documented, in unbounded arithmetic. */
  function Curve(failures: nat): nat {
    if failures < THRESHOLD then 0
    else
      var d := BASE * Pow2(failures - THRESHOLD);
      if d <= CAP then d else CAP
  }

  lemma {:induction false} Pow2Splits(a: nat, b: nat)
    ensures Pow2(a + b) == Pow2(a) * Pow2(b)
  {
    if a == 0 {
    } else {
      Pow2Splits(a - 1, b);
      assert Pow2(a + b) == 2 * Pow2(a - 1 + b);
    }
  }

  lemma {:induction false} Pow2Grows(a: nat, b: nat)
    requires a <= b
    ensures 1 <= Pow2(a) <= Pow2(b)
    decreases b
  {
    if a < b {
      Pow2Grows(a, b - 1);
    } else if a > 0 {
      Pow2Grows(a - 1, b - 1);
    }
  }

  lemma WrapOfMultiple(k: nat)
    ensures Wrap64(TWO_32 * k) <= 0 || Wrap64(TWO_32 * k) >= TWO_32
  {
  }

  /** From 25 doublings on, the shifted base is a multiple of 2^32 and never lands under the cap. */
  lemma LargeShiftsAreCapped(shift: nat)
    requires shift >= 25
    ensures ShiftLeft64(BASE, shift) <= 0 || ShiftLeft64(BASE, shift) > CAP
  {
    if shift < 64 {
      Pow2Splits(25, shift - 25);
      Pow2Of25();
      // BASE is 5^9 times 2^7.
      assert BASE == 1_953_125 * 128 && 128 * 0x200_0000 == TWO_32;
      var rest := Pow2(shift - 25);
      assert BASE * Pow2(shift) == TWO_32 * (1_953_125 * rest);
      WrapOfMultiple(1_953_125 * rest);
    }
  }

  lemma SmallShiftsDoNotWrap(shift: nat)
    requires shift < 25
    ensures ShiftLeft64(BASE, shift) == BASE * Pow2(shift)
  {
    Pow2Grows(shift, 25);
    Pow2Of25();
    var scale := Pow2(shift);
    assert 1 <= scale <= 0x200_0000;
    WrapOfSmall(BASE * scale);
  }

  lemma WrapOfSmall(x: nat)
    requires x < TWO_63
    ensures Wrap64(x) == x
  {
  }

  lemma Pow2Of25()
    ensures Pow2(25) == 0x200_0000
  {
    Pow2Splits(12, 13);
  }

  /** Wraparound never slips a delay under the cap: the 64-bit code follows the curve for every count. */
  lemma DelayFollowsCurve(failures: nat)
    ensures DelayAfter(failures) == Curve(failures)
  {
    if failures >= THRESHOLD {
      var shift := failures - THRESHOLD;
      if shift < 25 {
        Pow2Grows(0, shift);
        SmallShiftsDoNotWrap(shift);
      } else {
        LargeShiftsAreCapped(shift);
        Pow2Grows(25, shift);
        Pow2Of25();
      }
    }
  }

  /** 250 ms, 500 ms, 1 s and 2 s after the third to sixth failure, and 4 s after any more. */
  lemma DocumentedDelays(failures: nat)
    ensures DelayAfter(failures)
            == if failures < 3 then 0
               else if failures == 3 then 250_000_000
               else if failures == 4 then 500_000_000
               else if failures == 5 then 1_000_000_000
               else if failures == 6 then 2_000_000_000
               else 4_000_000_000
  {
    DelayFollowsCurve(failures);
    if failures >= 7 { Pow2Grows(4, failures - 3); }
  }

  lemma DelayIsMonotone(fewer: nat, more: nat)
    requires fewer <= more
    ensures 0 <= DelayAfter(fewer) <= DelayAfter(more) <= CAP
  {
    DelayFollowsCurve(fewer);
    DelayFollowsCurve(more);
    if fewer >= THRESHOLD { Pow2Grows(fewer - THRESHOLD, more - THRESHOLD); }
  }

  // ---------- The map of failure counts ----------

  datatype Entry = Entry(failures: nat, lastAttempt: nat)

  type Entries = map<Email, Entry>

  predicate Idle(entry: Entry, now: nat) {
    now - entry.lastAttempt > IDLE_RESET
  }

  /** How many failures the map holds against email at now. */
  function LiveFailures(entries: Entries, email: Email, now: nat): nat {
    if email in entries && !Idle(entries[email], now) then entries[email].failures else 0
  }

  /** A failure counts for fifteen minutes after the latest one. */
  lemma FailuresCountForFifteenMinutes(entries: Entries, email: Email, now: nat)
    ensures LiveFailures(entries, email, now)
            == if email in entries && now <= entries[email].lastAttempt + 900_000_000_000
               then entries[email].failures else 0
  {
  }

  function AfterDelay(entries: Entries, email: Email, now: nat): Entries {
    if email in entries && Idle(entries[email], now) then entries - {email} else entries
  }

  function AfterFailure(entries: Entries, email: Email, now: nat): Entries {
    entries[email := Entry(LiveFailures(entries, email, now) + 1, now)]
  }

  function AfterSweep(entries: Entries, now: nat): Entries {
    map email | email in entries && !Idle(entries[email], now) :: entries[email]
  }

  class Backoff {
    var entries: Entries

    constructor ()
      ensures entries == map[]
    {
      entries := map[];
    }

    method Delay(email: Email, now: nat) returns (d: int)
      modifies this
      ensures d == DelayAfter(LiveFailures(old(entries), email, now))
      ensures entries == AfterDelay(old(entries), email, now)
      ensures entries - {email} == old(entries) - {email}
    {
      if email !in entries {
        return 0;
      }
      var entry := entries[email];
      if now - entry.lastAttempt > IDLE_RESET {
        entries := entries - {email};
        return 0;
      }
      if entry.failures < THRESHOLD {
        return 0;
      }
      var shift := entry.failures - THRESHOLD;
      d := ShiftLeft64(BASE, shift);
      if d > CAP || d <= 0 {
        return CAP;
      }
    }

    method RecordFailure(email: Email, now: nat)
      modifies this
      ensures entries == AfterFailure(old(entries), email, now)
    {
      var entry := Entry(0, 0);
      if email in entries && !(now - entries[email].lastAttempt > IDLE_RESET) {
        entry := entries[email];
      }
      entry := Entry(entry.failures + 1, now);
      entries := entries[email := entry];
    }

    method RecordSuccess(email: Email)
      modifies this
      ensures entries == old(entries) - {email}
    {
      entries := entries - {email};
    }

    method Sweep(now: nat)
      modifies this
      ensures entries == AfterSweep(old(entries), now)
      ensures forall e :: e in entries <==>
                e in old(entries) && now - old(entries)[e].lastAttempt <= 900_000_000_000
      ensures forall e :: e in entries ==> entries[e] == old(entries)[e]
    {
      var before := entries;
      var todo := entries.Keys;
      while todo != {}
        invariant todo <= before.Keys
        invariant entries == map e | e in before && (e in todo || !Idle(before[e], now)) :: before[e]
        decreases |todo|
      {
        var email :| email in todo;
        todo := todo - {email};
        if now - before[email].lastAttempt > IDLE_RESET {
          entries := entries - {email};
        }
      }
    }
  }

  // ---------- Whole runs ----------

  datatype Op =
    | Delay(email: Email)
    | Failure(email: Email)
    | Success(email: Email)

  function After(entries: Entries, e: Event<Op>): Entries {
    match e
    case Call(Delay(email), at) => AfterDelay(entries, email, at)
    case Call(Failure(email), at) => AfterFailure(entries, email, at)
    case Call(Success(email), _) => entries - {email}
    case Sweep(at) => AfterSweep(entries, at)
  }

  /** The map after a whole history, started empty. */
  function Replay(history: seq<Event<Op>>): Entries {
    if history == [] then map[]
    else After(Replay(history[..|history| - 1]), history[|history| - 1])
  }

  /** Failures walking back from now until a success or a silence longer than the reset. */
  function Streak(history: seq<Event<Op>>, email: Email, now: nat): nat {
    if history == [] then 0
    else
      var earlier := history[..|history| - 1];
      match history[|history| - 1]
      case Call(Failure(who), at) =>
        if who != email then Streak(earlier, email, now)
        else if now - at > IDLE_RESET then 0
        else 1 + Streak(earlier, email, at)
      case Call(Success(who), _) => if who == email then 0 else Streak(earlier, email, now)
      case _ => Streak(earlier, email, now)
  }

  /** The map never holds anything but the streak, whatever was swept or dropped on the way. */
  lemma {:induction false} MapHoldsStreak(history: seq<Event<Op>>, email: Email, now: nat)
    requires Ordered(history, now)
    ensures LiveFailures(Replay(history), email, now) == Streak(history, email, now)
    decreases |history|
  {
    if history != [] {
      var earlier := history[..|history| - 1];
      var e := history[|history| - 1];
      OrderedLater(earlier, e.at, now);
      MapHoldsStreak(earlier, email, now);
      MapHoldsStreak(earlier, email, e.at);
    }
  }

  /** Over any run under a monotone clock, the delay is the curve at the current streak. */
  lemma DelayIsCurveOfStreak(history: seq<Event<Op>>, email: Email, now: nat)
    requires Ordered(history, now)
    ensures DelayAfter(LiveFailures(Replay(history), email, now))
            == Curve(Streak(history, email, now))
  {
    MapHoldsStreak(history, email, now);
    DelayFollowsCurve(Streak(history, email, now));
  }

  // ---------- Sweeps cannot be observed ----------

  /** What the calls of a run answered, in order: the delays. */
  function Answers(history: seq<Event<Op>>): seq<int> {
    if history == [] then []
    else
      var earlier := history[..|history| - 1];
      var e := history[|history| - 1];
      Answers(earlier)
      + if e.Call? && e.op.Delay?
        then [DelayAfter(LiveFailures(Replay(earlier), e.op.email, e.at))] else []
  }

  lemma {:induction false} StreakIgnoresSweeps(history: seq<Event<Op>>, email: Email, now: nat)
    requires Ordered(history, now)
    ensures Ordered(WithoutSweeps(history), now)
    ensures Streak(WithoutSweeps(history), email, now) == Streak(history, email, now)
    decreases |history|
  {
    if history != [] {
      var earlier := history[..|history| - 1];
      var e := history[|history| - 1];
      OrderedLater(earlier, e.at, now);
      StreakIgnoresSweeps(earlier, email, now);
      StreakIgnoresSweeps(earlier, email, e.at);
      if e.Call? { KeptLast(earlier, e); }
    }
  }

  /** Adding or removing sweeps anywhere in a run changes no answer. */
  lemma {:induction false} SweepsAreUnobservable(history: seq<Event<Op>>, now: nat)
    requires Ordered(history, now)
    ensures Answers(WithoutSweeps(history)) == Answers(history)
    decreases |history|
  {
    if history != [] {
      var earlier := history[..|history| - 1];
      var e := history[|history| - 1];
      SweepsAreUnobservable(earlier, e.at);
      if e.Call? {
        KeptLast(earlier, e);
        if e.op.Delay? {
          StreakIgnoresSweeps(earlier, e.op.email, e.at);
          MapHoldsStreak(earlier, e.op.email, e.at);
          MapHoldsStreak(WithoutSweeps(earlier), e.op.email, e.at);
        }
      }
    }
  }
}
