/**
 RunMigrations, run by any number of replicas at once, each of which can crash between any two
 statements, and RunMigrationsDown, run alone.

 A migration's transaction works on the catalogue it saw and overwrites it on commit; the only
 lock between replicas is the primary key of schema_migrations.
 */
module Migrate {
  import opened Collections
  import opened Schema

  type Time = nat
  type Boot = nat
  // A migration is known by its place in filename order.
  type Version = nat

  datatype Progress =
    | Ensuring  // about to create schema_migrations if it is not there
    | Checking(i: nat)  // about to look version i up, or done once past the last file
    | Missing(i: nat)  // found not applied
    | InTx(i: nat, began: Time)
    | Ran(i: nat, began: Time, result: Catalogue)
    | Recorded(i: nat, began: Time, result: Catalogue)

  datatype State = State(
    now: Time,
    catalogue: Catalogue,  // everything but schema_migrations
    table: bool,  // whether schema_migrations exists
    applied: map<Version, Time>,  // schema_migrations: version and applied_at
    pending: map<Version, Boot>,  // uncommitted rows of schema_migrations
    boots: map<Boot, Progress>,
    commits: seq<Version>)  // every migration ever committed, in commit order

  const INIT := State(0, EMPTY, false, map[], map[], map[], [])

  datatype Action =
    | Tick
    | Start(boot: Boot)
    | EnsureTable(boot: Boot)
    | CheckApplied(boot: Boot)
    | BeginTx(boot: Boot)
    | ExecDdl(boot: Boot)
    | RecordVersion(boot: Boot)
    | Commit(boot: Boot)
    | Crash(boot: Boot)  // also a statement that fails: the transaction rolls back
    | EnsureTableForDown
    | Down

  function Moved(s: State, b: Boot, p: Progress): State {
    s.(boots := s.boots[b := p])
  }

  /** b is gone, and with it what it had not committed. */
  function Gone(s: State, b: Boot): State {
    s.(boots := s.boots - {b},
       pending := if b in s.boots && s.boots[b].Recorded? then s.pending - {s.boots[b].i}
                  else s.pending)
  }

  /** The most recent by applied_at. */
  predicate IsLatest(applied: map<Version, Time>, v: Version) {
    v in applied && forall u: Version :: u in applied ==> applied[u] <= applied[v]
  }

  /** One step of the boot b, at p. */
  function BootStep(files: seq<Migration>, s: State, a: Action, b: Boot, p: Progress): Option<State> {
    match (a, p)
    case (EnsureTable(_), Ensuring) => Some(Moved(s, b, Checking(0)).(table := true))
    case (CheckApplied(_), Checking(i)) =>
      if i >= |files| || !s.table then None
      else if i in s.applied then Some(Moved(s, b, Checking(i + 1)))
      else Some(Moved(s, b, Missing(i)))
    case (BeginTx(_), Missing(i)) =>
      // applied_at defaults to now(), the start of the transaction.
      Some(Moved(s, b, InTx(i, s.now)).(now := s.now + 1))
    case (ExecDdl(_), InTx(i, began)) =>
      if i >= |files| then None
      else
        (match ExecAll(s.catalogue, files[i].up)
         case None => None
         case Some(result) => Some(Moved(s, b, Ran(i, began, result))))
    case (RecordVersion(_), Ran(i, began, result)) =>
      // An uncommitted row of another replica blocks; a committed one is a unique violation.
      if i in s.pending then None
      else if i in s.applied then Some(Gone(s, b))
      else Some(Moved(s, b, Recorded(i, began, result)).(pending := s.pending[i := b]))
    case (Commit(_), Recorded(i, began, result)) =>
      Some(Moved(s, b, Checking(i + 1))
           .(catalogue := result, applied := s.applied[i := began],
             pending := s.pending - {i}, commits := s.commits + [i]))
    case _ => None
  }

  /** RunMigrationsDown, in one transaction and with no boot under way. */
  ghost function DownStep(files: seq<Migration>, s: State): Option<State> {
    if s.boots != map[] || !s.table || s.applied == map[] || !(exists v: Version :: IsLatest(s.applied, v)) then None
    else
      var v: Version :| IsLatest(s.applied, v);
      if v >= |files| then None
      else
        match ExecAll(s.catalogue, files[v].down)
        case None => None
        case Some(result) => Some(s.(catalogue := result, applied := s.applied - {v}))
  }

  ghost function Step(files: seq<Migration>, s: State, a: Action): Option<State> {
    match a
    case Tick => Some(s.(now := s.now + 1))
    case Start(b) => if b in s.boots then None else Some(Moved(s, b, Ensuring))
    case Crash(b) => Some(Gone(s, b))
    case EnsureTableForDown => if s.boots == map[] then Some(s.(table := true)) else None
    case Down => DownStep(files, s)
    case _ => if a.boot in s.boots then BootStep(files, s, a, a.boot, s.boots[a.boot]) else None
  }

  ghost function Run(files: seq<Migration>, s: State, actions: seq<Action>): Option<State>
    decreases |actions|
  {
    if actions == [] then Some(s)
    else
      match Run(files, s, actions[..|actions| - 1])
      case None => None
      case Some(s') => Step(files, s', actions[|actions| - 1])
  }

  // ---------- The invariant ----------

  /** Exactly the first |applied| files are recorded, in the order of their applied_at. */
  ghost predicate IsPrefix(files: seq<Migration>, applied: map<Version, Time>) {
    && |applied| <= |files|
    && (forall i: Version :: i in applied <==> i < |applied|)
    && (forall i: Version, j: Version :: i < j && j in applied && i in applied ==>
          applied[i] < applied[j])
  }

  /** The catalogue is what exactly the recorded files make of an empty one. */
  ghost predicate SchemaMatches(files: seq<Migration>, s: State) {
    IsPrefix(files, s.applied) && Fold(files, |s.applied|) == Some(s.catalogue)
  }

  ghost predicate BeganAfter(applied: map<Version, Time>, i: nat, began: Time) {
    forall j: Version :: j < i && j in applied ==> applied[j] < began
  }

  /** What a boot at version i knows: everything before it is applied. */
  ghost predicate BootInv(files: seq<Migration>, s: State, b: Boot, p: Progress) {
    p.Ensuring? || (
    && s.table && p.i <= |s.applied|
    && (!p.Checking? ==> p.i < |files|)
    && (p.InTx? || p.Ran? || p.Recorded? ==> p.began < s.now && BeganAfter(s.applied, p.i, p.began))
    && ((p.Ran? || p.Recorded?) && p.i == |s.applied| && p.i < |files| ==>
          Fold(files, p.i + 1) == Some(p.result))
    && (p.Recorded? ==> p.i == |s.applied| && p.i in s.pending && s.pending[p.i] == b))
  }

  ghost predicate Inv(files: seq<Migration>, s: State) {
    && SchemaMatches(files, s)
    && (!s.table ==> s.applied == map[])
    && (forall i: Version :: i in s.applied ==> s.applied[i] < s.now)
    && (forall b :: b in s.boots ==> BootInv(files, s, b, s.boots[b]))
    && (forall i: Version :: i in s.pending ==>
          s.pending[i] in s.boots && s.boots[s.pending[i]].Recorded? && s.boots[s.pending[i]].i == i)
  }

  lemma OneMoreApplied(files: seq<Migration>, applied: map<Version, Time>, began: Time)
    requires IsPrefix(files, applied) && |applied| < |files|
    requires BeganAfter(applied, |applied|, began)
    ensures IsPrefix(files, applied[|applied| := began])
    ensures |applied[|applied| := began]| == |applied| + 1
  {
  }

  /** What another boot knows when the next version is recorded: it can hold no row of that version. */
  lemma CommitKeepsBoot(files: seq<Migration>, s: State, s': State, d: Boot)
    requires d in s.boots && BootInv(files, s, d, s.boots[d])
    requires var v: Version := |s.applied|; v in s.pending && s.pending[v] != d
    requires s'.table == s.table && s'.now == s.now && |s'.applied| == |s.applied| + 1
    requires forall i: Version :: i < |s.applied| && i in s'.applied ==>
               i in s.applied && s'.applied[i] == s.applied[i]
    ensures BootInv(files, s', d, s.boots[d])
  {
  }

  lemma CommitMatches(files: seq<Migration>, s: State, b: Boot)
    requires Inv(files, s) && Step(files, s, Commit(b)).Some?
    ensures var s' := Step(files, s, Commit(b)).value;
            && SchemaMatches(files, s') && |s'.applied| == |s.applied| + 1
            && s'.applied == s.applied[|s.applied| := s.boots[b].began]
            && s.boots[b].i == |s.applied| && s.boots[b].began < s.now
            && s.boots[b].i in s.pending && s.pending[s.boots[b].i] == b
  {
    assert BootInv(files, s, b, s.boots[b]);
    OneMoreApplied(files, s.applied, s.boots[b].began);
  }

  lemma CommitKeepsPending(files: seq<Migration>, s: State, b: Boot)
    requires Inv(files, s) && Step(files, s, Commit(b)).Some?
    ensures var s' := Step(files, s, Commit(b)).value;
            forall i: Version :: i in s'.pending ==>
              && s'.pending[i] in s'.boots && s'.boots[s'.pending[i]].Recorded?
              && s'.boots[s'.pending[i]].i == i
  {
  }

  /** A commit that overwrites the schema with what its transaction saw is never stale. */
  lemma {:induction false} CommitKeepsInv(files: seq<Migration>, s: State, b: Boot)
    requires Inv(files, s) && Step(files, s, Commit(b)).Some?
    ensures Inv(files, Step(files, s, Commit(b)).value)
  {
    var s' := Step(files, s, Commit(b)).value;
    CommitMatches(files, s, b);
    CommitKeepsPending(files, s, b);
    forall d | d in s'.boots ensures BootInv(files, s', d, s'.boots[d]) {
      if d != b { CommitKeepsBoot(files, s, s', d); }
    }
  }

  /** Steps that leave catalogue and records alone leave what other boots know. */
  lemma OtherBootUnaffected(files: seq<Migration>, s: State, s': State, d: Boot)
    requires d in s.boots && BootInv(files, s, d, s.boots[d])
    requires s'.applied == s.applied && s'.now >= s.now && (s.table ==> s'.table)
    requires forall i: Version :: i in s.pending ==> i in s'.pending && s'.pending[i] == s.pending[i]
    ensures BootInv(files, s', d, s.boots[d])
  {
  }

  lemma {:induction false} EnsureKeepsInv(files: seq<Migration>, s: State, b: Boot)
    requires Inv(files, s) && Step(files, s, EnsureTable(b)).Some?
    ensures Inv(files, Step(files, s, EnsureTable(b)).value)
  {
    var s' := Step(files, s, EnsureTable(b)).value;
    assert BootInv(files, s, b, s.boots[b]);
    forall d | d in s'.boots ensures BootInv(files, s', d, s'.boots[d]) {
      if d != b { OtherBootUnaffected(files, s, s', d); }
    }
  }

  lemma {:induction false} CheckKeepsInv(files: seq<Migration>, s: State, b: Boot)
    requires Inv(files, s) && Step(files, s, CheckApplied(b)).Some?
    ensures Inv(files, Step(files, s, CheckApplied(b)).value)
  {
    var s' := Step(files, s, CheckApplied(b)).value;
    assert BootInv(files, s, b, s.boots[b]);
    forall d | d in s'.boots ensures BootInv(files, s', d, s'.boots[d]) {
      if d != b { OtherBootUnaffected(files, s, s', d); }
    }
  }

  lemma {:induction false} BeginKeepsInv(files: seq<Migration>, s: State, b: Boot)
    requires Inv(files, s) && Step(files, s, BeginTx(b)).Some?
    ensures Inv(files, Step(files, s, BeginTx(b)).value)
  {
    var s' := Step(files, s, BeginTx(b)).value;
    assert BootInv(files, s, b, s.boots[b]);
    forall d | d in s'.boots ensures BootInv(files, s', d, s'.boots[d]) {
      if d != b { OtherBootUnaffected(files, s, s', d); }
    }
  }

  lemma {:induction false} ExecKeepsInv(files: seq<Migration>, s: State, b: Boot)
    requires Inv(files, s) && Step(files, s, ExecDdl(b)).Some?
    ensures Inv(files, Step(files, s, ExecDdl(b)).value)
  {
    var s' := Step(files, s, ExecDdl(b)).value;
    assert BootInv(files, s, b, s.boots[b]);
    forall d | d in s'.boots ensures BootInv(files, s', d, s'.boots[d]) {
      if d != b { OtherBootUnaffected(files, s, s', d); }
    }
  }

  lemma RecordKeepsInv(files: seq<Migration>, s: State, b: Boot)
    requires Inv(files, s) && Step(files, s, RecordVersion(b)).Some?
    ensures Inv(files, Step(files, s, RecordVersion(b)).value)
  {
    var s' := Step(files, s, RecordVersion(b)).value;
    assert BootInv(files, s, b, s.boots[b]);
    forall d | d in s'.boots ensures BootInv(files, s', d, s'.boots[d]) {
      if d != b { OtherBootUnaffected(files, s, s', d); }
    }
  }

  lemma CrashKeepsInv(files: seq<Migration>, s: State, b: Boot)
    requires Inv(files, s)
    ensures Inv(files, Gone(s, b))
  {
    var s' := Gone(s, b);
    forall d | d in s'.boots ensures BootInv(files, s', d, s'.boots[d]) {
      assert BootInv(files, s, d, s.boots[d]);
    }
  }

  lemma OtherKeepsInv(files: seq<Migration>, s: State, a: Action)
    requires Inv(files, s) && Step(files, s, a).Some?
    requires a.Tick? || a.Start? || a.EnsureTableForDown?
    ensures Inv(files, Step(files, s, a).value)
  {
    var s' := Step(files, s, a).value;
    forall d | d in s'.boots ensures BootInv(files, s', d, s'.boots[d]) {
      if d in s.boots { OtherBootUnaffected(files, s, s', d); }
    }
  }

  lemma LatestIsLast(files: seq<Migration>, applied: map<Version, Time>, v: Version)
    requires IsPrefix(files, applied) && |applied| > 0
    ensures IsLatest(applied, v) <==> v == |applied| - 1
  {
    var last: Version := |applied| - 1;
    assert last in applied;
  }

  lemma FewerApplied(files: seq<Migration>, applied: map<Version, Time>)
    requires IsPrefix(files, applied) && |applied| > 0
    ensures IsPrefix(files, applied - {|applied| - 1})
    ensures |applied - {|applied| - 1}| == |applied| - 1
  {
  }

  /** Alone, a down takes exactly the last recorded file back. */
  lemma DownRevertsLast(files: seq<Migration>, s: State)
    requires Reversible(files) && SchemaMatches(files, s) && s.table && s.boots == map[]
    requires |s.applied| > 0
    ensures var last := |s.applied| - 1;
            && Fold(files, last).Some?
            && DownStep(files, s) == Some(s.(catalogue := Fold(files, last).value,
                                             applied := s.applied - {last}))
  {
    var last: Version := |s.applied| - 1;
    forall v: Version ensures IsLatest(s.applied, v) <==> v == last {
      LatestIsLast(files, s.applied, v);
    }
    assert IsLatest(s.applied, last);
    assert ReversibleAt(files, last);
  }

  lemma {:induction false} DownKeepsInv(files: seq<Migration>, s: State)
    requires Reversible(files) && Inv(files, s) && DownStep(files, s).Some?
    ensures Inv(files, DownStep(files, s).value)
  {
    assert |s.applied| > 0;
    DownRevertsLast(files, s);
    OneTakenBack(files, s);
  }

  lemma OneTakenBack(files: seq<Migration>, s: State)
    requires Inv(files, s) && s.boots == map[] && |s.applied| > 0
    requires Fold(files, |s.applied| - 1).Some?
    ensures Inv(files, s.(catalogue := Fold(files, |s.applied| - 1).value,
                          applied := s.applied - {|s.applied| - 1}))
  {
    FewerApplied(files, s.applied);
  }

  ghost predicate UpOnly(actions: seq<Action>) {
    forall a :: a in actions ==> !a.Down?
  }

  lemma {:induction false} RunKeepsInv(files: seq<Migration>, actions: seq<Action>)
    requires Reversible(files) || UpOnly(actions)
    requires Run(files, INIT, actions).Some?
    ensures Inv(files, Run(files, INIT, actions).value)
    decreases |actions|
  {
    if actions == [] {
      assert Fold(files, 0) == Some(EMPTY);
    } else {
      var earlier, a := actions[..|actions| - 1], actions[|actions| - 1];
      assert a in actions && forall x :: x in earlier ==> x in actions;
      RunKeepsInv(files, earlier);
      var t := Run(files, INIT, earlier).value;
      match a {
        case Commit(b) => CommitKeepsInv(files, t, b);
        case Down => DownKeepsInv(files, t);
        case Tick => OtherKeepsInv(files, t, a);
        case Start(_) => OtherKeepsInv(files, t, a);
        case Crash(b) => CrashKeepsInv(files, t, b);
        case RecordVersion(b) => RecordKeepsInv(files, t, b);
        case EnsureTableForDown => OtherKeepsInv(files, t, a);
        case EnsureTable(b) => EnsureKeepsInv(files, t, b);
        case CheckApplied(b) => CheckKeepsInv(files, t, b);
        case BeginTx(b) => BeginKeepsInv(files, t, b);
        case ExecDdl(b) => ExecKeepsInv(files, t, b);
      }
    }
  }

  /**
   Whatever replicas race and crash, the schema is that of exactly the recorded migrations,
   these are the first ones in filename order, and applied_at follows that order. Only a down
   asks anything of the files.
   */
  lemma {:induction false} SchemaIsWhatIsRecorded(files: seq<Migration>, actions: seq<Action>)
    requires Reversible(files) || UpOnly(actions)
    requires Run(files, INIT, actions).Some?
    ensures SchemaMatches(files, Run(files, INIT, actions).value)
  {
    RunKeepsInv(files, actions);
  }

  // ---------- Each at most once ----------

  /** What was committed is what is recorded, in filename order. */
  predicate EachOnce(s: State) {
    |s.commits| == |s.applied| && forall k :: 0 <= k < |s.commits| ==> s.commits[k] == k
  }

  lemma OtherStepCommitsNothing(files: seq<Migration>, s: State, a: Action)
    requires !a.Commit? && !a.Down? && Step(files, s, a).Some?
    ensures var s' := Step(files, s, a).value; s'.commits == s.commits && s'.applied == s.applied
  {
  }

  lemma {:induction false} StepKeepsEachOnce(files: seq<Migration>, s: State, a: Action)
    requires Inv(files, s) && EachOnce(s) && !a.Down? && Step(files, s, a).Some?
    ensures EachOnce(Step(files, s, a).value)
  {
    if a.Commit? {
      CommitMatches(files, s, a.boot);
    } else {
      OtherStepCommitsNothing(files, s, a);
    }
  }

  /** Without downs, every migration is committed at most once, in filename order. */
  lemma {:induction false} CommittedOnce(files: seq<Migration>, actions: seq<Action>)
    requires UpOnly(actions) && Run(files, INIT, actions).Some?
    ensures EachOnce(Run(files, INIT, actions).value)
    decreases |actions|
  {
    if actions != [] {
      var earlier, a := actions[..|actions| - 1], actions[|actions| - 1];
      assert a in actions && forall x :: x in earlier ==> x in actions;
      CommittedOnce(files, earlier);
      RunKeepsInv(files, earlier);
      StepKeepsEachOnce(files, Run(files, INIT, earlier).value, a);
    }
  }

  // ---------- Down ----------

  function Downs(k: nat): seq<Action> {
    if k == 0 then [] else Downs(k - 1) + [Down]
  }

  /** after is before with its last k migrations taken back, schema and records alike. */
  ghost predicate TakenBack(files: seq<Migration>, before: State, k: nat, after: State) {
    && after.boots == map[] && Inv(files, after)
    && |after.applied| + k == |before.applied|
    && (forall i: Version :: i in after.applied ==>
          i in before.applied && after.applied[i] == before.applied[i])
  }

  lemma OneMoreTakenBack(files: seq<Migration>, before: State, k: nat, mid: State)
    requires Reversible(files) && 0 < k && TakenBack(files, before, k - 1, mid)
    requires |mid.applied| > 0
    ensures DownStep(files, mid).Some?
    ensures TakenBack(files, before, k, DownStep(files, mid).value)
  {
    DownRevertsLast(files, mid);
    DownKeepsInv(files, mid);
    FewerApplied(files, mid.applied);
  }

  ghost function AfterDowns(files: seq<Migration>, s: State, k: nat): Option<State> {
    if k == 0 then Some(s)
    else
      match AfterDowns(files, s, k - 1)
      case None => None
      case Some(mid) => DownStep(files, mid)
  }

  lemma RunDown(files: seq<Migration>, s: State, actions: seq<Action>)
    ensures Run(files, s, actions + [Down])
            == match Run(files, s, actions) case None => None case Some(mid) => DownStep(files, mid)
  {
    assert (actions + [Down])[..|actions|] == actions;
  }

  lemma {:induction false} RunOfDowns(files: seq<Migration>, s: State, k: nat)
    ensures Run(files, s, Downs(k)) == AfterDowns(files, s, k)
    decreases k
  {
    if k > 0 {
      RunOfDowns(files, s, k - 1);
      RunDown(files, s, Downs(k - 1));
    }
  }

  lemma {:induction false} DownsTakeBack(files: seq<Migration>, s: State, k: nat)
    requires Reversible(files) && Inv(files, s) && s.boots == map[] && k <= |s.applied|
    ensures AfterDowns(files, s, k).Some?
    ensures TakenBack(files, s, k, AfterDowns(files, s, k).value)
    decreases k
  {
    if k > 0 {
      DownsTakeBack(files, s, k - 1);
      OneMoreTakenBack(files, s, k, AfterDowns(files, s, k - 1).value);
    }
  }

  /** k solo downs restore the schema and the records of k migrations earlier. */
  lemma {:induction false} DownsRestore(files: seq<Migration>, s: State, k: nat)
    requires Reversible(files) && Inv(files, s) && s.boots == map[] && k <= |s.applied|
    ensures Run(files, s, Downs(k)).Some?
    ensures TakenBack(files, s, k, Run(files, s, Downs(k)).value)
  {
    RunOfDowns(files, s, k);
    DownsTakeBack(files, s, k);
  }

  /** With nothing recorded there is nothing to revert. */
  lemma NothingToRevert(files: seq<Migration>, s: State)
    requires Inv(files, s) && s.boots == map[]
    requires Reversible(files)
    ensures DownStep(files, s).None? <==> s.applied == map[]
  {
    if |s.applied| > 0 { DownRevertsLast(files, s); }
  }

  // ---------- One replica alone ----------

  lemma {:induction false} LatestCanGo(
    files: seq<Migration>, applied: map<Version, Time>, catalogue: Catalogue, v: Version)
    requires Reversible(files) && IsPrefix(files, applied) && IsLatest(applied, v)
    requires Fold(files, |applied|) == Some(catalogue)
    ensures v == |applied| - 1 && v < |files|
    ensures Fold(files, v).Some? && ExecAll(catalogue, files[v].down) == Fold(files, v)
    ensures IsPrefix(files, applied - {v}) && |applied - {v}| == v
  {
    assert |applied| > 0;
    LatestIsLast(files, applied, v);
    assert ReversibleAt(files, v);
    FewerApplied(files, applied);
  }

  ghost predicate Keeps(before: map<Version, Time>, after: map<Version, Time>) {
    forall i: Version :: i in before ==> i in after && after[i] == before[i]
  }

  class Database {
    var catalogue: Catalogue
    var table: bool
    var applied: map<Version, Time>
    var now: Time

    ghost predicate Consistent(files: seq<Migration>)
      reads this
    {
      && IsPrefix(files, applied) && Fold(files, |applied|) == Some(catalogue)
      && (!table ==> applied == map[])
      && (forall i: Version :: i in applied ==> applied[i] < now)
    }

    constructor (now: Time)
      ensures catalogue == EMPTY && !table && applied == map[] && this.now == now
      ensures forall files :: Consistent(files)
    {
      catalogue, table, applied, this.now := EMPTY, false, map[], now;
    }

    /** CREATE TABLE IF NOT EXISTS: what is already recorded stays. */
    method EnsureMigrationsTable(fails: bool) returns (ok: bool)
      modifies this`table
      ensures ok <==> !fails
      ensures table == (ok || old(table))
    {
      if !fails {
        table := true;
      }
      return !fails;
    }

    /** A failing statement, a crash or fails rolls the transaction back. */
    method ApplyMigration(files: seq<Migration>, v: Version, fails: bool) returns (ok: bool)
      requires Consistent(files) && table && v == |applied| < |files|
      modifies this`catalogue, this`applied, this`now
      ensures Consistent(files)
      ensures ok <==> !fails && Fold(files, v + 1).Some?
      ensures if ok then applied == old(applied)[v := old(now)] && |applied| == v + 1
              else applied == old(applied) && catalogue == old(catalogue)
    {
      var began := now;
      now := now + 1;
      var result := ExecAll(catalogue, files[v].up);
      if result.None? || fails {
        return false;
      }
      OneMoreApplied(files, applied, began);
      catalogue, applied := result.value, applied[v := began];
      return true;
    }

    /** One turn of the loop: look version v up, and apply it unless it is recorded. */
    method MigrateTo(files: seq<Migration>, v: Version, fails: bool) returns (ok: bool)
      requires Consistent(files) && table && v < |files| && v <= |applied|
      requires Fold(files, v + 1).Some?
      modifies this`catalogue, this`applied, this`now
      ensures Consistent(files)
      ensures ok <==> v < |applied|
      ensures !fails || v < old(|applied|) ==> ok
      ensures |applied| >= old(|applied|) && Keeps(old(applied), applied)
    {
      if v in applied {
        return true;
      }
      ok := ApplyMigration(files, v, fails);
    }

    /** Picks up wherever an earlier boot stopped; faults names the migrations that fail this time. */
    method RunMigrations(files: seq<Migration>, ensureFails: bool, faults: set<Version>)
      returns (ok: bool)
      requires Consistent(files) && Fold(files, |files|).Some?
      modifies this
      ensures Consistent(files)
      ensures ok ==> table && |applied| == |files|
      ensures !ensureFails && (faults == {} || |applied| == |files|) ==> ok
      ensures ensureFails ==> !ok && applied == old(applied) && catalogue == old(catalogue)
      ensures |applied| >= old(|applied|)
      ensures Keeps(old(applied), applied)
    {
      ok := EnsureMigrationsTable(ensureFails);
      if ok {
        ok := ApplyMissing(files, faults);
      }
    }

    method ApplyMissing(files: seq<Migration>, faults: set<Version>) returns (ok: bool)
      requires Consistent(files) && table && Fold(files, |files|).Some?
      modifies this`catalogue, this`applied, this`now
      ensures Consistent(files)
      ensures ok <==> |applied| == |files|
      ensures faults == {} ==> ok
      ensures |applied| >= old(|applied|)
      ensures Keeps(old(applied), applied)
    {
      for v := 0 to |files|
        invariant Consistent(files) && v <= |applied|
        invariant |applied| >= old(|applied|) && Keeps(old(applied), applied)
      {
        FoldsBefore(files, v + 1);
        ok := MigrateTo(files, v, v in faults);
        if !ok {
          return;
        }
      }
      return true;
    }

    /** None where there is nothing to revert or the transaction failed. */
    method RunMigrationsDown(files: seq<Migration>, ensureFails: bool, fails: bool)
      returns (reverted: Option<Version>)
      requires Consistent(files) && Reversible(files)
      modifies this`catalogue, this`applied, this`table
      ensures Consistent(files)
      ensures reverted.Some? <==> old(applied) != map[] && !ensureFails && !fails
      ensures if reverted.None? then applied == old(applied) && catalogue == old(catalogue)
              else && reverted.value == |old(applied)| - 1
                   && applied == old(applied) - {reverted.value}
                   && |applied| == |old(applied)| - 1
    {
      var ready := EnsureMigrationsTable(ensureFails);
      if !ready || applied == map[] {
        return None;
      }
      var v := LatestAppliedMigration();
      LatestCanGo(files, applied, catalogue, v);
      var result := ExecAll(catalogue, files[v].down);
      if result.None? || fails {
        return None;
      }
      catalogue, applied := result.value, applied - {v};
      return Some(v);
    }

    method LatestAppliedMigration() returns (v: Version)
      requires applied != map[]
      ensures IsLatest(applied, v)
    {
      v :| v in applied;
      var todo := applied.Keys - {v};
      while todo != {}
        invariant todo <= applied.Keys && v in applied
        invariant forall u: Version :: u in applied.Keys - todo ==> applied[u] <= applied[v]
        decreases |todo|
      {
        var u :| u in todo;
        todo := todo - {u};
        if applied[u] > applied[v] {
          v := u;
        }
      }
    }
  }

  lemma {:induction false} FoldsBefore(files: seq<Migration>, n: nat)
    requires n <= |files| && Fold(files, |files|).Some?
    ensures Fold(files, n).Some?
    decreases |files| - n
  {
    if n < |files| { FoldsBefore(files, n + 1); }
  }
}
