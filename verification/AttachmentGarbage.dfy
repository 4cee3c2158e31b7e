/**
 What becomes of a blob whose row is gone, in every interleaving: it is never referenced again,
 its age is never reset, and a collector pass that runs alone takes it once it is old enough.
 */
module AttachmentGarbage {
  import opened Collections
  import opened AttachmentProtocol

  /** A storage key that had a row and has none now. */
  predicate Gone(s: State, key: Key) {
    key in s.created && key !in s.rows
  }

  /** A key with a row, now or ever, is nobody's to register again. */
  ghost predicate KeysInv(s: State) {
    && s.rows.Keys <= s.created <= s.issued.Keys
    && (forall c :: c in s.uploads && s.uploads[c].at.HasBlob() ==>
          var key := s.uploads[c].at.key;
          key in s.issued && s.issued[key] == c && key !in s.created)
  }

  lemma UploadStepKeepsKeys(cfg: Config, s: State, c: Call, op: UploadOp)
    requires KeysInv(s) && c in s.uploads && UploadStep(cfg, s, c, op).Some?
    ensures KeysInv(UploadStep(cfg, s, c, op).value)
  {
  }

  lemma StepKeepsKeys(cfg: Config, s: State, a: Action)
    requires KeysInv(s) && Step(cfg, s, a).Some?
    ensures KeysInv(Step(cfg, s, a).value)
  {
    if a.Uploading? && a.call in s.uploads { UploadStepKeepsKeys(cfg, s, a.call, a.up); }
  }

  /** The blob of key, if it is there, is the one that was there with its old age. */
  predicate OnlyAges(s: State, s': State, key: Key) {
    key in s'.blobs ==> key in s.blobs && s'.blobs[key] == s.blobs[key]
  }

  lemma UploadStepKeepsGone(cfg: Config, s: State, c: Call, op: UploadOp, key: Key)
    requires KeysInv(s) && Gone(s, key) && c in s.uploads && UploadStep(cfg, s, c, op).Some?
    ensures var s' := UploadStep(cfg, s, c, op).value; Gone(s', key) && OnlyAges(s, s', key)
  {
  }

  lemma {:induction false} StepKeepsGone(cfg: Config, s: State, a: Action, key: Key)
    requires KeysInv(s) && Gone(s, key) && Step(cfg, s, a).Some?
    ensures var s' := Step(cfg, s, a).value; Gone(s', key) && OnlyAges(s, s', key)
  {
    if a.Uploading? && a.call in s.uploads { UploadStepKeepsGone(cfg, s, a.call, a.up, key); }
  }

  lemma {:induction false} RunKeepsGone(cfg: Config, s: State, actions: seq<Action>, key: Key)
    requires KeysInv(s) && Gone(s, key) && Run(cfg, s, actions).Some?
    ensures var s' := Run(cfg, s, actions).value; Gone(s', key) && OnlyAges(s, s', key)
    decreases |actions|
  {
    if actions != [] {
      StepKeepsKeys(cfg, s, actions[0]);
      StepKeepsGone(cfg, s, actions[0], key);
      RunKeepsGone(cfg, Step(cfg, s, actions[0]).value, actions[1..], key);
    }
  }

  lemma {:induction false} RunKeepsKeys(cfg: Config, s: State, actions: seq<Action>)
    requires KeysInv(s) && Run(cfg, s, actions).Some?
    ensures KeysInv(Run(cfg, s, actions).value)
    decreases |actions|
  {
    if actions != [] {
      StepKeepsKeys(cfg, s, actions[0]);
      RunKeepsKeys(cfg, Step(cfg, s, actions[0]).value, actions[1..]);
    }
  }

  // ---------- A pass that runs alone ----------

  function Pass(c: Call, key: Key): seq<Action> {
    [Collecting(c, Start), Collecting(c, ListEntry(key)), Collecting(c, Age),
     Collecting(c, CheckRows), Collecting(c, Collect(key))]
  }

  predicate Collectable(cfg: Config, s: State, key: Key) {
    key in s.blobs && key !in s.rows && s.blobs[key] < s.now - cfg.minAge
  }

  function At(s: State, c: Call, col: Collector): State {
    s.(collectors := s.collectors[c := col])
  }

  lemma PassSteps(cfg: Config, s: State, c: Call, key: Key, col: Collector, op: CollectorOp)
    requires !op.Collect?
    ensures Step(cfg, At(s, c, col), Collecting(c, op))
            == match CollectorStep(cfg, s, col, op)
               case None => None
               case Some(next) => Some(At(s, c, next))
  {
    if CollectorStep(cfg, s, col, op).Some? {
      var next := CollectorStep(cfg, s, col, op).value;
      assert s.collectors[c := col][c := next] == s.collectors[c := next];
    }
  }

  function Stale(cfg: Config, s: State, key: Key): set<Key> {
    if key in s.blobs && s.blobs[key] < s.now - cfg.minAge then {key} else {}
  }

  lemma StaleIsOlder(cfg: Config, s: State, key: Key)
    requires key in s.blobs
    ensures OlderThan(map[key := s.blobs[key]], s.now - cfg.minAge) == Stale(cfg, s, key)
    ensures Stale(cfg, s, key) - s.rows.Keys == if Collectable(cfg, s, key) then {key} else {}
  {
  }

  /** The pass up to its delete: what it is about to remove is key, or nothing. */
  lemma PassChecks(cfg: Config, s: State, c: Call, key: Key)
    requires Fresh(s, c) && key in s.blobs
    ensures var orphans := if Collectable(cfg, s, key) then {key} else {};
            Run(cfg, s, Pass(c, key)[..4]) == Some(At(s, c, Deleting(orphans)))
  {
    var none: map<Key, Time> := map[];
    var refs := none[key := s.blobs[key]];
    var stale := Stale(cfg, s, key);
    StaleIsOlder(cfg, s, key);
    assert refs == map[key := s.blobs[key]];
    PassSteps(cfg, s, c, key, Listing(none), ListEntry(key));
    PassSteps(cfg, s, c, key, Listing(refs), Age);
    PassSteps(cfg, s, c, key, Aged(stale), CheckRows);
    FourSteps(cfg, s, Pass(c, key)[..4], At(s, c, Listing(none)), At(s, c, Listing(refs)),
              At(s, c, Aged(stale)), At(s, c, Deleting(stale - s.rows.Keys)));
  }

  lemma FourSteps(
    cfg: Config, s: State, actions: seq<Action>, a: State, b: State, c: State, d: State)
    requires |actions| == 4
    requires Step(cfg, s, actions[0]) == Some(a) && Step(cfg, a, actions[1]) == Some(b)
    requires Step(cfg, b, actions[2]) == Some(c) && Step(cfg, c, actions[3]) == Some(d)
    ensures Run(cfg, s, actions) == Some(d)
  {
    var r1, r2, r3 := actions[1..], actions[1..][1..], actions[1..][1..][1..];
    assert Run(cfg, d, r3[1..]) == Some(d);
    assert Run(cfg, c, r3) == Some(d);
    assert Run(cfg, b, r2) == Some(d);
    assert Run(cfg, a, r1) == Some(d);
  }

  /** A pass alone can remove a blob exactly if no row has it and it is older than minAge. */
  lemma SoloPassCollects(cfg: Config, s: State, c: Call, key: Key)
    requires Fresh(s, c)
    ensures Run(cfg, s, Pass(c, key)).Some? <==> Collectable(cfg, s, key)
    ensures Collectable(cfg, s, key) ==>
              Run(cfg, s, Pass(c, key))
              == Some(At(s, c, Deleting({})).(blobs := s.blobs - {key}))
  {
    var pass := Pass(c, key);
    if key in s.blobs {
      PassChecks(cfg, s, c, key);
      RunAppend(cfg, s, pass[..4], Collecting(c, Collect(key)));
      assert pass[..4] + [Collecting(c, Collect(key))] == pass;
      if Collectable(cfg, s, key) {
        assert {key} - {key} == {};
        assert s.collectors[c := Deleting({key})][c := Deleting({})] == s.collectors[c := Deleting({})];
      }
    } else {
      NothingToList(cfg, s, c, key);
    }
  }

  lemma NothingToList(cfg: Config, s: State, c: Call, key: Key)
    requires Fresh(s, c) && key !in s.blobs
    ensures Run(cfg, s, Pass(c, key)).None?
  {
    var pass := Pass(c, key);
    var started := Step(cfg, s, pass[0]).value;
    assert Step(cfg, started, pass[1..][0]).None?;
    assert Run(cfg, started, pass[1..]).None?;
  }

  /**
   Whatever happens after a row went, by an attachment delete, a task delete or an account
   deletion: its key never has a row again, its blob only ages, and once that is older than
   minAge a pass alone removes it. No timing is assumed of anyone.
   */
  lemma LeftBehindIsCollected(
    cfg: Config, past: seq<Action>, key: Key, later: seq<Action>, c: Call)
    requires Run(cfg, INIT, past).Some? && Gone(Run(cfg, INIT, past).value, key)
    requires Run(cfg, Run(cfg, INIT, past).value, later).Some?
    requires Fresh(Run(cfg, Run(cfg, INIT, past).value, later).value, c)
    ensures var s := Run(cfg, INIT, past).value;
            var s' := Run(cfg, s, later).value;
            && Gone(s', key) && OnlyAges(s, s', key)
            && (key in s'.blobs && s'.blobs[key] < s'.now - cfg.minAge ==>
                  && Run(cfg, s', Pass(c, key)).Some?
                  && key !in Run(cfg, s', Pass(c, key)).value.blobs
                  && Run(cfg, s', Pass(c, key)).value.rows == s'.rows)
  {
    var s := Run(cfg, INIT, past).value;
    RunKeepsKeys(cfg, INIT, past);
    RunKeepsGone(cfg, s, later, key);
    SoloPassCollects(cfg, Run(cfg, s, later).value, c, key);
  }
}
