/**
 The rollback ratchet shared through one versioned cluster object. Any number of controllers
 interleave their API calls; each read, create and replace is one step, and the store may also be
 changed or emptied by others. Nothing here consults the leader lease.
 */
module ClusterRatchet {
  import opened Format
  import opened Records
  import opened Ratchet
  import opened RatchetFacts

  // ---------------------------------------------------------------------------------------
  // The versioned object
  // ---------------------------------------------------------------------------------------

  /** A stored ratchet that authenticates and decodes for this root and identity, or one that does not. */
  datatype Content = Authentic(ratchet: RatchetState) | Tampered

  /** `owned` is whether the metadata passes the ownership and label checks. */
  datatype Object = Object(revision: nat, owned: bool, content: Content)

  /** The API server's cell: every write gets a revision never used before. */
  datatype Store = Store(cell: Option<Object>, nextRevision: nat)
  {
    predicate CanCreate() { cell.None? }

    predicate CanReplace(expected: nat) { cell.Some? && cell.value.revision == expected }

    function Put(owned: bool, content: Content): Store {
      Store(Some(Object(nextRevision, owned, content)), nextRevision + 1)
    }
  }

  // ---------------------------------------------------------------------------------------
  // One reconcile run, between API calls
  // ---------------------------------------------------------------------------------------

  /** Why a run is writing: over the ratchet it loaded, into an empty cell, or to restore trust. */
  datatype Origin =
    | FromLoad(update: RatchetUpdate, basis: RatchetState)
    | FromNothing(update: RatchetUpdate, facts: seq<RatchetRecord>)
    | FromRejected(update: RatchetUpdate, facts: seq<RatchetRecord>, established: bool)

  /** How a run stands towards the stored ratchet. `basis` is what its own load returned, when it
      returned one; a run on `Recover` found a state it could not authenticate. */
  datatype Run =
    | Idle
    | MetadataSeen
    | Loaded(basis: RatchetState, revision: nat)
    | FoundNothing
    | LoadRejected
    | Recover(baseline: RatchetState, facts: seq<RatchetRecord>, established: bool)
    | Writing(origin: Origin, next: RatchetState, expected: Option<nat>)
    | Saving(origin: Origin, next: RatchetState, expected: Option<nat>)

  datatype SaveRecord = SaveRecord(origin: Origin, expected: Option<nat>, revision: nat, stored: RatchetState)

  datatype System = System(store: Store, runs: map<nat, Run>, log: seq<SaveRecord>)

  datatype Step =
    | ReadMetadata(id: nat)
    | ReadObject(id: nat)
    | Validate(id: nat, update: RatchetUpdate)
    | OpenBaseline(id: nat, root: HashValue, facts: seq<RatchetRecord>, update: RatchetUpdate, trustEstablished: bool)
    | GetRevision(id: nat, update: RatchetUpdate)
    | CheckRevision(id: nat)
    | Save(id: nat)
    | Abandon(id: nat)
    | Overwrite(owned: bool, content: Content)
    | Delete

  function RunOf(s: System, id: nat): Run {
    if id in s.runs then s.runs[id] else Idle
  }

  function With(s: System, id: nat, run: Run): System {
    s.(runs := s.runs[id := run])
  }

  /** `ratchet_from_baseline`: a fresh ratchet that absorbs every fact but the scope record. */
  function FromBaseline(root: HashValue, facts: seq<RatchetRecord>): RatchetState {
    AbsorbedAll(Fresh(root), facts)
  }

  /** The effect of one step; a step that does not apply to the run's position changes nothing. */
  function Next(s: System, step: Step): System {
    match step
    case ReadMetadata(id) =>
      if !RunOf(s, id).Idle? then s
      else if s.store.cell.None? then With(s, id, FoundNothing)
      else if !s.store.cell.value.owned then With(s, id, LoadRejected)
      else With(s, id, MetadataSeen)
    case ReadObject(id) =>
      if !RunOf(s, id).MetadataSeen? then s
      else if s.store.cell.None? then With(s, id, Idle)
      else
        var held := s.store.cell.value;
        if !held.owned || held.content.Tampered? then With(s, id, LoadRejected)
        else With(s, id, Loaded(held.content.ratchet, held.revision))
    case Validate(id, update) =>
      (match RunOf(s, id)
       case Loaded(basis, revision) => With(s, id, Writing(FromLoad(update, basis), Updated(basis, update),
           Some(revision)))
       case _ => s)
    case OpenBaseline(id, root, facts, update, trustEstablished) =>
      (match RunOf(s, id)
       case FoundNothing =>
         With(s, id, Writing(FromNothing(update, facts), Updated(FromBaseline(root, facts), update), None))
       case LoadRejected =>
         With(s, id, if trustEstablished then Recover(FromBaseline(root, facts), facts, trustEstablished) else Idle)
       case _ => s)
    case GetRevision(id, update) =>
      (match RunOf(s, id)
       case Recover(baseline, facts, established) =>
         var origin := FromRejected(update, facts, established);
         (match s.store.cell
          case None => With(s, id, Writing(origin, Updated(baseline, update), None))
          case Some(held) =>
            if !held.owned then With(s, id, Idle)
            else With(s, id, Writing(origin, Updated(baseline, update), Some(held.revision))))
       case _ => s)
    case CheckRevision(id) =>
      (match RunOf(s, id)
       case Writing(origin, next, expected) =>
         var previous := match s.store.cell case None => None case Some(held) => Some(held.revision);
         if (s.store.cell.Some? && !s.store.cell.value.owned) || previous != expected then With(s, id, Idle)
         else With(s, id, Saving(origin, next, expected))
       case _ => s)
    case Save(id) =>
      (match RunOf(s, id)
       case Saving(origin, next, expected) =>
         if match expected case None => s.store.CanCreate() case Some(revision) => s.store.CanReplace(revision)
         then System(s.store.Put(true, Authentic(next)), s.runs[id := Idle],
                     s.log + [SaveRecord(origin, expected, s.store.nextRevision, next)])
         else With(s, id, Idle)
       case _ => s)
    case Abandon(id) => With(s, id, Idle)
    case Overwrite(owned, content) => s.(store := s.store.Put(owned, content))
    case Delete => s.(store := s.store.(cell := None))
  }

  function Execute(s: System, steps: seq<Step>): System
    decreases |steps|
  {
    if steps == [] then s else Execute(Next(s, steps[0]), steps[1..])
  }

  // ---------------------------------------------------------------------------------------
  // What every step keeps
  // ---------------------------------------------------------------------------------------

  /** If the cell still shows `revision`, it still holds `basis`. */
  predicate Pins(store: Store, revision: nat, basis: RatchetState) {
    && revision < store.nextRevision
    && (store.CanReplace(revision) ==> store.cell.value.owned && store.cell.value.content == Authentic(basis))
  }

  /** The fact's counter at its key, or its format version, is remembered or exceeded. */
  predicate Remembers(r: RatchetState, fact: RatchetRecord) {
    && (fact.Key().Some? ==>
          fact.Key().value in r.watermarks && fact.Counter() <= r.watermarks[fact.Key().value])
    && (fact.FormatVersionFact? ==> fact.version <= r.formatVersion)
  }

  predicate Covers(r: RatchetState, facts: seq<RatchetRecord>) {
    forall i :: 0 <= i < |facts| ==> Remembers(r, facts[i])
  }

  lemma BaselineCovered(root: HashValue, facts: seq<RatchetRecord>)
    ensures Covers(FromBaseline(root, facts), facts)
  {
    AbsorbedVersion(Fresh(root), facts);
    forall i | 0 <= i < |facts| ensures Remembers(FromBaseline(root, facts), facts[i]) {
      if facts[i].Key().Some? {
        AbsorbedWatermark(Fresh(root), facts, facts[i].Key().value);
        assert KeyedAt(facts, i, facts[i].Key().value);
      }
    }
  }

  lemma UpdatedCovers(r: RatchetState, update: RatchetUpdate, facts: seq<RatchetRecord>)
    requires Covers(r, facts)
    ensures Covers(Updated(r, update), facts)
  {
    forall i | 0 <= i < |facts| ensures Remembers(Updated(r, update), facts[i]) {
      assert Remembers(r, facts[i]);
    }
  }

  /** What the validation raised is remembered or exceeded. */
  predicate Follows(r: RatchetState, update: RatchetUpdate) {
    && (forall key :: key in update.raisedWatermarks ==>
          key in r.watermarks && update.raisedWatermarks[key] <= r.watermarks[key])
    && (update.raisedFormatVersion.Some? ==> update.raisedFormatVersion.value <= r.formatVersion)
  }

  lemma UpdatedFollows(r: RatchetState, update: RatchetUpdate)
    ensures Follows(Updated(r, update), update)
  {
  }

  predicate Grounded(store: Store, origin: Origin, next: RatchetState, expected: Option<nat>) {
    match origin
    case FromLoad(update, basis) =>
      expected.Some? && Pins(store, expected.value, basis) && AtLeast(next, basis) && Follows(next, update)
    case FromNothing(update, facts) => expected.None? && Covers(next, facts) && Follows(next, update)
    case FromRejected(update, facts, established) =>
      && established && Covers(next, facts) && Follows(next, update)
      && (expected.Some? ==>
            expected.value < store.nextRevision && (store.CanReplace(expected.value) ==> store.cell.value.owned))
  }

  predicate RunGrounded(store: Store, run: Run) {
    match run
    case Loaded(basis, revision) => Pins(store, revision, basis)
    case Recover(baseline, facts, established) => established && Covers(baseline, facts)
    case Writing(origin, next, expected) => Grounded(store, origin, next, expected)
    case Saving(origin, next, expected) => Grounded(store, origin, next, expected)
    case _ => true
  }

  /** A revision some save has consumed is never shown again. */
  predicate Consumed(store: Store, revision: nat) {
    revision < store.nextRevision && !store.CanReplace(revision)
  }

  ghost predicate Invariant(s: System) {
    && (s.store.cell.Some? ==> s.store.cell.value.revision < s.store.nextRevision)
    && (forall id :: id in s.runs ==> RunGrounded(s.store, s.runs[id]))
    && (forall i :: 0 <= i < |s.log| && s.log[i].expected.Some? ==> Consumed(s.store, s.log[i].expected.value))
    && (forall i, j :: 0 <= i < j < |s.log| && s.log[i].expected.Some? ==> s.log[i].expected != s.log[j].expected)
  }

  /** Only a fresh revision or an empty cell replaces what the cell shows. */
  predicate Advances(store: Store, next: Store) {
    && store.nextRevision <= next.nextRevision
    && (next.cell == store.cell || next.cell.None? || store.nextRevision <= next.cell.value.revision)
  }

  lemma AdvanceKeepsGrounded(store: Store, next: Store, run: Run)
    requires RunGrounded(store, run) && Advances(store, next)
    ensures RunGrounded(next, run)
  {
  }

  lemma NextAdvances(s: System, step: Step)
    ensures Advances(s.store, Next(s, step).store)
  {
  }

  lemma ValidatedIsGrounded(s: System, id: nat, update: RatchetUpdate)
    requires Invariant(s)
    ensures RunGrounded(s.store, RunOf(Next(s, Validate(id, update)), id))
  {
    if RunOf(s, id).Loaded? {
      UpdateOnlyRaises(RunOf(s, id).basis, update);
      UpdatedFollows(RunOf(s, id).basis, update);
    }
  }

  lemma OpenedIsGrounded(
    s: System, id: nat, root: HashValue, facts: seq<RatchetRecord>, update: RatchetUpdate, trustEstablished: bool)
    requires Invariant(s)
    ensures RunGrounded(s.store, RunOf(Next(s, OpenBaseline(id, root, facts, update, trustEstablished)), id))
  {
    BaselineCovered(root, facts);
    UpdatedCovers(FromBaseline(root, facts), update, facts);
    UpdatedFollows(FromBaseline(root, facts), update);
  }

  lemma RevisedIsGrounded(s: System, id: nat, update: RatchetUpdate)
    requires Invariant(s)
    ensures RunGrounded(s.store, RunOf(Next(s, GetRevision(id, update)), id))
  {
    var run := RunOf(s, id);
    if run.Recover? {
      assert RunGrounded(s.store, run);
      UpdatedCovers(run.baseline, update, run.facts);
      UpdatedFollows(run.baseline, update);
    }
  }

  lemma NextKeepsRuns(s: System, step: Step, id: nat)
    requires Invariant(s) && id in Next(s, step).runs
    ensures RunGrounded(Next(s, step).store, Next(s, step).runs[id])
  {
    NextAdvances(s, step);
    if id in s.runs {
      AdvanceKeepsGrounded(s.store, Next(s, step).store, s.runs[id]);
    }
    match step {
      case Validate(_, update) => ValidatedIsGrounded(s, step.id, update);
      case OpenBaseline(_, root, facts, update, trust) => OpenedIsGrounded(s, step.id, root, facts, update, trust);
      case GetRevision(_, update) => RevisedIsGrounded(s, step.id, update);
      case _ =>
    }
  }

  lemma NextKeepsInvariant(s: System, step: Step)
    requires Invariant(s)
    ensures Invariant(Next(s, step))
  {
    var next := Next(s, step);
    NextAdvances(s, step);
    forall id | id in next.runs ensures RunGrounded(next.store, next.runs[id]) { NextKeepsRuns(s, step, id); }
  }

  // ---------------------------------------------------------------------------------------
  // The stored ratchet never falls
  // ---------------------------------------------------------------------------------------

  /** The cell holds a ratchet at least as high, in every watermark and in format version. */
  predicate NotLowered(before: Store, after: Store) {
    before.cell.Some? && before.cell.value.content.Authentic? ==>
      && after.cell.Some? && after.cell.value.content.Authentic?
      && AtLeast(after.cell.value.content.ratchet, before.cell.value.content.ratchet)
  }

  /** A step by others than the controllers. */
  predicate Outside(step: Step) {
    step.Overwrite? || step.Delete?
  }

  /** A save by a run that could not authenticate what it loaded. */
  predicate RestoresTrust(s: System, step: Step) {
    step.Save? && RunOf(s, step.id).Saving? && RunOf(s, step.id).origin.FromRejected?
  }

  /** Such a save, at the revision the cell now shows, over an authentic ratchet that remembers
      something the restored one does not. */
  predicate RestoresLower(s: System, step: Step) {
    && RestoresTrust(s, step) && s.store.cell.Some? && s.store.cell.value.content.Authentic?
    && RunOf(s, step.id).expected == Some(s.store.cell.value.revision)
    && !AtLeast(RunOf(s, step.id).next, s.store.cell.value.content.ratchet)
  }

  lemma AtLeastReflexive(r: RatchetState)
    ensures AtLeast(r, r)
  {
  }

  /** Whatever the interleaving so far, a controller's step lowers the stored ratchet if and only
      if it restores a lower one for a run whose own load was rejected. */
  lemma StepLowersIff(s: System, step: Step)
    requires Invariant(s) && !Outside(step)
    ensures NotLowered(s.store, Next(s, step).store) <==> !RestoresLower(s, step)
  {
  }

  /** Every step of the run, by whomever, leaves the stored ratchet at least as high. */
  ghost predicate RisesThroughout(s: System, steps: seq<Step>)
    decreases |steps|
  {
    steps == []
    || (NotLowered(s.store, Next(s, steps[0]).store) && RisesThroughout(Next(s, steps[0]), steps[1..]))
  }

  /** No step of the run restores a lower ratchet, and what others write is never lower. */
  ghost predicate NothingLowers(s: System, steps: seq<Step>)
    decreases |steps|
  {
    steps == []
    || (&& (if Outside(steps[0]) then NotLowered(s.store, Next(s, steps[0]).store) else !RestoresLower(s, steps[0]))
        && NothingLowers(Next(s, steps[0]), steps[1..]))
  }

  /** Over whole runs of any number of overlapping controllers the stored watermarks and format
      version rise throughout if and only if no run restores a lower ratchet after a rejected
      load and nobody else writes one. */
  lemma {:induction false} RunRisesIff(s: System, steps: seq<Step>)
    requires Invariant(s)
    ensures RisesThroughout(s, steps) <==> NothingLowers(s, steps)
    decreases |steps|
  {
    if steps == [] {
      assert RisesThroughout(s, steps);
    } else {
      NextKeepsInvariant(s, steps[0]);
      if !Outside(steps[0]) { StepLowersIff(s, steps[0]); }
      RunRisesIff(Next(s, steps[0]), steps[1..]);
    }
  }

  /** And then the ratchet at the end is at least the one at the start. */
  lemma {:induction false} RunNeverLowers(s: System, steps: seq<Step>)
    requires Invariant(s) && NothingLowers(s, steps)
    ensures NotLowered(s.store, Execute(s, steps).store)
    decreases |steps|
  {
    if steps == [] {
      if s.store.cell.Some? && s.store.cell.value.content.Authentic? {
        AtLeastReflexive(s.store.cell.value.content.ratchet);
      }
    } else {
      NextKeepsInvariant(s, steps[0]);
      if !Outside(steps[0]) { StepLowersIff(s, steps[0]); }
      RunNeverLowers(Next(s, steps[0]), steps[1..]);
    }
  }

  /** Nothing stored or under way has failed authentication. */
  predicate Trustworthy(s: System) {
    && (s.store.cell.Some? ==> s.store.cell.value.owned && s.store.cell.value.content.Authentic?)
    && forall id :: id in s.runs ==>
         match s.runs[id]
         case LoadRejected => false
         case Recover(_, _, _) => false
         case Writing(origin, _, _) => !origin.FromRejected?
         case Saving(origin, _, _) => !origin.FromRejected?
         case _ => true
  }

  lemma NextKeepsTrustworthy(s: System, step: Step)
    requires Trustworthy(s) && !Outside(step)
    ensures Trustworthy(Next(s, step)) && !RestoresTrust(s, step)
  {
  }

  /** Left to themselves the controllers never need the exception: from a trustworthy system, no
      interleaving of theirs ever lowers the stored ratchet. */
  lemma {:induction false} ControllersAloneNeverLower(s: System, steps: seq<Step>)
    requires Invariant(s) && Trustworthy(s)
    requires forall i :: 0 <= i < |steps| ==> !Outside(steps[i])
    ensures Trustworthy(Execute(s, steps)) && NotLowered(s.store, Execute(s, steps).store)
    decreases |steps|
  {
    if steps == [] {
      RunNeverLowers(s, steps);
    } else {
      assert !Outside(steps[0]);
      NextKeepsInvariant(s, steps[0]);
      NextKeepsTrustworthy(s, steps[0]);
      StepLowersIff(s, steps[0]);
      ControllersAloneNeverLower(Next(s, steps[0]), steps[1..]);
    }
  }

  // ---------------------------------------------------------------------------------------
  // What a save remembers
  // ---------------------------------------------------------------------------------------

  /** A save remembers what its run's validation raised; over what was loaded, all of that; a first
      or restoring save all its approved baseline lists; and a restoring one follows earlier trust. */
  predicate Warranted(saved: SaveRecord) {
    && Follows(saved.stored, saved.origin.update)
    && match saved.origin
       case FromLoad(_, basis) => AtLeast(saved.stored, basis)
       case FromNothing(_, facts) => Covers(saved.stored, facts)
       case FromRejected(_, facts, established) => established && Covers(saved.stored, facts)
  }

  predicate AllWarranted(s: System) {
    forall i :: 0 <= i < |s.log| ==> Warranted(s.log[i])
  }

  lemma NextKeepsWarranted(s: System, step: Step)
    requires Invariant(s) && AllWarranted(s)
    ensures AllWarranted(Next(s, step))
  {
  }

  lemma {:induction false} RunKeepsWarranted(s: System, steps: seq<Step>)
    requires Invariant(s) && AllWarranted(s)
    ensures AllWarranted(Execute(s, steps))
    decreases |steps|
  {
    if steps == [] {
      assert Execute(s, steps) == s;
    } else {
      NextKeepsInvariant(s, steps[0]);
      NextKeepsWarranted(s, steps[0]);
      RunKeepsWarranted(Next(s, steps[0]), steps[1..]);
    }
  }

  /** Over every interleaving: a save stores, at every key, at least what its run's validation raised
      and what it loaded; one that does not build on a loaded ratchet stores, at every key,
      at least every counter its run's baseline listed there, and at least the versions it listed;
      and a save by a run whose load was rejected follows trust that had been established. */
  lemma SavesRememberBaselines(s: System, steps: seq<Step>, i: nat, j: nat, key: RecordKey)
    requires Invariant(s) && AllWarranted(s) && i < |Execute(s, steps).log|
    ensures var saved := Execute(s, steps).log[i];
            && (saved.origin.FromRejected? ==> saved.origin.established)
            && (key in saved.origin.update.raisedWatermarks ==>
                  key in saved.stored.watermarks
                  && saved.origin.update.raisedWatermarks[key] <= saved.stored.watermarks[key])
            && (saved.origin.update.raisedFormatVersion.Some? ==>
                  saved.origin.update.raisedFormatVersion.value <= saved.stored.formatVersion)
            && (saved.origin.FromLoad? ==> saved.origin.basis.formatVersion <= saved.stored.formatVersion)
            && (saved.origin.FromLoad? && key in saved.origin.basis.watermarks ==>
                  key in saved.stored.watermarks && saved.origin.basis.watermarks[key] <= saved.stored.watermarks[key])
            && (!saved.origin.FromLoad? && j < |saved.origin.facts| ==>
                  var fact := saved.origin.facts[j];
                  && (fact.Key() == Some(key) ==>
                        key in saved.stored.watermarks && fact.Counter() <= saved.stored.watermarks[key])
                  && (fact.FormatVersionFact? ==> fact.version <= saved.stored.formatVersion))
  {
    RunKeepsWarranted(s, steps);
    assert Warranted(Execute(s, steps).log[i]);
  }

  // ---------------------------------------------------------------------------------------
  // Compare-and-swap
  // ---------------------------------------------------------------------------------------

  /** A save that goes through took out exactly the revision it expected, or found the cell as
      empty as it expected, and left a revision never used before. */
  lemma SaveReplacesExpected(s: System, step: Step)
    requires Invariant(s) && |Next(s, step).log| > |s.log|
    ensures var saved := Next(s, step).log[|s.log|];
            && (match s.store.cell
                case None => saved.expected == None
                case Some(held) => saved.expected == Some(held.revision) && held.owned)
            && saved.revision == s.store.nextRevision
            && Next(s, step).store.cell == Some(Object(saved.revision, true, Authentic(saved.stored)))
  {
  }

  /** Over every run, two saves that expected the same revision never both succeeded. */
  lemma {:induction false} SavesNeverShareARevision(s: System, steps: seq<Step>, i: nat, j: nat)
    requires Invariant(s)
    requires i < j < |Execute(s, steps).log|
    ensures Execute(s, steps).log[i].expected.Some? ==>
              Execute(s, steps).log[i].expected != Execute(s, steps).log[j].expected
    decreases |steps|
  {
    if steps == [] {
    } else {
      NextKeepsInvariant(s, steps[0]);
      SavesNeverShareARevision(Next(s, steps[0]), steps[1..], i, j);
    }
  }

  /** Only the first logged save was a create, and the object it made is still there. */
  predicate CreatedOnce(s: System) {
    && (s.log != [] ==> s.store.cell.Some?)
    && (forall i :: 0 < i < |s.log| ==> s.log[i].expected.Some?)
  }

  lemma NextKeepsCreatedOnce(s: System, step: Step)
    requires CreatedOnce(s) && !step.Delete?
    ensures CreatedOnce(Next(s, step))
  {
  }

  /** While nobody deletes the object, at most one create ever succeeds. */
  lemma {:induction false} OneCreateWithoutDeletion(s: System, steps: seq<Step>)
    requires CreatedOnce(s)
    requires forall i :: 0 <= i < |steps| ==> !steps[i].Delete?
    ensures CreatedOnce(Execute(s, steps))
    decreases |steps|
  {
    if steps == [] {
    } else {
      NextKeepsCreatedOnce(s, steps[0]);
      OneCreateWithoutDeletion(Next(s, steps[0]), steps[1..]);
    }
  }

  function TamperedCell(): System {
    System(Store(Some(Object(0, true, Tampered)), 1), map[], [])
  }

  function PutBack(high: RatchetState, run: Run): System {
    System(Store(Some(Object(1, true, Authentic(high))), 2), map[1 := run], [])
  }

  lemma Unroll3(s: System, steps: seq<Step>)
    requires |steps| == 3
    ensures Execute(s, steps) == Next(Next(Next(s, steps[0]), steps[1]), steps[2])
  {
    var s1 := Next(s, steps[0]);
    var s2 := Next(s1, steps[1]);
    assert Execute(s, steps) == Execute(s1, steps[1..]);
    assert Execute(s1, steps[1..]) == Execute(s2, steps[1..][1..]);
    assert steps[1..][1..] == steps[2..];
    assert Execute(s2, steps[2..]) == Execute(Next(s2, steps[2]), steps[2..][1..]);
  }

  lemma Unroll4(s: System, steps: seq<Step>)
    requires |steps| == 4
    ensures Execute(s, steps) == Next(Next(Next(Next(s, steps[0]), steps[1]), steps[2]), steps[3])
  {
    Unroll3(Next(s, steps[0]), steps[1..]);
  }

  /** A run finds the cell tampered with and opens a baseline; meanwhile the cell is put right. */
  lemma RejectedRunPrepares(high: RatchetState, facts: seq<RatchetRecord>, root: HashValue, update: RatchetUpdate)
    ensures Execute(TamperedCell(), [ReadMetadata(1), ReadObject(1), OpenBaseline(1, root, facts, update, true),
                                     Overwrite(true, Authentic(high))])
         == PutBack(high, Recover(FromBaseline(root, facts), facts, true))
  {
    var steps := [ReadMetadata(1), ReadObject(1), OpenBaseline(1, root, facts, update, true),
                  Overwrite(true, Authentic(high))];
    var s := TamperedCell();
    var s1 := Next(s, steps[0]);
    assert s1 == s.(runs := map[1 := MetadataSeen]);
    var s2 := Next(s1, steps[1]);
    assert s2 == s.(runs := map[1 := LoadRejected]);
    var s3 := Next(s2, steps[2]);
    assert s3 == s.(runs := map[1 := Recover(FromBaseline(root, facts), facts, true)]);
    Unroll4(s, steps);
  }

  /** From the revision it now reads, the run's compare-and-swap goes through. */
  lemma RestoringRunWrites(high: RatchetState, next: RatchetState, origin: Origin)
    ensures var s := PutBack(high, Writing(origin, next, Some(1)));
            Next(Next(s, CheckRevision(1)), Save(1)).store.cell == Some(Object(2, true, Authentic(next)))
  {
    assert Next(PutBack(high, Writing(origin, next, Some(1))), CheckRevision(1))
        == PutBack(high, Saving(origin, next, Some(1)));
  }

  lemma RestoringRunReads(high: RatchetState, baseline: RatchetState, facts: seq<RatchetRecord>, update: RatchetUpdate)
    ensures Next(PutBack(high, Recover(baseline, facts, true)), GetRevision(1, update))
         == PutBack(high, Writing(FromRejected(update, facts, true), Updated(baseline, update), Some(1)))
  {
  }

  lemma RestoringRunSaves(high: RatchetState, baseline: RatchetState, facts: seq<RatchetRecord>, update: RatchetUpdate)
    ensures Execute(PutBack(high, Recover(baseline, facts, true)),
                    [GetRevision(1, update), CheckRevision(1), Save(1)]).store.cell
         == Some(Object(2, true, Authentic(Updated(baseline, update))))
  {
    Unroll3(PutBack(high, Recover(baseline, facts, true)), [GetRevision(1, update), CheckRevision(1), Save(1)]);
    RestoringRunReads(high, baseline, facts, update);
    RestoringRunWrites(high, Updated(baseline, update), FromRejected(update, facts, true));
  }

  lemma {:induction false} ExecuteSplit(s: System, steps: seq<Step>, n: nat)
    requires n <= |steps|
    ensures Execute(s, steps) == Execute(Execute(s, steps[..n]), steps[n..])
    decreases n
  {
    if n == 0 {
      assert steps[..0] == [] && steps[0..] == steps;
    } else {
      ExecuteSplit(Next(s, steps[0]), steps[1..], n - 1);
      assert steps[..n][1..] == steps[1..][..n - 1] && steps[1..][n - 1..] == steps[n..];
    }
  }

  /** It does happen: a run whose load was rejected asks for the revision only when it writes, so
      it may replace a higher ratchet put back in the meantime. */
  lemma RestoringTrustCanLower(high: RatchetState, facts: seq<RatchetRecord>, root: HashValue, update: RatchetUpdate)
    requires !AtLeast(Updated(FromBaseline(root, facts), update), high)
    ensures var steps := [ReadMetadata(1), ReadObject(1), OpenBaseline(1, root, facts, update, true),
                          Overwrite(true, Authentic(high)),
                          GetRevision(1, update), CheckRevision(1), Save(1)];
            && Invariant(TamperedCell())
            && !NotLowered(Execute(TamperedCell(), steps[..4]).store, Execute(TamperedCell(), steps).store)
  {
    var steps := [ReadMetadata(1), ReadObject(1), OpenBaseline(1, root, facts, update, true),
                  Overwrite(true, Authentic(high)),
                  GetRevision(1, update), CheckRevision(1), Save(1)];
    ExecuteSplit(TamperedCell(), steps, 4);
    assert steps[..4] == [ReadMetadata(1), ReadObject(1), OpenBaseline(1, root, facts, update, true),
                          Overwrite(true, Authentic(high))];
    assert steps[4..] == [GetRevision(1, update), CheckRevision(1), Save(1)];
    RejectedRunPrepares(high, facts, root, update);
    RestoringRunSaves(high, FromBaseline(root, facts), facts, update);
  }
}
