/**
 Three-way merge of vaults. A vault is a set of signed records and a merge is their union, so
 replicas converge. A machine that only appends and merges sees no counter fall below what it has
 verified as long as no record it counted loses its admission; merging a revocation can do that.
 */
module VaultMerge {
  import opened Format
  import opened Records
  import opened Ratchet
  import opened RatchetFacts
  import opened Authority
  import opened Lww
  import ConflictResolution

  /** A body this build can read, or one a newer build wrote, carried through untouched. */
  datatype Evolving = Known(body: RecordBody) | Unknown(payload: Bytes)

  datatype VaultRecord = VaultRecord(body: Evolving, signingKey: Bytes, signature: Bytes)

  type Vault = set<VaultRecord>

  datatype MergeRefusal = MissingRoot | RootMismatch

  datatype MergeOutcome = Merged(records: Vault) | Refused(reason: MergeRefusal)

  predicate IsRoot(record: VaultRecord) {
    record.body.Known? && record.body.body.VaultRoot?
  }

  /** The trust anchors, compared as whole envelopes, signature included. */
  function RootRecords(records: Vault): Vault {
    set record | record in records && IsRoot(record)
  }

  /** An anchor is a record this build reads as a vault root, and nothing else is. */
  lemma AnchorsSpelled(records: Vault, record: VaultRecord)
    ensures record in RootRecords(records) <==>
            record in records && exists id, hpke :: record.body == Known(VaultRoot(id, hpke))
  {
    if record in RootRecords(records) {
      assert record.body == Known(VaultRoot(record.body.body.id, record.body.body.hpke));
    }
  }

  function MergeVaults(base: Option<Vault>, ours: Vault, theirs: Vault): MergeOutcome {
    var oursRoots, theirsRoots := RootRecords(ours), RootRecords(theirs);
    if oursRoots == {} || theirsRoots == {} then Refused(MissingRoot)
    else if oursRoots != theirsRoots then Refused(RootMismatch)
    else if base.Some? && RootRecords(base.value) != {} && RootRecords(base.value) != oursRoots
      then Refused(RootMismatch)
    else Merged((if base.Some? then base.value else {}) + ours + theirs)
  }

  /** Which side runs the merge makes no difference, refusals included. */
  lemma MergeSymmetric(base: Option<Vault>, ours: Vault, theirs: Vault)
    ensures MergeVaults(base, ours, theirs) == MergeVaults(base, theirs, ours)
  {
    var b: Vault := if base.Some? then base.value else {};
    assert b + ours + theirs == b + theirs + ours;
  }

  /** A side agrees on the roots when it has none, or all that the sides have between them. */
  predicate AgreesOnRoots(side: Vault, everything: Vault) {
    RootRecords(side) == {} || RootRecords(side) == RootRecords(everything)
  }

  /** A merge is refused as rootless exactly when one of the two sides has no root record, as a
      substitution exactly when both have one but some side disagrees on the roots of the whole,
      and is otherwise the union. */
  lemma MergeRefusedExactly(base: Option<Vault>, ours: Vault, theirs: Vault)
    ensures var everything := (if base.Some? then base.value else {}) + ours + theirs;
            var rooted := RootRecords(ours) != {} && RootRecords(theirs) != {};
            var agreed := AgreesOnRoots(ours, everything) && AgreesOnRoots(theirs, everything)
                          && (base.Some? ==> AgreesOnRoots(base.value, everything));
            MergeVaults(base, ours, theirs) ==
              (if !rooted then Refused(MissingRoot) else if !agreed then Refused(RootMismatch) else Merged(everything))
  {
    var b: Vault := if base.Some? then base.value else {};
    assert RootRecords(b + ours + theirs) == RootRecords(b) + RootRecords(ours) + RootRecords(theirs);
  }

  /** A merged vault keeps exactly the shared trust anchors. */
  lemma MergeKeepsRoots(base: Option<Vault>, ours: Vault, theirs: Vault)
    requires MergeVaults(base, ours, theirs).Merged?
    ensures RootRecords(MergeVaults(base, ours, theirs).records) == RootRecords(ours) == RootRecords(theirs)
  {
    var merged := MergeVaults(base, ours, theirs).records;
    forall record ensures record in RootRecords(merged) <==> record in RootRecords(ours) {
      if record in RootRecords(merged) && base.Some? && record in base.value {
        assert record in RootRecords(base.value);
      }
    }
  }

  // ---------------------------------------------------------------------------------------
  // Convergence
  // ---------------------------------------------------------------------------------------

  /** How a replica came to be: commits and merges, over any bases, in any shape. */
  datatype History =
    | Genesis
    | Commit(on: History, record: VaultRecord)
    | Merge(base: Option<History>, ours: History, theirs: History)

  function Replica(genesis: Vault, history: History): MergeOutcome {
    match history
    case Genesis => Merged(genesis)
    case Commit(on, record) =>
      (match Replica(genesis, on)
       case Refused(reason) => Refused(reason)
       case Merged(records) => Merged(records + {record}))
    case Merge(base, ours, theirs) =>
      match (Replica(genesis, ours), Replica(genesis, theirs))
      case (Merged(o), Merged(t)) =>
        (match base
         case None => MergeVaults(None, o, t)
         case Some(b) =>
           match Replica(genesis, b)
           case Merged(r) => MergeVaults(Some(r), o, t)
           case Refused(reason) => Refused(reason))
      case (Refused(reason), _) => Refused(reason)
      case (_, Refused(reason)) => Refused(reason)
  }

  /** The commits a replica has absorbed, directly or through any merge. */
  function Commits(history: History): Vault {
    match history
    case Genesis => {}
    case Commit(on, record) => Commits(on) + {record}
    case Merge(base, ours, theirs) =>
      (match base case None => {} case Some(b) => Commits(b)) + Commits(ours) + Commits(theirs)
  }

  lemma UnionRoots(a: Vault, b: Vault)
    requires RootRecords(b) == {}
    ensures RootRecords(a + b) == RootRecords(a)
  {
    forall record | record in b ensures !IsRoot(record) {
      assert record !in RootRecords(b);
    }
  }

  lemma SubsetRoots(a: Vault, b: Vault)
    requires a <= b && RootRecords(b) == {}
    ensures RootRecords(a) == {}
  {
    forall record | record in RootRecords(a) ensures record in RootRecords(b) {}
  }

  /** A replica of one vault that never adds a root is never refused, and holds exactly the
      original records and the commits it has absorbed. */
  lemma {:induction false} ReplicaIsGenesisAndCommits(genesis: Vault, history: History)
    requires RootRecords(genesis) != {} && RootRecords(Commits(history)) == {}
    ensures Replica(genesis, history) == Merged(genesis + Commits(history))
    ensures RootRecords(genesis + Commits(history)) == RootRecords(genesis)
  {
    UnionRoots(genesis, Commits(history));
    match history {
      case Genesis =>
        assert genesis + {} == genesis;
      case Commit(on, record) =>
        SubsetRoots(Commits(on), Commits(history));
        ReplicaIsGenesisAndCommits(genesis, on);
        assert (genesis + Commits(on)) + {record} == genesis + Commits(history);
      case Merge(base, ours, theirs) =>
        SubsetRoots(Commits(ours), Commits(history));
        SubsetRoots(Commits(theirs), Commits(history));
        ReplicaIsGenesisAndCommits(genesis, ours);
        ReplicaIsGenesisAndCommits(genesis, theirs);
        match base {
          case None =>
            assert {} + (genesis + Commits(ours)) + (genesis + Commits(theirs)) == genesis + Commits(history);
          case Some(b) =>
            SubsetRoots(Commits(b), Commits(history));
            ReplicaIsGenesisAndCommits(genesis, b);
            assert (genesis + Commits(b)) + (genesis + Commits(ours)) + (genesis + Commits(theirs))
              == genesis + Commits(history);
        }
    }
  }

  /** Replicas that absorbed the same commits hold the same vault, whatever the order, grouping
      or repetition of their merges. */
  lemma ReplicasConverge(genesis: Vault, one: History, other: History)
    requires RootRecords(genesis) != {} && RootRecords(Commits(one)) == {}
    requires Commits(one) == Commits(other)
    ensures Replica(genesis, one) == Replica(genesis, other) && Replica(genesis, one).Merged?
  {
    ReplicaIsGenesisAndCommits(genesis, one);
    ReplicaIsGenesisAndCommits(genesis, other);
  }

  // ---------------------------------------------------------------------------------------
  // Counters never fall
  // ---------------------------------------------------------------------------------------

  /** What a validation of one vault comes to: who signed what, and the effective state. */
  datatype View = View(resolve: Bytes -> UserId, gate: ConflictResolution.Gate)

  /** A record as validation sees it; its hash plays no part in admission. */
  function AsVerified(body: RecordBody, signer: UserId): VerifiedRecord {
    VerifiedRecord(0, body, body.KeyFor(signer), signer)
  }

  /** Whether the record is admitted and raises the high-water mark of `key`. */
  predicate Counts(record: VaultRecord, view: View, key: RecordKey) {
    && record.body.Known? && record.body.body.LwwCounter().Some?
    && var verified := AsVerified(record.body.body, view.resolve(record.signingKey));
    verified.key == key && view.gate.Counts(verified)
  }

  function Counters(records: Vault, view: View, key: RecordKey): set<nat> {
    set record | record in records && Counts(record, view, key) :: record.body.body.LwwCounter().value
  }

  ghost function MaxOf(counters: set<nat>): (max: nat)
    ensures forall c :: c in counters ==> c <= max
    ensures counters == {} ==> max == 0
    ensures counters != {} ==> max in counters
  {
    if counters == {} then 0
    else
      var c :| c in counters;
      var rest := MaxOf(counters - {c});
      assert counters == (counters - {c}) + {c};
      if counters - {c} == {} then c else Max(c, rest)
  }

  /** The highest admitted counter a vault shows at a key. */
  ghost function HighestCounter(records: Vault, view: View, key: RecordKey): nat {
    MaxOf(Counters(records, view, key))
  }

  lemma MaxOfUnion(a: set<nat>, b: set<nat>)
    ensures MaxOf(a + b) == Max(MaxOf(a), MaxOf(b))
  {
    if a + b == {} {
      assert a == {} && b == {};
    } else {
      assert MaxOf(a + b) in a + b;
      if a != {} { assert MaxOf(a) in a + b; }
      if b != {} { assert MaxOf(b) in a + b; }
    }
  }

  lemma HighestCounterUnion(a: Vault, b: Vault, view: View, key: RecordKey)
    ensures HighestCounter(a + b, view, key) == Max(HighestCounter(a, view, key), HighestCounter(b, view, key))
  {
    assert Counters(a + b, view, key) == Counters(a, view, key) + Counters(b, view, key);
    MaxOfUnion(Counters(a, view, key), Counters(b, view, key));
  }

  /** Seen by one effective state, the merged vault's counter at a key is the maximum over the base
      and both sides. */
  lemma MergedCounter(base: Option<Vault>, ours: Vault, theirs: Vault, view: View, key: RecordKey)
    requires MergeVaults(base, ours, theirs).Merged?
    ensures HighestCounter(MergeVaults(base, ours, theirs).records, view, key) ==
            Max(match base case Some(b) => HighestCounter(b, view, key) case None => 0,
                Max(HighestCounter(ours, view, key), HighestCounter(theirs, view, key)))
  {
    var b: Vault := match base case Some(x) => x case None => {};
    HighestCounterUnion(b + ours, theirs, view, key);
    HighestCounterUnion(b, ours, view, key);
    assert base.None? ==> Counters(b, view, key) == {};
  }

  /** One machine: its vault file, what validating it comes to, and its rollback memory. */
  datatype Machine = Machine(vault: Vault, view: View, ratchet: RatchetState)
  {
    ghost function Counter(key: RecordKey): nat {
      HighestCounter(vault, view, key)
    }
  }

  /** A change of the vault changes what validating it comes to. */
  datatype Step =
    | Append(record: VaultRecord, view: View)
    | MergeIn(base: Option<Vault>, theirs: Vault, view: View)
    | Verify(update: RatchetUpdate)

  /** What validation raises: exactly the keys whose counter in this vault exceeds the remembered one. */
  ghost predicate IsValidationUpdate(update: RatchetUpdate, m: Machine) {
    && (forall key :: key in update.raisedWatermarks <==> At(m.ratchet.watermarks, key) < m.Counter(key))
    && (forall key :: key in update.raisedWatermarks ==> update.raisedWatermarks[key] == m.Counter(key))
  }

  /** A refused merge leaves our side in place. */
  function Stepped(m: Machine, step: Step): Machine {
    match step
    case Append(record, view) => m.(vault := m.vault + {record}, view := view)
    case MergeIn(base, theirs, view) =>
      (match MergeVaults(base, m.vault, theirs)
       case Merged(records) => m.(vault := records, view := view)
       case Refused(_) => m)
    case Verify(update) => m.(ratchet := Updated(m.ratchet, update))
  }

  /** No key's counter is below the machine's watermark: no rollback is suspected. */
  ghost predicate Unsuspected(m: Machine) {
    forall key :: At(m.ratchet.watermarks, key) <= m.Counter(key)
  }

  /** Every record that counted still does, at the same key. */
  ghost predicate KeepsAdmission(m: Machine, next: Machine) {
    forall record, key :: record in m.vault && Counts(record, m.view, key) ==> Counts(record, next.view, key)
  }

  ghost predicate Run(start: Machine, steps: seq<Step>, end: Machine)
    decreases |steps|
  {
    if steps == [] then end == start
    else
      && (steps[0].Verify? ==> IsValidationUpdate(steps[0].update, start))
      && KeepsAdmission(start, Stepped(start, steps[0]))
      && Run(Stepped(start, steps[0]), steps[1..], end)
  }

  lemma VaultOnlyGrows(m: Machine, step: Step)
    ensures m.vault <= Stepped(m, step).vault
  {
  }

  lemma KeptCounter(m: Machine, next: Machine, key: RecordKey)
    requires m.vault <= next.vault && KeepsAdmission(m, next)
    ensures m.Counter(key) <= next.Counter(key)
  {
    var before, after := Counters(m.vault, m.view, key), Counters(next.vault, next.view, key);
    forall c | c in before ensures c in after {
      var record :| record in m.vault && Counts(record, m.view, key) && record.body.body.LwwCounter().value == c;
      assert record in next.vault && Counts(record, next.view, key);
    }
    if before != {} { assert MaxOf(before) in after; }
  }

  lemma StepKeepsUnsuspected(m: Machine, step: Step)
    requires Unsuspected(m) && KeepsAdmission(m, Stepped(m, step))
    requires step.Verify? ==> IsValidationUpdate(step.update, m)
    ensures Unsuspected(Stepped(m, step)) && forall key :: m.Counter(key) <= Stepped(m, step).Counter(key)
  {
    var next := Stepped(m, step);
    VaultOnlyGrows(m, step);
    forall key ensures m.Counter(key) <= next.Counter(key)
               ensures At(next.ratchet.watermarks, key) <= next.Counter(key)
    {
      KeptCounter(m, next, key);
      assert At(m.ratchet.watermarks, key) <= m.Counter(key);
    }
  }

  /** A machine that changes its vault only by appending and merging, and none of whose counted
      records loses its admission, never sees a rollback, at any key, however its verifications
      are interleaved; and the counters it sees never fall. */
  lemma {:induction false} MergingNeverManufacturesRollback(start: Machine, steps: seq<Step>, end: Machine)
    requires Unsuspected(start) && Run(start, steps, end)
    ensures Unsuspected(end) && forall key :: start.Counter(key) <= end.Counter(key)
    decreases |steps|
  {
    if steps == [] {
    } else {
      var next := Stepped(start, steps[0]);
      StepKeepsUnsuspected(start, steps[0]);
      MergingNeverManufacturesRollback(next, steps[1..], end);
      assert forall key :: next.Counter(key) <= end.Counter(key);
    }
  }

  /** Exactly when a step shows a machine that has just verified its vault a rollback at a key: when
      no record as high as the highest it had counted there is admitted any more. */
  lemma RollbackShownIff(m: Machine, step: Step, key: RecordKey)
    requires At(m.ratchet.watermarks, key) == m.Counter(key) && !step.Verify?
    ensures var next := Stepped(m, step);
            next.Counter(key) < At(next.ratchet.watermarks, key) <==>
            && m.Counter(key) > 0
            && forall record :: record in next.vault && Counts(record, next.view, key) ==>
                 record.body.body.LwwCounter().value < m.Counter(key)
  {
    var next := Stepped(m, step);
    var counters := Counters(next.vault, next.view, key);
    forall record | record in next.vault && Counts(record, next.view, key)
      ensures record.body.body.LwwCounter().value in counters {}
  }

  /** It does happen: a writer's secret has been counted, and the merge brings in the revocation of
      that writer. Nothing was rolled back; the key is suspected all the same. */
  lemma RevocationShowsRollback(root: UserId, writer: UserId, id: HashValue, grant: HashValue, selector: SecretSelector)
    ensures var anchor := VaultRecord(Known(VaultRoot(root, [])), [], []);
            var secret := VaultRecord(Known(Secret(id, selector, [], 5)), [1], []);
            var revocation := VaultRecord(Known(GrantDeleted(grant, WriteKeyspace(WHOLE_VAULT), 6)), [], []);
            var resolve := (key: Bytes) => if key == [1] then writer else root;
            var writes := Authorities([], [WHOLE_VAULT], [], false);
            var before := View(resolve, ConflictResolution.Gate(root, map[writer := writes], {}, {root, writer}, {},
              map[]));
            var after := View(resolve, ConflictResolution.Gate(root, map[], {}, {root, writer}, {}, map[]));
            var m := Machine({anchor, secret}, before, Fresh(0).(watermarks := map[SecretKey(id) := 5]));
            var next := Stepped(m, MergeIn(None, {anchor, revocation}, after));
            && Unsuspected(m) && secret in next.vault && revocation in next.vault && !Unsuspected(next)
  {
    var anchor := VaultRecord(Known(VaultRoot(root, [])), [], []);
    var secret := VaultRecord(Known(Secret(id, selector, [], 5)), [1], []);
    var revocation := VaultRecord(Known(GrantDeleted(grant, WriteKeyspace(WHOLE_VAULT), 6)), [], []);
    var resolve := (key: Bytes) => if key == [1] then writer else root;
    var writes := Authorities([], [WHOLE_VAULT], [], false);
    var before := View(resolve, ConflictResolution.Gate(root, map[writer := writes], {}, {root, writer}, {}, map[]));
    var after := View(resolve, ConflictResolution.Gate(root, map[], {}, {root, writer}, {}, map[]));
    var m := Machine({anchor, secret}, before, Fresh(0).(watermarks := map[SecretKey(id) := 5]));
    assert writes.CanWrite(selector) by { assert writes.write[0] == WHOLE_VAULT; }
    assert Counts(secret, before, SecretKey(id));
    assert 5 in Counters(m.vault, before, SecretKey(id));
    assert RootRecords({anchor, secret}) == {anchor} && RootRecords({anchor, revocation}) == {anchor};
    var next := Stepped(m, MergeIn(None, {anchor, revocation}, after));
    assert next.vault == {anchor, secret, revocation};
    assert Counters(next.vault, after, SecretKey(id)) == {};
    assert next.Counter(SecretKey(id)) == 0;
  }
}
