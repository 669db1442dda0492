/**
 The controller's reconcile loop as far as its own status is concerned. Each reconcile reads the
 object, meets whatever the cluster answers, and patches the status; omitted fields of a merge
 patch are left as they were (section 2 of RFC 7396), which is what makes the identity sticky.
 */
module ReconcileStatus {
  import opened Format

  datatype ConditionKind = Ready | TrustEstablished | OldIdentityOutstanding

  datatype Condition = Condition(kind: ConditionKind, isTrue: bool, reason: string)

  /** Optional fields are omitted from a patch when absent, and so is an empty condition list. */
  datatype VaultStatus = VaultStatus(
    trustedRoot: Option<HashValue>,
    vaultRevision: Option<HashValue>,
    identityUserId: Option<UserId>,
    joinRequestFor: Option<UserId>,
    conditions: seq<Condition>)

  const NO_STATUS := VaultStatus(None, None, None, None, [])

  function Or<T>(patch: Option<T>, current: Option<T>): Option<T> {
    if patch.Some? then patch else current
  }

  function MergePatched(current: VaultStatus, patch: VaultStatus): VaultStatus {
    VaultStatus(
      Or(patch.trustedRoot, current.trustedRoot),
      Or(patch.vaultRevision, current.vaultRevision),
      Or(patch.identityUserId, current.identityUserId),
      Or(patch.joinRequestFor, current.joinRequestFor),
      if patch.conditions != [] then patch.conditions else current.conditions)
  }

  predicate TrustWasEstablished(status: VaultStatus) {
    exists i :: 0 <= i < |status.conditions|
      && (status.conditions[i].kind == TrustEstablished || status.conditions[i].kind == Ready)
      && status.conditions[i].isTrue
  }

  /** What one reconcile reports. */
  datatype Report = Report(
    trustedRoot: Option<HashValue>, revision: Option<HashValue>, identity: Option<UserId>,
    ready: Condition, extra: seq<Condition>)

  /** `set_vault_status_with_extra`, computed from the status the reconcile started from. */
  function StatusFor(seen: VaultStatus, report: Report): VaultStatus {
    var readyNow := report.ready.kind == Ready && report.ready.isTrue;
    var established := TrustWasEstablished(seen) || readyNow;
    VaultStatus(report.trustedRoot, report.revision, report.identity, report.identity,
                [report.ready]
                + (if established then [Condition(TrustEstablished, true, "BaselinePersisted")] else [])
                + report.extra)
  }

  /** An unchanged status is not written again. */
  function Reported(seen: VaultStatus, live: VaultStatus, report: Report): VaultStatus {
    if seen == StatusFor(seen, report) then live else MergePatched(live, StatusFor(seen, report))
  }

  // ---------------------------------------------------------------------------------------
  // The managed identity
  // ---------------------------------------------------------------------------------------

  /** The identity Secret: someone else's or misshapen, ours without a usable seed, or a user's. */
  datatype IdentitySecret = Foreign | Unseeded | Seeded(user: UserId)

  datatype IdentityOutcome = IdentityReady(user: UserId) | RecoveryRequired | Unavailable | ApiFailed

  datatype CreateAnswer = Created | AlreadyExists(winner: IdentitySecret) | CreateFailed

  datatype JoinPurpose = Enroll | RestoreTrust

  datatype Cluster = Cluster(
    status: VaultStatus,
    secret: Option<IdentitySecret>,
    generated: seq<UserId>,
    requested: seq<JoinPurpose>)

  function LoadOrCreateIdentity(c: Cluster, newUser: UserId, answer: CreateAnswer): (Cluster, IdentityOutcome) {
    match c.secret
    case Some(Foreign) => (c, Unavailable)
    case Some(Unseeded) => (c, RecoveryRequired)
    case Some(Seeded(user)) =>
      if c.status.identityUserId.Some? && c.status.identityUserId.value != user then (c, RecoveryRequired)
      else (c, IdentityReady(user))
    case None =>
      if c.status.identityUserId.Some? then (c, RecoveryRequired)
      else
        var c' := c.(generated := c.generated + [newUser]);
        match answer
        case Created => (c'.(secret := Some(Seeded(newUser))), IdentityReady(newUser))
        case AlreadyExists(winner) => (c'.(secret := Some(winner)), Unavailable)
        case CreateFailed => (c', ApiFailed)
  }

  // ---------------------------------------------------------------------------------------
  // One reconcile
  // ---------------------------------------------------------------------------------------

  datatype Source =
    | SourceError | SourceUnavailable | SourceTooLarge
    | Decoded(trustedRoot: HashValue, revision: HashValue)

  /** What verification or enrollment comes to once an identity is at hand. */
  datatype Ending = EndsInError | NotReady(reason: string) | Verified(extra: seq<Condition>)

  datatype LoadAnswer = LoadedRatchet | NoRatchet | RatchetRejected | RatchetUnavailable

  datatype Answers = Answers(
    source: Source, newUser: UserId, create: CreateAnswer, load: LoadAnswer, ending: Ending,
    statusWritten: bool, failureWritten: bool, failureReason: string)

  datatype Result = Reports(report: Report) | Fails

  function NotReadyReport(root: HashValue, revision: HashValue, identity: Option<UserId>, reason: string): Result {
    Reports(Report(Some(root), Some(revision), identity, Condition(Ready, false, reason), []))
  }

  function Ended(root: HashValue, revision: HashValue, user: UserId, ending: Ending): Result {
    match ending
    case EndsInError => Fails
    case NotReady(reason) => NotReadyReport(root, revision, Some(user), reason)
    case Verified(extra) =>
      Reports(Report(Some(root), Some(revision), Some(user), Condition(Ready, true, "Verified"), extra))
  }

  function WithIdentity(
    c: Cluster, root: HashValue, revision: HashValue, user: UserId, answers: Answers): (Cluster, Result) {
    match answers.load
    case LoadedRatchet => (c, Ended(root, revision, user, answers.ending))
    case RatchetUnavailable => (c, NotReadyReport(root, revision, Some(user), "TrustStateUnavailable"))
    case RatchetRejected =>
      if !TrustWasEstablished(c.status) then (c, NotReadyReport(root, revision, Some(user), "TrustStateTampered"))
      else (c.(requested := c.requested + [RestoreTrust]), Ended(root, revision, user, answers.ending))
    case NoRatchet =>
      var purpose := if TrustWasEstablished(c.status) then RestoreTrust else Enroll;
      (c.(requested := c.requested + [purpose]), Ended(root, revision, user, answers.ending))
  }

  /** The inner reconcile: what it leaves in the cluster, and the status it would report. */
  function Inner(c: Cluster, answers: Answers): (Cluster, Result) {
    match answers.source
    case SourceError => (c, Fails)
    case SourceUnavailable => (c, Reports(Report(None, None, None, Condition(Ready, false, "SourceUnavailable"), [])))
    case SourceTooLarge => (c, Reports(Report(None, None, None, Condition(Ready, false, "SourceTooLarge"), [])))
    case Decoded(root, revision) =>
      var (c', outcome) := LoadOrCreateIdentity(c, answers.newUser, answers.create);
      match outcome
      case ApiFailed => (c', Fails)
      case RecoveryRequired => (c', NotReadyReport(root, revision, c.status.identityUserId, "RecoveryRequired"))
      case Unavailable => (c', NotReadyReport(root, revision, None, "IdentityUnavailable"))
      case IdentityReady(user) => WithIdentity(c', root, revision, user, answers)
  }

  /** What a failed reconcile reports: everything as it was on record, and why it is not ready. */
  function FailureReport(seen: VaultStatus, reason: string): Report {
    Report(seen.trustedRoot, seen.vaultRevision, seen.identityUserId, Condition(Ready, false, reason), [])
  }

  /** The outer reconcile. It goes by the status `seen` when it started, and patches the live one;
      a failure, of the work or of writing its status, is itself reported. */
  function Reconciled(c: Cluster, seen: VaultStatus, answers: Answers): Cluster {
    var (c', result) := Inner(c.(status := seen), answers);
    var status :=
      if result.Reports? && answers.statusWritten then Reported(seen, c.status, result.report)
      else if answers.failureWritten then Reported(seen, c.status, FailureReport(seen, answers.failureReason))
      else c.status;
    c'.(status := status)
  }

  /** Between reconciles anyone may change or delete the identity Secret. */
  datatype Event =
    | Reconcile(seen: VaultStatus, answers: Answers)
    | SecretChanged(secret: Option<IdentitySecret>)

  function After(c: Cluster, event: Event): Cluster {
    match event
    case Reconcile(seen, answers) => Reconciled(c, seen, answers)
    case SecretChanged(secret) => c.(secret := secret)
  }

  function AfterAll(c: Cluster, events: seq<Event>): Cluster
    decreases |events|
  {
    if events == [] then c else AfterAll(After(c, events[0]), events[1..])
  }

  // ---------------------------------------------------------------------------------------
  // What is never lost
  // ---------------------------------------------------------------------------------------

  predicate OnlyRestores(requests: seq<JoinPurpose>) {
    forall i :: 0 <= i < |requests| ==> requests[i] == RestoreTrust
  }

  /** The four promises, from one cluster state to a later one. */
  predicate Sticky(c: Cluster, later: Cluster) {
    && (c.status.identityUserId.Some? ==> later.status.identityUserId == c.status.identityUserId)
    && (c.status.identityUserId.Some? ==> later.generated == c.generated)
    && (TrustWasEstablished(c.status) ==> TrustWasEstablished(later.status))
    && c.requested <= later.requested
    && (TrustWasEstablished(c.status) ==> OnlyRestores(later.requested[|c.requested|..]))
  }

  /** Exactly when a written status says trust is established: the status the reconcile started
      from said so, or this one is ready. */
  lemma EstablishedAfterPatch(seen: VaultStatus, live: VaultStatus, report: Report)
    requires report.ready.kind == Ready
    requires forall i :: 0 <= i < |report.extra| ==> report.extra[i].kind == OldIdentityOutstanding
    ensures TrustWasEstablished(MergePatched(live, StatusFor(seen, report)))
       <==> TrustWasEstablished(seen) || report.ready.isTrue
  {
    var conditions := StatusFor(seen, report).conditions;
    assert conditions[0] == report.ready;
    if TrustWasEstablished(seen) || report.ready.isTrue {
      assert conditions[1].kind == TrustEstablished && conditions[1].isTrue;
    }
  }

  /** Exactly when a written status keeps the identity on record: when the report names none or
      names it. */
  lemma IdentityAfterPatch(seen: VaultStatus, live: VaultStatus, report: Report)
    requires live.identityUserId.Some?
    ensures MergePatched(live, StatusFor(seen, report)).identityUserId == live.identityUserId <==>
            report.identity.None? || report.identity == live.identityUserId
  {
  }

  lemma ReportKeepsTrust(seen: VaultStatus, live: VaultStatus, report: Report)
    requires TrustWasEstablished(seen) && TrustWasEstablished(live)
    ensures TrustWasEstablished(Reported(seen, live, report))
  {
    var conditions := StatusFor(seen, report).conditions;
    assert conditions[1] == Condition(TrustEstablished, true, "BaselinePersisted");
  }

  /** An identity once on record is never generated anew, and nothing but it is ever reported. */
  lemma RecordedIdentityIsKept(c: Cluster, answers: Answers)
    requires c.status.identityUserId.Some?
    ensures var (c', result) := Inner(c, answers);
            && c'.generated == c.generated && c'.status == c.status
            && (result.Reports? && result.report.identity.Some? ==> result.report.identity == c.status.identityUserId)
  {
  }

  /** The status a reconcile goes by names the live identity, and the trust mark if there is one.
      The latest status does; an older one may. */
  predicate Agrees(seen: VaultStatus, live: VaultStatus) {
    && seen.identityUserId == live.identityUserId
    && (TrustWasEstablished(live) ==> TrustWasEstablished(seen))
  }

  lemma ReconcileIsSticky(c: Cluster, seen: VaultStatus, answers: Answers)
    requires Agrees(seen, c.status)
    ensures Sticky(c, Reconciled(c, seen, answers))
  {
    var (c', result) := Inner(c.(status := seen), answers);
    assert c'.status == seen && c.requested <= c'.requested;
    if seen.identityUserId.Some? { RecordedIdentityIsKept(c.(status := seen), answers); }
    if TrustWasEstablished(c.status) {
      assert OnlyRestores(c'.requested[|c.requested|..]);
      if result.Reports? { ReportKeepsTrust(seen, c.status, result.report); }
      ReportKeepsTrust(seen, c.status, FailureReport(seen, answers.failureReason));
    }
  }

  lemma StickyIsTransitive(a: Cluster, b: Cluster, c: Cluster)
    requires Sticky(a, b) && Sticky(b, c)
    ensures Sticky(a, c)
  {
    if TrustWasEstablished(a.status) {
      var first, second := b.requested[|a.requested|..], c.requested[|b.requested|..];
      assert c.requested[|a.requested|..] == first + second;
    }
  }

  /** Every reconcile of the run goes by a status that agrees with the live one. */
  ghost predicate AgreesThroughout(c: Cluster, events: seq<Event>)
    decreases |events|
  {
    events == []
    || (&& (events[0].Reconcile? ==> Agrees(events[0].seen, c.status))
        && AgreesThroughout(After(c, events[0]), events[1..]))
  }

  /** Over every sequence of reconciles, whatever the cluster answers, whichever status writes
      fail and whatever others do to the identity Secret: the recorded identity never changes, no
      identity is generated once one is recorded, established trust is never lost, and from then
      on no enrollment is ever requested again. */
  lemma {:induction false} ReconcilesAreSticky(c: Cluster, events: seq<Event>)
    requires AgreesThroughout(c, events)
    ensures Sticky(c, AfterAll(c, events))
    decreases |events|
  {
    if events == [] {
      assert AfterAll(c, events) == c;
    } else {
      var next := After(c, events[0]);
      if events[0].Reconcile? { ReconcileIsSticky(c, events[0].seen, events[0].answers); }
      ReconcilesAreSticky(next, events[1..]);
      StickyIsTransitive(c, next, AfterAll(c, events));
    }
  }

  // ---------------------------------------------------------------------------------------
  // Going by an outdated status
  // ---------------------------------------------------------------------------------------

  /** All four promises rest on that: one reconcile that goes by a status from before the first
      write, with the identity Secret gone, generates a second identity, puts it on record in
      place of the first, asks to enroll it, and erases the trust mark. */
  lemma OutdatedStatusBreaksAll(first: UserId, second: UserId, root: HashValue, revision: HashValue, reason: string)
    requires first != second
    ensures var mark := Condition(TrustEstablished, true, reason);
            var live := NO_STATUS.(identityUserId := Some(first), conditions := [mark]);
            var c := Cluster(live, None, [first], [Enroll]);
            var answers := Answers(Decoded(root, revision), second, Created, NoRatchet, NotReady(reason),
                                   true, true, reason);
            var after := Reconciled(c, NO_STATUS, answers);
            && TrustWasEstablished(live) && !TrustWasEstablished(after.status)
            && after.status.identityUserId == Some(second)
            && after.generated == [first, second] && after.requested == [Enroll, Enroll]
  {
    var live := NO_STATUS.(identityUserId := Some(first), conditions := [Condition(TrustEstablished, true, reason)]);
    assert live.conditions[0].isTrue;
    var report := Report(Some(root), Some(revision), Some(second), Condition(Ready, false, reason), []);
    EstablishedAfterPatch(NO_STATUS, live, report);
  }

  /** What a reconcile can go by without ever replacing the identity on record, whatever the
      cluster answers: the identity itself, or none at all while the Secret is there and holds no
      other. */
  predicate KeepsIdentity(seen: VaultStatus, recorded: UserId, secret: Option<IdentitySecret>) {
    || seen.identityUserId == Some(recorded)
    || (seen.identityUserId.None? && secret.Some? && (secret.value.Seeded? ==> secret.value.user == recorded))
  }

  lemma UnsafeReconcile(c: Cluster, seen: VaultStatus) returns (answers: Answers)
    requires c.status.identityUserId.Some? && !KeepsIdentity(seen, c.status.identityUserId.value, c.secret)
    ensures Reconciled(c, seen, answers).status.identityUserId != c.status.identityUserId
  {
    var recorded := c.status.identityUserId.value;
    answers := Answers(Decoded(0, 0), recorded + 1, Created, RatchetUnavailable, EndsInError, true, true, "");
    if seen.identityUserId.Some? {
      var reason := if seen.conditions != [] && seen.conditions[0].reason == "" then "a" else "";
      answers := answers.(source := SourceError, failureReason := reason);
      var report := FailureReport(seen, reason);
      assert seen.conditions == [] || StatusFor(seen, report).conditions[0].reason != seen.conditions[0].reason;
      IdentityAfterPatch(seen, c.status, report);
    }
  }

  lemma SafeReconcile(c: Cluster, seen: VaultStatus, answers: Answers)
    requires c.status.identityUserId.Some? && KeepsIdentity(seen, c.status.identityUserId.value, c.secret)
    ensures Reconciled(c, seen, answers).status.identityUserId == c.status.identityUserId
  {
    var (_, result) := Inner(c.(status := seen), answers);
    if result.Reports? { IdentityAfterPatch(seen, c.status, result.report); }
    IdentityAfterPatch(seen, c.status, FailureReport(seen, answers.failureReason));
  }

  /** Exactly when. */
  lemma IdentityKeptIff(c: Cluster, seen: VaultStatus)
    requires c.status.identityUserId.Some?
    ensures (forall answers :: Reconciled(c, seen, answers).status.identityUserId == c.status.identityUserId) <==>
            KeepsIdentity(seen, c.status.identityUserId.value, c.secret)
  {
    if KeepsIdentity(seen, c.status.identityUserId.value, c.secret) {
      forall answers ensures Reconciled(c, seen, answers).status.identityUserId == c.status.identityUserId {
        SafeReconcile(c, seen, answers);
      }
    } else {
      var answers := UnsafeReconcile(c, seen);
    }
  }

  // ---------------------------------------------------------------------------------------
  // What a report says
  // ---------------------------------------------------------------------------------------

  /** A written status says field by field what was reported; what was not keeps its place. */
  lemma PatchSpelled(seen: VaultStatus, live: VaultStatus, report: Report)
    ensures var status := MergePatched(live, StatusFor(seen, report));
            && status.trustedRoot == (if report.trustedRoot.Some? then report.trustedRoot else live.trustedRoot)
            && status.vaultRevision == (if report.revision.Some? then report.revision else live.vaultRevision)
            && status.identityUserId == (if report.identity.Some? then report.identity else live.identityUserId)
            && status.joinRequestFor == (if report.identity.Some? then report.identity else live.joinRequestFor)
            && status.conditions != [] && status.conditions[0] == report.ready
            && |status.conditions| >= 1 + |report.extra|
            && status.conditions[|status.conditions| - |report.extra|..] == report.extra
    ensures Reported(seen, live, report) ==
            (if seen == StatusFor(seen, report) then live else MergePatched(live, StatusFor(seen, report)))
  {
  }

  /** What it takes to be reported ready: the vault decoded, the identity in the Secret and no other
      on record, a ratchet that was neither unavailable nor, before trust was established, rejected,
      and a verification that succeeded; and the report says which vault and which identity. */
  lemma ReadyTakes(c: Cluster, answers: Answers)
    requires Inner(c, answers).1.Reports? && Inner(c, answers).1.report.ready.isTrue
    ensures var (c', result) := Inner(c, answers);
            && answers.source.Decoded?
            && result.report.trustedRoot == Some(answers.source.trustedRoot)
            && result.report.revision == Some(answers.source.revision)
            && result.report.identity.Some? && c'.secret == Some(Seeded(result.report.identity.value))
            && (c.status.identityUserId.Some? ==> c.status.identityUserId == result.report.identity)
            && answers.ending.Verified? && result.report.extra == answers.ending.extra
            && !answers.load.RatchetUnavailable?
            && (answers.load.RatchetRejected? ==> TrustWasEstablished(c.status))
  {
  }

  /** Before trust is established a rejected ratchet ends the reconcile: nothing is requested, and
      what is reported is the tampering. */
  lemma RejectedBeforeTrust(c: Cluster, answers: Answers, user: UserId)
    requires !TrustWasEstablished(c.status) && answers.load.RatchetRejected? && answers.source.Decoded?
    requires c.secret == Some(Seeded(user)) && (c.status.identityUserId.Some? ==> c.status.identityUserId == Some(user))
    ensures var (c', result) := Inner(c, answers);
            && c' == c && result.Reports?
            && result.report.ready == Condition(Ready, false, "TrustStateTampered")
            && result.report.identity == Some(user)
  {
  }

  /** And with no ratchet at all, what is requested is enrollment before trust, restoring after. */
  lemma RequestedPurpose(c: Cluster, answers: Answers, user: UserId)
    requires answers.load.NoRatchet? && answers.source.Decoded?
    requires c.secret == Some(Seeded(user)) && (c.status.identityUserId.Some? ==> c.status.identityUserId == Some(user))
    ensures Inner(c, answers).0.requested
         == c.requested + [if TrustWasEstablished(c.status) then RestoreTrust else Enroll]
    ensures Inner(c, answers).0.secret == c.secret && Inner(c, answers).0.generated == c.generated
  {
  }

  /** The identity Secret is written only where there is none and none is on record, and holds the
      one identity generated; a Secret found is used only if it is ours, has a seed and holds the
      identity on record, if any. */
  lemma IdentitySpelled(c: Cluster, newUser: UserId, answer: CreateAnswer)
    ensures var (c', outcome) := LoadOrCreateIdentity(c, newUser, answer);
            && (outcome.IdentityReady? ==> c'.secret == Some(Seeded(outcome.user)))
            && (c'.generated != c.generated ==>
                  c.secret.None? && c.status.identityUserId.None? && c'.generated == c.generated + [newUser])
            && (c'.secret != c.secret ==>
                  c.secret.None? && c.status.identityUserId.None?
                  && (c'.secret == Some(Seeded(newUser)) || answer == AlreadyExists(c'.secret.value)))
            && (c.secret == Some(Foreign) ==> outcome == Unavailable)
            && (c.secret == Some(Unseeded) ==> outcome == RecoveryRequired)
            && (c.secret.None? && c.status.identityUserId.Some? ==> outcome == RecoveryRequired)
            && (c.secret.Some? && c.secret.value.Seeded? ==>
                  (outcome == IdentityReady(c.secret.value.user) <==>
                     c.status.identityUserId.None? || c.status.identityUserId == Some(c.secret.value.user)))
  {
  }

  /** Which status a reconcile leaves: its report's; or, when the work or that write failed, the
      failure's, with everything else as it was on record; or the live one untouched. */
  lemma ReconciledSpelled(c: Cluster, seen: VaultStatus, answers: Answers)
    ensures var result := Inner(c.(status := seen), answers).1;
            var failure := Report(seen.trustedRoot, seen.vaultRevision, seen.identityUserId,
                                  Condition(Ready, false, answers.failureReason), []);
            Reconciled(c, seen, answers).status ==
              (if result.Reports? && answers.statusWritten then Reported(seen, c.status, result.report)
               else if answers.failureWritten then Reported(seen, c.status, failure)
               else c.status)
  {
  }
}
