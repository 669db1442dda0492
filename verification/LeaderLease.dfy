/**
 The leader lease as a compare-and-swap step. The lease passes to another holder only when the
 very lease being replaced had run out, and no two candidates take over from the same revision.
 Whether two leaders ever act at once is a question of clocks and is not modelled.
 */
module LeaderLease {
  import opened Format

  type Holder = string

  const LEASE_DURATION_SECONDS: int := 30
  const I64_MIN: int := -0x8000_0000_0000_0000
  const I64_MAX: int := 0x7FFF_FFFF_FFFF_FFFF
  const I32_MAX: int := 0x7FFF_FFFF

  datatype Lease = Lease(
    holder: Option<Holder>, acquireTime: Option<int>, renewTime: Option<int>,
    durationSeconds: Option<int>, transitions: Option<int>)

  function SaturatingSub(a: int, b: int): int {
    if a - b < I64_MIN then I64_MIN else if a - b > I64_MAX then I64_MAX else a - b
  }

  function RenewedAt(lease: Lease): int {
    if lease.renewTime.Some? then lease.renewTime.value
    else if lease.acquireTime.Some? then lease.acquireTime.value
    else I64_MIN
  }

  predicate Expired(lease: Lease, now: int) {
    var duration := if lease.durationSeconds.Some? then lease.durationSeconds.value else LEASE_DURATION_SECONDS;
    SaturatingSub(now, RenewedAt(lease)) >= duration
  }

  /** The lease a candidate would write over `lease`, unless someone else holds it and it has not
      run out. */
  function Renewal(lease: Lease, now: int, holder: Holder): Option<Lease> {
    if lease.holder != Some(holder) && !Expired(lease, now) then None
    else
      var count := if lease.transitions.Some? then lease.transitions.value else 0;
      Some(Lease(
        Some(holder),
        if lease.holder != Some(holder) then Some(now) else lease.acquireTime,
        Some(now),
        Some(LEASE_DURATION_SECONDS),
        if lease.holder != Some(holder) then Some(if count < I32_MAX then count + 1 else I32_MAX)
        else lease.transitions))
  }

  function FirstLease(now: int, holder: Holder): Lease {
    Lease(Some(holder), Some(now), Some(now), Some(LEASE_DURATION_SECONDS), Some(0))
  }

  /** Seconds and durations as the cluster stores them; a lease nobody ever renewed counts as run
      out for any stored duration, and a written one keeps others out for exactly its duration. */
  lemma LeaseKeepsOthersOut(lease: Lease, now: int, holder: Holder, other: Holder, later: int)
    requires 0 <= now <= I64_MAX && 0 <= later <= I64_MAX
    requires lease.durationSeconds.Some? ==> lease.durationSeconds.value <= I32_MAX
    ensures lease.renewTime.None? && lease.acquireTime.None? ==> Renewal(lease, now, holder).Some?
    ensures Renewal(lease, now, holder).Some? && other != holder ==>
              (Renewal(Renewal(lease, now, holder).value, later, other).Some? <==>
                  later - now >= LEASE_DURATION_SECONDS)
    ensures Renewal(lease, now, holder).Some? ==> Renewal(Renewal(lease, now, holder).value, later, holder).Some?
    ensures other != holder ==>
              (Renewal(FirstLease(now, holder), later, other).Some? <==> later - now >= LEASE_DURATION_SECONDS)
  {
  }

  // ---------------------------------------------------------------------------------------
  // Interleaved candidates
  // ---------------------------------------------------------------------------------------

  datatype Stored = Stored(revision: nat, lease: Lease)

  /** Between its read and its write a candidate remembers what it read, and when. */
  datatype Candidate = Idle | Creating(now: int) | Replacing(now: int, seen: Stored)

  /** A lease write that went through: what it replaced and what it wrote. */
  datatype Acquired = Acquired(who: Holder, now: int, before: Option<Stored>, after: Stored)

  datatype Election = Election(
    cell: Option<Stored>, nextRevision: nat, candidates: map<Holder, Candidate>, log: seq<Acquired>)

  datatype Step = ReadLease(who: Holder, now: int) | WriteLease(who: Holder) | Interfere(lease: Lease) | Remove

  function CandidateOf(e: Election, who: Holder): Candidate {
    if who in e.candidates then e.candidates[who] else Idle
  }

  function Written(e: Election, who: Holder, now: int, lease: Lease): Election {
    var after := Stored(e.nextRevision, lease);
    Election(Some(after), e.nextRevision + 1, e.candidates[who := Idle], e.log + [Acquired(who, now, e.cell, after)])
  }

  function Next(e: Election, step: Step): Election {
    match step
    case ReadLease(who, now) =>
      (match e.cell
       case None => e.(candidates := e.candidates[who := Creating(now)])
       case Some(seen) => e.(candidates := e.candidates[who := Replacing(now, seen)]))
    case WriteLease(who) =>
      (match CandidateOf(e, who)
       case Idle => e
       case Creating(now) =>
         if e.cell.None? then Written(e, who, now, FirstLease(now, who))
         else e.(candidates := e.candidates[who := Idle])
       case Replacing(now, seen) =>
         var renewal := Renewal(seen.lease, now, who);
         if renewal.Some? && e.cell.Some? && e.cell.value.revision == seen.revision
         then Written(e, who, now, renewal.value)
         else e.(candidates := e.candidates[who := Idle]))
    case Interfere(lease) => e.(cell := Some(Stored(e.nextRevision, lease)), nextRevision := e.nextRevision + 1)
    case Remove => e.(cell := None)
  }

  function Execute(e: Election, steps: seq<Step>): Election
    decreases |steps|
  {
    if steps == [] then e else Execute(Next(e, steps[0]), steps[1..])
  }

  // ---------------------------------------------------------------------------------------
  // Safety
  // ---------------------------------------------------------------------------------------

  /** An honest acquisition: into an empty cell, of one's own lease, or of one that had run out;
      the transition count tells the last two apart. */
  predicate Rightful(a: Acquired) {
    && a.after.lease.holder == Some(a.who) && a.after.lease.renewTime == Some(a.now)
    && a.after.lease.durationSeconds == Some(LEASE_DURATION_SECONDS)
    && (a.before.None? ==> a.after.lease.transitions == Some(0) && a.after.lease.acquireTime == Some(a.now))
    && (a.before.Some? ==>
          var old' := a.before.value.lease;
          && (old'.holder != Some(a.who) ==> Expired(old', a.now) && a.after.lease.acquireTime == Some(a.now))
          && (old'.holder == Some(a.who) ==>
                    a.after.lease.transitions == old'.transitions && a.after.lease.acquireTime == old'.acquireTime)
          && (old'.holder != Some(a.who) && old'.transitions.Some? && old'.transitions.value < I32_MAX ==>
                a.after.lease.transitions == Some(old'.transitions.value + 1))
          && (old'.holder != Some(a.who) && old'.transitions.None? ==> a.after.lease.transitions == Some(1))
          && (old'.holder != Some(a.who) && old'.transitions == Some(I32_MAX) ==>
                a.after.lease.transitions == Some(I32_MAX)))
  }

  predicate Replaced(a: Acquired, revision: nat) {
    a.before.Some? && a.before.value.revision == revision
  }

  /** What a candidate read is older than anything yet to be written, and a cell at the revision
      it read is still what it read. */
  ghost predicate ReadsAreCurrent(e: Election) {
    && (e.cell.Some? ==> e.cell.value.revision < e.nextRevision)
    && (forall who :: who in e.candidates && e.candidates[who].Replacing? ==>
          && e.candidates[who].seen.revision < e.nextRevision
          && (e.cell.Some? && e.cell.value.revision == e.candidates[who].seen.revision ==>
                    e.cell.value == e.candidates[who].seen))
  }

  /** A replaced revision is gone for good, and was replaced once. */
  predicate ReplacedOnce(e: Election) {
    && (e.cell.Some? ==> e.cell.value.revision < e.nextRevision)
    && (forall i :: 0 <= i < |e.log| && e.log[i].before.Some? ==>
          && e.log[i].before.value.revision < e.nextRevision
          && !(e.cell.Some? && e.cell.value.revision == e.log[i].before.value.revision))
    && (forall i, j :: 0 <= i < j < |e.log| && e.log[i].before.Some? ==>
              !Replaced(e.log[j], e.log[i].before.value.revision))
  }

  predicate AllRightful(e: Election) {
    forall i :: 0 <= i < |e.log| ==> Rightful(e.log[i])
  }

  lemma NextKeepsReads(e: Election, step: Step)
    requires ReadsAreCurrent(e)
    ensures ReadsAreCurrent(Next(e, step))
  {
  }

  lemma NextKeepsReplaced(e: Election, step: Step)
    requires ReplacedOnce(e)
    ensures ReplacedOnce(Next(e, step))
  {
  }

  lemma NextKeepsRightful(e: Election, step: Step)
    requires ReadsAreCurrent(e) && AllRightful(e)
    ensures AllRightful(Next(e, step))
  {
  }

  /** Over every interleaving of candidates, and whatever others do to the object: each
      acquisition was rightful, and no two replaced the same revision. */
  lemma {:induction false} AcquisitionsAreRightful(e: Election, steps: seq<Step>)
    requires ReadsAreCurrent(e) && ReplacedOnce(e) && AllRightful(e)
    ensures forall i :: 0 <= i < |Execute(e, steps).log| ==> Rightful(Execute(e, steps).log[i])
    ensures forall i, j :: 0 <= i < j < |Execute(e, steps).log| && Execute(e, steps).log[i].before.Some? ==>
              !Replaced(Execute(e, steps).log[j], Execute(e, steps).log[i].before.value.revision)
    decreases |steps|
  {
    if steps == [] {
    } else {
      NextKeepsReads(e, steps[0]);
      NextKeepsReplaced(e, steps[0]);
      NextKeepsRightful(e, steps[0]);
      AcquisitionsAreRightful(Next(e, steps[0]), steps[1..]);
    }
  }

  /** When a stored lease has run out, with times and durations as the cluster stores them: once its
      duration, thirty seconds if none is stored, has passed since it was renewed, or else acquired;
      and at once if it was neither. */
  lemma ExpirySpelled(lease: Lease, now: int)
    requires 0 <= now <= I64_MAX
    requires lease.renewTime.Some? ==> 0 <= lease.renewTime.value <= I64_MAX
    requires lease.acquireTime.Some? ==> 0 <= lease.acquireTime.value <= I64_MAX
    requires lease.durationSeconds.Some? ==> lease.durationSeconds.value <= I32_MAX
    ensures lease.renewTime.Some? && lease.durationSeconds.Some? ==>
              (Expired(lease, now) <==> now - lease.renewTime.value >= lease.durationSeconds.value)
    ensures lease.renewTime.None? && lease.acquireTime.Some? && lease.durationSeconds.Some? ==>
              (Expired(lease, now) <==> now - lease.acquireTime.value >= lease.durationSeconds.value)
    ensures lease.renewTime.Some? && lease.durationSeconds.None? ==>
              (Expired(lease, now) <==> now - lease.renewTime.value >= 30)
    ensures lease.renewTime.None? && lease.acquireTime.Some? && lease.durationSeconds.None? ==>
              (Expired(lease, now) <==> now - lease.acquireTime.value >= 30)
    ensures lease.renewTime.None? && lease.acquireTime.None? ==> Expired(lease, now)
  {
  }

  /** What a candidate writes over a lease, and that it writes nothing over another's that has not
      run out. */
  lemma RenewalSpelled(lease: Lease, now: int, holder: Holder)
    ensures Renewal(lease, now, holder).None? <==> lease.holder != Some(holder) && !Expired(lease, now)
    ensures Renewal(lease, now, holder).Some? ==>
              var next := Renewal(lease, now, holder).value;
              && next.holder == Some(holder) && next.renewTime == Some(now) && next.durationSeconds == Some(30)
              && (lease.holder == Some(holder) ==>
                    next.acquireTime == lease.acquireTime && next.transitions == lease.transitions)
              && (lease.holder != Some(holder) ==>
                    && next.acquireTime == Some(now)
                    && (lease.transitions.None? ==> next.transitions == Some(1))
                    && (lease.transitions.Some? && lease.transitions.value < I32_MAX ==>
                          next.transitions == Some(lease.transitions.value + 1)))
    ensures FirstLease(now, holder) == Lease(Some(holder), Some(now), Some(now), Some(30), Some(0))
  {
  }
}
