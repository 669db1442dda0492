/**
 Resolving a conflict: ratify one candidate by re-signing its body above every admitted counter
 and every remembered watermark. The ratified record wins its key and nothing else moves. Who
 holds which authority, and who exists, is one effective state, the same before and after.
 */
module ConflictResolution {
  import opened Format
  import opened Records
  import opened Authority
  import opened Ratchet
  import opened RatchetFacts
  import opened Lww

  // ---------------------------------------------------------------------------------------
  // Counters
  // ---------------------------------------------------------------------------------------

  /** The highest admitted counter at a key, zero when there is none. */
  function CounterAt(records: seq<VerifiedRecord>, admits: VerifiedRecord -> bool, key: RecordKey): nat {
    if records == [] then 0
    else
      var last := records[|records| - 1];
      var before := CounterAt(records[..|records| - 1], admits, key);
      if admits(last) && last.key == key then Max(before, CounterOf(last)) else before
  }

  /** The per-key high-water marks of one vault, counting only admitted records. */
  method AdmittedWatermarks(records: seq<VerifiedRecord>, admits: VerifiedRecord -> bool) returns (current: Watermarks)
    ensures forall key :: At(current, key) == CounterAt(records, admits, key)
  {
    current := map[];
    for i := 0 to |records|
      invariant forall key :: At(current, key) == CounterAt(records[..i], admits, key)
    {
      var record := records[i];
      assert records[..i + 1][..i] == records[..i];
      if admits(record) && record.body.LwwCounter().Some? {
        current := Raised(current, record.key, record.body.LwwCounter().value);
      }
    }
    assert records[..|records|] == records;
  }

  lemma {:induction false} CounterAtIsHighest(
    records: seq<VerifiedRecord>, admits: VerifiedRecord -> bool, key: RecordKey)
    ensures forall r :: r in records && admits(r) && r.key == key ==> CounterOf(r) <= CounterAt(records, admits, key)
    ensures CounterAt(records, admits, key) == 0 ||
            exists r :: r in records && admits(r) && r.key == key && CounterOf(r) == CounterAt(records, admits, key)
  {
    if records == [] {
    } else {
      CounterAtIsHighest(records[..|records| - 1], admits, key);
      assert records == records[..|records| - 1] + [records[|records| - 1]];
    }
  }

  const U64_MAX: nat := 0xFFFF_FFFF_FFFF_FFFF
  const MAX_LWW_COUNTER: nat := 0x4000_0000_0000_0000

  function SaturatingNext(counter: nat): nat {
    if counter < U64_MAX then counter + 1 else U64_MAX
  }

  /** The counter a commit stamps: above the highest admitted one and above every suspected
      rollback's remembered one; refused past the ceiling. */
  function Mint(highest: Option<nat>, remembered: Option<nat>): Option<nat> {
    var next := match highest case Some(max) => SaturatingNext(max) case None => 0;
    var floor := match remembered case Some(max) => SaturatingNext(max) case None => 0;
    if Max(next, floor) > MAX_LWW_COUNTER then None else Some(Max(next, floor))
  }

  /** A minted counter is above both, with no wrap-around: saturation is past the ceiling. */
  lemma MintedIsAbove(highest: Option<nat>, remembered: Option<nat>)
    requires Mint(highest, remembered).Some?
    ensures highest.Some? ==> highest.value < Mint(highest, remembered).value
    ensures remembered.Some? ==> remembered.value < Mint(highest, remembered).value
    ensures Mint(highest, remembered).value <= MAX_LWW_COUNTER
    ensures Mint(highest, remembered).value in
              {0, if highest.Some? then highest.value + 1 else 0, if remembered.Some? then remembered.value + 1 else 0}
  {
  }

  /** And a counter is refused only when one of the two is at the ceiling. */
  lemma MintRefusedIff(highest: Option<nat>, remembered: Option<nat>)
    ensures Mint(highest, remembered).None? <==>
            || (highest.Some? && highest.value >= 0x4000_0000_0000_0000)
            || (remembered.Some? && remembered.value >= 0x4000_0000_0000_0000)
  {
  }

  // ---------------------------------------------------------------------------------------
  // Who may ratify what
  // ---------------------------------------------------------------------------------------

  /** The bar each record class sets for being written at all. */
  predicate MayWrite(authority: Authorities, body: RecordBody) {
    match body
    case Secret(_, selector, _, _) => authority.CanWrite(selector)
    case SecretDeleted(_, selector, _) => authority.CanWrite(selector)
    case GrantAdded(_, _, _, permission, _) => authority.CanCreatePermission(permission)
    case GrantDeleted(_, permission, _) => authority.CanCreatePermission(permission)
    case EntryPoint(_, _, _) => true
    case VaultRoot(_, _) => false
    case _ => authority.administer
  }

  /** The effective state that decides which records count: who holds what, who has vouched for
      the root, which principals exist, and which grants are live. */
  datatype Gate = Gate(
    root: UserId,
    authorities: map<UserId, Authorities>,
    attested: set<UserId>,
    users: set<UserId>,
    groups: set<GroupId>,
    liveGrants: map<HashValue, GrantPermission>)
  {
    function AuthorityOf(user: UserId): Authorities {
      if user in authorities then authorities[user] else NO_AUTHORITY
    }

    predicate Exists(principal: PrincipalRef) {
      match principal
      case User(user) => user in users
      case Group(group) => group in groups
    }

    /** A live grant is deleted only by someone who could have created it too; anything else at
        the id an administrator may tombstone freely. */
    predicate MayDeleteGrant(authority: Authorities, id: HashValue, stated: GrantPermission) {
      if id in liveGrants
      then authority.CanCreatePermission(stated) && authority.CanCreatePermission(liveGrants[id])
      else authority.administer || authority.CanCreatePermission(stated)
    }

    /** Whether a record raises its key's high-water mark. */
    predicate Counts(record: VerifiedRecord) {
      var authority := AuthorityOf(record.signer);
      match record.body
      case VaultRoot(_, _) => true
      case EntryPoint(_, _, _) => record.signer in attested
      case UserAdded(id, _, _, _) => authority.administer && id in attested
      case GrantDeleted(id, permission, _) => MayDeleteGrant(authority, id, permission)
      case _ => MayWrite(authority, record.body)
    }

    /** Whether a record competes at its key. */
    predicate Selects(record: VerifiedRecord) {
      var authority := AuthorityOf(record.signer);
      match record.body
      case VaultRoot(_, _) => false
      case GrantDeleted(id, permission, _) => MayDeleteGrant(authority, id, permission)
      case _ => MayWrite(authority, record.body) && HasReferents(record.signer, record.body)
    }

    /** Whether what the body speaks of exists, and is not the root. */
    predicate HasReferents(signer: UserId, body: RecordBody) {
      match body
      case EntryPoint(_, _, _) => signer in users
      case UserAdded(id, _, _, _) => id != root
      case UserDeleted(id, _, _) => id != root
      case UserHandle(_, _, user, _) => user in users
      case GroupMember(_, group, member, _) => group in groups && Exists(member)
      case GrantAdded(_, _, subject, _, _) => Exists(subject)
      case GrantDeleted(id, _, _) => id in liveGrants ==> AuthorityOf(signer).CanCreatePermission(liveGrants[id])
      case _ => true
    }

    function Counting(): VerifiedRecord -> bool {
      record => Counts(record)
    }

    function Selecting(): VerifiedRecord -> bool {
      record => Selects(record)
    }
  }

  predicate HoldsWriteOver(held: set<GrantPermission>, secret: SecretSelector) {
    exists q :: q in held && Admits(q, Write, secret)
  }

  predicate HoldsEnabling(held: set<GrantPermission>, permission: GrantPermission) {
    exists q :: q in held && Enables(q, permission)
  }

  /** What each class of record takes of its signer, in terms of the permissions held: writing a
      secret or deleting it takes write over its selector, issuing a grant or deleting it takes a
      permission that enables it, an entry point takes nothing, the root is nobody's, and all else
      takes administration. */
  lemma BarSpelled(a: Authorities, body: RecordBody)
    ensures body.Secret? || body.SecretDeleted? ==> (MayWrite(a, body) <==> HoldsWriteOver(a.Held(), body.selector))
    ensures body.GrantAdded? || body.GrantDeleted? ==> (MayWrite(a, body) <==> HoldsEnabling(a.Held(), body.permission))
    ensures body.EntryPoint? ==> MayWrite(a, body)
    ensures body.VaultRoot? ==> !MayWrite(a, body)
    ensures body.UserAdded? || body.UserDeleted? || body.UserHandle? || body.VaultHandle? || body.GroupAdded?
            || body.GroupDeleted? || body.GroupMember? || body.GroupMemberDeleted? ==>
              (MayWrite(a, body) <==> Administer in a.Held())
  {
    HeldMembership(a);
    if body.Secret? || body.SecretDeleted? { UseDependsOnHeld(a, Write, body.selector); }
    if body.GrantAdded? || body.GrantDeleted? { CanCreateIffEnabled(a, body.permission); }
  }

  /** Which records raise a high-water mark, in the same terms. */
  lemma CountsSpelled(gate: Gate, record: VerifiedRecord)
    ensures var held, body := gate.AuthorityOf(record.signer).Held(), record.body;
            && (body.VaultRoot? ==> gate.Counts(record))
            && (body.EntryPoint? ==> (gate.Counts(record) <==> record.signer in gate.attested))
            && (body.UserAdded? ==> (gate.Counts(record) <==> Administer in held && body.id in gate.attested))
            && (body.Secret? || body.SecretDeleted? ==> (gate.Counts(record) <==> HoldsWriteOver(held, body.selector)))
            && (body.GrantAdded? ==> (gate.Counts(record) <==> HoldsEnabling(held, body.permission)))
            && (body.GrantDeleted? && body.id in gate.liveGrants ==>
                  (gate.Counts(record) <==>
                     HoldsEnabling(held, body.permission) && HoldsEnabling(held, gate.liveGrants[body.id])))
            && (body.GrantDeleted? && body.id !in gate.liveGrants ==>
                  (gate.Counts(record) <==> Administer in held || HoldsEnabling(held, body.permission)))
            && (body.UserDeleted? || body.UserHandle? || body.VaultHandle? || body.GroupAdded? || body.GroupDeleted?
                || body.GroupMember? || body.GroupMemberDeleted? ==>
                  (gate.Counts(record) <==> Administer in held))
  {
    var authority := gate.AuthorityOf(record.signer);
    HeldMembership(authority);
    BarSpelled(authority, record.body);
    if record.body.GrantDeleted? {
      CanCreateIffEnabled(authority, record.body.permission);
      if record.body.id in gate.liveGrants { CanCreateIffEnabled(authority, gate.liveGrants[record.body.id]); }
    }
  }

  /** And which compete at their keys: those that take as much, and speak of what exists. */
  lemma SelectsSpelled(gate: Gate, record: VerifiedRecord)
    ensures var held, body := gate.AuthorityOf(record.signer).Held(), record.body;
            && (body.VaultRoot? ==> !gate.Selects(record))
            && (body.EntryPoint? ==> (gate.Selects(record) <==> record.signer in gate.users))
            && (body.UserAdded? || body.UserDeleted? ==>
                  (gate.Selects(record) <==> Administer in held && body.id != gate.root))
            && (body.UserHandle? ==> (gate.Selects(record) <==> Administer in held && body.user in gate.users))
            && (body.GroupMember? ==>
                  (gate.Selects(record) <==>
                     && Administer in held && body.group in gate.groups
                     && (body.member.User? ==> body.member.userId in gate.users)
                     && (body.member.Group? ==> body.member.groupId in gate.groups)))
            && (body.GrantAdded? ==>
                  (gate.Selects(record) <==>
                     && HoldsEnabling(held, body.permission)
                     && (body.subject.User? ==> body.subject.userId in gate.users)
                     && (body.subject.Group? ==> body.subject.groupId in gate.groups)))
            && (body.VaultHandle? || body.GroupAdded? || body.GroupDeleted? || body.GroupMemberDeleted?
                || body.Secret? || body.SecretDeleted? || body.GrantDeleted? ==>
                  (gate.Selects(record) <==> gate.Counts(record)))
  {
    BarSpelled(gate.AuthorityOf(record.signer), record.body);
  }

  /** Whether the holder clears the bar for ratifying: the class's own, and for a membership that
      every permission the group confers is one it could create. */
  predicate Clears(held: set<GrantPermission>, body: RecordBody, groupConfers: seq<GrantPermission>) {
    match body
    case Secret(_, selector, _, _) => HoldsWriteOver(held, selector)
    case SecretDeleted(_, selector, _) => HoldsWriteOver(held, selector)
    case GrantAdded(_, _, _, permission, _) => HoldsEnabling(held, permission)
    case GrantDeleted(_, permission, _) => HoldsEnabling(held, permission)
    case GroupMember(_, _, _, _) =>
      Administer in held && forall i :: 0 <= i < |groupConfers| ==> HoldsEnabling(held, groupConfers[i])
    case EntryPoint(_, _, _) => true
    case VaultRoot(_, _) => false
    case _ => Administer in held
  }

  /** Whatever competes counts, except the record of a user who never vouched for the root. */
  lemma SelectedCounts(gate: Gate, record: VerifiedRecord)
    requires gate.Selects(record)
    requires record.body.EntryPoint? ==> record.signer in gate.attested
    requires record.body.UserAdded? ==> record.body.id in gate.attested
    ensures gate.Counts(record)
  {
  }

  datatype Refusal =
    | NotFound | NotOwnRecord | NotAuthorized | RootCannotConflict | CounterExhausted | NotEffective

  /** `ensure_can_resolve_conflict`: the bumped record must land at the conflict's own key, and
      the resolver must clear the class's bar; conferring a membership also needs every
      permission the group confers. */
  function ResolutionRefusal(authority: Authorities, resolver: UserId, conflictKey: RecordKey, body: RecordBody,
                             groupConfers: seq<GrantPermission>): Option<Refusal> {
    if body.KeyFor(resolver) != conflictKey then Some(NotOwnRecord)
    else if body.VaultRoot? then Some(RootCannotConflict)
    else if !MayWrite(authority, body) then Some(NotAuthorized)
    else if body.GroupMember? && exists i :: 0 <= i < |groupConfers| && !authority.CanCreatePermission(groupConfers[i])
      then Some(NotAuthorized)
    else None
  }

  /** The pre-flight refuses exactly a record of another key, the root, and a bar not cleared. */
  lemma RefusalSpelled(authority: Authorities, resolver: UserId, conflictKey: RecordKey, body: RecordBody,
                       groupConfers: seq<GrantPermission>)
    ensures ResolutionRefusal(authority, resolver, conflictKey, body, groupConfers) ==
            (if body.KeyFor(resolver) != conflictKey then Some(NotOwnRecord)
             else if body.VaultRoot? then Some(RootCannotConflict)
             else if !Clears(authority.Held(), body, groupConfers) then Some(NotAuthorized)
             else None)
  {
    BarSpelled(authority, body);
    HeldMembership(authority);
    forall i | 0 <= i < |groupConfers|
      ensures authority.CanCreatePermission(groupConfers[i]) <==> HoldsEnabling(authority.Held(), groupConfers[i])
    {
      CanCreateIffEnabled(authority, groupConfers[i]);
    }
  }

  /** The ratified body: a secret is sealed afresh, anything else is re-stamped verbatim. */
  function Ratified(body: RecordBody, counter: nat, resealed: Bytes): Option<RecordBody> {
    match body
    case Secret(id, selector, _, _) => Some(Secret(id, selector, resealed, counter))
    case _ => body.WithLwwCounter(counter)
  }

  /** A secret is ratified with what it was sealed afresh as, everything else with what it said. */
  lemma RatifiedSpelled(body: RecordBody, counter: nat, resealed: Bytes)
    ensures body.Secret? ==>
        Ratified(body, counter, resealed) == Some(Secret(body.id, body.selector, resealed, counter))
    ensures !body.Secret? ==> Ratified(body, counter, resealed) == body.WithLwwCounter(counter)
    ensures Ratified(body, counter, resealed).None? <==> body.VaultRoot?
  {
  }

  lemma RatifiedKeepsKeyAndBar(body: RecordBody, counter: nat, resealed: Bytes, signer: UserId, authority: Authorities)
    requires Ratified(body, counter, resealed).Some?
    ensures var ratified := Ratified(body, counter, resealed).value;
            && ratified.LwwCounter() == Some(counter)
            && ratified.KeyFor(signer) == body.KeyFor(signer)
            && MayWrite(authority, ratified) == MayWrite(authority, body)
            && ratified.IsDeletion() == body.IsDeletion()
  {
    match body {
      case VaultRoot(_, _) =>
      case EntryPoint(_, _, _) =>
      case UserAdded(_, _, _, _) =>
      case UserDeleted(_, _, _) =>
      case UserHandle(_, _, _, _) =>
      case VaultHandle(_, _, _) =>
      case GroupAdded(_, _, _, _) =>
      case GroupDeleted(_, _) =>
      case GroupMember(_, _, _, _) =>
      case GroupMemberDeleted(_, _, _, _) =>
      case GrantAdded(_, _, _, _, _) =>
      case GrantDeleted(_, _, _) =>
      case Secret(_, _, _, _) =>
      case SecretDeleted(_, _, _) =>
    }
  }

  // ---------------------------------------------------------------------------------------
  // Ratifying works, and is local
  // ---------------------------------------------------------------------------------------

  lemma {:induction false} CounterAtAppend(
    records: seq<VerifiedRecord>, admits: VerifiedRecord -> bool, record: VerifiedRecord, key: RecordKey)
    ensures CounterAt(records + [record], admits, key) ==
            if admits(record) && record.key == key then Max(CounterAt(records, admits, key), CounterOf(record))
            else CounterAt(records, admits, key)
  {
    assert (records + [record])[..|records|] == records;
  }

  /** The keys whose highest admitted counter is below the remembered one. */
  ghost function SuspectedIn(
    records: seq<VerifiedRecord>, admits: VerifiedRecord -> bool, remembered: Watermarks): set<RecordKey> {
    set key | key in remembered && CounterAt(records, admits, key) < remembered[key]
  }

  /** After ratifying, the key is no longer suspected and no other key's suspicion changes. */
  lemma RatifiedClearsRollback(
    records: seq<VerifiedRecord>, admits: VerifiedRecord -> bool, remembered: Watermarks, record: VerifiedRecord)
    requires admits(record)
    requires record.key in SuspectedIn(records, admits, remembered) ==> remembered[record.key] < CounterOf(record)
    ensures SuspectedIn(records + [record], admits, remembered)
        == SuspectedIn(records, admits, remembered) - {record.key}
  {
    forall key ensures key in SuspectedIn(records + [record], admits, remembered) <==>
                       key in SuspectedIn(records, admits, remembered) - {record.key}
    {
      CounterAtAppend(records, admits, record, key);
    }
  }

  /** Under the updated suspicion, the ratified record is the only leader of its key, and every
      other key keeps its leaders. */
  lemma RatifiedLeads(records: seq<VerifiedRecord>, rollbacks: set<RecordKey>, admits: VerifiedRecord -> bool,
                      record: VerifiedRecord, r: VerifiedRecord)
    requires admits(record)
    requires forall o :: o in records && admits(o) && o.key == record.key ==> CounterOf(o) < CounterOf(record)
    ensures Leads(records + [record], Rules(rollbacks - {record.key}, admits), r) <==>
            if r.key == record.key then r == record else Leads(records, Rules(rollbacks, admits), r)
  {
    var after := Rules(rollbacks - {record.key}, admits);
    LeadsAfter(records, after, record, r);
    if r.key != record.key {
      forall o: VerifiedRecord | o.key == r.key
        ensures Competes(o, after) <==> Competes(o, Rules(rollbacks, admits)) {}
    }
  }

  /** Whatever the conflict was, a tie or a suspected rollback: the ratified record becomes the
      winner, its key has no conflict, and every other key keeps its winner and its conflict. */
  lemma RatifiedWinsAndIsLocal(
    records: seq<VerifiedRecord>, rollbacks: set<RecordKey>, admits: VerifiedRecord -> bool,
    record: VerifiedRecord, before: Resolution, after: Resolution, key: RecordKey)
    requires admits(record)
    requires forall o :: o in records && admits(o) && o.key == record.key ==> CounterOf(o) < CounterOf(record)
    requires HashesIdentify(records)
    requires IsResolution(records, Rules(rollbacks, admits), before)
    requires IsResolution(records + [record], Rules(rollbacks - {record.key}, admits), after)
    ensures record.key in after.winners && after.winners[record.key] == record && record.key !in after.conflicted
    ensures key != record.key ==>
              && (key in before.winners <==> key in after.winners)
              && (key in before.winners && key in after.winners ==> before.winners[key] == after.winners[key])
              && (key in before.conflicted <==> key in after.conflicted)
              && (key in before.conflicted && key in after.conflicted ==>
                        before.conflicted[key] == after.conflicted[key])
  {
    var was, now, rules := records, records + [record], Rules(rollbacks - {record.key}, admits);
    forall r ensures Leads(now, rules, r) <==>
               if r.key == record.key then r == record else Leads(records, Rules(rollbacks, admits), r)
    {
      RatifiedLeads(records, rollbacks, admits, record, r);
    }
    assert Leads(now, rules, record);
    assert IsResolutionAt(now, rules, after, record.key);
    if key != record.key {
      KeyKeepsVerdict(records, Rules(rollbacks, admits), now, rules, before, after, key);
    }
  }

  lemma RatifiedKeepsReferents(gate: Gate, signer: UserId, body: RecordBody, counter: nat, resealed: Bytes)
    requires Ratified(body, counter, resealed).Some?
    ensures gate.HasReferents(signer, Ratified(body, counter, resealed).value) == gate.HasReferents(signer, body)
  {
  }

  /** A ratified body competes exactly when what it speaks of exists. */
  lemma RatifiedSelectedIff(gate: Gate, resolver: UserId, conflictKey: RecordKey, body: RecordBody,
                            groupConfers: seq<GrantPermission>, record: VerifiedRecord, resealed: Bytes)
    requires ResolutionRefusal(gate.AuthorityOf(resolver), resolver, conflictKey, body, groupConfers) == None
    requires record.signer == resolver && Ratified(body, CounterOf(record), resealed) == Some(record.body)
    ensures gate.Selects(record) <==> gate.HasReferents(resolver, body)
  {
    RatifiedKeepsKeyAndBar(body, CounterOf(record), resealed, resolver, gate.AuthorityOf(resolver));
    RatifiedKeepsReferents(gate, resolver, body, CounterOf(record), resealed);
  }

  /** A tied candidate competes, so what it speaks of exists; no grant is live at a tied key. */
  lemma TiedCandidateHasReferents(gate: Gate, resolver: UserId, candidate: VerifiedRecord)
    requires gate.Selects(candidate) && candidate.key == candidate.body.KeyFor(candidate.signer)
    requires candidate.body.KeyFor(resolver) == candidate.key
    requires candidate.body.GrantDeleted? ==> candidate.body.id !in gate.liveGrants
    ensures gate.HasReferents(resolver, candidate.body)
  {
  }

  /** The key of a user who never vouched for the root: its records compete without counting. */
  predicate Unvouched(gate: Gate, key: RecordKey) {
    key.UserKey? && key.userId !in gate.attested
  }

  /** What a validation of these records resolves them under. */
  ghost function GateRules(records: seq<VerifiedRecord>, gate: Gate, remembered: Watermarks): Rules {
    Rules(SuspectedIn(records, gate.Counting(), remembered), gate.Selecting())
  }

  /** The only leader of its key. */
  ghost predicate WinsAlone(records: seq<VerifiedRecord>, rules: Rules, record: VerifiedRecord) {
    forall r: VerifiedRecord :: r.key == record.key ==> (Leads(records, rules, r) <==> r == record)
  }

  /** The record's content is what its key comes to, without a conflict. */
  predicate Prevails(r: Resolution, record: VerifiedRecord) {
    && record.key in r.winners && r.winners[record.key].body == record.body
    && record.key !in r.conflicted
  }

  /** Every resolution of the same records has a winner of the same body at a key, or none has. */
  lemma WinnerBodyIsDetermined(records: seq<VerifiedRecord>, rules: Rules, r: Resolution, record: VerifiedRecord)
    requires IsResolution(records, rules, r)
    ensures record.key in r.winners && r.winners[record.key].body == record.body ==>
              forall after: Resolution :: IsResolution(records, rules, after) ==> Prevails(after, record)
    ensures WinsAlone(records, rules, record) ==>
              record.key in r.winners && r.winners[record.key].body == record.body && Competes(record, rules)
  {
    assert IsResolutionAt(records, rules, r, record.key);
    if record.key in r.winners && r.winners[record.key].body == record.body {
      forall after: Resolution | IsResolution(records, rules, after)
        ensures Prevails(after, record)
      {
        assert IsResolutionAt(records, rules, after, record.key);
      }
    }
    if WinsAlone(records, rules, record) {
      assert Leads(records, rules, record);
    }
  }

  /** Some competitor at the record's key is at least as high. */
  ghost predicate Outranked(records: seq<VerifiedRecord>, gate: Gate, record: VerifiedRecord) {
    exists o :: o in records && o.key == record.key && gate.Selects(o) && CounterOf(record) <= CounterOf(o)
  }

  /** Above everything that counts, that happens only at the key of an unvouched user. */
  lemma OutrankedIsUnvouched(records: seq<VerifiedRecord>, gate: Gate, record: VerifiedRecord)
    requires forall r :: r in records ==> r.key == r.body.KeyFor(r.signer)
    requires forall r :: r in records && r.body.EntryPoint? ==> r.signer in gate.attested
    requires forall r :: r in records && gate.Counts(r) ==> CounterOf(r) < CounterOf(record)
    requires Outranked(records, gate, record)
    ensures Unvouched(gate, record.key)
  {
    var o :| o in records && o.key == record.key && gate.Selects(o) && CounterOf(record) <= CounterOf(o);
    assert !gate.Counts(o);
    assert o.key == o.body.KeyFor(o.signer);
  }

  /** An added user is effective only with an entry point of its own that is not suspected. */
  predicate Vouches(gate: Gate, suspected: set<RecordKey>, body: RecordBody) {
    body.UserAdded? ==> body.id in gate.attested && EntryPointKey(body.id) !in suspected
  }

  /** A competing record that is not outranked wins alone. */
  lemma MustTakeEffect(records: seq<VerifiedRecord>, gate: Gate, remembered: Watermarks, record: VerifiedRecord)
    requires forall r :: r in records ==> r.key == r.body.KeyFor(r.signer)
    requires forall r :: r in records && r.body.EntryPoint? ==> r.signer in gate.attested
    requires record.key == record.body.KeyFor(record.signer) && !Outranked(records, gate, record)
    requires record.body.EntryPoint? ==> record.signer in gate.attested
    requires record.body.UserAdded? ==> record.body.id in gate.attested
    requires gate.Selects(record)
    requires record.key in SuspectedIn(records, gate.Counting(), remembered) ==>
        remembered[record.key] < CounterOf(record)
    ensures WinsAlone(records + [record], GateRules(records + [record], gate, remembered), record)
  {
    SelectedCounts(gate, record);
    RatifiedClearsRollback(records, gate.Counting(), remembered, record);
    var rules := GateRules(records + [record], gate, remembered);
    forall r: VerifiedRecord | r.key == record.key ensures Leads(records + [record], rules, r) <==> r == record {
      LeadsAfter(records, rules, record, r);
    }
  }

  /** An unvouched user's key under suspicion stays so however high its record is re-signed: the
      record does not count, and nothing at the key takes effect. */
  lemma UnvouchedStaysSuspected(
    records: seq<VerifiedRecord>, gate: Gate, remembered: Watermarks, record: VerifiedRecord, r: VerifiedRecord)
    requires record.body.UserAdded? && record.key == record.body.KeyFor(record.signer) && Unvouched(gate, record.key)
    requires record.key in SuspectedIn(records, gate.Counting(), remembered)
    ensures record.key in SuspectedIn(records + [record], gate.Counting(), remembered)
    ensures r.key == record.key ==> !Leads(records + [record], GateRules(records + [record], gate, remembered), r)
  {
    CounterAtAppend(records, gate.Counting(), record, record.key);
  }

  /** And it changes nothing at any other key: neither winner nor conflict. */
  lemma EffectIsLocal(records: seq<VerifiedRecord>, gate: Gate, remembered: Watermarks, record: VerifiedRecord,
                      before: Resolution, after: Resolution, key: RecordKey)
    requires gate.Selects(record) && gate.Counts(record)
    requires forall o :: o in records && gate.Selects(o) && o.key == record.key ==> CounterOf(o) < CounterOf(record)
    requires record.key in SuspectedIn(records, gate.Counting(), remembered) ==>
        remembered[record.key] < CounterOf(record)
    requires HashesIdentify(records) && key != record.key
    requires IsResolution(records, GateRules(records, gate, remembered), before)
    requires IsResolution(records + [record], GateRules(records + [record], gate, remembered), after)
    ensures key in before.winners <==> key in after.winners
    ensures key in before.winners && key in after.winners ==> before.winners[key] == after.winners[key]
    ensures key in before.conflicted <==> key in after.conflicted
    ensures key in before.conflicted && key in after.conflicted ==> before.conflicted[key] == after.conflicted[key]
  {
    var suspected := SuspectedIn(records, gate.Counting(), remembered);
    RatifiedClearsRollback(records, gate.Counting(), remembered, record);
    RatifiedWinsAndIsLocal(records, suspected, gate.Selecting(), record, before, after, key);
  }

  /** A candidate re-signed by its resolver takes effect in the same way. */
  lemma RatifiedTakesEffect(
    records: seq<VerifiedRecord>, gate: Gate, remembered: Watermarks, candidate: VerifiedRecord, record: VerifiedRecord)
    requires forall r :: r in records ==> r.key == r.body.KeyFor(r.signer)
    requires forall r :: r in records && r.body.EntryPoint? ==> r.signer in gate.attested
    requires candidate in records && candidate.key == record.key
    requires record.key == record.body.KeyFor(record.signer)
    requires record.key in SuspectedIn(records, gate.Counting(), remembered) ==>
        remembered[record.key] < CounterOf(record)
    ensures gate.Selects(record) && !Outranked(records, gate, record)
            && (record.body.UserAdded? ==> record.body.id in gate.attested) ==>
              WinsAlone(records + [record], GateRules(records + [record], gate, remembered), record)
  {
    if gate.Selects(record) && !Outranked(records, gate, record)
       && (record.body.UserAdded? ==> record.body.id in gate.attested)
    {
      if record.body.EntryPoint? {
        assert candidate.body.KeyFor(candidate.signer) == EntryPointKey(record.signer);
      }
      MustTakeEffect(records, gate, remembered, record);
    }
  }

  /** A winner that says what a vouched record above everything that counts says is that record. */
  lemma WinnerIsTheRecord(
    records: seq<VerifiedRecord>, gate: Gate, remembered: Watermarks, record: VerifiedRecord, after: Resolution)
    requires forall r :: r in records ==> r.key == r.body.KeyFor(r.signer)
    requires forall r :: r in records && r.body.EntryPoint? ==> r.signer in gate.attested
    requires forall r :: r in records && gate.Counts(r) ==> CounterOf(r) < CounterOf(record)
    requires record.body.UserAdded? ==> record.body.id in gate.attested
    requires IsResolution(records + [record], GateRules(records + [record], gate, remembered), after)
    requires record.key in after.winners && after.winners[record.key].body == record.body
    ensures gate.Selects(record) && !Outranked(records, gate, record)
  {
    var rules := GateRules(records + [record], gate, remembered);
    assert IsResolutionAt(records + [record], rules, after, record.key);
    var winner := after.winners[record.key];
    forall o | o in records && gate.Selects(o) ensures o.body != record.body {
      if o.body == record.body { SelectedCounts(gate, o); }
    }
    assert winner == record;
    forall o | o in records && o.key == record.key && gate.Selects(o) ensures CounterOf(o) < CounterOf(record) {
      assert Competes(o, rules);
      assert CounterOf(o) == CounterOf(record) ==> Leads(records + [record], rules, o);
    }
  }

  /** Adding a record leaves the suspicion of every other key as it was. */
  lemma OtherSuspicionStays(
    records: seq<VerifiedRecord>, gate: Gate, remembered: Watermarks, record: VerifiedRecord, key: RecordKey)
    requires key != record.key
    ensures key in SuspectedIn(records + [record], gate.Counting(), remembered) <==>
            key in SuspectedIn(records, gate.Counting(), remembered)
  {
    CounterAtAppend(records, gate.Counting(), record, key);
  }

  // ---------------------------------------------------------------------------------------
  // The session
  // ---------------------------------------------------------------------------------------

  datatype Outcome = Resolved(record: VerifiedRecord) | Refused(reason: Refusal)

  /** One acting user over one vault: the verified records, the remembered watermarks and the
      effective state. */
  class ResolverSession {
    var records: seq<VerifiedRecord>
    const resolver: UserId
    const remembered: Watermarks
    const gate: Gate

    constructor (records: seq<VerifiedRecord>, resolver: UserId, remembered: Watermarks, gate: Gate)
      ensures this.records == records && this.resolver == resolver
      ensures this.remembered == remembered && this.gate == gate
    {
      this.records, this.resolver, this.remembered, this.gate := records, resolver, remembered, gate;
    }

    /** Every record lies at its own key, and every signer of an entry point has vouched. */
    ghost predicate Valid()
      reads this
    {
      && (forall r :: r in records ==> r.key == r.body.KeyFor(r.signer))
      && (forall r :: r in records && r.body.EntryPoint? ==> r.signer in gate.attested)
    }

    /** The keys under suspicion of a rollback, given these records. */
    ghost function Suspected(records: seq<VerifiedRecord>): set<RecordKey> {
      SuspectedIn(records, gate.Counting(), remembered)
    }

    ghost function RulesFor(records: seq<VerifiedRecord>): Rules {
      GateRules(records, gate, remembered)
    }

    /** Ratify the candidate with hash `pick` at `conflictKey`; `hash` and `resealed` are the new
        envelope's. The result is validated before it is kept: a record that does not win is not
        written. */
    method ResolveConflict(conflictKey: RecordKey, candidates: set<HashValue>, pick: HashValue,
                           groupConfers: seq<GrantPermission>, hash: HashValue, resealed: Bytes)
      returns (outcome: Outcome)
      requires Valid() && forall r :: r in records && r.hash in candidates ==> r.key == conflictKey
      modifies this`records
      ensures Valid()
      ensures outcome.Refused? ==> records == old(records)
      ensures outcome == Refused(NotFound) <==> !exists c :: c in old(records) && c.hash == pick && pick in candidates
      ensures outcome == Refused(NotOwnRecord) ==>
                exists c :: c in old(records) && c.hash == pick && c.body.KeyFor(resolver) != conflictKey
      ensures outcome == Refused(RootCannotConflict) ==>
          exists c :: c in old(records) && c.hash == pick && c.body.VaultRoot?
      ensures outcome == Refused(NotAuthorized) ==>
                exists c :: c in old(records) && c.hash == pick && NotCleared(c, conflictKey, groupConfers)
      ensures (exists c :: c in old(records) && c.hash == pick && pick in candidates)
              && (forall c :: c in old(records) && c.hash == pick ==> NotCleared(c, conflictKey, groupConfers)) ==>
                outcome == Refused(NotAuthorized)
      ensures outcome == Refused(CounterExhausted) ==>
                || (exists r :: r in old(records) && gate.Counts(r) && CounterOf(r) >= MAX_LWW_COUNTER)
                || (exists key :: key in Suspected(old(records)) && remembered[key] >= MAX_LWW_COUNTER)
      ensures outcome == Refused(NotEffective) ==>
                exists c :: c in old(records) && c.hash == pick && Blocked(old(records), c.body, conflictKey)
      ensures outcome.Resolved? ==>
                && records == old(records) + [outcome.record]
                && (exists c :: c in old(records) && c.hash == pick && pick in candidates
                      && IsRatification(old(records), c, conflictKey, groupConfers, outcome.record, hash, resealed))
                && gate.Selects(outcome.record) && Vouches(gate, Suspected(old(records)), outcome.record.body)
                && !Outranked(old(records), gate, outcome.record)
                && forall after: Resolution :: IsResolution(records, RulesFor(records), after) ==>
                     Prevails(after, outcome.record)
    {
      var candidate := FindCandidate(candidates, pick);
      if candidate.None? {
        return Refused(NotFound);
      }
      var refusal := Refusing(candidate.value.body, conflictKey, groupConfers);
      RefusalSpelled(gate.AuthorityOf(resolver), resolver, conflictKey, candidate.value.body, groupConfers);
      if refusal.Some? {
        return Refused(refusal.value);
      }
      var record := Ratify(candidate.value, conflictKey, groupConfers, hash, resealed);
      if record.None? {
        return Refused(CounterExhausted);
      }
      var effective := TakesEffect(record.value);
      if !effective {
        IneffectiveIsBlocked(candidate.value, conflictKey, groupConfers, record.value, hash, resealed);
        return Refused(NotEffective);
      }
      records := records + [record.value];
      outcome := Resolved(record.value);
    }

    /** Something competes at the key above everything that counts. */
    ghost predicate OutranksCounted(records: seq<VerifiedRecord>, key: RecordKey) {
      exists o :: o in records && o.key == key && gate.Selects(o)
        && forall r :: r in records && gate.Counts(r) ==> CounterOf(r) < CounterOf(o)
    }

    /** The candidate could be re-signed at the conflict's key, but not by this resolver. */
    predicate NotCleared(c: VerifiedRecord, conflictKey: RecordKey, groupConfers: seq<GrantPermission>) {
      && c.body.KeyFor(resolver) == conflictKey && !c.body.VaultRoot?
      && !Clears(gate.AuthorityOf(resolver).Held(), c.body, groupConfers)
    }

    /** What keeps a ratified body from taking effect. */
    ghost predicate Blocked(records: seq<VerifiedRecord>, body: RecordBody, key: RecordKey) {
      || !gate.HasReferents(resolver, body)
      || !Vouches(gate, Suspected(records), body)
      || (Unvouched(gate, key) && OutranksCounted(records, key))
    }

    lemma IneffectiveIsBlocked(
      candidate: VerifiedRecord, conflictKey: RecordKey, groupConfers: seq<GrantPermission>, record: VerifiedRecord,
      hash: HashValue, resealed: Bytes)
      requires Valid() && candidate in records && candidate.key == conflictKey
      requires IsRatification(records, candidate, conflictKey, groupConfers, record, hash, resealed)
      requires record.body.KeyFor(resolver) == conflictKey
      requires !WinsAlone(records + [record], RulesFor(records + [record]), record)
               || !Vouches(gate, Suspected(records), record.body)
      ensures Blocked(records, candidate.body, conflictKey)
    {
      RatifiedTakesEffect(records, gate, remembered, candidate, record);
      if Outranked(records, gate, record) { OutrankedIsUnvouched(records, gate, record); }
    }

    function Refusing(body: RecordBody, conflictKey: RecordKey, groupConfers: seq<GrantPermission>): Option<Refusal> {
      ResolutionRefusal(gate.AuthorityOf(resolver), resolver, conflictKey, body, groupConfers)
    }

    /** `record` is `candidate` re-signed by the resolver, above every counter that counts and
        every suspected rollback. */
    ghost predicate IsRatification(
      records: seq<VerifiedRecord>, candidate: VerifiedRecord, conflictKey: RecordKey,
      groupConfers: seq<GrantPermission>, record: VerifiedRecord, hash: HashValue, resealed: Bytes)
    {
      && Clears(gate.AuthorityOf(resolver).Held(), candidate.body, groupConfers)
      && candidate.body.KeyFor(resolver) == conflictKey
      && record.key == conflictKey && record.signer == resolver && record.hash == hash
      && Ratified(candidate.body, CounterOf(record), resealed) == Some(record.body)
      && (gate.Selects(record) <==> gate.HasReferents(resolver, candidate.body))
      && (forall r :: r in records && gate.Counts(r) ==> CounterOf(r) < CounterOf(record))
      && (forall key :: key in Suspected(records) ==> remembered[key] < CounterOf(record))
    }

    /** Stamp the candidate's body with a fresh counter, unless counters have run out. */
    method Ratify(candidate: VerifiedRecord, conflictKey: RecordKey, groupConfers: seq<GrantPermission>,
                  hash: HashValue, resealed: Bytes)
      returns (record: Option<VerifiedRecord>)
      requires Refusing(candidate.body, conflictKey, groupConfers) == None
      ensures record.None? ==>
                || (exists r :: r in records && gate.Counts(r) && CounterOf(r) >= MAX_LWW_COUNTER)
                || (exists key :: key in Suspected(records) && remembered[key] >= MAX_LWW_COUNTER)
      ensures record.Some? ==>
                IsRatification(records, candidate, conflictKey, groupConfers, record.value, hash, resealed)
      ensures record.Some? ==> record.value.body.KeyFor(resolver) == conflictKey
    {
      var body := candidate.body;
      RefusalSpelled(gate.AuthorityOf(resolver), resolver, conflictKey, body, groupConfers);
      var highest := HighestAdmitted();
      var suspected := SuspectedNow(records);
      var floor := HighestRemembered(suspected);
      var counter := Mint(highest, floor);
      if counter.None? {
        return None;
      }
      MintedIsAbove(highest, floor);
      RatifiedKeepsKeyAndBar(body, counter.value, resealed, resolver, gate.AuthorityOf(resolver));
      var ratified := VerifiedRecord(hash, Ratified(body, counter.value, resealed).value, conflictKey, resolver);
      RatifiedSelectedIff(gate, resolver, conflictKey, body, groupConfers, ratified, resealed);
      record := Some(ratified);
    }

    /** Validate the records with the new one among them: does it win its key, and is an added
        user effective? */
    method TakesEffect(record: VerifiedRecord) returns (effective: bool)
      requires Valid() && record.key == record.body.KeyFor(record.signer)
      requires forall r :: r in records && gate.Counts(r) ==> CounterOf(r) < CounterOf(record)
      ensures effective ==>
                && gate.Selects(record) && Vouches(gate, Suspected(records), record.body)
                && !Outranked(records, gate, record)
                && forall after: Resolution :: IsResolution(records + [record], RulesFor(records + [record]), after) ==>
                     Prevails(after, record)
      ensures !effective ==>
                || !WinsAlone(records + [record], RulesFor(records + [record]), record)
                || !Vouches(gate, Suspected(records), record.body)
    {
      var next := records + [record];
      var suspected := SuspectedNow(next);
      var after := LwwResolution(next, Rules(suspected, gate.Selecting()));
      effective := record.key in after.winners && after.winners[record.key].body == record.body
                   && Vouches(gate, suspected, record.body);
      WinnerBodyIsDetermined(next, RulesFor(next), after, record);
      if record.body.UserAdded? {
        OtherSuspicionStays(records, gate, remembered, record, EntryPointKey(record.body.id));
      }
      if effective { WinnerIsTheRecord(records, gate, remembered, record, after); }
    }

    method FindCandidate(candidates: set<HashValue>, pick: HashValue) returns (found: Option<VerifiedRecord>)
      ensures found.Some? ==> found.value in records && found.value.hash == pick && pick in candidates
      ensures found.None? <==> !exists r :: r in records && r.hash == pick && pick in candidates
    {
      for i := 0 to |records|
        invariant forall j :: 0 <= j < i ==> !(records[j].hash == pick && pick in candidates)
      {
        if records[i].hash == pick && pick in candidates {
          return Some(records[i]);
        }
      }
      found := None;
    }

    method HighestAdmitted() returns (highest: Option<nat>)
      ensures forall r :: r in records && gate.Counts(r) ==> highest.Some? && CounterOf(r) <= highest.value
      ensures highest.Some? ==> exists r :: r in records && gate.Counts(r) && CounterOf(r) == highest.value
    {
      highest := None;
      for i := 0 to |records|
        invariant forall j :: 0 <= j < i && gate.Counts(records[j]) ==>
            highest.Some? && CounterOf(records[j]) <= highest.value
        invariant highest.Some? ==> exists r :: r in records && gate.Counts(r) && CounterOf(r) == highest.value
      {
        if gate.Counts(records[i]) {
          assert records[i] in records;
          highest := Some(Max(CounterOf(records[i]), if highest.Some? then highest.value else 0));
        }
      }
    }

    method HighestRemembered(keys: set<RecordKey>) returns (highest: Option<nat>)
      requires keys <= remembered.Keys
      ensures forall key :: key in keys ==> highest.Some? && remembered[key] <= highest.value
      ensures highest.Some? ==> exists key :: key in keys && remembered[key] == highest.value
    {
      highest := None;
      var pending := keys;
      while pending != {}
        invariant pending <= keys
        invariant forall key :: key in keys && key !in pending ==> highest.Some? && remembered[key] <= highest.value
        invariant highest.Some? ==> exists key :: key in keys && remembered[key] == highest.value
      {
        var key :| key in pending;
        highest := Some(Max(remembered[key], if highest.Some? then highest.value else 0));
        pending := pending - {key};
      }
    }

    method SuspectedNow(records: seq<VerifiedRecord>) returns (keys: set<RecordKey>)
      ensures keys == Suspected(records)
    {
      var current := AdmittedWatermarks(records, gate.Counting());
      keys := set key | key in remembered && At(current, key) < remembered[key];
    }
  }
}
