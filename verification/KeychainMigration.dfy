/**
 The migration code itself, run against a disk that may lose power: `budget` is how many more
 durable effects happen before it does. Holding for every budget is holding for a crash between
 any two effects, and a large enough budget is a run that is not interrupted.
 */
module KeychainMigration {
  import opened Format
  import opened Keychain

  datatype Outcome = Done | Failed | Crashed

  datatype Read<T> = Missing | Found(value: T) | Unreadable

  datatype Unlocked = Identified(sealed: SealedIdentity) | NotFound | Refused | PowerLost

  /** Only pending identities were added, each under its own user, and nothing was replaced. */
  predicate Extends(before: SplitFiles, after: SplitFiles, pending: set<SealedIdentity>) {
    && (forall u :: u in before ==> u in after && after[u] == before[u])
    && (forall u :: u in after && u !in before ==>
          exists s :: s in pending && s.userId == u && after[u] == Readable(s) && Fits(s))
  }

  function Members(sealeds: seq<SealedIdentity>): set<SealedIdentity> {
    set s | s in sealeds
  }

  /** The identity is this root's and its source file still holds it. */
  predicate Sourced(root: HashValue, d: Disk, source: Source, sealed: SealedIdentity) {
    sealed.trustedRoot == root && Identity(sealed) in Records(SourceFile(d, source))
  }

  /** The migration can lose power only within this many effects; one more completes it. */
  function EffectsBefore(root: HashValue, d: Disk, source: Source): nat {
    match source
    case FromCombined => |Records(d.combined)|
    case FromLegacy(_) => |Pending(root, d, source)|
  }

  predicate SameSources(d: Disk, end: Disk) {
    d.combined == end.combined && d.legacy == end.legacy && d.currentUser == end.currentUser
  }

  lemma StillSourced(root: HashValue, d: Disk, end: Disk, source: Source, sealed: SealedIdentity)
    requires Sourced(root, d, source, sealed) && SameSources(d, end)
    ensures Sourced(root, end, source, sealed)
  {
  }

  /** The split file is one this root and user can have written. */
  predicate Owned(root: HashValue, user: UserId, file: File<SealedIdentity>) {
    file.Readable? && file.value.trustedRoot == root && file.value.userId == user
  }

  predicate ObstructedSplit(root: HashValue, d: Disk, user: UserId) {
    if user in d.identities then !Owned(root, user, d.identities[user]) else !Migratable(root, d, FromLegacy(user))
  }

  /** What keeps an identity from being unlocked: a combined file that cannot be split, a split
      file that is not the user's, or, where there is none, a legacy file that cannot be moved. */
  ghost predicate Obstructed(root: HashValue, d: Disk, user: UserId) {
    !Migratable(root, d, FromCombined) || ObstructedSplit(root, Migrated(root, d, FromCombined), user)
  }

  predicate FoundInSplit(root: HashValue, d: Disk, user: UserId, sealed: SealedIdentity) {
    if user in d.identities then d.identities[user] == Readable(sealed)
    else sealed.userId == user && sealed in Pending(root, d, FromLegacy(user))
  }

  /** Where an unlock looks for the user's identity: split or combined file first, then legacy. */
  ghost predicate FoundAt(root: HashValue, d: Disk, user: UserId, sealed: SealedIdentity)
    requires Migratable(root, d, FromCombined)
  {
    FoundInSplit(root, Migrated(root, d, FromCombined), user, sealed)
  }

  /** An identity stored in any of the three places is found, unless a nearer one hides it. */
  lemma StoredIsFound(root: HashValue, d: Disk, sealed: SealedIdentity)
    requires Migratable(root, d, FromCombined) && sealed.trustedRoot == root
    ensures Split(d, sealed) || Identity(sealed) in Records(d.combined) ==> FoundAt(root, d, sealed.userId, sealed)
    ensures sealed.userId !in d.identities && Identity(sealed) in Records(LegacyFile(d, sealed.userId))
            && (forall r :: r in Records(d.combined) && r.Identity? ==> r.sealed.userId != sealed.userId) ==>
              FoundAt(root, d, sealed.userId, sealed)
  {
    var split := Migrated(root, d, FromCombined);
    assert OfRoot(root, Identity(sealed));
    assert Identity(sealed) in Records(d.combined) ==> sealed in Pending(root, d, FromCombined);
    assert LegacyFile(split, sealed.userId) == LegacyFile(d, sealed.userId);
  }

  lemma StillPlaceable(before: SplitFiles, now: SplitFiles, pending: set<SealedIdentity>, sealed: SealedIdentity)
    requires sealed in pending && Extends(before, now, pending)
    ensures Placeable(before, pending) ==> Placeable(now, {sealed})
  {
  }

  lemma ExtendsByOne(
    before: SplitFiles, now: SplitFiles, next: SplitFiles, pending: set<SealedIdentity>, sealed: SealedIdentity)
    requires sealed in pending && Extends(before, now, pending)
    requires next == now || (sealed.userId !in now && Fits(sealed) && next == now[sealed.userId := Readable(sealed)])
    ensures Extends(before, next, pending)
    ensures forall u :: u in now ==> u in next && next[u] == now[u]
  {
  }

  /** Once everything pending is in place, it could be placed, and this is the result. */
  lemma PlacedIsPlaceable(before: SplitFiles, after: SplitFiles, pending: set<SealedIdentity>)
    requires Extends(before, after, pending)
    requires forall s :: s in pending ==> s.userId in after && after[s.userId] == Readable(s)
    ensures Placeable(before, pending) && Placed(before, pending, after)
  {
  }

  /** A user without a split file gets one exactly when an identity of that user was pending. */
  lemma MovedToSplit(before: SplitFiles, pending: set<SealedIdentity>, after: SplitFiles, user: UserId)
    requires Placed(before, pending, after) && user !in before
    ensures user in after <==> exists s :: s in pending && s.userId == user
    ensures forall s :: s in pending && s.userId == user ==> user in after && after[user] == Readable(s)
    ensures user in after ==> after[user].Readable? && after[user].value in pending && after[user].value.userId == user
  {
  }

  /** The list holds each of this root's identities once. */
  ghost predicate Collected(root: HashValue, records: set<KeychainRecord>, sealeds: seq<SealedIdentity>) {
    Members(sealeds) == IdentitiesOf(root, records) && |sealeds| == |IdentitiesOf(root, records)|
  }

  lemma CollectedOneMore(
    root: HashValue, records: set<KeychainRecord>, sealeds: seq<SealedIdentity>, record: KeychainRecord)
    requires Collected(root, records, sealeds) && record !in records
    ensures Collected(root, records + {record}, if OfRoot(root, record) then sealeds + [record.sealed] else sealeds)
  {
    var before, after := IdentitiesOf(root, records), IdentitiesOf(root, records + {record});
    if OfRoot(root, record) {
      assert record == Identity(record.sealed);
      assert after == before + {record.sealed} && record.sealed !in before;
      assert Members(sealeds + [record.sealed]) == Members(sealeds) + {record.sealed};
    } else {
      assert after == before;
    }
  }

  lemma MembersAreSourced(root: HashValue, records: set<KeychainRecord>, sealeds: seq<SealedIdentity>)
    requires Members(sealeds) == IdentitiesOf(root, records)
    ensures forall i :: 0 <= i < |sealeds| ==> sealeds[i].trustedRoot == root && Identity(sealeds[i]) in records
  {
    forall i | 0 <= i < |sealeds| ensures sealeds[i].trustedRoot == root && Identity(sealeds[i]) in records {
      assert sealeds[i] in Members(sealeds);
    }
  }

  lemma CollectedIsPending(
    root: HashValue, records: set<KeychainRecord>, sealeds: seq<SealedIdentity>, current: Option<CurrentUser>)
    requires Splittable(root, records)
    requires forall r :: r in records <==>
               if r.Identity? then r.sealed in sealeds else r.Current? && current == Some(r.user)
    ensures Members(sealeds) == IdentitiesOf(root, records)
    ensures forall i :: 0 <= i < |sealeds| ==> sealeds[i].trustedRoot == root && Identity(sealeds[i]) in records
  {
    forall s ensures s in sealeds <==> s in IdentitiesOf(root, records) {
      assert Identity(s).sealed == s;
    }
    MembersAreSourced(root, records, sealeds);
  }

  lemma NothingToSplit(root: HashValue, d: Disk)
    requires d.combined.None?
    ensures Migratable(root, d, FromCombined) && Migrated(root, d, FromCombined) == d
  {
    assert Pending(root, d, FromCombined) == {};
    assert IsMigrated(root, d, FromCombined, d);
    MigratedUnique(root, d, FromCombined, d, Migrated(root, d, FromCombined));
  }

  lemma NothingToMove(root: HashValue, d: Disk, owner: UserId)
    requires Pending(root, d, FromLegacy(owner)) == {}
    requires owner in d.legacy ==> d.legacy[owner].Readable?
    ensures Migratable(root, d, FromLegacy(owner)) && Migrated(root, d, FromLegacy(owner)) == d
  {
    assert IsMigrated(root, d, FromLegacy(owner), d);
    MigratedUnique(root, d, FromLegacy(owner), d, Migrated(root, d, FromLegacy(owner)));
  }

  lemma SplitFormReached(
    root: HashValue, start: Disk, mid: Disk, sealeds: seq<SealedIdentity>, current: Option<CurrentUser>)
    requires start.combined.Some? && start.combined.value.Readable? && Splittable(root, Records(start.combined))
    requires mid.legacy == start.legacy
    requires forall r :: r in Records(start.combined) <==>
               if r.Identity? then r.sealed in sealeds else r.Current? && current == Some(r.user)
    requires Extends(start.identities, mid.identities, Members(sealeds))
    requires forall s :: s in Members(sealeds) ==> Split(mid, s)
    requires if current.Some? then mid.currentUser == Some(Readable(current.value))
        else mid.currentUser == start.currentUser
    requires start.currentUser.Some? ==> mid.currentUser == start.currentUser
    requires current.Some? && start.currentUser.None? ==> |current.value.encoded| <= MAX_CURRENT_USER_BYTES
    ensures Migratable(root, start, FromCombined)
    ensures Migrated(root, start, FromCombined) == mid.(combined := None)
  {
    var end := mid.(combined := None);
    CollectedIsPending(root, Records(start.combined), sealeds, current);
    PlacedIsPlaceable(start.identities, mid.identities, Members(sealeds));
    if current.Some? { assert Current(current.value) in Records(start.combined); }
    assert IsMigrated(root, start, FromCombined, end);
    MigratedUnique(root, start, FromCombined, end, Migrated(root, start, FromCombined));
  }

  lemma LegacyFormReached(root: HashValue, start: Disk, mid: Disk, owner: UserId)
    requires owner in start.legacy && start.legacy[owner].Readable? && SameSources(start, mid)
    requires Pending(root, start, FromLegacy(owner)) != {}
    requires Extends(start.identities, mid.identities, Pending(root, start, FromLegacy(owner)))
    requires forall s :: s in Pending(root, start, FromLegacy(owner)) ==> Split(mid, s)
    ensures Migratable(root, start, FromLegacy(owner))
    ensures Migrated(root, start, FromLegacy(owner)) == Moved(root, mid, RewriteLegacy(owner))
  {
    var source, end := FromLegacy(owner), Moved(root, mid, RewriteLegacy(owner));
    PlacedIsPlaceable(start.identities, mid.identities, Pending(root, start, source));
    assert end.legacy == LegacyAfter(root, start, owner);
    MigratedUnique(root, start, source, end, Migrated(root, start, source));
  }

  lemma EffectsOnlyShrink(root: HashValue, d: Disk, source: Source, moves: seq<Move>, end: Disk)
    requires SourcePath(root, d, source, moves, end)
    ensures EffectsBefore(root, end, source) <= EffectsBefore(root, d, source)
  {
    SourceOnlyShrinks(root, d, source, moves, end);
  }

  class KeychainDir {
    const root: HashValue
    var disk: Disk
    var budget: nat

    constructor (root: HashValue, disk: Disk, budget: nat)
      ensures this.root == root && this.disk == disk && this.budget == budget
    {
      this.root, this.disk, this.budget := root, disk, budget;
    }

    /** One durable effect, or the power loss that prevents it. */
    method Commit(move: Move) returns (crashed: bool)
      requires Enabled(root, disk, move)
      modifies this
      ensures crashed <==> old(budget) == 0
      ensures if crashed then disk == old(disk) && budget == 0
              else disk == Moved(root, old(disk), move) && budget == old(budget) - 1
    {
      crashed := budget == 0;
      if !crashed {
        budget := budget - 1;
        disk := Moved(root, disk, move);
      }
    }

    function ReadIdentity(user: UserId): Read<SealedIdentity>
      reads this
    {
      if user !in disk.identities then Missing
      else
        match disk.identities[user]
        case Garbled => Unreadable
        case Readable(sealed) =>
          if sealed.trustedRoot != root || sealed.userId != user then Unreadable else Found(sealed)
    }

    function ReadCurrentUser(): Read<CurrentUser>
      reads this
    {
      match disk.currentUser
      case None => Missing
      case Some(Garbled) => Unreadable
      case Some(Readable(user)) => Found(user)
    }

    /** Put one identity in its split file unless it is already there; never replace another. */
    method PlaceIdentity(sealed: SealedIdentity, ghost source: Source)
      returns (outcome: Outcome, ghost moves: seq<Move>)
      requires Sourced(root, disk, source, sealed)
      modifies this
      ensures SourcePath(root, old(disk), source, moves, disk)
      ensures |moves| <= 1 && old(budget) == budget + |moves|
      ensures disk == old(disk)
              || (sealed.userId !in old(disk).identities && Fits(sealed)
                  && disk == Moved(root, old(disk), WriteIdentity(sealed)))
      ensures outcome.Done? ==> Split(disk, sealed)
      ensures outcome.Failed? <==> !Placeable(old(disk).identities, {sealed})
      ensures outcome.Crashed? ==> moves == [] && budget == 0
    {
      moves := [];
      assert sealed in {sealed};
      match ReadIdentity(sealed.userId) {
        case Unreadable => return Failed, moves;
        case Found(existing) => return if existing == sealed then Done else Failed, moves;
        case Missing =>
          if !Fits(sealed) {
            return Failed, moves;
          }
          var crashed := Commit(WriteIdentity(sealed));
          if crashed {
            return Crashed, moves;
          }
          moves := [WriteIdentity(sealed)];
          assert moves[1..] == [];
          return Done, moves;
      }
    }

    method PlaceAll(sealeds: seq<SealedIdentity>, ghost source: Source)
      returns (outcome: Outcome, ghost moves: seq<Move>)
      requires forall i :: 0 <= i < |sealeds| ==> Sourced(root, disk, source, sealeds[i])
      modifies this
      ensures SourcePath(root, old(disk), source, moves, disk)
      ensures |moves| <= |sealeds| && old(budget) == budget + |moves|
      ensures SameSources(old(disk), disk) && Extends(old(disk).identities, disk.identities, Members(sealeds))
      ensures outcome.Done? ==> forall s :: s in Members(sealeds) ==> Split(disk, s)
      ensures outcome.Failed? ==> !Placeable(old(disk).identities, Members(sealeds))
      ensures outcome.Crashed? ==> |moves| < |sealeds| && budget == 0
    {
      moves := [];
      ghost var start := disk;
      for i := 0 to |sealeds|
        invariant SourcePath(root, start, source, moves, disk)
        invariant |moves| <= i && old(budget) == budget + |moves|
        invariant SameSources(start, disk) && Extends(start.identities, disk.identities, Members(sealeds))
        invariant forall j :: 0 <= j < i ==> Split(disk, sealeds[j])
      {
        ghost var before := disk;
        ghost var more;
        StillSourced(root, start, disk, source, sealeds[i]);
        outcome, more := PlaceIdentity(sealeds[i], source);
        SourcePathConcat(root, start, source, moves, before, more, disk);
        moves := moves + more;
        StillPlaceable(start.identities, before.identities, Members(sealeds), sealeds[i]);
        ExtendsByOne(start.identities, before.identities, disk.identities, Members(sealeds), sealeds[i]);
        if !outcome.Done? {
          return;
        }
      }
      outcome := Done;
    }

    method PlaceCurrent(user: CurrentUser) returns (outcome: Outcome, ghost moves: seq<Move>)
      requires Current(user) in Records(disk.combined)
      modifies this
      ensures SourcePath(root, old(disk), FromCombined, moves, disk)
      ensures |moves| <= 1 && old(budget) == budget + |moves|
      ensures disk == old(disk).(currentUser := disk.currentUser)
      ensures old(disk).currentUser.Some? ==> disk == old(disk)
      ensures outcome.Done? ==> disk.currentUser == Some(Readable(user))
      ensures outcome.Failed? <==>
              if old(disk).currentUser.Some? then old(disk).currentUser != Some(Readable(user))
              else |user.encoded| > MAX_CURRENT_USER_BYTES
      ensures outcome.Crashed? ==> moves == [] && budget == 0
    {
      moves := [];
      match ReadCurrentUser() {
        case Unreadable => return Failed, moves;
        case Found(existing) => return if existing == user then Done else Failed, moves;
        case Missing =>
          if |user.encoded| > MAX_CURRENT_USER_BYTES {
            return Failed, moves;
          }
          var crashed := Commit(WriteCurrent(user));
          if crashed {
            return Crashed, moves;
          }
          moves := [WriteCurrent(user)];
          assert moves[1..] == [];
          return Done, moves;
      }
    }

    /** Read every destination back before the source may go. */
    method VerifyMoved(sealeds: seq<SealedIdentity>, current: Option<CurrentUser>) returns (verified: bool)
      requires forall i :: 0 <= i < |sealeds| ==> sealeds[i].trustedRoot == root
      ensures verified <==>
              && (forall s :: s in Members(sealeds) ==> Split(disk, s))
              && (current.Some? ==> disk.currentUser == Some(Readable(current.value)))
    {
      for i := 0 to |sealeds|
        invariant forall j :: 0 <= j < i ==> Split(disk, sealeds[j])
      {
        if ReadIdentity(sealeds[i].userId) != Found(sealeds[i]) {
          assert sealeds[i] in Members(sealeds);
          return false;
        }
      }
      verified := current.Some? ==> ReadCurrentUser() == Found(current.value);
    }

    /** Sort the combined file's records into identities and the current-user selector. */
    method Collect(records: set<KeychainRecord>)
      returns (ok: bool, sealeds: seq<SealedIdentity>, current: Option<CurrentUser>)
      requires forall r :: r in records ==> !r.UnknownRecord?
      ensures ok <==> Splittable(root, records)
      ensures ok ==> forall r :: r in records <==>
                if r.Identity? then r.sealed in sealeds else r.Current? && current == Some(r.user)
      ensures ok ==> |sealeds| + (if current.Some? then 1 else 0) == |records|
    {
      sealeds, current := [], None;
      var pending := records;
      ghost var taken: set<KeychainRecord> := {};
      while pending != {}
        invariant pending + taken == records && pending !! taken
        invariant forall r :: r in taken <==>
                    if r.Identity? then r.sealed in sealeds else r.Current? && current == Some(r.user)
        invariant forall s :: s in sealeds ==> s.trustedRoot == root
        invariant |sealeds| + (if current.Some? then 1 else 0) == |taken|
      {
        var record :| record in pending;
        match record {
          case Identity(sealed) =>
            if sealed.trustedRoot != root {
              assert record in records;
              return false, sealeds, current;
            }
            sealeds := sealeds + [sealed];
          case Current(user) =>
            if current.Some? {
              assert Current(current.value) in taken;
              return false, sealeds, current;
            }
            current := Some(user);
        }
        pending, taken := pending - {record}, taken + {record};
      }
      ok := true;
    }

    /** Split the combined file. It loses power only within as many effects as there are records;
        otherwise it completes exactly when nothing stands in the way, and leaves the split form. */
    method MigrateRootCombined() returns (outcome: Outcome, ghost moves: seq<Move>)
      modifies this
      ensures SourcePath(root, old(disk), FromCombined, moves, disk)
      ensures old(budget) == budget + |moves| && |moves| <= |Records(old(disk).combined)| + 1
      ensures outcome.Done? ==>
                Migratable(root, old(disk), FromCombined) && disk == Migrated(root, old(disk), FromCombined)
      ensures outcome.Failed? ==> !Migratable(root, old(disk), FromCombined)
      ensures outcome.Crashed? ==> budget == 0 && |moves| <= |Records(old(disk).combined)|
    {
      moves := [];
      if disk.combined.None? {
        NothingToSplit(root, disk);
        return Done, moves;
      }
      if disk.combined.value.Garbled? {
        return Failed, moves;
      }
      var records := disk.combined.value.value;
      if exists r :: r in records && r.UnknownRecord? {
        return Failed, moves;
      }
      var ok, sealeds, current := Collect(records);
      if !ok {
        return Failed, moves;
      }
      ghost var start := disk;
      CollectedIsPending(root, records, sealeds, current);
      outcome, moves := PlaceAll(sealeds, FromCombined);
      if !outcome.Done? {
        return;
      }
      if current.Some? {
        assert Current(current.value) in records;
        ghost var mid, more := disk, [];
        outcome, more := PlaceCurrent(current.value);
        SourcePathConcat(root, start, FromCombined, moves, mid, more, disk);
        moves := moves + more;
        if !outcome.Done? {
          return;
        }
      }
      outcome, moves := FinishSplit(start, moves, sealeds, current);
    }

    /** The last steps: read everything back, then remove the combined file. */
    method FinishSplit(
      ghost start: Disk, ghost done: seq<Move>, sealeds: seq<SealedIdentity>, current: Option<CurrentUser>)
      returns (outcome: Outcome, ghost moves: seq<Move>)
      requires SourcePath(root, start, FromCombined, done, disk)
      requires start.combined.Some? && start.combined.value.Readable? && Splittable(root, Records(start.combined))
      requires disk.combined == start.combined && disk.legacy == start.legacy
      requires forall r :: r in Records(start.combined) <==>
                 if r.Identity? then r.sealed in sealeds else r.Current? && current == Some(r.user)
      requires Extends(start.identities, disk.identities, Members(sealeds))
      requires forall s :: s in Members(sealeds) ==> Split(disk, s)
      requires if current.Some? then disk.currentUser == Some(Readable(current.value))
               else disk.currentUser == start.currentUser
      requires start.currentUser.Some? ==> disk.currentUser == start.currentUser
      requires current.Some? && start.currentUser.None? ==> |current.value.encoded| <= MAX_CURRENT_USER_BYTES
      modifies this
      ensures SourcePath(root, start, FromCombined, moves, disk)
      ensures |moves| <= |done| + 1 && old(budget) + |done| == budget + |moves|
      ensures outcome.Done? ==> Migratable(root, start, FromCombined) && disk == Migrated(root, start, FromCombined)
      ensures !outcome.Failed? && (outcome.Crashed? ==> budget == 0 && moves == done)
    {
      moves := done;
      CollectedIsPending(root, Records(start.combined), sealeds, current);
      var verified := VerifyMoved(sealeds, current);
      outcome := Failed;
      if verified {
        ghost var mid := disk;
        var crashed := Commit(RemoveCombined);
        outcome := if crashed then Crashed else Done;
        if !crashed {
          assert [RemoveCombined][1..] == [];
          SourcePathConcat(root, start, FromCombined, done, mid, [RemoveCombined], disk);
          moves := done + [RemoveCombined];
          SplitFormReached(root, start, mid, sealeds, current);
        }
      }
    }

    /** Move this root's identities out of one user's legacy file, leaving every other record. It
        loses power only within as many effects as there are identities to move; otherwise it
        completes exactly when nothing stands in the way. */
    method MigrateLegacyUser(owner: UserId) returns (outcome: Outcome, ghost moves: seq<Move>)
      modifies this
      ensures SourcePath(root, old(disk), FromLegacy(owner), moves, disk)
      ensures old(budget) == budget + |moves| && |moves| <= |Pending(root, old(disk), FromLegacy(owner))| + 1
      ensures outcome.Done? ==>
                && Migratable(root, old(disk), FromLegacy(owner))
                && disk == Migrated(root, old(disk), FromLegacy(owner))
      ensures outcome.Failed? ==> !Migratable(root, old(disk), FromLegacy(owner))
      ensures outcome.Crashed? ==> budget == 0 && |moves| <= |Pending(root, old(disk), FromLegacy(owner))|
    {
      moves := [];
      ghost var start, source := disk, FromLegacy(owner);
      if owner !in disk.legacy {
        NothingToMove(root, disk, owner);
        return Done, moves;
      }
      if disk.legacy[owner].Garbled? {
        return Failed, moves;
      }
      var records := disk.legacy[owner].value;
      var migrating := CollectOfRoot(records);
      MembersAreSourced(root, records, migrating);
      outcome, moves := PlaceAll(migrating, source);
      if !outcome.Done? {
        return;
      }
      if migrating == [] {
        NothingToMove(root, disk, owner);
        PlacedIsPlaceable(start.identities, disk.identities, {});
        return;
      }
      assert migrating[0] in Members(migrating);
      ghost var mid := disk;
      var crashed := Commit(RewriteLegacy(owner));
      if crashed {
        outcome := Crashed;
      } else {
        assert [RewriteLegacy(owner)][1..] == [];
        SourcePathConcat(root, start, source, moves, mid, [RewriteLegacy(owner)], disk);
        moves := moves + [RewriteLegacy(owner)];
        LegacyFormReached(root, start, mid, owner);
      }
    }

    method CollectOfRoot(records: set<KeychainRecord>) returns (sealeds: seq<SealedIdentity>)
      ensures Collected(root, records, sealeds)
    {
      sealeds := [];
      var pending := records;
      ghost var taken: set<KeychainRecord> := {};
      while pending != {}
        invariant pending + taken == records && pending !! taken
        invariant Collected(root, taken, sealeds)
      {
        var record :| record in pending;
        CollectedOneMore(root, taken, sealeds, record);
        if record.Identity? && record.sealed.trustedRoot == root {
          sealeds := sealeds + [record.sealed];
        }
        pending, taken := pending - {record}, taken + {record};
      }
      assert taken == records;
    }

    method Migrate(source: Source) returns (outcome: Outcome, ghost moves: seq<Move>)
      modifies this
      ensures SourcePath(root, old(disk), source, moves, disk)
      ensures outcome.Done? ==> Migratable(root, old(disk), source) && disk == Migrated(root, old(disk), source)
      ensures outcome.Failed? ==> !Migratable(root, old(disk), source)
      ensures outcome.Crashed? ==> old(budget) <= EffectsBefore(root, old(disk), source)
    {
      match source {
        case FromCombined => outcome, moves := MigrateRootCombined();
        case FromLegacy(owner) => outcome, moves := MigrateLegacyUser(owner);
      }
    }

    /** Run again after every power loss. Where migrating was possible to begin with, no restart
        fails, one that is given enough effects completes, and the disk is then exactly what one
        uninterrupted run would have left. */
    method RestartAfterCrashes(source: Source, budgets: seq<nat>) returns (outcome: Outcome)
      requires Migratable(root, disk, source)
      modifies this
      ensures !outcome.Failed?
      ensures outcome.Done? ==> disk == Migrated(root, old(disk), source)
      ensures outcome.Crashed? ==>
                && Migratable(root, disk, source) && Migrated(root, disk, source) == Migrated(root, old(disk), source)
                && Keeps(root, old(disk), disk)
      ensures (exists i :: 0 <= i < |budgets| && budgets[i] > EffectsBefore(root, old(disk), source)) ==> outcome.Done?
    {
      ghost var start, done: seq<Move> := disk, [];
      for i := 0 to |budgets|
        invariant SourcePath(root, start, source, done, disk)
        invariant forall j :: 0 <= j < i ==> budgets[j] <= EffectsBefore(root, start, source)
      {
        budget := budgets[i];
        ghost var mid, moves := disk, [];
        outcome, moves := Migrate(source);
        InterruptedEndsTheSame(root, start, source, done, mid);
        EffectsOnlyShrink(root, start, source, done, mid);
        SourcePathConcat(root, start, source, done, mid, moves, disk);
        done := done + moves;
        if outcome.Done? {
          return;
        }
      }
      outcome := Crashed;
      InterruptedEndsTheSame(root, start, source, done, disk);
      SourcePathIsPath(root, start, source, done, disk);
      MigrationConserves(root, start, done, disk);
    }

    /** The first step of every unlock: split, fall back to the legacy file, then read. Unless the
        power fails, it is refused exactly when something named stands in the way, and otherwise
        finds the identity wherever it was. */
    method UnlockSealed(user: UserId) returns (result: Unlocked, ghost moves: seq<Move>)
      modifies this
      ensures Path(root, old(disk), moves, disk)
      ensures result.PowerLost? ==>
                old(budget) <= |Records(old(disk).combined)| + 1 + |Pending(root, old(disk), FromLegacy(user))|
      ensures !result.PowerLost? ==> (result.Refused? <==> Obstructed(root, old(disk), user))
      ensures result.Identified? ==> FoundAt(root, old(disk), user, result.sealed) && Split(disk, result.sealed)
      ensures result.Identified? ==> result.sealed.trustedRoot == root && result.sealed.userId == user
      ensures result.NotFound? ==> forall sealed :: !FoundAt(root, old(disk), user, sealed)
      ensures !result.PowerLost? && !Obstructed(root, old(disk), user) ==>
                forall sealed :: FoundAt(root, old(disk), user, sealed) ==> result == Identified(sealed)
    {
      var outcome;
      ghost var start := disk;
      outcome, moves := MigrateRootCombined();
      SourcePathIsPath(root, start, FromCombined, moves, disk);
      if !outcome.Done? {
        return if outcome.Crashed? then PowerLost else Refused, moves;
      }
      ghost var more;
      assert LegacyFile(disk, user) == LegacyFile(start, user);
      ghost var mid := disk;
      result, more := UnlockSplit(user);
      PathConcat(root, start, moves, mid, more, disk);
      moves := moves + more;
    }

    /** The same once the combined file is out of the way. */
    method UnlockSplit(user: UserId) returns (result: Unlocked, ghost moves: seq<Move>)
      modifies this
      ensures Path(root, old(disk), moves, disk)
      ensures result.PowerLost? ==> old(budget) <= |Pending(root, old(disk), FromLegacy(user))|
      ensures !result.PowerLost? ==> (result.Refused? <==> ObstructedSplit(root, old(disk), user))
      ensures result.Identified? ==> FoundInSplit(root, old(disk), user, result.sealed) && Split(disk, result.sealed)
      ensures result.Identified? ==> result.sealed.trustedRoot == root && result.sealed.userId == user
      ensures result.NotFound? ==> forall sealed :: !FoundInSplit(root, old(disk), user, sealed)
      ensures result.Identified? ==>
                forall sealed :: FoundInSplit(root, old(disk), user, sealed) ==> sealed == result.sealed
    {
      moves := [];
      ghost var start := disk;
      if ReadIdentity(user) == Missing {
        var outcome;
        outcome, moves := MigrateLegacyUser(user);
        SourcePathIsPath(root, start, FromLegacy(user), moves, disk);
        if !outcome.Done? {
          return if outcome.Crashed? then PowerLost else Refused, moves;
        }
        MovedToSplit(start.identities, Pending(root, start, FromLegacy(user)), disk.identities, user);
      }
      match ReadIdentity(user) {
        case Unreadable => result := Refused;
        case Found(sealed) => result := Identified(sealed);
        case Missing => result := NotFound;
      }
    }
  }
}
