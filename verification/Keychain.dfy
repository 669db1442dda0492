/**
 One trusted root's keychain directory and the migration of the older layouts into one file per
 identity. Every durable effect is one atomic file write or removal; a crash may fall between any
 two, and the next run starts over from what the disk then holds.
 */
module Keychain {
  import opened Format

  /** A sealed identity as its file holds it; `encoded` is that file's content. */
  datatype SealedIdentity = SealedIdentity(trustedRoot: HashValue, userId: UserId, encoded: Bytes)

  datatype CurrentUser = CurrentUser(userId: UserId, encoded: Bytes)

  datatype KeychainRecord =
    | Identity(sealed: SealedIdentity)
    | Current(user: CurrentUser)
    | UnknownRecord(payload: Bytes)

  /** A file either decodes or does not. */
  datatype File<T> = Readable(value: T) | Garbled

  type SplitFiles = map<UserId, File<SealedIdentity>>

  /** Everything under one root: the old combined file, the split files, and the per-user files of
      the oldest layout, which are keyed by user and may hold other roots' identities. */
  datatype Disk = Disk(
    combined: Option<File<set<KeychainRecord>>>,
    identities: SplitFiles,
    currentUser: Option<File<CurrentUser>>,
    legacy: map<UserId, File<set<KeychainRecord>>>)

  const MAX_IDENTITY_BYTES: nat := 1024 * 1024
  const MAX_CURRENT_USER_BYTES: nat := 64 * 1024

  predicate Fits(sealed: SealedIdentity) {
    |sealed.encoded| <= MAX_IDENTITY_BYTES
  }

  // ---------------------------------------------------------------------------------------
  // The atomic effects of migration
  // ---------------------------------------------------------------------------------------

  datatype Move =
    | WriteIdentity(sealed: SealedIdentity)
    | WriteCurrent(user: CurrentUser)
    | RemoveCombined
    | RewriteLegacy(owner: UserId)

  function Records(file: Option<File<set<KeychainRecord>>>): set<KeychainRecord> {
    if file.Some? && file.value.Readable? then file.value.value else {}
  }

  function LegacyFile(d: Disk, user: UserId): Option<File<set<KeychainRecord>>> {
    if user in d.legacy then Some(d.legacy[user]) else None
  }

  predicate OfRoot(root: HashValue, record: KeychainRecord) {
    record.Identity? && record.sealed.trustedRoot == root
  }

  /** This root's identities among the records of a file. */
  function IdentitiesOf(root: HashValue, records: set<KeychainRecord>): set<SealedIdentity> {
    set r | r in records && OfRoot(root, r) :: r.sealed
  }

  /** The identity is in its own split file, unchanged. */
  predicate Split(d: Disk, sealed: SealedIdentity) {
    sealed.userId in d.identities && d.identities[sealed.userId] == Readable(sealed)
  }

  /** A combined file may be split only when every record has a destination under this root. */
  predicate Splittable(root: HashValue, records: set<KeychainRecord>) {
    && (forall r :: r in records ==> !r.UnknownRecord? && (r.Identity? ==> r.sealed.trustedRoot == root))
    && (forall r, s :: r in records && s in records && r.Current? && s.Current? ==> r == s)
  }

  ghost predicate Enabled(root: HashValue, d: Disk, move: Move) {
    match move
    case WriteIdentity(sealed) =>
      && sealed.userId !in d.identities && sealed.trustedRoot == root
      && (Identity(sealed) in Records(d.combined) || exists u :: Identity(sealed) in Records(LegacyFile(d, u)))
    case WriteCurrent(user) => d.currentUser.None? && Current(user) in Records(d.combined)
    case RemoveCombined =>
      && d.combined.Some? && d.combined.value.Readable? && Splittable(root, Records(d.combined))
      && forall r :: r in Records(d.combined) ==>
           if r.Identity? then Split(d, r.sealed) else r.Current? && d.currentUser == Some(Readable(r.user))
    case RewriteLegacy(user) =>
      && user in d.legacy && d.legacy[user].Readable?
      && forall r :: r in Records(LegacyFile(d, user)) && OfRoot(root, r) ==> Split(d, r.sealed)
  }

  function Remaining(root: HashValue, records: set<KeychainRecord>): set<KeychainRecord> {
    set r | r in records && !OfRoot(root, r)
  }

  function Moved(root: HashValue, d: Disk, move: Move): Disk {
    match move
    case WriteIdentity(sealed) => d.(identities := d.identities[sealed.userId := Readable(sealed)])
    case WriteCurrent(user) => d.(currentUser := Some(Readable(user)))
    case RemoveCombined => d.(combined := None)
    case RewriteLegacy(user) =>
      var rest := Remaining(root, Records(LegacyFile(d, user)));
      d.(legacy := if rest == {} then d.legacy - {user} else d.legacy[user := Readable(rest)])
  }

  /** Any number of moves: one run, or many runs each cut short by a crash. */
  ghost predicate Path(root: HashValue, d: Disk, moves: seq<Move>, end: Disk)
    decreases |moves|
  {
    if moves == [] then end == d
    else Enabled(root, d, moves[0]) && Path(root, Moved(root, d, moves[0]), moves[1..], end)
  }

  lemma {:induction false} PathConcat(root: HashValue, d: Disk, moves: seq<Move>, mid: Disk, more: seq<Move>, end: Disk)
    requires Path(root, d, moves, mid) && Path(root, mid, more, end)
    ensures Path(root, d, moves + more, end)
    decreases |moves|
  {
    if moves == [] {
      assert moves + more == more;
    } else {
      assert (moves + more)[1..] == moves[1..] + more;
      PathConcat(root, Moved(root, d, moves[0]), moves[1..], mid, more, end);
    }
  }

  // ---------------------------------------------------------------------------------------
  // Conservation
  // ---------------------------------------------------------------------------------------

  /** Where this root's identity may be found: its split file, the combined file, or a legacy file. */
  ghost predicate Stored(root: HashValue, d: Disk, sealed: SealedIdentity) {
    && sealed.trustedRoot == root
    && (Split(d, sealed) || Identity(sealed) in Records(d.combined)
        || exists u :: Identity(sealed) in Records(LegacyFile(d, u)))
  }

  /** What must not be this root's business: foreign and unknown records in legacy files. */
  function Foreign(root: HashValue, d: Disk, user: UserId): set<KeychainRecord> {
    Remaining(root, Records(LegacyFile(d, user)))
  }

  /** Everything one move keeps. */
  ghost predicate Keeps(root: HashValue, d: Disk, end: Disk) {
    && (forall sealed :: Stored(root, end, sealed) <==> Stored(root, d, sealed))
    && (forall user :: Foreign(root, end, user) == Foreign(root, d, user))
    && (forall user :: user in d.identities ==> user in end.identities && end.identities[user] == d.identities[user])
    && (d.currentUser.Some? ==> end.currentUser == d.currentUser)
    && (forall user :: user in end.identities && user !in d.identities ==>
          end.identities[user].Readable? && end.identities[user].value.userId == user
          && Stored(root, d, end.identities[user].value))
  }

  lemma MoveKeepsStored(root: HashValue, d: Disk, move: Move, sealed: SealedIdentity)
    requires Enabled(root, d, move)
    ensures Stored(root, Moved(root, d, move), sealed) <==> Stored(root, d, sealed)
  {
    var end := Moved(root, d, move);
    if u :| Identity(sealed) in Records(LegacyFile(d, u)) && sealed.trustedRoot == root {
      if move.RewriteLegacy? && move.owner == u {
        assert OfRoot(root, Identity(sealed));
        assert Split(d, sealed) && Split(end, sealed);
      } else {
        assert LegacyFile(end, u) == LegacyFile(d, u);
      }
    }
    if u :| Identity(sealed) in Records(LegacyFile(end, u)) {
      assert Identity(sealed) in Records(LegacyFile(d, u));
    }
  }

  lemma MoveKeeps(root: HashValue, d: Disk, move: Move)
    requires Enabled(root, d, move)
    ensures Keeps(root, d, Moved(root, d, move))
  {
    var end := Moved(root, d, move);
    forall sealed ensures Stored(root, end, sealed) <==> Stored(root, d, sealed) {
      MoveKeepsStored(root, d, move, sealed);
    }
    forall user ensures Foreign(root, end, user) == Foreign(root, d, user) {}
  }

  lemma KeepsIsTransitive(root: HashValue, d: Disk, mid: Disk, end: Disk)
    requires Keeps(root, d, mid) && Keeps(root, mid, end)
    ensures Keeps(root, d, end)
  {
    forall user | user in end.identities && user !in d.identities
      ensures end.identities[user].Readable? && end.identities[user].value.userId == user
              && Stored(root, d, end.identities[user].value)
    {
      if user in mid.identities { assert end.identities[user] == mid.identities[user]; }
    }
  }

  /** Whatever the history of crashes and restarts: this root's identities are exactly those it
      started with, no split file is ever overwritten, a new split file holds one of them under
      its own user, and no foreign or unknown legacy record is lost or adopted. */
  lemma {:induction false} MigrationConserves(root: HashValue, d: Disk, moves: seq<Move>, end: Disk)
    requires Path(root, d, moves, end)
    ensures Keeps(root, d, end)
    decreases |moves|
  {
    if moves == [] {
    } else {
      MoveKeeps(root, d, moves[0]);
      MigrationConserves(root, Moved(root, d, moves[0]), moves[1..], end);
      KeepsIsTransitive(root, d, Moved(root, d, moves[0]), end);
    }
  }

  lemma MoveLeavesOthers(root: HashValue, d: Disk, move: Move, user: UserId, r: KeychainRecord)
    requires Enabled(root, d, move) && !(r.Identity? && r.sealed.trustedRoot == root)
    ensures r in Records(LegacyFile(Moved(root, d, move), user)) <==> r in Records(LegacyFile(d, user))
    ensures user in d.legacy && d.legacy[user].Garbled? ==>
              user in Moved(root, d, move).legacy && Moved(root, d, move).legacy[user] == d.legacy[user]
  {
  }

  /** Whatever the history: a legacy file goes on holding exactly the records it held that are not
      identities of this root, whatever they are, and one that does not decode is not touched. */
  lemma {:induction false} LegacyRecordsStay(
    root: HashValue, d: Disk, moves: seq<Move>, end: Disk, user: UserId, r: KeychainRecord)
    requires Path(root, d, moves, end) && !(r.Identity? && r.sealed.trustedRoot == root)
    ensures r in Records(LegacyFile(end, user)) <==> r in Records(LegacyFile(d, user))
    ensures user in d.legacy && d.legacy[user].Garbled? ==> user in end.legacy && end.legacy[user] == d.legacy[user]
    decreases |moves|
  {
    if moves == [] {
      assert end == d;
    } else {
      MoveLeavesOthers(root, d, moves[0], user, r);
      LegacyRecordsStay(root, Moved(root, d, moves[0]), moves[1..], end, user, r);
    }
  }

  /** The combined file is intact or gone, and gone only once every record it held is split. */
  lemma {:induction false} CombinedRemovedOnlyWhenSplit(root: HashValue, d: Disk, moves: seq<Move>, end: Disk)
    requires Path(root, d, moves, end)
    ensures end.combined == d.combined || end.combined == None
    ensures d.combined.Some? && end.combined.None? ==>
              forall r :: r in Records(d.combined) ==>
                if r.Identity? then Split(end, r.sealed) else r.Current? && end.currentUser == Some(Readable(r.user))
    decreases |moves|
  {
    if moves == [] {
    } else {
      var mid := Moved(root, d, moves[0]);
      CombinedRemovedOnlyWhenSplit(root, mid, moves[1..], end);
      MigrationConserves(root, mid, moves[1..], end);
    }
  }

  // ---------------------------------------------------------------------------------------
  // Placing identities in split files
  // ---------------------------------------------------------------------------------------

  predicate OnePerUser(pending: set<SealedIdentity>) {
    forall s, t | s in pending && t in pending :: s.userId == t.userId ==> s == t
  }

  /** One identity per user, and every destination is free and large enough or already equal. */
  predicate Placeable(files: SplitFiles, pending: set<SealedIdentity>) {
    && OnePerUser(pending)
    && forall s :: s in pending ==> if s.userId in files then files[s.userId] == Readable(s) else Fits(s)
  }

  /** `after` is `files` with exactly the pending identities in place. */
  ghost predicate Placed(files: SplitFiles, pending: set<SealedIdentity>, after: SplitFiles) {
    && (forall u :: u in files ==> u in after && after[u] == files[u])
    && (forall s :: s in pending ==> s.userId in after && after[s.userId] == Readable(s))
    && (forall u :: u in after && u !in files ==> exists s :: s in pending && s.userId == u)
  }

  lemma PlacedAgrees(files: SplitFiles, pending: set<SealedIdentity>, one: SplitFiles, other: SplitFiles, user: UserId)
    requires Placed(files, pending, one) && Placed(files, pending, other)
    ensures user in one ==> user in other && other[user] == one[user]
  {
    if user in one && user !in files {
      var s :| s in pending && s.userId == user;
    }
  }

  lemma PlacedUnique(files: SplitFiles, pending: set<SealedIdentity>, one: SplitFiles, other: SplitFiles)
    requires Placed(files, pending, one) && Placed(files, pending, other)
    ensures one == other
  {
    forall u ensures u in one ==> u in other && other[u] == one[u]
             ensures u in other ==> u in one && other[u] == one[u]
    {
      PlacedAgrees(files, pending, one, other, u);
      PlacedAgrees(files, pending, other, one, u);
    }
  }

  ghost function PlacedFiles(files: SplitFiles, pending: set<SealedIdentity>): (after: SplitFiles)
    requires Placeable(files, pending)
    ensures Placed(files, pending, after)
  {
    files + map s | s in pending :: s.userId := Readable(s)
  }

  // ---------------------------------------------------------------------------------------
  // The end state
  // ---------------------------------------------------------------------------------------

  /** What a migration empties: the combined file, or one user's legacy file. */
  datatype Source = FromCombined | FromLegacy(owner: UserId)

  function SourceFile(d: Disk, source: Source): Option<File<set<KeychainRecord>>> {
    match source
    case FromCombined => d.combined
    case FromLegacy(owner) => LegacyFile(d, owner)
  }

  /** The identities this migration has to place. */
  function Pending(root: HashValue, d: Disk, source: Source): set<SealedIdentity> {
    IdentitiesOf(root, Records(SourceFile(d, source)))
  }

  /** The selector of the combined file has a destination too. */
  predicate CurrentPlaceable(d: Disk) {
    forall r :: r in Records(d.combined) && r.Current? ==>
      if d.currentUser.Some? then d.currentUser == Some(Readable(r.user))
      else |r.user.encoded| <= MAX_CURRENT_USER_BYTES
  }

  /** Nothing stands in the way of the migration: the file decodes, every record that must move
      has a destination that is free or already equal, and every user has one identity. */
  predicate Migratable(root: HashValue, d: Disk, source: Source) {
    SourceFile(d, source).Some? ==>
      && SourceFile(d, source).value.Readable?
      && Placeable(d.identities, Pending(root, d, source))
      && (source.FromCombined? ==> Splittable(root, Records(d.combined)) && CurrentPlaceable(d))
  }

  lemma PendingSpelled(root: HashValue, records: set<KeychainRecord>)
    ensures forall s :: s in IdentitiesOf(root, records) <==> Identity(s) in records && s.trustedRoot == root
  {
    forall s | Identity(s) in records && s.trustedRoot == root ensures s in IdentitiesOf(root, records) {
      assert OfRoot(root, Identity(s)) && Identity(s).sealed == s;
    }
  }

  /** In so many words, for the combined file: it is not there; or it decodes to this root's
      identities, one per user, and at most one selector, and whatever has a file already is in it
      unchanged, and the rest is within the size limits. */
  lemma CombinedMigratableIff(root: HashValue, d: Disk)
    ensures Migratable(root, d, FromCombined) <==>
            d.combined.Some? ==>
              && d.combined.value.Readable?
              && var records := d.combined.value.value;
              && (forall r :: r in records ==> (r.Identity? && r.sealed.trustedRoot == root) || r.Current?)
              && (forall s, t :: Identity(s) in records && Identity(t) in records && s.userId == t.userId ==> s == t)
              && (forall u, v :: Current(u) in records && Current(v) in records ==> u == v)
              && (forall s :: Identity(s) in records ==>
                    if s.userId in d.identities then d.identities[s.userId] == Readable(s)
                    else |s.encoded| <= 1024 * 1024)
              && (forall u :: Current(u) in records ==>
                    if d.currentUser.Some? then d.currentUser == Some(Readable(u)) else |u.encoded| <= 64 * 1024)
  {
    if d.combined.Some? && d.combined.value.Readable? {
      PendingSpelled(root, d.combined.value.value);
      forall r | r in d.combined.value.value
        ensures r.Identity? ==> r == Identity(r.sealed)
        ensures r.Current? ==> r == Current(r.user) {}
    }
  }

  /** And for a legacy file: only this root's identities have to have a place. */
  lemma LegacyMigratableIff(root: HashValue, d: Disk, owner: UserId)
    ensures Migratable(root, d, FromLegacy(owner)) <==>
            owner in d.legacy ==>
              && d.legacy[owner].Readable?
              && var records := d.legacy[owner].value;
              && (forall s, t | Identity(s) in records && Identity(t) in records
                  && s.trustedRoot == root == t.trustedRoot ::
                    s.userId == t.userId ==> s == t)
              && (forall s :: Identity(s) in records && s.trustedRoot == root ==>
                    if s.userId in d.identities then d.identities[s.userId] == Readable(s)
                    else |s.encoded| <= 1024 * 1024)
  {
    if owner in d.legacy && d.legacy[owner].Readable? { PendingSpelled(root, d.legacy[owner].value); }
  }

  /** The legacy files once `owner`'s holds none of this root's identities. */
  function LegacyAfter(root: HashValue, d: Disk, owner: UserId): map<UserId, File<set<KeychainRecord>>> {
    var rest := Remaining(root, Records(LegacyFile(d, owner)));
    if Pending(root, d, FromLegacy(owner)) == {} then d.legacy
    else if rest == {} then d.legacy - {owner}
    else d.legacy[owner := Readable(rest)]
  }

  /** The current-user selector once the combined file is split. */
  ghost predicate CurrentPlaced(d: Disk, after: Option<File<CurrentUser>>) {
    && (forall r :: r in Records(d.combined) && r.Current? ==> after == Some(Readable(r.user)))
    && ((forall r :: r in Records(d.combined) ==> !r.Current?) ==> after == d.currentUser)
    && (d.currentUser.Some? ==> after == d.currentUser)
  }

  /** `end` is what the migration, carried through, makes of `d`. */
  ghost predicate IsMigrated(root: HashValue, d: Disk, source: Source, end: Disk) {
    && Placed(d.identities, Pending(root, d, source), end.identities)
    && match source
       case FromCombined => end.combined == None && end.legacy == d.legacy && CurrentPlaced(d, end.currentUser)
       case FromLegacy(owner) =>
         end.combined == d.combined && end.currentUser == d.currentUser && end.legacy == LegacyAfter(root, d, owner)
  }

  /** A disk has at most one migrated form. */
  lemma MigratedUnique(root: HashValue, d: Disk, source: Source, one: Disk, other: Disk)
    requires IsMigrated(root, d, source, one) && IsMigrated(root, d, source, other)
    ensures one == other
  {
    PlacedUnique(d.identities, Pending(root, d, source), one.identities, other.identities);
    if source.FromCombined? {
      if r :| r in Records(d.combined) && r.Current? {
        assert one.currentUser == Some(Readable(r.user)) == other.currentUser;
      }
    }
  }

  ghost function CurrentAfter(d: Disk): Option<File<CurrentUser>> {
    if r :| r in Records(d.combined) && r.Current? then Some(Readable(r.user)) else d.currentUser
  }

  /** And where nothing stands in the way it has one. */
  ghost function Migrated(root: HashValue, d: Disk, source: Source): (end: Disk)
    requires Migratable(root, d, source)
    ensures IsMigrated(root, d, source, end)
  {
    var identities := PlacedFiles(d.identities, Pending(root, d, source));
    match source
    case FromCombined => Disk(None, identities, CurrentAfter(d), d.legacy)
    case FromLegacy(owner) => d.(identities := identities, legacy := LegacyAfter(root, d, owner))
  }

  /** What a completed legacy migration leaves, in so many words: this root's identities in their
      own files unchanged, every other record in the legacy file, and nothing else touched. */
  lemma MigratedLegacySpelled(root: HashValue, d: Disk, owner: UserId)
    requires Migratable(root, d, FromLegacy(owner))
    ensures var end := Migrated(root, d, FromLegacy(owner));
            && (forall r :: r in Records(LegacyFile(end, owner)) <==>
                  r in Records(LegacyFile(d, owner)) && !(r.Identity? && r.sealed.trustedRoot == root))
            && (forall s :: Identity(s) in Records(LegacyFile(d, owner)) && s.trustedRoot == root ==>
                  s.userId in end.identities && end.identities[s.userId] == Readable(s))
            && (forall u :: u in end.identities && u !in d.identities ==>
                  end.identities[u].Readable? && end.identities[u].value.userId == u
                  && end.identities[u].value.trustedRoot == root
                  && Identity(end.identities[u].value) in Records(LegacyFile(d, owner)))
            && (forall u :: u in d.identities ==> u in end.identities && end.identities[u] == d.identities[u])
            && (forall u :: u != owner ==> LegacyFile(end, u) == LegacyFile(d, u))
            && (owner in end.legacy <==>
                  && owner in d.legacy
                  && ((forall r :: r in Records(LegacyFile(d, owner)) ==>
                            !(r.Identity? && r.sealed.trustedRoot == root))
                      || exists r :: r in Records(LegacyFile(d, owner)) && !(r.Identity?
                          && r.sealed.trustedRoot == root)))
            && end.combined == d.combined && end.currentUser == d.currentUser
  {
    PendingSpelled(root, Records(LegacyFile(d, owner)));
    assert IsMigrated(root, d, FromLegacy(owner), Migrated(root, d, FromLegacy(owner)));
  }

  /** And a completed split: every record of the combined file in its own file, the combined file
      gone, and nothing else touched. */
  lemma MigratedCombinedSpelled(root: HashValue, d: Disk)
    requires Migratable(root, d, FromCombined)
    ensures var end := Migrated(root, d, FromCombined);
            && (forall r :: r in Records(d.combined) ==>
                  || (r.Identity? && r.sealed.trustedRoot == root
                      && r.sealed.userId in end.identities && end.identities[r.sealed.userId] == Readable(r.sealed))
                  || (r.Current? && end.currentUser == Some(Readable(r.user))))
            && (forall u :: u in end.identities && u !in d.identities ==>
                  end.identities[u].Readable? && end.identities[u].value.userId == u
                  && end.identities[u].value.trustedRoot == root
                  && Identity(end.identities[u].value) in Records(d.combined))
            && (forall u :: u in d.identities ==> u in end.identities && end.identities[u] == d.identities[u])
            && end.combined.None? && end.legacy == d.legacy
            && (end.currentUser != d.currentUser ==> exists u :: Current(u) in Records(d.combined))
  {
    PendingSpelled(root, Records(d.combined));
    var end := Migrated(root, d, FromCombined);
    assert IsMigrated(root, d, FromCombined, end);
    forall r | r in Records(d.combined) && r.Current? ensures end.currentUser == Some(Readable(r.user)) {}
    if end.currentUser != d.currentUser {
      var r :| r in Records(d.combined) && r.Current?;
      assert Current(r.user) in Records(d.combined);
    }
  }

  // ---------------------------------------------------------------------------------------
  // Interrupted migrations
  // ---------------------------------------------------------------------------------------

  /** A move that belongs to the migration of `source`. */
  predicate Serves(root: HashValue, d: Disk, source: Source, move: Move) {
    match move
    case WriteIdentity(sealed) => Identity(sealed) in Records(SourceFile(d, source))
    case WriteCurrent(_) => source.FromCombined?
    case RemoveCombined => source.FromCombined?
    case RewriteLegacy(owner) => source == FromLegacy(owner) && Pending(root, d, source) != {}
  }

  /** Runs of one migration, any of them cut short anywhere. */
  ghost predicate SourcePath(root: HashValue, d: Disk, source: Source, moves: seq<Move>, end: Disk)
    decreases |moves|
  {
    if moves == [] then end == d
    else
      && Enabled(root, d, moves[0]) && Serves(root, d, source, moves[0])
      && SourcePath(root, Moved(root, d, moves[0]), source, moves[1..], end)
  }

  lemma PlacedAfterWrite(files: SplitFiles, pending: set<SealedIdentity>, sealed: SealedIdentity, after: SplitFiles)
    requires Placeable(files, pending) && sealed in pending && sealed.userId !in files
    ensures Placeable(files[sealed.userId := Readable(sealed)], pending)
    ensures Placed(files[sealed.userId := Readable(sealed)], pending, after) ==> Placed(files, pending, after)
  {
  }

  lemma RemovalKeepsMigrated(root: HashValue, d: Disk, end: Disk)
    requires Enabled(root, d, RemoveCombined) && Migratable(root, d, FromCombined)
    ensures IsMigrated(root, Moved(root, d, RemoveCombined), FromCombined, end) ==>
        IsMigrated(root, d, FromCombined, end)
  {
    var next := Moved(root, d, RemoveCombined);
    if IsMigrated(root, next, FromCombined, end) {
      assert Pending(root, next, FromCombined) == {};
      assert Records(next.combined) == {};
      assert end.currentUser == d.currentUser;
    }
  }

  lemma RewriteKeepsMigrated(root: HashValue, d: Disk, owner: UserId, end: Disk)
    requires Enabled(root, d, RewriteLegacy(owner)) && Migratable(root, d, FromLegacy(owner))
    requires Pending(root, d, FromLegacy(owner)) != {}
    ensures Migratable(root, Moved(root, d, RewriteLegacy(owner)), FromLegacy(owner))
    ensures IsMigrated(root, Moved(root, d, RewriteLegacy(owner)), FromLegacy(owner), end) ==>
              IsMigrated(root, d, FromLegacy(owner), end)
  {
    var next := Moved(root, d, RewriteLegacy(owner));
    assert Records(LegacyFile(next, owner)) == Remaining(root, Records(LegacyFile(d, owner)));
    assert Pending(root, next, FromLegacy(owner)) == {};
    assert next.legacy == LegacyAfter(root, d, owner);
  }

  lemma MoveKeepsMigrated(root: HashValue, d: Disk, source: Source, move: Move, end: Disk)
    requires Enabled(root, d, move) && Serves(root, d, source, move) && Migratable(root, d, source)
    ensures Migratable(root, Moved(root, d, move), source)
    ensures IsMigrated(root, Moved(root, d, move), source, end) ==> IsMigrated(root, d, source, end)
  {
    var next := Moved(root, d, move);
    match move {
      case WriteIdentity(sealed) =>
        assert OfRoot(root, Identity(sealed));
        PlacedAfterWrite(d.identities, Pending(root, d, source), sealed, end.identities);
      case WriteCurrent(user) =>
        assert Current(user) in Records(d.combined);
      case RemoveCombined =>
        assert Pending(root, next, source) == {};
        RemovalKeepsMigrated(root, d, end);
      case RewriteLegacy(owner) =>
        RewriteKeepsMigrated(root, d, owner, end);
    }
  }

  /** From any point of an interrupted migration, carrying it through is still possible and ends
      in exactly the disk an uninterrupted run would have left. */
  lemma {:induction false} InterruptedEndsTheSame(root: HashValue, d: Disk, source: Source, moves: seq<Move>, mid: Disk)
    requires Migratable(root, d, source) && SourcePath(root, d, source, moves, mid)
    ensures Migratable(root, mid, source)
    ensures Migrated(root, mid, source) == Migrated(root, d, source)
    decreases |moves|
  {
    if moves == [] {
      assert mid == d;
    } else {
      var next := Moved(root, d, moves[0]);
      MoveKeepsMigrated(root, d, source, moves[0], next);
      InterruptedEndsTheSame(root, next, source, moves[1..], mid);
      var end := Migrated(root, next, source);
      MoveKeepsMigrated(root, d, source, moves[0], end);
      MigratedUnique(root, d, source, end, Migrated(root, d, source));
    }
  }

  lemma {:induction false} SourcePathIsPath(root: HashValue, d: Disk, source: Source, moves: seq<Move>, end: Disk)
    requires SourcePath(root, d, source, moves, end)
    ensures Path(root, d, moves, end)
    decreases |moves|
  {
    if moves == [] {
      assert end == d;
    } else {
      SourcePathIsPath(root, Moved(root, d, moves[0]), source, moves[1..], end);
    }
  }

  lemma {:induction false} SourcePathConcat(
    root: HashValue, d: Disk, source: Source, moves: seq<Move>, mid: Disk, more: seq<Move>, end: Disk)
    requires SourcePath(root, d, source, moves, mid) && SourcePath(root, mid, source, more, end)
    ensures SourcePath(root, d, source, moves + more, end)
    decreases |moves|
  {
    if moves == [] {
      assert moves + more == more;
    } else {
      assert (moves + more)[1..] == moves[1..] + more;
      SourcePathConcat(root, Moved(root, d, moves[0]), source, moves[1..], mid, more, end);
    }
  }

  /** A source file is intact until the migration's last move, which leaves nothing to place. */
  lemma {:induction false} SourceOnlyShrinks(root: HashValue, d: Disk, source: Source, moves: seq<Move>, end: Disk)
    requires SourcePath(root, d, source, moves, end)
    ensures SourceFile(end, source) == SourceFile(d, source) || Pending(root, end, source) == {}
    ensures source.FromCombined? ==> end.combined == d.combined || end.combined == None
    decreases |moves|
  {
    if moves == [] {
      assert end == d;
    } else {
      var next := Moved(root, d, moves[0]);
      assert SourceFile(next, source) == SourceFile(d, source) || Pending(root, next, source) == {};
      SourceOnlyShrinks(root, next, source, moves[1..], end);
    }
  }
}
