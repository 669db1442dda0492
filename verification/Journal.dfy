/**
 The journaled commit that moves a vault file and the local ratchet together, and the one shared
 state directory that every clone of a vault on this machine keeps its ratchet in. Files are
 written atomically; power may fail between any two writes, and the vault files, which live in
 working trees, may be changed by anyone at any time.
 */
module Journal {
  import opened Format
  import opened Records
  import opened Ratchet
  import opened RatchetFacts

  type Path = string

  /** A vault file's content, and the one root it decodes to, if it does. */
  datatype VaultFile = VaultFile(content: Bytes, root: Option<HashValue>)

  /** A precondition is the hash of a file, which stands for the content it commits to. */
  datatype Precondition<T> = Absent | HashOf(content: T)

  datatype Transaction = Transaction(
    origin: Path,
    vaultBefore: Precondition<VaultFile>,
    ratchetBefore: Precondition<RatchetState>,
    nextVault: VaultFile,
    nextRatchet: RatchetState)

  /** `legacyJoin` is whether the join journal of an older version lies beside this one. */
  datatype Disk = Disk(
    vaults: map<Path, VaultFile>, ratchet: Option<RatchetState>, journal: Option<Transaction>, legacyJoin: bool)

  function VaultAt(d: Disk, path: Path): Option<VaultFile> {
    if path in d.vaults then Some(d.vaults[path]) else None
  }

  predicate IsBefore<T(==)>(current: Option<T>, before: Precondition<T>) {
    match current
    case None => before.Absent?
    case Some(content) => before == HashOf(content)
  }

  /** What a precondition says was there. */
  function Named<T>(before: Precondition<T>): Option<T> {
    match before
    case Absent => None
    case HashOf(content) => Some(content)
  }

  /** Both files are where the transaction found them or where it leaves them. */
  predicate Recoverable(d: Disk, t: Transaction) {
    && (IsBefore(VaultAt(d, t.origin), t.vaultBefore) || VaultAt(d, t.origin) == Some(t.nextVault))
    && (IsBefore(d.ratchet, t.ratchetBefore) || d.ratchet == Some(t.nextRatchet))
  }

  predicate ValidTransaction(root: HashValue, t: Transaction) {
    t.nextVault.root == Some(root) && t.nextRatchet.trustedRoot == root
  }

  // ---------------------------------------------------------------------------------------
  // Merging ratchets
  // ---------------------------------------------------------------------------------------

  function AppendNew(known: seq<Bytes>, more: seq<Bytes>): seq<Bytes> {
    if more == [] then known
    else
      var front := AppendNew(known, more[..|more| - 1]);
      if more[|more| - 1] in front then front else front + [more[|more| - 1]]
  }

  function Merged(r: RatchetState, after: RatchetState): RatchetState {
    Joined(r, after).(unknownRecords := AppendNew(r.unknownRecords, after.unknownRecords))
  }

  /** Folds every record of `after` into `current`, and every unknown record it does not have. */
  method MergeRatchet(current: LocalRatchet, after: LocalRatchet) returns (ok: bool)
    requires current != after
    modifies current
    ensures ok <==> current.trustedRoot == after.trustedRoot
    ensures current.Value() == if ok then Merged(old(current.Value()), after.Value()) else old(current.Value())
  {
    if current.trustedRoot != after.trustedRoot {
      return false;
    }
    ghost var start := current.Value();
    var records := after.ToRecords();
    for i := 0 to |records|
      invariant current.Value() == AbsorbedAll(start, records[..i])
    {
      assert records[..i + 1][..i] == records[..i];
      current.AbsorbRecord(records[i]);
    }
    assert records[..|records|] == records;
    AbsorbListed(start, after.Value(), records);
    var unknown := after.unknownRecords;
    for i := 0 to |unknown|
      invariant current.Value()
          == Joined(start, after.Value()).(unknownRecords := AppendNew(start.unknownRecords, unknown[..i]))
    {
      assert unknown[..i + 1][..i] == unknown[..i];
      if unknown[i] !in current.unknownRecords {
        current.unknownRecords := current.unknownRecords + [unknown[i]];
      }
    }
    assert unknown[..|unknown|] == unknown;
    return true;
  }

  lemma {:induction false} AppendNewHasAll(known: seq<Bytes>, more: seq<Bytes>)
    ensures forall x :: x in AppendNew(known, more) <==> x in known || x in more
  {
    if more == [] {
    } else {
      AppendNewHasAll(known, more[..|more| - 1]);
      assert more == more[..|more| - 1] + [more[|more| - 1]];
    }
  }

  lemma {:induction false} AppendNothingNew(known: seq<Bytes>, more: seq<Bytes>)
    requires forall x :: x in more ==> x in known
    ensures AppendNew(known, more) == known
  {
    if more == [] {
    } else {
      AppendNothingNew(known, more[..|more| - 1]);
    }
  }

  /** Merging is an upper bound of both sides, least at every key, and doing it twice is doing it
      once. */
  lemma MergedIsLeastUpperBound(r: RatchetState, after: RatchetState, bound: RatchetState)
    requires WellFormed(after)
    ensures AtLeast(Merged(r, after), r) && AtLeast(Merged(r, after), after)
    ensures AtLeast(bound, r) && AtLeast(bound, after) ==> AtLeast(bound, Merged(r, after))
  {
  }

  /** `more` starts with `known` and goes on with records not seen before. */
  predicate AddsOnlyNew(known: seq<Bytes>, more: seq<Bytes>) {
    known <= more && forall i :: |known| <= i < |more| ==> more[i] !in more[..i]
  }

  /** `next` forgets nothing `r` has: watermarks, version, origins and unknown records. */
  predicate Retains(next: RatchetState, r: RatchetState) {
    && AtLeast(next, r) && next.trustedRoot == r.trustedRoot
    && (forall key :: key in r.origins ==> key in next.origins && next.origins[key] == r.origins[key])
    && AddsOnlyNew(r.unknownRecords, next.unknownRecords)
  }

  /** `next` has nothing that `r` has not. */
  predicate AddsNothing(next: RatchetState, r: RatchetState) {
    && AtLeast(r, next)
    && (forall key :: key in next.origins ==> key in r.origins)
    && (forall x :: x in next.unknownRecords ==> x in r.unknownRecords)
  }

  lemma {:induction false} AppendNewAddsOnlyNew(known: seq<Bytes>, more: seq<Bytes>)
    ensures AddsOnlyNew(known, AppendNew(known, more))
  {
    if more == [] {
      assert AppendNew(known, more) == known;
    } else {
      var front, last := AppendNew(known, more[..|more| - 1]), more[|more| - 1];
      AppendNewAddsOnlyNew(known, more[..|more| - 1]);
      if last !in front {
        var all := front + [last];
        forall i | |known| <= i < |all| ensures all[i] !in all[..i] {
          assert all[..i] == front[..i];
        }
      }
    }
  }

  lemma {:induction false} AppendNewReaches(known: seq<Bytes>, more: seq<Bytes>, n: nat)
    requires AddsOnlyNew(known, more) && n <= |more|
    ensures AppendNew(known, more[..n]) == more[..if n < |known| then |known| else n]
  {
    if n == 0 {
      assert more[..|known|] == known;
    } else {
      assert more[..n][..n - 1] == more[..n - 1];
      AppendNewReaches(known, more, n - 1);
      if n <= |known| {
        assert more[n - 1] == more[..|known|][n - 1];
      } else {
        assert more[..n] == more[..n - 1] + [more[n - 1]];
      }
    }
  }

  lemma AppendNewFixedIff(known: seq<Bytes>, more: seq<Bytes>)
    ensures AppendNew(known, more) == more <==> AddsOnlyNew(known, more)
  {
    AppendNewAddsOnlyNew(known, more);
    if AddsOnlyNew(known, more) {
      AppendNewReaches(known, more, |more|);
      assert more[..|more|] == more;
    }
  }

  predicate Below(low: Watermarks, high: Watermarks) {
    forall key :: key in low ==> key in high && low[key] <= high[key]
  }

  lemma MaxIsEitherIff(a: Watermarks, b: Watermarks)
    ensures PointwiseMax(a, b) == b <==> Below(a, b)
    ensures PointwiseMax(a, b) == a <==> Below(b, a)
  {
    var max := PointwiseMax(a, b);
    forall key | key in a ensures key in max && a[key] <= max[key] {}
    forall key | key in b ensures key in max && b[key] <= max[key] {}
  }

  lemma OriginsAreEitherIff(a: Origins, b: Origins)
    ensures b + a == b <==> forall key :: key in a ==> key in b && b[key] == a[key]
    ensures b + a == a <==> forall key :: key in b ==> key in a
  {
    forall key | key in a ensures key in b + a && (b + a)[key] == a[key] {}
    forall key | key in b ensures key in b + a {}
  }

  lemma JoinedIsEitherIff(r: RatchetState, next: RatchetState)
    requires WellFormed(r) && WellFormed(next)
    ensures Joined(r, next).watermarks == next.watermarks && Joined(r, next).formatVersion == next.formatVersion <==>
            AtLeast(next, r)
    ensures Joined(r, next).watermarks == r.watermarks && Joined(r, next).formatVersion == r.formatVersion <==>
            AtLeast(r, next)
    ensures Joined(r, next).origins == next.origins <==>
            forall key :: key in r.origins ==> key in next.origins && next.origins[key] == r.origins[key]
    ensures Joined(r, next).origins == r.origins <==> forall key :: key in next.origins ==> key in r.origins
  {
    var joined := Joined(r, next);
    assert Encodable(next) == next.watermarks && EncodableOrigins(next) == next.origins;
    MaxIsEitherIff(r.watermarks, next.watermarks);
    OriginsAreEitherIff(r.origins, next.origins);
  }

  /** Merging gives the newer ratchet exactly when it forgets nothing, and the older one exactly
      when the newer adds nothing. */
  lemma MergedIsEitherIff(r: RatchetState, next: RatchetState)
    requires WellFormed(r) && WellFormed(next) && r.trustedRoot == next.trustedRoot
    ensures Merged(r, next) == next <==> Retains(next, r)
    ensures Merged(r, next) == r <==> AddsNothing(next, r)
  {
    AppendNewFixedIff(r.unknownRecords, next.unknownRecords);
    AppendNewHasAll(r.unknownRecords, next.unknownRecords);
    if AddsNothing(next, r) { AppendNothingNew(r.unknownRecords, next.unknownRecords); }
    JoinedIsEitherIff(r, next);
  }

  lemma JoinedIdempotent(r: RatchetState, after: RatchetState)
    ensures Joined(Joined(r, after), after) == Joined(r, after)
  {
    var once := Joined(r, after);
    assert PointwiseMax(once.watermarks, Encodable(after)) == once.watermarks;
    assert EncodableOrigins(after) + once.origins == once.origins;
  }

  lemma MergedIdempotent(r: RatchetState, after: RatchetState)
    ensures Merged(Merged(r, after), after) == Merged(r, after)
  {
    JoinedIdempotent(r, after);
    AppendNewHasAll(r.unknownRecords, after.unknownRecords);
    AppendNothingNew(Merged(r, after).unknownRecords, after.unknownRecords);
  }

  // ---------------------------------------------------------------------------------------
  // Durable effects
  // ---------------------------------------------------------------------------------------

  /** What a reader goes by: a durable journal counts from the moment it is written. */
  function Strongest(root: HashValue, d: Disk): Option<RatchetState> {
    match d.journal
    case None => d.ratchet
    case Some(t) => Some(Merged(if d.ratchet.Some? then d.ratchet.value else Fresh(root), t.nextRatchet))
  }

  datatype Move =
    | Begin(transaction: Transaction)
    | PutRatchet | PutVault | Finish
    | Keep | Drop
    | Save(ratchet: RatchetState)
    | Foreign(path: Path, file: Option<VaultFile>)

  predicate Enabled(root: HashValue, d: Disk, move: Move) {
    match move
    case Begin(t) =>
      && d.journal.None? && !d.legacyJoin && ValidTransaction(root, t)
      && d.ratchet.Some? && IsBefore(d.ratchet, t.ratchetBefore)
      && VaultAt(d, t.origin).Some? && IsBefore(VaultAt(d, t.origin), t.vaultBefore)
    case PutRatchet =>
      d.journal.Some? && Recoverable(d, d.journal.value) && d.ratchet != Some(d.journal.value.nextRatchet)
    case PutVault =>
      && d.journal.Some? && Recoverable(d, d.journal.value) && d.ratchet == Some(d.journal.value.nextRatchet)
      && VaultAt(d, d.journal.value.origin) != Some(d.journal.value.nextVault)
    case Finish =>
      && d.journal.Some? && d.ratchet == Some(d.journal.value.nextRatchet)
      && VaultAt(d, d.journal.value.origin) == Some(d.journal.value.nextVault)
    case Keep => d.journal.Some? && d.ratchet.Some?
    case Drop =>
      && d.journal.Some? && d.ratchet.Some?
      && d.ratchet.value == Merged(d.ratchet.value, d.journal.value.nextRatchet)
    case Save(ratchet) => d.journal.None? && !d.legacyJoin && ratchet.trustedRoot == root
    case Foreign(_, _) => true
  }

  function Moved(root: HashValue, d: Disk, move: Move): Disk
    requires Enabled(root, d, move)
  {
    match move
    case Begin(t) => d.(journal := Some(t))
    case PutRatchet => d.(ratchet := Some(d.journal.value.nextRatchet))
    case PutVault => d.(vaults := d.vaults[d.journal.value.origin := d.journal.value.nextVault])
    case Finish => d.(journal := None)
    case Keep => d.(ratchet := Some(Merged(d.ratchet.value, d.journal.value.nextRatchet)))
    case Drop => d.(journal := None)
    case Save(ratchet) => d.(ratchet := Some(ratchet))
    case Foreign(path, file) => d.(vaults := if file.Some? then d.vaults[path := file.value] else d.vaults - {path})
  }

  ghost predicate Ran(root: HashValue, d: Disk, moves: seq<Move>, end: Disk)
    decreases |moves|
  {
    if moves == [] then end == d
    else Enabled(root, d, moves[0]) && Ran(root, Moved(root, d, moves[0]), moves[1..], end)
  }

  lemma {:induction false} RanThen(root: HashValue, d: Disk, moves: seq<Move>, mid: Disk, move: Move)
    requires Ran(root, d, moves, mid) && Enabled(root, mid, move)
    ensures Ran(root, d, moves + [move], Moved(root, mid, move))
    decreases |moves|
  {
    if moves == [] {
      assert (moves + [move])[1..] == [];
    } else {
      assert (moves + [move])[1..] == moves[1..] + [move];
      RanThen(root, Moved(root, d, moves[0]), moves[1..], mid, move);
    }
  }

  /** In so many words: recovery may go on when each file is what the transaction found or what it
      leaves. */
  lemma RecoverableIff(d: Disk, t: Transaction)
    ensures Recoverable(d, t) <==>
            && VaultAt(d, t.origin) in {Named(t.vaultBefore), Some(t.nextVault)}
            && d.ratchet in {Named(t.ratchetBefore), Some(t.nextRatchet)}
  {
  }

  /** Nothing this machine does replaces a vault file whose content no transaction knows. */
  predicate Unknown(path: Path, content: VaultFile, t: Transaction) {
    t.origin == path ==> t.vaultBefore != HashOf(content)
  }

  lemma MoveLeavesUnknown(root: HashValue, d: Disk, move: Move, path: Path, content: VaultFile)
    requires Enabled(root, d, move) && VaultAt(d, path) == Some(content)
    requires d.journal.Some? ==> Unknown(path, content, d.journal.value)
    requires move.Foreign? ==> move.path != path
    ensures VaultAt(Moved(root, d, move), path) == Some(content)
  {
  }

  /** Over every run of commits, crashes, recoveries and abandonments, with others editing other
      files: a vault file that somebody put in place, and on which no transaction is pending or is
      begun, keeps its content. */
  lemma {:induction false} UnknownVaultStays(
    root: HashValue, d: Disk, moves: seq<Move>, end: Disk, path: Path, content: VaultFile)
    requires Ran(root, d, moves, end) && VaultAt(d, path) == Some(content)
    requires d.journal.Some? ==> Unknown(path, content, d.journal.value)
    requires forall i :: 0 <= i < |moves| ==>
               && (moves[i].Begin? ==> Unknown(path, content, moves[i].transaction))
               && (moves[i].Foreign? ==> moves[i].path != path)
    ensures VaultAt(end, path) == Some(content)
    decreases |moves|
  {
    if moves == [] {
      assert end == d;
    } else {
      MoveLeavesUnknown(root, d, moves[0], path, content);
      assert forall i :: 0 <= i < |moves[1..]| ==> moves[1..][i] == moves[i + 1];
      UnknownVaultStays(root, Moved(root, d, moves[0]), moves[1..], end, path, content);
    }
  }

  // ---------------------------------------------------------------------------------------
  // The strongest state never falls
  // ---------------------------------------------------------------------------------------

  predicate NoWeaker(after: Option<RatchetState>, before: Option<RatchetState>) {
    before.Some? ==> after.Some? && AtLeast(after.value, before.value)
  }

  /** What this machine ever decodes is well-formed. */
  predicate WellFormedDisk(d: Disk) {
    && (d.ratchet.Some? ==> WellFormed(d.ratchet.value))
    && (d.journal.Some? ==> WellFormed(d.journal.value.nextRatchet))
  }

  predicate WellFormedMove(move: Move) {
    && (move.Begin? ==> WellFormed(move.transaction.nextRatchet))
    && (move.Save? ==> WellFormed(move.ratchet))
  }

  lemma MergedWellFormed(r: RatchetState, after: RatchetState)
    requires WellFormed(r) && WellFormed(after)
    ensures WellFormed(Merged(r, after))
  {
  }

  lemma MovedWellFormed(root: HashValue, d: Disk, move: Move)
    requires Enabled(root, d, move) && WellFormedDisk(d) && WellFormedMove(move)
    ensures WellFormedDisk(Moved(root, d, move))
  {
    if move.Keep? { MergedWellFormed(d.ratchet.value, d.journal.value.nextRatchet); }
  }

  /** Readers go by no less than either file says. */
  lemma StrongestCoversBoth(root: HashValue, d: Disk)
    requires WellFormedDisk(d)
    ensures d.ratchet.Some? ==> Strongest(root, d).Some? && AtLeast(Strongest(root, d).value, d.ratchet.value)
    ensures d.journal.Some? ==>
              Strongest(root, d).Some? && AtLeast(Strongest(root, d).value, d.journal.value.nextRatchet)
  {
    if d.journal.Some? {
      var before := if d.ratchet.Some? then d.ratchet.value else Fresh(root);
      MergedIsLeastUpperBound(before, d.journal.value.nextRatchet, before);
    }
  }

  /** The only two effects that can weaken what readers go by. */
  predicate Weakens(d: Disk, move: Move) {
    || (move.Save? && d.ratchet.Some? && !AtLeast(move.ratchet, d.ratchet.value))
    || (move.PutRatchet? && d.journal.Some? && d.ratchet.Some?
        && !AtLeast(d.journal.value.nextRatchet, d.ratchet.value))
  }

  lemma ReplacedWeakensIff(root: HashValue, d: Disk)
    requires Enabled(root, d, PutRatchet) && WellFormedDisk(d)
    ensures NoWeaker(Strongest(root, Moved(root, d, PutRatchet)), Strongest(root, d)) <==> !Weakens(d, PutRatchet)
  {
    var next := d.journal.value.nextRatchet;
    var before := if d.ratchet.Some? then d.ratchet.value else Fresh(root);
    var was, now := Merged(before, next), Merged(next, next);
    MergedIsLeastUpperBound(before, next, now);
    MergedIsLeastUpperBound(next, next, next);
    if AtLeast(now, was) {
      assert AtLeast(next, before) by {
        forall key | key in before.watermarks
          ensures key in next.watermarks && before.watermarks[key] <= next.watermarks[key]
        {
          assert key in was.watermarks && before.watermarks[key] <= was.watermarks[key];
          assert key in now.watermarks && now.watermarks[key] <= next.watermarks[key];
        }
      }
    }
  }

  /** A single effect weakens the strongest state exactly when it writes a ratchet that is itself
      weaker than the one it replaces: journal writes and removals, vault writes, abandonment and
      edits by others never do. */
  lemma MoveWeakensIff(root: HashValue, d: Disk, move: Move)
    requires Enabled(root, d, move) && WellFormedDisk(d) && WellFormedMove(move)
    ensures NoWeaker(Strongest(root, Moved(root, d, move)), Strongest(root, d)) <==> !Weakens(d, move)
  {
    var before := if d.ratchet.Some? then d.ratchet.value else Fresh(root);
    match move {
      case Begin(t) => MergedIsLeastUpperBound(before, t.nextRatchet, before);
      case PutRatchet => ReplacedWeakensIff(root, d);
      case PutVault =>
      case Finish =>
      case Keep => MergedIdempotent(before, d.journal.value.nextRatchet);
      case Drop =>
      case Save(_) =>
      case Foreign(_, _) =>
    }
  }

  /** A transaction prepared by folding validations into the ratchet it started from. */
  predicate Raising(t: Transaction) {
    t.ratchetBefore.HashOf? ==> AtLeast(t.nextRatchet, t.ratchetBefore.content)
  }

  /** Validations folded in one after the other: how every commit prepares its next ratchet. */
  function UpdatedAll(r: RatchetState, updates: seq<RatchetUpdate>): RatchetState {
    if updates == [] then r else Updated(UpdatedAll(r, updates[..|updates| - 1]), updates[|updates| - 1])
  }

  /** A ratchet as it reads back once written: without the origins that no watermark carries. */
  function AsWritten(r: RatchetState): RatchetState {
    r.(watermarks := Encodable(r), origins := EncodableOrigins(r))
  }

  /** What every commit journals: the ratchet it started from with validations folded in, written. */
  ghost predicate Prepared(t: Transaction) {
    t.ratchetBefore.HashOf?
        && exists updates :: t.nextRatchet == AsWritten(UpdatedAll(t.ratchetBefore.content, updates))
  }

  lemma WrittenRetains(next: RatchetState, r: RatchetState)
    requires WellFormed(r) && Retains(next, r)
    ensures Retains(AsWritten(next), r) && WellFormed(AsWritten(next))
  {
  }

  lemma {:induction false} UpdatesRetain(r: RatchetState, updates: seq<RatchetUpdate>)
    ensures Retains(UpdatedAll(r, updates), r)
    decreases |updates|
  {
    if updates == [] {
      assert Retains(r, r);
    } else {
      UpdatesRetain(r, updates[..|updates| - 1]);
    }
  }

  lemma PreparedIsRaising(t: Transaction)
    requires Prepared(t) && WellFormed(t.ratchetBefore.content)
    ensures Raising(t) && Retains(t.nextRatchet, t.ratchetBefore.content) && WellFormed(t.nextRatchet)
  {
    var updates :| t.nextRatchet == AsWritten(UpdatedAll(t.ratchetBefore.content, updates));
    UpdatesRetain(t.ratchetBefore.content, updates);
    WrittenRetains(UpdatedAll(t.ratchetBefore.content, updates), t.ratchetBefore.content);
  }

  /** No step of the run accepts a weaker ratchet on purpose. */
  predicate Ordinary(d: Disk, move: Move) {
    && WellFormedMove(move)
    && (move.Begin? ==> Raising(move.transaction))
    && (move.Save? && d.ratchet.Some? ==> AtLeast(move.ratchet, d.ratchet.value))
  }

  ghost predicate OrdinaryRun(root: HashValue, d: Disk, moves: seq<Move>)
    decreases |moves|
  {
    moves != [] ==>
      && Ordinary(d, moves[0])
      && (Enabled(root, d, moves[0]) ==> OrdinaryRun(root, Moved(root, d, moves[0]), moves[1..]))
  }

  /** Over every run of commits, crashes, recoveries, abandonments, loads and outside edits of the
      vault files, in which nobody accepts a weaker ratchet on purpose, what readers go by never
      falls. */
  lemma {:induction false} StrongestNeverFalls(root: HashValue, d: Disk, moves: seq<Move>, end: Disk)
    requires Ran(root, d, moves, end) && OrdinaryRun(root, d, moves)
    requires WellFormedDisk(d) && (d.journal.Some? ==> Raising(d.journal.value))
    ensures NoWeaker(Strongest(root, end), Strongest(root, d))
    decreases |moves|
  {
    if moves == [] {
    } else {
      var next := Moved(root, d, moves[0]);
      MoveWeakensIff(root, d, moves[0]);
      MovedWellFormed(root, d, moves[0]);
      StrongestNeverFalls(root, next, moves[1..], end);
    }
  }

  // ---------------------------------------------------------------------------------------
  // All or nothing
  // ---------------------------------------------------------------------------------------

  /** The disk once the transaction is through. */
  function Committed(d: Disk, t: Transaction): Disk {
    d.(vaults := d.vaults[t.origin := t.nextVault], ratchet := Some(t.nextRatchet), journal := None)
  }

  predicate Completes(moves: seq<Move>) {
    forall i :: 0 <= i < |moves| ==> moves[i].PutRatchet? || moves[i].PutVault? || moves[i].Finish?
  }

  /** Between its journal write and its removal a transaction has changed nothing, the ratchet
      only, or both files: the vault never shows what the ratchet does not yet remember. */
  predicate Underway(start: Disk, t: Transaction, d: Disk) {
    || d == Committed(start, t)
    || d == start.(journal := Some(t))
    || d == start.(journal := Some(t), ratchet := Some(t.nextRatchet))
    || d == Committed(start, t).(journal := Some(t))
  }

  lemma UnderwayStep(root: HashValue, start: Disk, t: Transaction, d: Disk, move: Move)
    requires start.journal.None? && Underway(start, t, d) && Enabled(root, d, move)
    requires move.PutRatchet? || move.PutVault? || move.Finish?
    ensures Underway(start, t, Moved(root, d, move))
  {
    var next := Moved(root, d, move);
    if move.PutVault? {
      assert next.vaults == start.vaults[t.origin := t.nextVault];
    } else if move.Finish? {
      assert d.vaults == start.vaults[t.origin := t.nextVault];
      assert next == Committed(start, t);
    }
  }

  /** However often recovery is interrupted: nothing but these four disks ever shows, each still
      recoverable while the journal is there, and once it is gone the transaction is through. */
  lemma {:induction false} AllOrNothing(
    root: HashValue, start: Disk, t: Transaction, d: Disk, moves: seq<Move>, end: Disk)
    requires start.journal.None? && Enabled(root, start, Begin(t)) && Underway(start, t, d)
    requires Ran(root, d, moves, end) && Completes(moves)
    ensures Underway(start, t, end)
    ensures if end.journal.None? then end == Committed(start, t) else end.journal == Some(t) && Recoverable(end, t)
    decreases |moves|
  {
    if moves == [] {
      assert Committed(start, t).vaults[t.origin] == t.nextVault;
    } else {
      var next := Moved(root, d, moves[0]);
      UnderwayStep(root, start, t, d, moves[0]);
      assert Completes(moves[1..]) by { assert forall i :: 0 <= i < |moves[1..]| ==> moves[1..][i] == moves[i + 1]; }
      AllOrNothing(root, start, t, next, moves[1..], end);
    }
  }

  // ---------------------------------------------------------------------------------------
  // Abandoning
  // ---------------------------------------------------------------------------------------

  /** Abandoning keeps every reader's view: before it, between its two writes and after it the
      strongest state is the same, and no vault file is touched. */
  lemma AbandonKeepsStrongest(root: HashValue, d: Disk)
    requires Enabled(root, d, Keep)
    ensures var kept := Moved(root, d, Keep);
            && Enabled(root, kept, Drop)
            && var dropped := Moved(root, kept, Drop);
            && Strongest(root, kept) == Strongest(root, d) && Strongest(root, dropped) == Strongest(root, d)
            && dropped.vaults == d.vaults && dropped.journal.None?
            && Moved(root, kept, Keep) == kept
  {
    MergedIdempotent(d.ratchet.value, d.journal.value.nextRatchet);
  }

  /** After an abandonment interrupted between its writes, recovery can still go through exactly
      when the transaction had already put its ratchet in place, or its ratchet forgets nothing
      of the one before, or adds nothing to it. */
  lemma InterruptedAbandonRecoversIff(root: HashValue, d: Disk)
    requires Enabled(root, d, Keep) && Recoverable(d, d.journal.value) && WellFormedDisk(d)
    requires d.ratchet.value.trustedRoot == d.journal.value.nextRatchet.trustedRoot
    ensures var r, next := d.ratchet.value, d.journal.value.nextRatchet;
            Recoverable(Moved(root, d, Keep), d.journal.value) <==>
                r == next || Retains(next, r) || AddsNothing(next, r)
  {
    var r, next := d.ratchet.value, d.journal.value.nextRatchet;
    MergedIsEitherIff(r, next);
    if r == next {
      assert AddsNothing(next, r);
    }
  }

  /** For every transaction a commit prepares, it therefore always can. */
  lemma PreparedAbandonRecovers(root: HashValue, d: Disk)
    requires Enabled(root, d, Keep) && Recoverable(d, d.journal.value) && WellFormedDisk(d)
    requires Prepared(d.journal.value) && WellFormed(d.journal.value.ratchetBefore.content)
    ensures Recoverable(Moved(root, d, Keep), d.journal.value)
  {
    PreparedIsRaising(d.journal.value);
    InterruptedAbandonRecoversIff(root, d);
  }

  /** A transaction that forgot one watermark while raising another would be stranded. No commit
      prepares one. */
  lemma ForgetfulTransactionIsStranded(root: HashValue, path: Path, vault: VaultFile, one: RecordKey, other: RecordKey)
    requires vault.root == Some(root) && one != other && one != VaultRootKey && other != VaultRootKey
    ensures var r := Fresh(root).(watermarks := map[one := 1]);
            var next := Fresh(root).(watermarks := map[other := 1]);
            var t := Transaction(path, HashOf(vault), HashOf(r), vault, next);
            var start := Disk(map[path := vault], Some(r), None, false);
            && Enabled(root, start, Begin(t))
            && Recoverable(Moved(root, start, Begin(t)), t) && Enabled(root, Moved(root, start, Begin(t)), Keep)
            && !Recoverable(Moved(root, Moved(root, start, Begin(t)), Keep), t)
            && !Prepared(t)
  {
    var r := Fresh(root).(watermarks := map[one := 1]);
    var next := Fresh(root).(watermarks := map[other := 1]);
    var t := Transaction(path, HashOf(vault), HashOf(r), vault, next);
    var begun := Disk(map[path := vault], Some(r), Some(t), false);
    assert one in r.watermarks && one !in next.watermarks && other in next.watermarks && other !in r.watermarks;
    InterruptedAbandonRecoversIff(root, begun);
    if Prepared(t) {
      PreparedIsRaising(t);
      assert false;
    }
  }

  // ---------------------------------------------------------------------------------------
  // The operations, against a disk that may lose power
  // ---------------------------------------------------------------------------------------

  datatype Outcome = Done | NothingPending | PendingElsewhere | LegacyJoin | Refused | Crashed

  class StateDirectory {
    const root: HashValue
    var disk: Disk
    var budget: nat

    constructor (root: HashValue, disk: Disk, budget: nat)
      ensures this.root == root && this.disk == disk && this.budget == budget
    {
      this.root, this.disk, this.budget := root, disk, budget;
    }

    /** One durable effect, or the power loss that prevents it. */
    method Effect(move: Move) returns (crashed: bool)
      requires Enabled(root, disk, move)
      modifies this
      ensures crashed <==> old(budget) == 0
      ensures if crashed then disk == old(disk) && budget == 0
              else disk == Moved(root, old(disk), move) && budget == old(budget) - 1
    {
      crashed := budget == 0;
      if !crashed {
        budget := budget - 1;
        disk := Moved(root, disk, move);
      }
    }

    /** Carry a journaled transaction through: the ratchet first, then the vault, then a re-read
        of both, then the journal's removal. A file in a third state is a conflict and nothing is
        written. */
    method Complete(t: Transaction) returns (outcome: Outcome, ghost moves: seq<Move>)
      requires disk.journal == Some(t)
      modifies this
      ensures Ran(root, old(disk), moves, disk) && Completes(moves)
      ensures outcome.Refused? <==> !Recoverable(old(disk), t)
      ensures outcome.Refused? <==>
                || VaultAt(old(disk), t.origin) !in {Named(t.vaultBefore), Some(t.nextVault)}
                || old(disk).ratchet !in {Named(t.ratchetBefore), Some(t.nextRatchet)}
      ensures outcome.Refused? ==> disk == old(disk)
      ensures outcome.Done? ==> disk == Committed(old(disk), t)
      ensures outcome.Crashed? ==> budget == 0 && old(budget) < 3 && disk.journal == Some(t)
      ensures outcome.Done? || outcome.Refused? || outcome.Crashed?
    {
      moves := [];
      ghost var start := disk;
      var vault := VaultAt(disk, t.origin);
      var vaultIsAfter, ratchetIsAfter := vault == Some(t.nextVault), disk.ratchet == Some(t.nextRatchet);
      if (!vaultIsAfter && !IsBefore(vault, t.vaultBefore))
          || (!ratchetIsAfter && !IsBefore(disk.ratchet, t.ratchetBefore)) {
        return Refused, moves;
      }
      var crashed;
      if !ratchetIsAfter {
        crashed := Effect(PutRatchet);
        if crashed {
          return Crashed, moves;
        }
        RanThen(root, start, moves, start, PutRatchet);
        moves := moves + [PutRatchet];
      }
      ghost var mid := disk;
      if !vaultIsAfter {
        crashed := Effect(PutVault);
        if crashed {
          return Crashed, moves;
        }
        RanThen(root, start, moves, mid, PutVault);
        moves := moves + [PutVault];
      }
      ghost var late := disk;
      assert disk.vaults == start.vaults[t.origin := t.nextVault];
      crashed := Effect(Finish);
      if crashed {
        return Crashed, moves;
      }
      RanThen(root, start, moves, late, Finish);
      moves := moves + [Finish];
      return Done, moves;
    }

    /** Recovery by the clone at `path`: only the clone that began the transaction carries it on,
        and none does while an older version's join journal lies beside it. That journal alone is
        left to the code that wrote it. */
    method Recover(path: Path) returns (outcome: Outcome, ghost moves: seq<Move>)
      modifies this
      ensures Ran(root, old(disk), moves, disk) && Completes(moves)
      ensures outcome.NothingPending? <==> old(disk).journal.None? && !old(disk).legacyJoin
      ensures outcome.LegacyJoin? <==> old(disk).journal.None? && old(disk).legacyJoin
      ensures outcome.Done? ==> old(disk).journal.Some? && disk == Committed(old(disk), old(disk).journal.value)
      ensures !outcome.Done? && !outcome.Crashed? ==> disk == old(disk)
      ensures old(disk).journal.Some? ==>
                var t, both := old(disk).journal.value, old(disk).legacyJoin;
                && (outcome.PendingElsewhere? <==> !both && ValidTransaction(root, t) && t.origin != path)
                && (outcome.Refused? <==>
                      || both || t.nextVault.root != Some(root) || t.nextRatchet.trustedRoot != root
                      || (t.origin == path
                          && (|| VaultAt(old(disk), path) !in {Named(t.vaultBefore), Some(t.nextVault)}
                              || old(disk).ratchet !in {Named(t.ratchetBefore), Some(t.nextRatchet)})))
                && (outcome.Crashed? ==> t.origin == path && old(budget) < 3 && disk.journal == Some(t))
    {
      moves := [];
      if disk.journal.None? {
        return if disk.legacyJoin then LegacyJoin else NothingPending, moves;
      }
      var t := disk.journal.value;
      if disk.legacyJoin || !ValidTransaction(root, t) {
        return Refused, moves;
      }
      if t.origin != path {
        return PendingElsewhere, moves;
      }
      outcome, moves := Complete(t);
    }

    /** Commit exact after-images over exact before-images. */
    method Commit(path: Path, vault: VaultFile, ratchet: RatchetState, nextVault: VaultFile, nextRatchet: RatchetState)
      returns (outcome: Outcome, ghost moves: seq<Move>)
      modifies this
      ensures Ran(root, old(disk), moves, disk)
      ensures outcome.Refused? <==>
              || old(disk).legacyJoin || old(disk).journal.Some?
              || VaultAt(old(disk), path) != Some(vault) || old(disk).ratchet != Some(ratchet)
              || nextVault.root != Some(root) || nextRatchet.trustedRoot != root
      ensures var t := Transaction(path, HashOf(vault), HashOf(ratchet), nextVault, nextRatchet);
              match outcome
              case Done => disk == Committed(old(disk), t)
              case Crashed =>
                && old(budget) < 4
                && (if disk == old(disk) then old(budget) == 0
                    else Underway(old(disk), t, disk) && disk.journal == Some(t))
              case Refused => disk == old(disk)
              case _ => false
    {
      moves := [];
      ghost var start := disk;
      var t := Transaction(path, HashOf(vault), HashOf(ratchet), nextVault, nextRatchet);
      if disk.legacyJoin || disk.journal.Some? || VaultAt(disk, path) != Some(vault) || disk.ratchet != Some(ratchet)
         || !ValidTransaction(root, t) {
        return Refused, moves;
      }
      var crashed := Effect(Begin(t));
      if crashed {
        return Crashed, moves;
      }
      ghost var begun := disk;
      outcome, moves := Complete(t);
      AllOrNothing(root, start, t, begun, moves, disk);
      ghost var rest := moves;
      moves := [Begin(t)] + rest;
      assert moves[1..] == rest;
    }

    /** Give a pending transaction up without losing what it was about to remember. */
    method Abandon() returns (outcome: Outcome)
      modifies this
      ensures outcome.NothingPending? <==> old(disk).journal.None?
      ensures outcome.Refused? <==>
                old(disk).journal.Some? && (!ValidTransaction(root, old(disk).journal.value) || old(disk).ratchet.None?)
      ensures outcome.NothingPending? || outcome.Refused? ==> disk == old(disk)
      ensures outcome.Done? ==> disk == old(disk).(ratchet := Strongest(root, old(disk)), journal := None)
      ensures outcome.Crashed? ==>
                old(budget) < 2 && (disk == old(disk) || disk == old(disk).(ratchet := Strongest(root, old(disk))))
      ensures !outcome.PendingElsewhere? && !outcome.LegacyJoin?
      ensures Strongest(root, disk) == Strongest(root, old(disk)) && disk.vaults == old(disk).vaults
    {
      if disk.journal.None? {
        return NothingPending;
      }
      if !ValidTransaction(root, disk.journal.value) || disk.ratchet.None? {
        return Refused;
      }
      AbandonKeepsStrongest(root, disk);
      var crashed := Effect(Keep);
      if crashed {
        return Crashed;
      }
      crashed := Effect(Drop);
      return if crashed then Crashed else Done;
    }

    /** Abandon, and abandon again after every power loss: given two effects in a row it goes
        through, with the same result as an uninterrupted one. */
    method AbandonDespiteCrashes(budgets: seq<nat>) returns (outcome: Outcome)
      requires disk.journal.Some? && ValidTransaction(root, disk.journal.value) && disk.ratchet.Some?
      modifies this
      ensures outcome.Done? || outcome.Crashed?
      ensures outcome.Done? ==> disk == old(disk).(ratchet := Strongest(root, old(disk)), journal := None)
      ensures (exists i :: 0 <= i < |budgets| && budgets[i] >= 2) ==> outcome.Done?
    {
      ghost var start := disk;
      AbandonKeepsStrongest(root, start);
      for i := 0 to |budgets|
        invariant disk == start || disk == start.(ratchet := Strongest(root, start))
        invariant forall j :: 0 <= j < i ==> budgets[j] < 2
      {
        budget := budgets[i];
        outcome := Abandon();
        if outcome.Done? {
          return;
        }
      }
      outcome := Crashed;
    }

    /** Commit, then start over after every power loss: whatever the crash points, the outcome is
        either that nothing was begun, or exactly what the uninterrupted commit leaves. */
    method CommitDespiteCrashes(
      path: Path, vault: VaultFile, ratchet: RatchetState, nextVault: VaultFile, nextRatchet: RatchetState,
      budgets: seq<nat>)
      returns (outcome: Outcome)
      requires disk.journal.None? && !disk.legacyJoin
      requires VaultAt(disk, path) == Some(vault) && disk.ratchet == Some(ratchet)
      requires nextVault.root == Some(root) && nextRatchet.trustedRoot == root
      modifies this
      ensures var t := Transaction(path, HashOf(vault), HashOf(ratchet), nextVault, nextRatchet);
              && (outcome.Done? ==> disk == Committed(old(disk), t))
              && (outcome.NothingPending? ==> old(budget) == 0 && disk == old(disk))
              && (outcome.Crashed? ==> disk.journal == Some(t) && Underway(old(disk), t, disk))
              && (outcome.Done? || outcome.NothingPending? || outcome.Crashed?)
      ensures (exists i :: 0 <= i < |budgets| && budgets[i] >= 3) ==> !outcome.Crashed?
    {
      ghost var start := disk;
      var t := Transaction(path, HashOf(vault), HashOf(ratchet), nextVault, nextRatchet);
      ghost var moves;
      outcome, moves := Commit(path, vault, ratchet, nextVault, nextRatchet);
      if outcome.Done? {
        return;
      }
      for i := 0 to |budgets|
        invariant outcome.Crashed? && (disk == start || (Underway(start, t, disk) && disk.journal == Some(t)))
        invariant disk == start ==> old(budget) == 0
        invariant disk != start ==> forall j :: 0 <= j < i ==> budgets[j] < 3
      {
        budget := budgets[i];
        ghost var before := disk;
        if before != start { AllOrNothing(root, start, t, before, [], before); }
        outcome, moves := Recover(path);
        if before != start { AllOrNothing(root, start, t, before, moves, disk); }
        if !outcome.Crashed? {
          return;
        }
      }
      if disk.journal.None? {
        outcome := NothingPending;
      }
    }
  }
}
