/**
 Four small vaults that show what the fixed point does. A grant issued at another grant's id takes
 down whatever the displaced holder had signed; deleting the displacing signer's authority wakes
 the older grant again; grants that rest on each other may come and go by themselves; and a grant
 displaced by an authority it gave out itself leaves the vault without any settled state.
 */
module Displacement {
  import opened Format
  import opened Authority
  import opened Matching
  import opened Delegation
  import opened Settling

  /** Everyone in the cast is added by the root and has vouched. */
  function Roster(root: UserId, users: set<UserId>): Log {
    set u | u in users :: Enlist(User(u), root, 0)
  }

  predicate GrantRecords(records: Log) {
    forall r :: r in records ==> r.Issue? || r.Revoke?
  }

  function Everyone(root: UserId, users: set<UserId>): set<PrincipalRef> {
    {User(root)} + set u | u in users :: User(u)
  }

  lemma RosterWins(root: UserId, users: set<UserId>, records: Log, terms: Terms, graph: Graph, u: UserId)
    requires graph.root == root && root !in users && u in users && GrantRecords(records)
    ensures Wins(Roster(root, users) + records, terms, graph, {}, Enlist(User(u), root, 0))
  {
    var log, r := Roster(root, users) + records, Enlist(User(u), root, 0);
    RootIsAdministrator(graph);
    assert r in log && Competes(terms, graph, {}, r);
    assert forall o :: o in log && SlotOf(o) == SlotOf(r) ==> o == r;
  }

  lemma RosterExists(root: UserId, users: set<UserId>, records: Log, terms: Terms, graph: Graph)
    requires graph.root == root && root !in users && users <= terms.vouched && GrantRecords(records)
    ensures PrincipalsIn(Roster(root, users) + records, terms, graph) == Everyone(root, users)
  {
    var log := Roster(root, users) + records;
    forall u | u in users ensures User(u) in PrincipalsIn(log, terms, graph) {
      RosterWins(root, users, records, terms, graph, u);
      assert Enlist(User(u), root, 0) in log;
    }
  }

  /** `able` are the records that compete. */
  ghost predicate Competing(records: Log, terms: Terms, graph: Graph, everyone: set<PrincipalRef>, able: Log) {
    able <= records && forall r :: r in records ==> (r in able <==> Competes(terms, graph, everyone, r))
  }

  /** The highest at each slot. */
  function Highest(able: Log): Log {
    set r | r in able && forall o | o in able && SlotOf(o) == SlotOf(r) :: o == r || o.counter < r.counter
  }

  function Granting(winners: Log): set<Grant> {
    set r | r in winners && r.Issue? :: BodyOf(r).grant
  }

  predicate DistinctCounters(records: Log) {
    forall a, b :: a in records && b in records && a.counter == b.counter ==> a == b
  }

  lemma CompetingWinner(
    log: Log, records: Log, terms: Terms, graph: Graph, everyone: set<PrincipalRef>, able: Log, r: Record)
    requires records <= log && r in records && DistinctCounters(records)
    requires forall o :: o in log && SlotOf(o) == SlotOf(r) ==> o in records
    requires Competing(records, terms, graph, everyone, able)
    ensures Wins(log, terms, graph, everyone, r) <==> r in Highest(able)
  {
    if r in Highest(able) {
      forall o | SlotOf(o) == SlotOf(r) && Leads(log, terms, graph, everyone, o) ensures BodyOf(o) == BodyOf(r) {
        assert o in records;
      }
    }
    if Wins(log, terms, graph, everyone, r) {
      forall o | o in able && SlotOf(o) == SlotOf(r) ensures o == r || o.counter < r.counter {
        assert o in log && o.counter <= r.counter;
      }
    }
  }

  lemma CompetingPass(root: UserId, users: set<UserId>, records: Log, terms: Terms, state: State, able: Log)
    requires state.graph.root == root && root !in users && users <= terms.vouched
    requires GrantRecords(records) && DistinctCounters(records)
    requires Competing(records, terms, state.graph, Everyone(root, users), able)
    ensures Pass(Roster(root, users) + records, terms, state)
         == State(Graph(root, Granting(Highest(able)), {}), Everyone(root, users))
  {
    var log, everyone := Roster(root, users) + records, Everyone(root, users);
    RosterExists(root, users, records, terms, state.graph);
    assert forall r, o :: r in records && o in log && SlotOf(o) == SlotOf(r) ==> o in records;
    forall r | r in records ensures Wins(log, terms, state.graph, everyone, r) <==> r in Highest(able) {
      CompetingWinner(log, records, terms, state.graph, everyone, able, r);
    }
    forall r | r in log && r.Issue? ensures r in records {}
  }

  // ---------------------------------------------------------------------------------------
  // The cast
  // ---------------------------------------------------------------------------------------

  /** `boss` and `alice` come to be administrators, `weak` manages reading of one keyspace, and
      `manager` manages it with the right to hand management on. */
  datatype Cast = Cast(
    root: UserId, boss: UserId, alice: UserId, weak: UserId, manager: UserId, selector: KeyspaceSelector)
  {
    predicate Valid() {
      && root != boss && root != alice && root != weak && root != manager
      && boss != alice && boss != weak && boss != manager
      && alice != weak && alice != manager && weak != manager
      && DistinctKeys(selector.labels)
    }

    function Users(): set<UserId> { {boss, alice, weak, manager} }

    function BossGrant(): Grant { Grant(1, User(boss), Administer) }
    function WeakGrant(): Grant { Grant(2, User(weak), ManageKeyspace(ManageGrant(selector, [Read]))) }
    function AliceGrant(): Grant { Grant(3, User(alice), Administer) }
    function ManagerGrant(): Grant { Grant(4, User(manager), ManageKeyspace(ManageGrant(selector, [Read, Manage]))) }
    function Displacing(): Grant { Grant(1, User(weak), ReadKeyspace(selector)) }

    function Grants(): set<Grant> { {BossGrant(), WeakGrant(), AliceGrant(), ManagerGrant(), Displacing()} }

    function State(grants: set<Grant>): State {
      Settling.State.State(Graph(root, grants, {}), Everyone(root, Users()))
    }

    function Terms(admitted: Log): Terms { Settling.Terms.Terms(admitted, Users()) }
  }

  function Signed(g: Grant, signer: UserId, counter: nat): Record {
    Issue(g.id, g.subject, g.permission, signer, counter)
  }

  /** Who can create what the four vaults turn on, from the grants in force. */
  lemma Abilities(cast: Cast, graph: Graph)
    requires cast.Valid() && graph.root == cast.root && graph.memberships == {} && graph.grants <= cast.Grants()
    ensures forall p :: CanCreate(graph, cast.root, p)
    ensures forall p :: CanCreate(graph, cast.boss, p) <==> cast.BossGrant() in graph.grants
    ensures CanCreate(graph, cast.weak, ReadKeyspace(cast.selector)) <==> cast.WeakGrant() in graph.grants
    ensures !CanCreate(graph, cast.weak, Administer) && !CanCreate(graph, cast.manager, Administer)
    ensures CanCreate(graph, cast.manager, cast.WeakGrant().permission) <==> cast.ManagerGrant() in graph.grants
  {
    SubsumptionReflexive(cast.selector);
    forall p ensures CanCreate(graph, cast.root, p)
             ensures CanCreate(graph, cast.boss, p) <==> cast.BossGrant() in graph.grants
    {
      CanCreateWithoutGroups(graph, cast.root, p);
      CanCreateWithoutGroups(graph, cast.boss, p);
    }
    CanCreateWithoutGroups(graph, cast.weak, ReadKeyspace(cast.selector));
    CanCreateWithoutGroups(graph, cast.weak, Administer);
    CanCreateWithoutGroups(graph, cast.manager, Administer);
    CanCreateWithoutGroups(graph, cast.manager, cast.WeakGrant().permission);
  }

  /** The records the vaults are made of. */
  predicate Known(cast: Cast, r: Record) {
    && (r.Issue? || r.Revoke?)
    && (r.Issue? ==>
          && BodyOf(r).grant in cast.Grants()
          && (r.signer == cast.root || r.signer == cast.boss
              || (r.signer == cast.weak && r.permission == ReadKeyspace(cast.selector))))
  }

  predicate Able(cast: Cast, grants: set<Grant>, admitted: Log, r: Record) {
    if r.Issue? then
      || r.signer == cast.root
      || (r.signer == cast.boss && cast.BossGrant() in grants)
      || (r.signer == cast.weak && cast.WeakGrant() in grants)
    else r in admitted
  }

  function AbleAmong(cast: Cast, records: Log, grants: set<Grant>, admitted: Log): Log {
    set r | r in records && Able(cast, grants, admitted, r)
  }

  /** What one pass makes of such records. */
  function Chosen(cast: Cast, records: Log, grants: set<Grant>, admitted: Log): set<Grant> {
    Granting(Highest(AbleAmong(cast, records, grants, admitted)))
  }

  function Vault(cast: Cast, records: Log): Log {
    Roster(cast.root, cast.Users()) + records
  }

  predicate KnownAll(cast: Cast, records: Log) {
    DistinctCounters(records) && forall r :: r in records ==> Known(cast, r)
  }

  lemma KnownCompeting(cast: Cast, records: Log, admitted: Log, graph: Graph)
    requires cast.Valid() && KnownAll(cast, records)
    requires graph.root == cast.root && graph.memberships == {} && graph.grants <= cast.Grants()
    ensures Competing(records, cast.Terms(admitted), graph, Everyone(cast.root, cast.Users()),
                      AbleAmong(cast, records, graph.grants, admitted))
  {
    Abilities(cast, graph);
  }

  lemma VaultPass(cast: Cast, records: Log, admitted: Log, state: State)
    requires cast.Valid() && KnownAll(cast, records)
    requires state.graph.root == cast.root && state.graph.memberships == {} && state.graph.grants <= cast.Grants()
    ensures Pass(Vault(cast, records), cast.Terms(admitted), state)
         == cast.State(Chosen(cast, records, state.graph.grants, admitted))
  {
    KnownCompeting(cast, records, admitted, state.graph);
    CompetingPass(cast.root, cast.Users(), records, cast.Terms(admitted), state,
                  AbleAmong(cast, records, state.graph.grants, admitted));
  }

  lemma ChosenIsKnown(cast: Cast, records: Log, grants: set<Grant>, admitted: Log)
    requires KnownAll(cast, records)
    ensures Chosen(cast, records, grants, admitted) <= cast.Grants()
  {
  }

  // ---------------------------------------------------------------------------------------
  // Displacing one grant takes down another
  // ---------------------------------------------------------------------------------------

  /** The root makes `boss` an administrator and lets `weak` manage reading; `boss` makes `alice`
      an administrator. */
  function Peaceful(cast: Cast): Log {
    {Signed(cast.BossGrant(), cast.root, 1), Signed(cast.WeakGrant(), cast.root, 2),
     Signed(cast.AliceGrant(), cast.boss, 3)}
  }

  /** Then `weak` issues a read grant at the id of the boss's. */
  function Displaced(cast: Cast): Log {
    Peaceful(cast) + {Signed(cast.Displacing(), cast.weak, 4)}
  }

  lemma PeacefulKnown(cast: Cast)
    requires cast.Valid()
    ensures KnownAll(cast, Peaceful(cast)) && KnownAll(cast, Displaced(cast))
  {
  }

  /** Records that do not meet at any slot are all the highest at theirs. */
  lemma ApartAreHighest(able: Log)
    requires forall a, b :: a in able && b in able && SlotOf(a) == SlotOf(b) ==> a == b
    ensures Highest(able) == able
  {
  }

  lemma PeacefulChoice(cast: Cast)
    requires cast.Valid()
    ensures var grants := {cast.BossGrant(), cast.WeakGrant(), cast.AliceGrant()};
            Chosen(cast, Peaceful(cast), grants, {}) == grants
  {
    var grants := {cast.BossGrant(), cast.WeakGrant(), cast.AliceGrant()};
    assert AbleAmong(cast, Peaceful(cast), grants, {}) == Peaceful(cast);
    ApartAreHighest(Peaceful(cast));
    assert Granting(Peaceful(cast)) == grants;
  }

  function DisplacedNext(cast: Cast, grants: set<Grant>): set<Grant> {
    {cast.WeakGrant(), if cast.WeakGrant() in grants then cast.Displacing() else cast.BossGrant()}
    + (if cast.BossGrant() in grants then {cast.AliceGrant()} else {})
  }

  lemma DisplacedChoice(cast: Cast, grants: set<Grant>)
    requires cast.Valid()
    ensures Chosen(cast, Displaced(cast), grants, {}) == DisplacedNext(cast, grants)
  {
    var boss, weak := Signed(cast.BossGrant(), cast.root, 1), Signed(cast.WeakGrant(), cast.root, 2);
    var alice, displacing := Signed(cast.AliceGrant(), cast.boss, 3), Signed(cast.Displacing(), cast.weak, 4);
    var winners := {weak, if cast.WeakGrant() in grants then displacing else boss}
                   + (if cast.BossGrant() in grants then {alice} else {});
    var able := AbleAmong(cast, Displaced(cast), grants, {});
    assert able == winners + {boss};
    assert Highest(able) == winners;
    assert Granting(winners) == DisplacedNext(cast, grants);
  }

  lemma DisplacedPass(cast: Cast, state: State)
    requires cast.Valid() && state.graph.root == cast.root && state.graph.memberships == {}
    requires state.graph.grants <= cast.Grants()
    ensures Pass(Vault(cast, Displaced(cast)), cast.Terms({}), state)
        == cast.State(DisplacedNext(cast, state.graph.grants))
  {
    PeacefulKnown(cast);
    DisplacedChoice(cast, state.graph.grants);
    VaultPass(cast, Displaced(cast), {}, state);
  }

  function DisplacedAfter(cast: Cast, n: nat): set<Grant> {
    if n == 0 then {}
    else if n == 1 then {cast.BossGrant(), cast.WeakGrant()}
    else if n == 2 then {cast.WeakGrant(), cast.AliceGrant(), cast.Displacing()}
    else {cast.WeakGrant(), cast.Displacing()}
  }

  lemma DisplacedAfterNext(cast: Cast, n: nat)
    requires cast.Valid()
    ensures DisplacedNext(cast, DisplacedAfter(cast, n)) == DisplacedAfter(cast, n + 1)
    ensures DisplacedAfter(cast, n) <= cast.Grants()
  {
  }

  lemma DisplacedStep(cast: Cast, n: nat, state: State)
    requires cast.Valid() && state.graph == Graph(cast.root, DisplacedAfter(cast, n), {})
    ensures Pass(Vault(cast, Displaced(cast)), cast.Terms({}), state) == cast.State(DisplacedAfter(cast, n + 1))
  {
    DisplacedAfterNext(cast, n);
    DisplacedPass(cast, state);
  }

  /** The passes of the program over the displaced vault: the boss and `weak` come in, both of them
      act, the boss is out with everything the boss had signed, and nothing changes any more. */
  lemma {:induction false} DisplacedPasses(cast: Cast, n: nat)
    requires cast.Valid() && n > 0
    ensures Passes(cast.root, Vault(cast, Displaced(cast)), cast.Terms({}), n) == cast.State(DisplacedAfter(cast, n))
  {
    if n == 1 {
      DisplacedStep(cast, 0, Passes(cast.root, Vault(cast, Displaced(cast)), cast.Terms({}), n - 1));
    } else {
      DisplacedPasses(cast, n - 1);
      DisplacedStep(cast, n - 1, Passes(cast.root, Vault(cast, Displaced(cast)), cast.Terms({}), n - 1));
    }
  }

  lemma DisplacedSettles(cast: Cast, n: nat)
    requires cast.Valid() && n >= 3
    ensures Settled(Vault(cast, Displaced(cast)), cast.Terms({}), cast.State(DisplacedAfter(cast, n)))
  {
    DisplacedStep(cast, n, cast.State(DisplacedAfter(cast, n)));
  }

  lemma PeacefulSettles(cast: Cast)
    requires cast.Valid()
    ensures Settled(Vault(cast, Peaceful(cast)), cast.Terms({}),
                    cast.State({cast.BossGrant(), cast.WeakGrant(), cast.AliceGrant()}))
  {
    PeacefulKnown(cast);
    PeacefulChoice(cast);
    VaultPass(cast, Peaceful(cast), {}, cast.State({cast.BossGrant(), cast.WeakGrant(), cast.AliceGrant()}));
  }

  /** `weak` may issue its read grant, and may neither create nor delete the boss's. */
  lemma WeakIsWeak(cast: Cast)
    requires cast.Valid()
    ensures var before := cast.State({cast.BossGrant(), cast.WeakGrant(), cast.AliceGrant()});
            && CanCreate(before.graph, cast.weak, cast.Displacing().permission)
            && !CanCreate(before.graph, cast.weak, Administer)
            && !MayDelete(before, Revoke(1, cast.Displacing().permission, cast.weak, 4))
  {
    var before := cast.State({cast.BossGrant(), cast.WeakGrant(), cast.AliceGrant()});
    Abilities(cast, before.graph);
    assert cast.BossGrant() in before.graph.grants && cast.BossGrant().id == 1;
  }

  /** A manager of one keyspace, who can neither create nor delete an administrator's grant,
      displaces one by issuing a read grant at its id; and another administrator's grant, whose id
      nobody touched, goes with it, because the one displaced had signed it. */
  lemma DisplacementCascades(cast: Cast, n: nat)
    requires cast.Valid() && n >= 3
    ensures SettledAfter(cast.root, Vault(cast, Displaced(cast)), cast.Terms({}), n)
    ensures Passes(cast.root, Vault(cast, Displaced(cast)), cast.Terms({}), n)
         == cast.State({cast.WeakGrant(), cast.Displacing()})
  {
    DisplacedPasses(cast, n);
    DisplacedSettles(cast, n);
  }

  /** What the second administrator's grant rests on: that both users were added, and the first
      administrator's grant. */
  function AliceSupport(cast: Cast): seq<Record> {
    [Enlist(User(cast.boss), cast.root, 0), Enlist(User(cast.alice), cast.root, 0),
     Signed(cast.BossGrant(), cast.root, 1), Signed(cast.AliceGrant(), cast.boss, 3)]
  }

  lemma PeacefulWins(cast: Cast, r: Record)
    requires cast.Valid() && r in Peaceful(cast)
    ensures var before := cast.State({cast.BossGrant(), cast.WeakGrant(), cast.AliceGrant()});
            Wins(Vault(cast, Peaceful(cast)), cast.Terms({}), before.graph, before.principals, r)
  {
    var before := cast.State({cast.BossGrant(), cast.WeakGrant(), cast.AliceGrant()});
    PeacefulKnown(cast);
    KnownCompeting(cast, Peaceful(cast), {}, before.graph);
    assert AbleAmong(cast, Peaceful(cast), before.graph.grants, {}) == Peaceful(cast);
    ApartAreHighest(Peaceful(cast));
    CompetingWinner(Vault(cast, Peaceful(cast)), Peaceful(cast), cast.Terms({}), before.graph, before.principals,
                    Peaceful(cast), r);
  }

  lemma EnlistRests(cast: Cast, below: seq<Record>, u: UserId)
    requires cast.Valid() && u in cast.Users()
    ensures RestsOn(Vault(cast, Peaceful(cast)), cast.Terms({}),
                    cast.State({cast.BossGrant(), cast.WeakGrant(), cast.AliceGrant()}), below,
                    Enlist(User(u), cast.root, 0))
  {
    var before := cast.State({cast.BossGrant(), cast.WeakGrant(), cast.AliceGrant()});
    RosterWins(cast.root, cast.Users(), Peaceful(cast), cast.Terms({}), before.graph, u);
    RootIsAdministrator(Base(cast.root, below).graph);
  }

  lemma GrantRests(cast: Cast, below: seq<Record>, r: Record)
    requires cast.Valid() && r in Peaceful(cast)
    requires Enlist(r.subject, cast.root, 0) in below
    requires r.signer == cast.root || (r.signer == cast.boss && Signed(cast.BossGrant(), cast.root, 1) in below)
    requires forall o :: o in below ==> !o.Join?
    ensures RestsOn(Vault(cast, Peaceful(cast)), cast.Terms({}),
                    cast.State({cast.BossGrant(), cast.WeakGrant(), cast.AliceGrant()}), below, r)
  {
    var base := Base(cast.root, below);
    PeacefulWins(cast, r);
    CanCreateWithoutGroups(base.graph, r.signer, r.permission);
    if r.signer == cast.boss {
      assert BodyOf(Signed(cast.BossGrant(), cast.root, 1)) == Granted(cast.BossGrant());
      assert cast.BossGrant() in base.graph.grants;
    }
  }

  lemma AliceRests(cast: Cast, i: nat)
    requires cast.Valid() && i < |AliceSupport(cast)|
    ensures RestsOn(Vault(cast, Peaceful(cast)), cast.Terms({}),
                    cast.State({cast.BossGrant(), cast.WeakGrant(), cast.AliceGrant()}),
                    AliceSupport(cast)[..i], AliceSupport(cast)[i])
  {
    var support := AliceSupport(cast);
    if i < 2 {
      EnlistRests(cast, support[..i], if i == 0 then cast.boss else cast.alice);
    } else {
      assert support[..i][0] == support[0] && support[..i][1] == support[1];
      assert i == 3 ==> support[..i][2] == support[2];
      GrantRests(cast, support[..i], support[i]);
    }
  }

  lemma AliceIsSupported(cast: Cast)
    requires cast.Valid()
    ensures Supports(Vault(cast, Peaceful(cast)), cast.Terms({}),
                     cast.State({cast.BossGrant(), cast.WeakGrant(), cast.AliceGrant()}), AliceSupport(cast))
  {
    forall i | 0 <= i < |AliceSupport(cast)|
      ensures RestsOn(Vault(cast, Peaceful(cast)), cast.Terms({}),
                      cast.State({cast.BossGrant(), cast.WeakGrant(), cast.AliceGrant()}),
                      AliceSupport(cast)[..i], AliceSupport(cast)[i])
    {
      AliceRests(cast, i);
    }
  }

  /** The general account of a loss, on this one: the second grant fell because a record it rests
      on was overtaken at its own id. */
  lemma CascadeIsAccountedFor(cast: Cast)
    requires cast.Valid()
    ensures exists i, y :: 0 <= i <= 3
              && Overtaken(Vault(cast, Peaceful(cast)), cast.Terms({}),
                           cast.State({cast.BossGrant(), cast.WeakGrant(), cast.AliceGrant()}),
                           Vault(cast, Displaced(cast)), cast.Terms({}),
                           cast.State({cast.WeakGrant(), cast.Displacing()}), AliceSupport(cast)[i], y)
  {
    AliceIsSupported(cast);
    DisplacedSettles(cast, 3);
    LostRecordWasOvertaken(Vault(cast, Peaceful(cast)), cast.Terms({}),
                           cast.State({cast.BossGrant(), cast.WeakGrant(), cast.AliceGrant()}),
                           Vault(cast, Displaced(cast)), cast.Terms({}),
                           cast.State({cast.WeakGrant(), cast.Displacing()}), AliceSupport(cast), 3);
  }

  // ---------------------------------------------------------------------------------------
  // Deleting one grant wakes another
  // ---------------------------------------------------------------------------------------

  /** The boss's grant is displaced by `weak`, and `manager` may hand reading on. */
  function Dormant(cast: Cast): Log {
    {Signed(cast.BossGrant(), cast.root, 1), Signed(cast.WeakGrant(), cast.root, 2),
     Signed(cast.ManagerGrant(), cast.root, 3), Signed(cast.Displacing(), cast.weak, 4)}
  }

  function Deletion(cast: Cast): Record {
    Revoke(2, cast.WeakGrant().permission, cast.manager, 5)
  }

  lemma DormantChoice(cast: Cast)
    requires cast.Valid()
    ensures KnownAll(cast, Dormant(cast))
    ensures var grants := {cast.WeakGrant(), cast.ManagerGrant(), cast.Displacing()};
            Chosen(cast, Dormant(cast), grants, {}) == grants
  {
    var grants := {cast.WeakGrant(), cast.ManagerGrant(), cast.Displacing()};
    assert Highest(AbleAmong(cast, Dormant(cast), grants, {}))
        == {Signed(cast.WeakGrant(), cast.root, 2), Signed(cast.ManagerGrant(), cast.root, 3),
            Signed(cast.Displacing(), cast.weak, 4)};
  }

  lemma WokenChoice(cast: Cast, grants: set<Grant>)
    requires cast.Valid() && cast.WeakGrant() !in grants
    ensures KnownAll(cast, Dormant(cast) + {Deletion(cast)})
    ensures Chosen(cast, Dormant(cast) + {Deletion(cast)}, grants, {Deletion(cast)})
         == {cast.BossGrant(), cast.ManagerGrant()}
  {
    var winners := {Signed(cast.BossGrant(), cast.root, 1), Signed(cast.ManagerGrant(), cast.root, 3), Deletion(cast)};
    assert Highest(AbleAmong(cast, Dormant(cast) + {Deletion(cast)}, grants, {Deletion(cast)})) == winners;
  }

  lemma WokenPass(cast: Cast, state: State)
    requires cast.Valid() && state.graph.root == cast.root && state.graph.memberships == {}
    requires state.graph.grants <= cast.Grants() && cast.WeakGrant() !in state.graph.grants
    ensures Pass(Vault(cast, Dormant(cast) + {Deletion(cast)}), cast.Terms({Deletion(cast)}), state)
         == cast.State({cast.BossGrant(), cast.ManagerGrant()})
  {
    WokenChoice(cast, state.graph.grants);
    VaultPass(cast, Dormant(cast) + {Deletion(cast)}, {Deletion(cast)}, state);
  }

  /** Before the deletion the vault is settled with the boss's grant displaced. */
  lemma DormantSettles(cast: Cast)
    requires cast.Valid()
    ensures Settled(Vault(cast, Dormant(cast)), cast.Terms({}),
                    cast.State({cast.WeakGrant(), cast.ManagerGrant(), cast.Displacing()}))
  {
    DormantChoice(cast);
    VaultPass(cast, Dormant(cast), {}, cast.State({cast.WeakGrant(), cast.ManagerGrant(), cast.Displacing()}));
  }

  /** `manager` may make the deletion, and neither it nor the boss may create an administrator. */
  lemma ManagerMayDelete(cast: Cast)
    requires cast.Valid()
    ensures var before := cast.State({cast.WeakGrant(), cast.ManagerGrant(), cast.Displacing()});
            && MayDelete(before, Deletion(cast))
            && !CanCreate(before.graph, cast.manager, Administer) && !CanCreate(before.graph, cast.boss, Administer)
  {
    var before := cast.State({cast.WeakGrant(), cast.ManagerGrant(), cast.Displacing()});
    Abilities(cast, before.graph);
    assert forall g :: g in before.graph.grants && g.id == 2 ==> g == cast.WeakGrant();
  }

  /** Nobody but the root is an administrator; `manager` deletes the grant of `weak`, as it may;
      `weak` can then no longer keep the boss's older grant down, and the boss is an administrator
      again. */
  lemma DeletionWakesAdministrator(cast: Cast, n: nat)
    requires cast.Valid() && n >= 1
    ensures var log, terms := Vault(cast, Dormant(cast) + {Deletion(cast)}), cast.Terms({Deletion(cast)});
            && Passes(cast.root, log, terms, n).graph == Graph(cast.root, {cast.BossGrant(), cast.ManagerGrant()}, {})
            && SettledAfter(cast.root, log, terms, n)
    decreases n
  {
    var log, terms := Vault(cast, Dormant(cast) + {Deletion(cast)}), cast.Terms({Deletion(cast)});
    if n > 1 { DeletionWakesAdministrator(cast, n - 1); }
    WokenPass(cast, Passes(cast.root, log, terms, n - 1));
    WokenPass(cast, Passes(cast.root, log, terms, n));
  }

  // ---------------------------------------------------------------------------------------
  // No settled state, and more than one
  // ---------------------------------------------------------------------------------------

  /** `weak` displaces the very grant that its own authority comes from. */
  function Cyclic(cast: Cast): Log {
    {Signed(cast.BossGrant(), cast.root, 1), Signed(cast.WeakGrant(), cast.boss, 2),
     Signed(cast.Displacing(), cast.weak, 3)}
  }

  lemma CyclicChoice(cast: Cast, grants: set<Grant>)
    requires cast.Valid()
    ensures KnownAll(cast, Cyclic(cast))
    ensures Chosen(cast, Cyclic(cast), grants, {})
         == {if cast.WeakGrant() in grants then cast.Displacing() else cast.BossGrant()}
            + (if cast.BossGrant() in grants then {cast.WeakGrant()} else {})
  {
    var boss, weak := Signed(cast.BossGrant(), cast.root, 1), Signed(cast.WeakGrant(), cast.boss, 2);
    var displacing := Signed(cast.Displacing(), cast.weak, 3);
    var winners := {if cast.WeakGrant() in grants then displacing else boss}
                   + (if cast.BossGrant() in grants then {weak} else {});
    assert Highest(AbleAmong(cast, Cyclic(cast), grants, {})) == winners;
  }

  lemma PassIsKnown(cast: Cast, records: Log, admitted: Log, state: State)
    requires KnownAll(cast, records)
    ensures var next := Pass(Vault(cast, records), cast.Terms(admitted), state);
            next.graph.memberships == {} && next.graph.grants <= cast.Grants()
  {
  }

  lemma SettledIsChosen(cast: Cast, records: Log, admitted: Log, state: State)
    requires cast.Valid() && KnownAll(cast, records) && state.graph.root == cast.root
    requires Settled(Vault(cast, records), cast.Terms(admitted), state)
    ensures state.graph.grants == Chosen(cast, records, state.graph.grants, admitted)
  {
    PassIsKnown(cast, records, admitted, state);
    VaultPass(cast, records, admitted, state);
  }

  lemma CyclicHasNoChoice(cast: Cast, grants: set<Grant>)
    requires cast.Valid()
    ensures KnownAll(cast, Cyclic(cast)) && Chosen(cast, Cyclic(cast), grants, {}) != grants
  {
    CyclicChoice(cast, grants);
    var next := Chosen(cast, Cyclic(cast), grants, {});
    assert cast.BossGrant() in next <==> cast.WeakGrant() !in grants;
    assert cast.WeakGrant() in next <==> cast.BossGrant() in grants;
  }

  /** Such a vault has no settled state at all. */
  lemma CyclicNeverSettles(cast: Cast, state: State)
    requires cast.Valid() && state.graph.root == cast.root
    ensures !Settled(Vault(cast, Cyclic(cast)), cast.Terms({}), state)
  {
    CyclicHasNoChoice(cast, state.graph.grants);
    if Settled(Vault(cast, Cyclic(cast)), cast.Terms({}), state) {
      SettledIsChosen(cast, Cyclic(cast), {}, state);
    }
  }

  /** So however many passes the program runs, it reports that authority did not converge. */
  lemma CyclicNeverConverges(cast: Cast, n: nat)
    requires cast.Valid()
    ensures !SettledAfter(cast.root, Vault(cast, Cyclic(cast)), cast.Terms({}), n)
  {
    PassesKeepRoot(cast.root, Vault(cast, Cyclic(cast)), cast.Terms({}), n);
    CyclicNeverSettles(cast, Passes(cast.root, Vault(cast, Cyclic(cast)), cast.Terms({}), n));
  }

  /** A grant that rests only on itself is settled in force and settled out of force: without a
      support nothing need happen for it to be lost. The passes leave it out. */
  lemma SelfSupportIsArbitrary(cast: Cast)
    requires cast.Valid()
    ensures var log := Vault(cast, {Signed(cast.BossGrant(), cast.boss, 1)});
            && Settled(log, cast.Terms({}), cast.State({cast.BossGrant()}))
            && Settled(log, cast.Terms({}), cast.State({}))
            && Passes(cast.root, log, cast.Terms({}), 1) == cast.State({})
  {
    var records := {Signed(cast.BossGrant(), cast.boss, 1)};
    assert KnownAll(cast, records);
    assert Highest(AbleAmong(cast, records, {cast.BossGrant()}, {})) == records;
    assert Highest(AbleAmong(cast, records, {}, {})) == {};
    assert Granting(records) == {cast.BossGrant()};
    VaultPass(cast, records, {}, cast.State({cast.BossGrant()}));
    VaultPass(cast, records, {}, cast.State({}));
    VaultPass(cast, records, {}, Passes(cast.root, Vault(cast, records), cast.Terms({}), 0));
  }
}
