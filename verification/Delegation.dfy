/**
 Effective authority over grants and nested group memberships: what a principal holds, the loop
 that computes it, and who may create what.
 */
module Delegation {
  import opened Format
  import opened Authority

  datatype Grant = Grant(id: HashValue, subject: PrincipalRef, permission: GrantPermission)

  datatype Membership = Membership(group: GroupId, member: PrincipalRef)

  /** The effective principal graph: the trust anchor, the live grants and the live memberships. */
  datatype Graph = Graph(root: UserId, grants: set<Grant>, memberships: set<Membership>)

  /** The root's intrinsic authority, or a live grant naming the principal. */
  predicate GrantedBy(root: UserId, grants: set<Grant>, principal: PrincipalRef, permission: GrantPermission) {
    || (principal == User(root) && permission in ROOT_AUTHORITY.Held())
    || exists g :: g in grants && g.subject == principal && g.permission == permission
  }

  predicate GrantedDirectly(graph: Graph, principal: PrincipalRef, permission: GrantPermission) {
    GrantedBy(graph.root, graph.grants, principal, permission)
  }

  /** A chain of memberships, each principal a member of the group after it. */
  predicate IsChain(graph: Graph, chain: seq<PrincipalRef>) {
    && chain != []
    && forall i :: 0 < i < |chain| ==>
         chain[i].Group? && Membership(chain[i].groupId, chain[i - 1]) in graph.memberships
  }

  ghost predicate HoldsVia(
    graph: Graph, principal: PrincipalRef, permission: GrantPermission, chain: seq<PrincipalRef>) {
    IsChain(graph, chain) && chain[0] == principal && GrantedDirectly(graph, chain[|chain| - 1], permission)
  }

  /** A principal holds what is granted to it or to any group it belongs to, however nested. */
  ghost predicate Holds(graph: Graph, principal: PrincipalRef, permission: GrantPermission) {
    exists chain :: HoldsVia(graph, principal, permission, chain)
  }

  // ---------------------------------------------------------------------------------------
  // Computing effective authority
  // ---------------------------------------------------------------------------------------

  /** One authority set per principal, by what it holds; a missing entry holds nothing. */
  type AuthorityTable = map<PrincipalRef, set<GrantPermission>>

  function HeldBy(table: AuthorityTable, principal: PrincipalRef): set<GrantPermission> {
    if principal in table then table[principal] else {}
  }

  ghost predicate Sound(table: AuthorityTable, graph: Graph) {
    forall p, q {:trigger Holds(graph, p, q)} :: q in HeldBy(table, p) ==> Holds(graph, p, q)
  }

  ghost predicate CoversDirect(table: AuthorityTable, graph: Graph) {
    forall p, q :: GrantedDirectly(graph, p, q) ==> q in HeldBy(table, p)
  }

  predicate ClosedAt(table: AuthorityTable, m: Membership) {
    HeldBy(table, Group(m.group)) <= HeldBy(table, m.member)
  }

  lemma DirectIsHeld(graph: Graph, principal: PrincipalRef, permission: GrantPermission)
    requires GrantedDirectly(graph, principal, permission)
    ensures Holds(graph, principal, permission)
  {
    assert HoldsVia(graph, principal, permission, [principal]);
  }

  lemma MembershipInherits(graph: Graph, m: Membership, permission: GrantPermission)
    requires m in graph.memberships && Holds(graph, Group(m.group), permission)
    ensures Holds(graph, m.member, permission)
  {
    var chain :| HoldsVia(graph, Group(m.group), permission, chain);
    assert HoldsVia(graph, m.member, permission, [m.member] + chain);
  }

  /** A table that covers the direct grants and is closed under every membership holds
      everything there is to hold. */
  lemma {:induction false} ClosedTableIsComplete(
    table: AuthorityTable, graph: Graph, permission: GrantPermission, chain: seq<PrincipalRef>)
    requires CoversDirect(table, graph) && (forall m :: m in graph.memberships ==> ClosedAt(table, m))
    requires IsChain(graph, chain) && GrantedDirectly(graph, chain[|chain| - 1], permission)
    ensures permission in HeldBy(table, chain[0])
  {
    if |chain| == 1 {
    } else {
      assert Membership(chain[1].groupId, chain[0]) in graph.memberships;
      assert ClosedAt(table, Membership(chain[1].groupId, chain[0]));
      ClosedTableIsComplete(table, graph, permission, chain[1..]);
    }
  }

  /** The finite space the table grows in. */
  ghost function Facts(principals: set<PrincipalRef>, table: AuthorityTable): set<(PrincipalRef, GrantPermission)> {
    set p, q | p in principals && q in HeldBy(table, p) :: (p, q)
  }

  function Absorbed(table: AuthorityTable, m: Membership): AuthorityTable {
    table[m.member := HeldBy(table, m.member) + HeldBy(table, Group(m.group))]
  }

  lemma AbsorbGrows(principals: set<PrincipalRef>, table: AuthorityTable, m: Membership)
    requires m.member in principals
    ensures Facts(principals, table) <= Facts(principals, Absorbed(table, m))
    ensures !ClosedAt(table, m) ==> Facts(principals, table) < Facts(principals, Absorbed(table, m))
    ensures ClosedAt(table, m) ==> forall p :: HeldBy(Absorbed(table, m), p) == HeldBy(table, p)
  {
    if !ClosedAt(table, m) {
      var q :| q in HeldBy(table, Group(m.group)) && q !in HeldBy(table, m.member);
      assert (m.member, q) in Facts(principals, Absorbed(table, m));
      assert (m.member, q) !in Facts(principals, table);
    }
  }

  /** What every pass keeps: only held permissions, every direct grant, all from a finite pool. */
  ghost predicate Invariant(table: AuthorityTable, graph: Graph, pool: set<GrantPermission>) {
    Sound(table, graph) && CoversDirect(table, graph) && forall p :: HeldBy(table, p) <= pool
  }

  lemma AbsorbKeepsInvariant(table: AuthorityTable, graph: Graph, pool: set<GrantPermission>, m: Membership)
    requires Invariant(table, graph, pool) && m in graph.memberships
    ensures Invariant(Absorbed(table, m), graph, pool)
  {
    forall p, q | q in HeldBy(Absorbed(table, m), p) ensures Holds(graph, p, q) {
      if p == m.member && q in HeldBy(table, Group(m.group)) { MembershipInherits(graph, m, q); }
    }
  }

  ghost predicate SameHeld(table: AuthorityTable, other: AuthorityTable) {
    forall p :: HeldBy(table, p) == HeldBy(other, p)
  }

  /** From one table to a later one: strictly more when something changed, the same otherwise. */
  ghost predicate Progress(principals: set<PrincipalRef>, table: AuthorityTable, next: AuthorityTable, changed: bool) {
    if changed then Facts(principals, table) < Facts(principals, next) else SameHeld(next, table)
  }

  lemma SameHeldSameFacts(principals: set<PrincipalRef>, table: AuthorityTable, next: AuthorityTable)
    requires SameHeld(next, table)
    ensures Facts(principals, next) == Facts(principals, table)
    ensures forall m :: ClosedAt(next, m) <==> ClosedAt(table, m)
  {
  }

  lemma ProgressComposes(
    principals: set<PrincipalRef>, table: AuthorityTable, mid: AuthorityTable, next: AuthorityTable,
    earlier: bool, later: bool)
    requires Progress(principals, table, mid, earlier) && Progress(principals, mid, next, later)
    ensures Progress(principals, table, next, earlier || later)
  {
    if !earlier { SameHeldSameFacts(principals, table, mid); }
    if !later { SameHeldSameFacts(principals, mid, next); }
  }

  /** `merge_from` of a group into one member; the answer is whether the member's set grew. */
  method AbsorbOne(ghost graph: Graph, m: Membership, table: AuthorityTable,
                   ghost principals: set<PrincipalRef>, ghost pool: set<GrantPermission>)
    returns (next: AuthorityTable, grew: bool)
    requires m in graph.memberships && m.member in principals && Invariant(table, graph, pool)
    ensures Invariant(next, graph, pool)
    ensures grew <==> !ClosedAt(table, m)
    ensures Progress(principals, table, next, grew)
  {
    AbsorbKeepsInvariant(table, graph, pool, m);
    AbsorbGrows(principals, table, m);
    if Group(m.group) in table {
      grew := !(HeldBy(table, Group(m.group)) <= HeldBy(table, m.member));
      next := Absorbed(table, m);
    } else {
      next, grew := table, false;
    }
  }

  /** One pass over every membership; `changed` reports any growth. */
  method AbsorbOnce(ghost graph: Graph, memberships: seq<Membership>, table: AuthorityTable,
                    ghost principals: set<PrincipalRef>, ghost pool: set<GrantPermission>)
    returns (next: AuthorityTable, changed: bool)
    requires forall i :: 0 <= i < |memberships| ==>
        memberships[i] in graph.memberships && memberships[i].member in principals
    requires Invariant(table, graph, pool)
    ensures Invariant(next, graph, pool)
    ensures Progress(principals, table, next, changed)
    ensures !changed ==> forall i :: 0 <= i < |memberships| ==> ClosedAt(table, memberships[i])
  {
    next, changed := table, false;
    for i := 0 to |memberships|
      invariant Invariant(next, graph, pool)
      invariant Progress(principals, table, next, changed)
      invariant !changed ==> forall j :: 0 <= j < i ==> ClosedAt(table, memberships[j])
    {
      ghost var before := next;
      var grew;
      if !changed { SameHeldSameFacts(principals, table, before); }
      next, grew := AbsorbOne(graph, memberships[i], next, principals, pool);
      ProgressComposes(principals, table, before, next, changed, grew);
      changed := changed || grew;
    }
  }

  lemma GrantedByOneMore(root: UserId, grants: set<Grant>, g: Grant)
    ensures forall p, q :: GrantedBy(root, grants + {g}, p, q) <==>
                           GrantedBy(root, grants, p, q) || (g.subject == p && g.permission == q)
  {
    forall p, q ensures GrantedBy(root, grants + {g}, p, q) <==>
                        GrantedBy(root, grants, p, q) || (g.subject == p && g.permission == q)
    {
      if g.subject == p && g.permission == q { assert g in grants + {g}; }
      if h :| h in grants && h.subject == p && h.permission == q { assert h in grants + {g}; }
    }
  }

  /** The direct grants, folded one by one into the root's own authority. */
  method DirectTable(graph: Graph, grants: seq<Grant>) returns (table: AuthorityTable)
    requires (set g | g in grants) == graph.grants
    ensures forall p, q :: q in HeldBy(table, p) <==> GrantedDirectly(graph, p, q)
  {
    table := map[User(graph.root) := ROOT_AUTHORITY.Held()];
    ghost var seen: set<Grant> := {};
    for i := 0 to |grants|
      invariant seen == set g | g in grants[..i]
      invariant forall p, q :: q in HeldBy(table, p) <==> GrantedBy(graph.root, seen, p, q)
    {
      var g := grants[i];
      GrantedByOneMore(graph.root, seen, g);
      seen := seen + {g};
      assert grants[..i + 1] == grants[..i] + [g];
      table := table[g.subject := HeldBy(table, g.subject) + {g.permission}];
    }
    assert grants[..|grants|] == grants;
  }

  ghost function Pool(graph: Graph): set<GrantPermission> {
    ROOT_AUTHORITY.Held() + set g | g in graph.grants :: g.permission
  }

  lemma StrictlyLessLeft<T>(universe: set<T>, before: set<T>, after: set<T>)
    requires before < after <= universe
    ensures universe - after < universe - before
  {
    var x :| x in after && x !in before;
    assert x in universe - before && x !in universe - after;
  }

  /** The principal graph's authority fixpoint: it terminates, and the table it settles on holds
      exactly what membership chains confer. */
  method ComputeAuthorities(graph: Graph, grants: seq<Grant>, memberships: seq<Membership>)
    returns (table: AuthorityTable)
    requires (set g | g in grants) == graph.grants && (set m | m in memberships) == graph.memberships
    ensures forall p, q :: q in HeldBy(table, p) <==> Holds(graph, p, q)
  {
    table := DirectTable(graph, grants);
    ghost var pool := Pool(graph);
    forall p, q | q in HeldBy(table, p) ensures Holds(graph, p, q) && q in pool { DirectIsHeld(graph, p, q); }
    assert Invariant(table, graph, pool);
    ghost var principals := set m | m in graph.memberships :: m.member;
    ghost var universe := set p, q | p in principals && q in pool :: (p, q);
    var changed := true;
    while changed
      invariant Invariant(table, graph, pool)
      invariant !changed ==> forall i :: 0 <= i < |memberships| ==> ClosedAt(table, memberships[i])
      decreases universe - Facts(principals, table), changed
    {
      ghost var before := table;
      table, changed := AbsorbOnce(graph, memberships, table, principals, pool);
      assert Facts(principals, table) <= universe;
      if changed {
        StrictlyLessLeft(universe, Facts(principals, before), Facts(principals, table));
      } else {
        SameHeldSameFacts(principals, before, table);
      }
    }
    forall p, q | Holds(graph, p, q) ensures q in HeldBy(table, p) {
      var chain :| HoldsVia(graph, p, q, chain);
      ClosedTableIsComplete(table, graph, q, chain);
    }
  }

  // ---------------------------------------------------------------------------------------
  // Who may create what
  // ---------------------------------------------------------------------------------------

  /** `a` is an authority set, lists in any order, holding exactly what `principal` holds. */
  ghost predicate Represents(a: Authorities, graph: Graph, principal: PrincipalRef) {
    forall q :: q in a.Held() <==> Holds(graph, principal, q)
  }

  /** The user's effective authority passes `can_create_permission`. */
  ghost predicate CanCreate(graph: Graph, user: UserId, permission: GrantPermission) {
    exists a: Authorities :: Represents(a, graph, User(user)) && a.CanCreatePermission(permission)
  }

  ghost predicate IsAdministrator(graph: Graph, user: UserId) {
    Holds(graph, User(user), Administer)
  }

  /** Any set of permissions is some authority set's contents. */
  lemma AuthorityHolding(permissions: set<GrantPermission>) returns (a: Authorities)
    ensures a.Held() == permissions
    decreases permissions
  {
    if permissions == {} {
      a := NO_AUTHORITY;
    } else {
      var p :| p in permissions;
      var rest := AuthorityHolding(permissions - {p});
      var one := Single(p);
      HeldOfSingle(p);
      a := Authorities(rest.read + one.read, rest.write + one.write, rest.manage + one.manage,
                       rest.administer || one.administer);
      HeldUnion(rest, one, a);
      assert permissions == (permissions - {p}) + {p};
    }
  }

  lemma RepresentationExists(graph: Graph, principal: PrincipalRef) returns (a: Authorities)
    ensures Represents(a, graph, principal)
  {
    var pool := Pool(graph);
    forall q | Holds(graph, principal, q) ensures q in pool {
      var chain :| HoldsVia(graph, principal, q, chain);
    }
    a := AuthorityHolding(set q | q in pool && Holds(graph, principal, q));
  }

  lemma CanCreateIffHoldsEnabling(graph: Graph, user: UserId, permission: GrantPermission)
    ensures CanCreate(graph, user, permission) <==>
            exists q :: Holds(graph, User(user), q) && Enables(q, permission)
  {
    var a := RepresentationExists(graph, User(user));
    CanCreateIffEnabled(a, permission);
    forall b: Authorities | Represents(b, graph, User(user)) && b.CanCreatePermission(permission)
      ensures exists q :: Holds(graph, User(user), q) && Enables(q, permission)
    {
      CanCreateIffEnabled(b, permission);
    }
  }

  /** Whatever a creatable permission would enable is itself creatable. */
  lemma CreatableEnables(graph: Graph, user: UserId, q: GrantPermission, permission: GrantPermission)
    requires CanCreate(graph, user, q) && Enables(q, permission)
    ensures CanCreate(graph, user, permission)
  {
    CanCreateIffHoldsEnabling(graph, user, q);
    var r :| Holds(graph, User(user), r) && Enables(r, q);
    EnablingIsTransitive(r, q, permission);
    CanCreateIffHoldsEnabling(graph, user, permission);
  }

  /** A user outside every group holds only what is granted to it directly. */
  lemma HoldsWithoutGroups(graph: Graph, principal: PrincipalRef, permission: GrantPermission)
    requires graph.memberships == {}
    ensures Holds(graph, principal, permission) <==> GrantedDirectly(graph, principal, permission)
  {
    if GrantedDirectly(graph, principal, permission) {
      DirectIsHeld(graph, principal, permission);
    }
    if chain: seq<PrincipalRef> :| HoldsVia(graph, principal, permission, chain) {
      assert |chain| > 1 ==> Membership(chain[1].groupId, chain[0]) in graph.memberships;
    }
  }

  lemma CanCreateWithoutGroups(graph: Graph, user: UserId, permission: GrantPermission)
    requires graph.memberships == {}
    ensures CanCreate(graph, user, permission) <==>
            user == graph.root
            || exists g :: g in graph.grants && g.subject == User(user) && Enables(g.permission, permission)
  {
    CanCreateIffHoldsEnabling(graph, user, permission);
    HeldMembership(ROOT_AUTHORITY);
    if user == graph.root {
      assert GrantedDirectly(graph, User(user), Administer);
      HoldsWithoutGroups(graph, User(user), Administer);
      assert Enables(Administer, permission);
    } else {
      if g :| g in graph.grants && g.subject == User(user) && Enables(g.permission, permission) {
        assert GrantedDirectly(graph, User(user), g.permission);
        HoldsWithoutGroups(graph, User(user), g.permission);
      }
      if q :| Holds(graph, User(user), q) && Enables(q, permission) {
        HoldsWithoutGroups(graph, User(user), q);
      }
    }
  }

  /** More grants and more memberships never take anything away. */
  lemma HoldsMonotone(graph: Graph, more: Graph, principal: PrincipalRef, permission: GrantPermission)
    requires graph.root == more.root && graph.grants <= more.grants && graph.memberships <= more.memberships
    requires Holds(graph, principal, permission)
    ensures Holds(more, principal, permission)
  {
    var chain :| HoldsVia(graph, principal, permission, chain);
    assert IsChain(more, chain);
    assert GrantedDirectly(more, chain[|chain| - 1], permission);
    assert HoldsVia(more, principal, permission, chain);
  }

  lemma CanCreateMonotone(graph: Graph, more: Graph, user: UserId, permission: GrantPermission)
    requires graph.root == more.root && graph.grants <= more.grants && graph.memberships <= more.memberships
    requires CanCreate(graph, user, permission)
    ensures CanCreate(more, user, permission)
  {
    CanCreateIffHoldsEnabling(graph, user, permission);
    var q :| Holds(graph, User(user), q) && Enables(q, permission);
    HoldsMonotone(graph, more, User(user), q);
    CanCreateIffHoldsEnabling(more, user, permission);
  }
}
