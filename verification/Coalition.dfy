/**
 What a coalition of users can bring about by signing records, any records, as many as it likes,
 into an existing log. What anyone then holds was held before, or some member could have created
 it before, or it comes from a record that lay dormant in the log; and nothing in force is lost
 unless it, or something it rests on, is overtaken at its own slot.
 */
module Coalition {
  import opened Format
  import opened Authority
  import opened Delegation
  import opened Settling

  ghost predicate Creatable(coalition: set<UserId>, graph: Graph, permission: GrantPermission) {
    exists u :: u in coalition && CanCreate(graph, u, permission)
  }

  ghost predicate Wakes(graph: Graph, r: Record, permission: GrantPermission) {
    match r
    case Issue(id, subject, granted, _, _) => Grant(id, subject, granted) !in graph.grants && granted == permission
    case Join(group, member, _, _) => Membership(group, member) !in graph.memberships
        && Holds(graph, Group(group), permission)
    case _ => false
  }

  /** A permission that a record not in force would confer: a dormant grant of it, or a dormant
      membership of a group that holds it. */
  ghost predicate Wakeable(log: Log, graph: Graph, permission: GrantPermission) {
    exists r :: r in log && Wakes(graph, r, permission)
  }

  /** What lies within a coalition's reach: what a member could create, and what a dormant record
      confers or would enable. */
  ghost predicate Reach(coalition: set<UserId>, log: Log, graph: Graph, permission: GrantPermission) {
    || Creatable(coalition, graph, permission)
    || exists q :: Wakeable(log, graph, q) && (q == permission || Enables(q, permission))
  }

  /** Nothing is held in `later` but what was held or within reach in `graph`. */
  ghost predicate Confined(coalition: set<UserId>, log: Log, graph: Graph, later: Graph) {
    forall p, q {:trigger Holds(later, p, q)} :: Holds(later, p, q) ==>
        Holds(graph, p, q) || Reach(coalition, log, graph, q)
  }

  /** Every record beyond `log` is signed by a member. */
  predicate AddedBy(coalition: set<UserId>, log: Log, log': Log) {
    log <= log' && forall r :: r in log' && r !in log ==> r.signer in coalition
  }

  lemma ReachEnables(coalition: set<UserId>, log: Log, graph: Graph, q: GrantPermission, permission: GrantPermission)
    requires Reach(coalition, log, graph, q) && Enables(q, permission)
    ensures Reach(coalition, log, graph, permission)
  {
    if Creatable(coalition, graph, q) {
      var u :| u in coalition && CanCreate(graph, u, q);
      CreatableEnables(graph, u, q, permission);
    } else {
      var w :| Wakeable(log, graph, w) && (w == q || Enables(w, q));
      if w != q { EnablingIsTransitive(w, q, permission); }
    }
  }

  /** Whatever a member can create in a confined state was within reach. */
  lemma CreatableIsInReach(
    coalition: set<UserId>, log: Log, graph: Graph, later: Graph, u: UserId, permission: GrantPermission)
    requires Confined(coalition, log, graph, later) && u in coalition && CanCreate(later, u, permission)
    ensures Reach(coalition, log, graph, permission)
  {
    CanCreateIffHoldsEnabling(later, u, permission);
    var q :| Holds(later, User(u), q) && Enables(q, permission);
    if Holds(graph, User(u), q) {
      CanCreateIffHoldsEnabling(graph, u, permission);
      assert Creatable(coalition, graph, permission);
    } else {
      ReachEnables(coalition, log, graph, q, permission);
    }
  }

  /** An administrator can create anything. */
  lemma AdministratorCreates(graph: Graph, u: UserId, permission: GrantPermission)
    requires IsAdministrator(graph, u)
    ensures CanCreate(graph, u, permission)
  {
    CanCreateIffHoldsEnabling(graph, u, permission);
    assert Enables(Administer, permission);
  }

  /** A grant in force after a pass: in force before, or within reach. */
  lemma GrantIsConfined(coalition: set<UserId>, log: Log, graph: Graph, log': Log, terms: Terms, state: State, g: Grant)
    requires AddedBy(coalition, log, log') && Confined(coalition, log, graph, state.graph)
    requires g in Pass(log', terms, state).graph.grants
    ensures g in graph.grants || Reach(coalition, log, graph, g.permission)
  {
    LiveIsSigned(log', terms, state);
    var r :| r in log' && r.Issue? && BodyOf(r) == Granted(g) && CanCreate(state.graph, r.signer, g.permission);
    if r in log {
      if g !in graph.grants {
        assert Wakes(graph, r, g.permission);
        assert Wakeable(log, graph, g.permission);
      }
    } else {
      CreatableIsInReach(coalition, log, graph, state.graph, r.signer, g.permission);
    }
  }

  /** A membership in force after a pass: in force before, or dormant, or everything is in reach. */
  lemma MembershipIsConfined(
    coalition: set<UserId>, log: Log, graph: Graph, log': Log, terms: Terms, state: State, m: Membership,
    q: GrantPermission)
    requires AddedBy(coalition, log, log') && Confined(coalition, log, graph, state.graph)
    requires m in Pass(log', terms, state).graph.memberships && Holds(graph, Group(m.group), q)
    ensures m in graph.memberships || Reach(coalition, log, graph, q)
  {
    LiveIsSigned(log', terms, state);
    var r :| r in log' && r.Join? && BodyOf(r) == Joined(m) && IsAdministrator(state.graph, r.signer);
    if r in log {
      if m !in graph.memberships {
        assert Wakes(graph, r, q);
        assert Wakeable(log, graph, q);
      }
    } else {
      AdministratorCreates(state.graph, r.signer, q);
      CreatableIsInReach(coalition, log, graph, state.graph, r.signer, q);
    }
  }

  lemma {:induction false} ChainIsConfined(
    coalition: set<UserId>, log: Log, graph: Graph, log': Log, terms: Terms, state: State,
    chain: seq<PrincipalRef>, q: GrantPermission)
    requires AddedBy(coalition, log, log') && Confined(coalition, log, graph, state.graph)
    requires graph.root == state.graph.root
    requires chain != [] && HoldsVia(Pass(log', terms, state).graph, chain[0], q, chain)
    ensures Holds(graph, chain[0], q) || Reach(coalition, log, graph, q)
    decreases |chain|
  {
    var later := Pass(log', terms, state).graph;
    if |chain| == 1 {
      if g :| g in later.grants && g.subject == chain[0] && g.permission == q {
        GrantIsConfined(coalition, log, graph, log', terms, state, g);
      }
      if GrantedDirectly(graph, chain[0], q) { DirectIsHeld(graph, chain[0], q); }
    } else {
      var rest, m := chain[1..], Membership(chain[1].groupId, chain[0]);
      assert HoldsVia(later, rest[0], q, rest);
      ChainIsConfined(coalition, log, graph, log', terms, state, rest, q);
      assert m in later.memberships && rest[0] == Group(m.group);
      if Holds(graph, rest[0], q) {
        MembershipIsConfined(coalition, log, graph, log', terms, state, m, q);
        if m in graph.memberships { MembershipInherits(graph, m, q); }
      }
    }
  }

  lemma PassIsConfined(coalition: set<UserId>, log: Log, graph: Graph, log': Log, terms: Terms, state: State)
    requires AddedBy(coalition, log, log') && Confined(coalition, log, graph, state.graph)
    requires graph.root == state.graph.root
    ensures Confined(coalition, log, graph, Pass(log', terms, state).graph)
  {
    var later := Pass(log', terms, state).graph;
    forall p, q | Holds(later, p, q) ensures Holds(graph, p, q) || Reach(coalition, log, graph, q) {
      var chain :| HoldsVia(later, p, q, chain);
      ChainIsConfined(coalition, log, graph, log', terms, state, chain, q);
    }
  }

  lemma EmptyIsConfined(coalition: set<UserId>, log: Log, graph: Graph)
    ensures Confined(coalition, log, graph, Graph(graph.root, {}, {}))
  {
    var empty := Graph(graph.root, {}, {});
    forall p, q | Holds(empty, p, q) ensures Holds(graph, p, q) {
      HoldsMonotone(empty, graph, p, q);
    }
  }

  /** Whatever records the members of a coalition add, authorized or not, with whatever counters,
      and whichever deletions come to be admitted: after any number of passes over the grown log,
      anything anyone holds was held at the start or within the coalition's reach at the start. */
  lemma {:induction false} AdditionsAreConfined(
    coalition: set<UserId>, log: Log, graph: Graph, log': Log, terms: Terms, n: nat)
    requires AddedBy(coalition, log, log')
    ensures Confined(coalition, log, graph, Passes(graph.root, log', terms, n).graph)
  {
    if n == 0 {
      EmptyIsConfined(coalition, log, graph);
    } else {
      AdditionsAreConfined(coalition, log, graph, log', terms, n - 1);
      PassesKeepRoot(graph.root, log', terms, n - 1);
      PassIsConfined(coalition, log, graph, log', terms, Passes(graph.root, log', terms, n - 1));
    }
  }

  /** The same of what the coalition can create in the end. */
  lemma CreatableStaysInReach(
    coalition: set<UserId>, log: Log, graph: Graph, log': Log, terms: Terms, n: nat, permission: GrantPermission)
    requires AddedBy(coalition, log, log')
    requires Creatable(coalition, Passes(graph.root, log', terms, n).graph, permission)
    ensures Reach(coalition, log, graph, permission)
  {
    var later := Passes(graph.root, log', terms, n).graph;
    AdditionsAreConfined(coalition, log, graph, log', terms, n);
    var u :| u in coalition && CanCreate(later, u, permission);
    CreatableIsInReach(coalition, log, graph, later, u, permission);
  }

  /** Everything the log grants, and every membership in it, is in force. */
  predicate NothingDormant(log: Log, graph: Graph) {
    forall r :: r in log ==>
      && (r.Issue? ==> BodyOf(r).grant in graph.grants)
      && (r.Join? ==> BodyOf(r).membership in graph.memberships)
  }

  /** Where nothing lies dormant, reach is what members could create: no amplification at all. */
  lemma NothingIsAmplified(
    coalition: set<UserId>, log: Log, graph: Graph, log': Log, terms: Terms, n: nat, p: PrincipalRef,
    q: GrantPermission)
    requires AddedBy(coalition, log, log') && NothingDormant(log, graph)
    requires Holds(Passes(graph.root, log', terms, n).graph, p, q)
    ensures Holds(graph, p, q) || Creatable(coalition, graph, q)
  {
    AdditionsAreConfined(coalition, log, graph, log', terms, n);
    forall w ensures !Wakeable(log, graph, w) {
      forall r | r in log ensures !Wakes(graph, r, w) {}
    }
  }

  /** A coalition without an administrator makes one of nobody, unless a dormant record does. */
  lemma NoAdministratorIsMade(
    coalition: set<UserId>, log: Log, graph: Graph, log': Log, terms: Terms, n: nat, p: PrincipalRef)
    requires AddedBy(coalition, log, log') && !Wakeable(log, graph, Administer)
    requires forall u :: u in coalition ==> !IsAdministrator(graph, u)
    requires Holds(Passes(graph.root, log', terms, n).graph, p, Administer)
    ensures Holds(graph, p, Administer)
  {
    AdditionsAreConfined(coalition, log, graph, log', terms, n);
    forall u | u in coalition ensures !CanCreate(graph, u, Administer) {
      CanCreateIffHoldsEnabling(graph, u, Administer);
    }
  }

  /** What a coalition's records cost others: something in force that rests on a support is lost
      only if a member put a record at its slot, or at the slot of something it rests on, or a
      dormant record woke there. */
  lemma LossTakesARecord(
    coalition: set<UserId>, log: Log, terms: Terms, state: State, log': Log, terms': Terms, state': State,
    support: seq<Record>, k: nat)
    requires AddedBy(coalition, log, log') && terms.vouched <= terms'.vouched
    requires Settled(log', terms', state') && state.graph.root == state'.graph.root
    requires Supports(log, terms, state, support) && k < |support| && !InForce(state', support[k])
    ensures exists i, y :: 0 <= i <= k && Overtaken(log, terms, state, log', terms', state', support[i], y)
              && (y in log || y.signer in coalition)
  {
    LostRecordWasOvertaken(log, terms, state, log', terms', state', support, k);
    var i, y :| 0 <= i <= k && Overtaken(log, terms, state, log', terms', state', support[i], y);
  }
}
