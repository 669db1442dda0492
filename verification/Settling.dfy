/**
 How a log of signed records comes to an effective principal graph. A record counts only while its
 own signer holds the authority it takes, and that authority comes from other records, so the live
 set is a fixed point. Displacing one record can take down others and wake older ones; a log need
 not have a settled state at all.
 */
module Settling {
  import opened Format
  import opened Authority
  import opened Matching
  import opened Delegation

  /** The records that decide authority: grants, memberships and principals, and their removals. */
  datatype Record =
    | Issue(id: HashValue, subject: PrincipalRef, permission: GrantPermission, signer: UserId, counter: nat)
    | Revoke(id: HashValue, stated: GrantPermission, signer: UserId, counter: nat)
    | Join(group: GroupId, member: PrincipalRef, signer: UserId, counter: nat)
    | Leave(group: GroupId, member: PrincipalRef, signer: UserId, counter: nat)
    | Enlist(principal: PrincipalRef, signer: UserId, counter: nat)
    | Dismiss(principal: PrincipalRef, signer: UserId, counter: nat)

  type Log = set<Record>

  /** What records compete for. */
  datatype Slot = GrantSlot(id: HashValue) | MemberSlot(membership: Membership) | PrincipalSlot(principal: PrincipalRef)

  /** What a record says at its slot, whoever signed it. */
  datatype Body =
    | Granted(grant: Grant) | Withdrawn(stated: GrantPermission)
    | Joined(membership: Membership) | Left
    | Present(principal: PrincipalRef) | Gone

  function SlotOf(r: Record): Slot {
    match r
    case Issue(id, _, _, _, _) => GrantSlot(id)
    case Revoke(id, _, _, _) => GrantSlot(id)
    case Join(group, member, _, _) => MemberSlot(Membership(group, member))
    case Leave(group, member, _, _) => MemberSlot(Membership(group, member))
    case Enlist(principal, _, _) => PrincipalSlot(principal)
    case Dismiss(principal, _, _) => PrincipalSlot(principal)
  }

  function BodyOf(r: Record): Body {
    match r
    case Issue(id, subject, permission, _, _) => Granted(Grant(id, subject, permission))
    case Revoke(_, stated, _, _) => Withdrawn(stated)
    case Join(group, member, _, _) => Joined(Membership(group, member))
    case Leave(_, _, _, _) => Left
    case Enlist(principal, _, _) => Present(principal)
    case Dismiss(_, _, _) => Gone
  }

  /** The deletions admitted so far, and the users whose own key vouches for the root. */
  datatype Terms = Terms(admitted: Log, vouched: set<UserId>)

  /** The effective principal graph and the principals that exist. */
  datatype State = State(graph: Graph, principals: set<PrincipalRef>)

  // ---------------------------------------------------------------------------------------
  // One selection pass
  // ---------------------------------------------------------------------------------------

  /** Whether a record competes at its slot: its signer holds the authority in `graph`, and what it
      speaks of is among `principals`. Deletions of grants and principals are admitted beforehand;
      the root is never added or removed. */
  ghost predicate Competes(terms: Terms, graph: Graph, principals: set<PrincipalRef>, r: Record) {
    match r
    case Issue(_, subject, permission, signer, _) => subject in principals && CanCreate(graph, signer, permission)
    case Revoke(_, _, _, _) => r in terms.admitted
    case Join(group, member, signer, _) =>
      Group(group) in principals && member in principals && IsAdministrator(graph, signer)
    case Leave(_, _, signer, _) => IsAdministrator(graph, signer)
    case Enlist(principal, signer, _) => principal != User(graph.root) && IsAdministrator(graph, signer)
    case Dismiss(principal, _, _) => principal != User(graph.root) && r in terms.admitted
  }

  ghost predicate Leads(log: Log, terms: Terms, graph: Graph, principals: set<PrincipalRef>, r: Record) {
    && r in log && Competes(terms, graph, principals, r)
    && forall o :: o in log && SlotOf(o) == SlotOf(r) && Competes(terms, graph, principals, o) ==>
              o.counter <= r.counter
  }

  /** A leader wins unless an equal leader says something else. */
  ghost predicate Wins(log: Log, terms: Terms, graph: Graph, principals: set<PrincipalRef>, r: Record) {
    && Leads(log, terms, graph, principals, r)
    && forall o :: SlotOf(o) == SlotOf(r) && Leads(log, terms, graph, principals, o) ==> BodyOf(o) == BodyOf(r)
  }

  /** The root, and every principal added by an administrator; a user only once it has vouched. */
  ghost function PrincipalsIn(log: Log, terms: Terms, graph: Graph): set<PrincipalRef> {
    {User(graph.root)} +
    set r | r in log && r.Enlist? && Wins(log, terms, graph, {}, r)
            && (r.principal.User? ==> r.principal.userId in terms.vouched) :: r.principal
  }

  /** One pass of selection: principals first, then memberships and grants among them, all judged
      by the authority of the pass before. */
  ghost function Pass(log: Log, terms: Terms, state: State): State {
    var graph := state.graph;
    var principals := PrincipalsIn(log, terms, graph);
    State(Graph(graph.root,
                set r | r in log && r.Issue? && Wins(log, terms, graph, principals, r) :: BodyOf(r).grant,
                set r | r in log && r.Join? && Wins(log, terms, graph, principals, r) :: BodyOf(r).membership),
          principals)
  }

  ghost predicate Settled(log: Log, terms: Terms, state: State) {
    Pass(log, terms, state) == state
  }

  /** The passes the program runs, from the root's authority alone. */
  ghost function Passes(root: UserId, log: Log, terms: Terms, n: nat): State {
    if n == 0 then State(Graph(root, {}, {}), {}) else Pass(log, terms, Passes(root, log, terms, n - 1))
  }

  lemma {:induction false} PassesKeepRoot(root: UserId, log: Log, terms: Terms, n: nat)
    ensures Passes(root, log, terms, n).graph.root == root
  {
    if n == 0 {
    } else {
      PassesKeepRoot(root, log, terms, n - 1);
    }
  }

  /** What a record says is in force. */
  predicate InForce(state: State, r: Record) {
    match r
    case Issue(id, subject, permission, _, _) => Grant(id, subject, permission) in state.graph.grants
    case Join(group, member, _, _) => Membership(group, member) in state.graph.memberships
    case Enlist(principal, _, _) => principal in state.principals
    case _ => false
  }

  /** A live grant or membership is what some record in the log says, whose signer could say it. */
  lemma LiveIsSigned(log: Log, terms: Terms, state: State)
    ensures var next := Pass(log, terms, state);
            && (forall g :: g in next.graph.grants ==>
                  exists r :: r in log && r.Issue? && BodyOf(r) == Granted(g)
                      && CanCreate(state.graph, r.signer, g.permission))
            && (forall m :: m in next.graph.memberships ==>
                  exists r :: r in log && r.Join? && BodyOf(r) == Joined(m) && IsAdministrator(state.graph, r.signer))
  {
  }

  /** Some competitor carries the highest counter. */
  lemma {:induction false} HighestOf(records: Log) returns (top: Record)
    requires records != {}
    ensures top in records && forall r :: r in records ==> r.counter <= top.counter
    decreases records
  {
    var r :| r in records;
    var rest := records - {r};
    if rest == {} {
      top := r;
      assert records == {r};
    } else {
      top := HighestOf(rest);
      assert forall o :: o in records ==> o == r || o in rest;
      if top.counter < r.counter { top := r; }
    }
  }

  lemma LeaderExists(
    log: Log, terms: Terms, graph: Graph, principals: set<PrincipalRef>, r: Record) returns (top: Record)
    requires r in log && Competes(terms, graph, principals, r)
    ensures SlotOf(top) == SlotOf(r) && r.counter <= top.counter && Leads(log, terms, graph, principals, top)
  {
    var rivals := set o | o in log && SlotOf(o) == SlotOf(r) && Competes(terms, graph, principals, o);
    assert r in rivals;
    top := HighestOf(rivals);
  }

  /** Whether a deletion's signer may make it: of a principal an administrator; of a live grant
      someone who could have created both it and what the deletion states; of any other grant an
      administrator or someone who could have created what it states. */
  ghost predicate MayDelete(state: State, r: Record) {
    match r
    case Revoke(id, stated, signer, _) =>
      if exists g :: g in state.graph.grants && g.id == id
      then
        && CanCreate(state.graph, signer, stated)
        && forall g :: g in state.graph.grants && g.id == id ==> CanCreate(state.graph, signer, g.permission)
      else IsAdministrator(state.graph, signer) || CanCreate(state.graph, signer, stated)
    case Dismiss(_, signer, _) => IsAdministrator(state.graph, signer)
    case _ => false
  }

  // ---------------------------------------------------------------------------------------
  // What a record rests on
  // ---------------------------------------------------------------------------------------

  /** What these records alone put in force. */
  function Base(root: UserId, records: seq<Record>): State {
    State(Graph(root,
                set r | r in records && r.Issue? :: BodyOf(r).grant,
                set r | r in records && r.Join? :: BodyOf(r).membership),
          {User(root)} + set r | r in records && r.Enlist? :: r.principal)
  }

  /** Principals are selected before there are any. */
  function WinningAmong(state: State, r: Record): set<PrincipalRef> {
    if r.Enlist? || r.Dismiss? then {} else state.principals
  }

  /** The record wins, and takes no authority and no principal but what the records below it, or
      the root itself, put in force. */
  ghost predicate RestsOn(log: Log, terms: Terms, state: State, below: seq<Record>, x: Record) {
    var base := Base(state.graph.root, below);
    && (x.Issue? || x.Join? || x.Enlist?)
    && (x.Enlist? && x.principal.User? ==> x.principal.userId in terms.vouched)
    && Competes(terms, base.graph, base.principals, x)
    && Wins(log, terms, state.graph, WinningAmong(state, x), x)
  }

  ghost predicate Supports(log: Log, terms: Terms, state: State, support: seq<Record>) {
    forall i :: 0 <= i < |support| ==> RestsOn(log, terms, state, support[..i], support[i])
  }

  /** `y` stands in the way of `x`: at its slot, at least as high, saying something else. */
  predicate Overtakes(y: Record, x: Record) {
    SlotOf(y) == SlotOf(x) && x.counter <= y.counter && BodyOf(y) != BodyOf(x)
  }

  /** A record that competes and is not overtaken by a competitor is in force after the pass. */
  lemma UnovertakenIsInForce(log: Log, terms: Terms, state: State, x: Record)
    requires x in log && (x.Issue? || x.Join? || x.Enlist?)
    requires x.Enlist? && x.principal.User? ==> x.principal.userId in terms.vouched
    requires var among := if x.Enlist? then {} else PrincipalsIn(log, terms, state.graph);
             && Competes(terms, state.graph, among, x)
             && forall y :: y in log && Overtakes(y, x) ==> !Competes(terms, state.graph, among, y)
    ensures InForce(Pass(log, terms, state), x)
  {
    var among := if x.Enlist? then {} else PrincipalsIn(log, terms, state.graph);
    var top := LeaderExists(log, terms, state.graph, among, x);
    assert BodyOf(top) == BodyOf(x);
    forall o | SlotOf(o) == SlotOf(top) && Leads(log, terms, state.graph, among, o) ensures BodyOf(o) == BodyOf(top) {
      assert top.counter <= o.counter;
    }
    assert Wins(log, terms, state.graph, among, top);
  }

  lemma WinnerIsUnovertaken(log: Log, terms: Terms, graph: Graph, principals: set<PrincipalRef>, r: Record, y: Record)
    requires Wins(log, terms, graph, principals, r) && y in log && Overtakes(y, r)
    ensures !Competes(terms, graph, principals, y)
  {
    if Competes(terms, graph, principals, y) {
      assert Leads(log, terms, graph, principals, y);
    }
  }

  // ---------------------------------------------------------------------------------------
  // In so many words
  // ---------------------------------------------------------------------------------------

  /** An administrator adds the principal, above every admitted deletion of it. */
  ghost predicate AddsPrincipal(log: Log, terms: Terms, graph: Graph, p: PrincipalRef, r: Record) {
    && r.Enlist? && r.principal == p && IsAdministrator(graph, r.signer)
    && forall o | o in log && o.Dismiss? && o.principal == p :: o in terms.admitted ==> o.counter < r.counter
  }

  /** A principal other than the root exists after a pass exactly when an administrator added it,
      above every admitted deletion of it; and a user only when it has vouched. */
  lemma PrincipalInForceIff(log: Log, terms: Terms, state: State, p: PrincipalRef)
    requires p != User(state.graph.root)
    ensures p in Pass(log, terms, state).principals <==>
            && (p.User? ==> p.userId in terms.vouched)
            && exists r :: r in log && AddsPrincipal(log, terms, state.graph, p, r)
  {
    var graph := state.graph;
    if p in Pass(log, terms, state).principals {
      var r :| r in log && r.Enlist? && r.principal == p && Wins(log, terms, graph, {}, r)
               && (p.User? ==> p.userId in terms.vouched);
      forall o | o in log && o.Dismiss? && o.principal == p ensures o in terms.admitted ==> o.counter < r.counter {
        if r.counter <= o.counter { WinnerIsUnovertaken(log, terms, graph, {}, r, o); }
      }
      assert AddsPrincipal(log, terms, graph, p, r);
    }
    if r :| r in log && AddsPrincipal(log, terms, graph, p, r) && (p.User? ==> p.userId in terms.vouched) {
      UnovertakenIsInForce(log, terms, state, r);
    }
  }

  /** An administrator adds the member, above every removal by an administrator. */
  ghost predicate AddsMember(log: Log, graph: Graph, m: Membership, r: Record) {
    && r.Join? && r.group == m.group && r.member == m.member && IsAdministrator(graph, r.signer)
    && forall o | o in log && o.Leave? && o.group == m.group && o.member == m.member ::
         IsAdministrator(graph, o.signer) ==> o.counter < r.counter
  }

  /** A membership is in force after a pass exactly when its group and its member exist and an
      administrator added it, above every removal of it by an administrator. */
  lemma MembershipInForceIff(log: Log, terms: Terms, state: State, m: Membership)
    ensures var next := Pass(log, terms, state);
            m in next.graph.memberships <==>
            && Group(m.group) in next.principals && m.member in next.principals
            && exists r :: r in log && AddsMember(log, state.graph, m, r)
  {
    var next, graph := Pass(log, terms, state), state.graph;
    if m in next.graph.memberships {
      var r :| r in log && r.Join? && BodyOf(r).membership == m && Wins(log, terms, graph, next.principals, r);
      forall o | o in log && o.Leave? && o.group == m.group && o.member == m.member
        ensures IsAdministrator(graph, o.signer) ==> o.counter < r.counter
      {
        if r.counter <= o.counter { WinnerIsUnovertaken(log, terms, graph, next.principals, r, o); }
      }
      assert AddsMember(log, graph, m, r);
    }
    if (exists r :: r in log && AddsMember(log, graph, m, r))
       && Group(m.group) in next.principals && m.member in next.principals
    {
      var r :| r in log && AddsMember(log, graph, m, r);
      UnovertakenIsInForce(log, terms, state, r);
    }
  }

  ghost predicate Unrivalled(log: Log, terms: Terms, graph: Graph, principals: set<PrincipalRef>, r: Record, g: Grant) {
    && (forall o :: o in log && o.Revoke? && o.id == g.id && o in terms.admitted ==> o.counter < r.counter)
    && (forall o | o in log && o.Issue? && o.id == g.id && Grant(o.id, o.subject, o.permission) != g ::
          o.subject in principals && CanCreate(graph, o.signer, o.permission) ==> o.counter < r.counter)
  }

  /** A grant is in force after a pass exactly when its subject exists and somebody who could create
      it issued it, above every admitted deletion at its id and every other grant that somebody
      who could create it issued there to a subject that exists. */
  lemma GrantInForceIff(log: Log, terms: Terms, state: State, g: Grant)
    ensures var next := Pass(log, terms, state);
            g in next.graph.grants <==>
            && g.subject in next.principals
            && exists r :: r in log && r.Issue? && Grant(r.id, r.subject, r.permission) == g
                 && CanCreate(state.graph, r.signer, g.permission)
                     && Unrivalled(log, terms, state.graph, next.principals, r, g)
  {
    var next, graph := Pass(log, terms, state), state.graph;
    if g in next.graph.grants {
      var r :| r in log && r.Issue? && BodyOf(r).grant == g && Wins(log, terms, graph, next.principals, r);
      forall o | o in log && (o.Issue? || o.Revoke?) && o.id == g.id && Overtakes(o, r)
        ensures !Competes(terms, graph, next.principals, o)
      {
        WinnerIsUnovertaken(log, terms, graph, next.principals, r, o);
      }
      assert Unrivalled(log, terms, graph, next.principals, r, g);
    }
    if r :| r in log && r.Issue? && Grant(r.id, r.subject, r.permission) == g && g.subject in next.principals
            && CanCreate(graph, r.signer, g.permission) && Unrivalled(log, terms, graph, next.principals, r, g)
    {
      UnovertakenIsInForce(log, terms, state, r);
    }
  }

  /** So a membership that an administrator added, between principals that exist, is out of force
      only if an administrator removed it, at least as high. */
  lemma LostMembershipWasRemoved(log: Log, terms: Terms, state: State, j: Record)
    requires j in log && j.Join? && IsAdministrator(state.graph, j.signer)
    requires Group(j.group) in Pass(log, terms, state).principals && j.member in Pass(log, terms, state).principals
    requires Membership(j.group, j.member) !in Pass(log, terms, state).graph.memberships
    ensures exists o :: o in log && o.Leave? && o.group == j.group && o.member == j.member
              && j.counter <= o.counter && IsAdministrator(state.graph, o.signer)
  {
    MembershipInForceIff(log, terms, state, Membership(j.group, j.member));
  }

  /** And deleting a live grant takes the authority to have created it, deleting any other the
      authority to have created what is stated or administration, and a principal administration. */
  lemma DeletingTakesCreating(state: State, r: Record, g: Grant)
    requires MayDelete(state, r)
    ensures r.Revoke? || r.Dismiss?
    ensures r.Revoke? && g in state.graph.grants && g.id == r.id ==>
              CanCreate(state.graph, r.signer, g.permission) && CanCreate(state.graph, r.signer, r.stated)
    ensures r.Revoke? ==> CanCreate(state.graph, r.signer, r.stated) || IsAdministrator(state.graph, r.signer)
    ensures r.Dismiss? ==> IsAdministrator(state.graph, r.signer)
  {
  }

  /** More in force never takes the standing of a record away. */
  lemma CompetesMonotone(terms: Terms, terms': Terms, base: State, state: State, r: Record)
    requires base.graph.root == state.graph.root
    requires base.graph.grants <= state.graph.grants && base.graph.memberships <= state.graph.memberships
    requires base.principals <= state.principals
    requires !r.Revoke? && !r.Dismiss? && Competes(terms, base.graph, base.principals, r)
    ensures Competes(terms', state.graph, state.principals, r)
  {
    match r {
      case Issue(_, _, permission, signer, _) => CanCreateMonotone(base.graph, state.graph, signer, permission);
      case Join(_, _, signer, _) => HoldsMonotone(base.graph, state.graph, User(signer), Administer);
      case Leave(_, _, signer, _) => HoldsMonotone(base.graph, state.graph, User(signer), Administer);
      case Enlist(_, signer, _) => HoldsMonotone(base.graph, state.graph, User(signer), Administer);
    }
  }

  /** Whether some record of the support is overtaken, in `state`, by one that was not in the log
      or did not compete before. */
  ghost predicate Overtaken(
    log: Log, terms: Terms, state: State, log': Log, terms': Terms, state': State, x: Record, y: Record)
  {
    && y in log' && Overtakes(y, x) && Competes(terms', state'.graph, WinningAmong(state', x), y)
    && (y in log ==> !Competes(terms, state.graph, WinningAmong(state, x), y))
  }

  lemma BaseInForce(root: UserId, records: seq<Record>, state: State)
    requires state.graph.root == root && User(root) in state.principals
    requires forall r :: r in records ==> InForce(state, r)
    ensures var base := Base(root, records);
            && base.graph.grants <= state.graph.grants && base.graph.memberships <= state.graph.memberships
            && base.principals <= state.principals
  {
  }

  ghost predicate Undisturbed(
    log: Log, terms: Terms, state: State, log': Log, terms': Terms, state': State, x: Record)
  {
    forall y :: !Overtaken(log, terms, state, log', terms', state', x, y)
  }

  lemma SupportedStaysInForce(
    log: Log, terms: Terms, state: State, log': Log, terms': Terms, state': State, below: seq<Record>, x: Record)
    requires log <= log' && terms.vouched <= terms'.vouched
    requires Settled(log', terms', state') && state.graph.root == state'.graph.root
    requires RestsOn(log, terms, state, below, x)
    requires forall r :: r in below ==> InForce(state', r)
    requires Undisturbed(log, terms, state, log', terms', state', x)
    ensures InForce(state', x)
  {
    var base := Base(state.graph.root, below);
    BaseInForce(state.graph.root, below, state');
    CompetesMonotone(terms, terms', base, state', x);
    var among := WinningAmong(state', x);
    assert Competes(terms', state'.graph, among, x);
    forall y | y in log' && Overtakes(y, x) ensures !Competes(terms', state'.graph, among, y) {
      if y in log && Competes(terms, state.graph, WinningAmong(state, x), y) {
        assert Leads(log, terms, state.graph, WinningAmong(state, x), y);
      }
      assert !Overtaken(log, terms, state, log', terms', state', x, y);
    }
    UnovertakenIsInForce(log', terms', state', x);
  }

  lemma {:induction false} FirstLost(state: State, support: seq<Record>, k: nat) returns (i: nat)
    requires k < |support| && !InForce(state, support[k])
    ensures i <= k && !InForce(state, support[i]) && forall r :: r in support[..i] ==> InForce(state, r)
  {
    if j :| 0 <= j < k && !InForce(state, support[j]) {
      i := FirstLost(state, support, j);
    } else {
      i := k;
    }
  }

  /** A record that rests on a support goes out of force, from one settled state to any settled
      state of a log that has grown, only if it or a record it rests on is overtaken at its own
      slot by a record that is new or has woken. */
  lemma LostRecordWasOvertaken(
    log: Log, terms: Terms, state: State, log': Log, terms': Terms, state': State, support: seq<Record>, k: nat)
    requires log <= log' && terms.vouched <= terms'.vouched
    requires Settled(log', terms', state') && state.graph.root == state'.graph.root
    requires Supports(log, terms, state, support) && k < |support| && !InForce(state', support[k])
    ensures exists i, y :: 0 <= i <= k && Overtaken(log, terms, state, log', terms', state', support[i], y)
  {
    var i := FirstLost(state', support, k);
    if Undisturbed(log, terms, state, log', terms', state', support[i]) {
      SupportedStaysInForce(log, terms, state, log', terms', state', support[..i], support[i]);
    }
    var y :| Overtaken(log, terms, state, log', terms', state', support[i], y);
  }

  // ---------------------------------------------------------------------------------------
  // Logs that settle
  // ---------------------------------------------------------------------------------------

  /** No id carries two different grants, and only the root takes members out. */
  predicate Orderly(root: UserId, log: Log) {
    && (forall a, b :: a in log && b in log && a.Issue? && b.Issue? && a.id == b.id ==> BodyOf(a) == BodyOf(b))
    && (forall r :: r in log && r.Leave? ==> r.signer == root)
  }

  predicate Below(a: State, b: State) {
    && a.graph.root == b.graph.root && a.principals <= b.principals
    && a.graph.grants <= b.graph.grants && a.graph.memberships <= b.graph.memberships
  }

  lemma RootIsAdministrator(graph: Graph)
    ensures IsAdministrator(graph, graph.root)
  {
    HeldMembership(ROOT_AUTHORITY);
    assert GrantedDirectly(graph, User(graph.root), Administer);
    DirectIsHeld(graph, User(graph.root), Administer);
  }

  /** In an orderly log whatever wins goes on winning as more comes into force. */
  lemma WinnerStaysInForce(
    log: Log, terms: Terms, graph: Graph, principals: set<PrincipalRef>, more: State, x: Record)
    requires Orderly(graph.root, log) && Below(State(graph, {}), State(more.graph, {}))
    requires (x.Issue? || x.Join? || x.Enlist?) && Wins(log, terms, graph, principals, x)
    requires x.Enlist? && x.principal.User? ==> x.principal.userId in terms.vouched
    requires !x.Enlist? ==> principals <= PrincipalsIn(log, terms, more.graph)
    ensures InForce(Pass(log, terms, more), x)
  {
    var among := if x.Enlist? then {} else PrincipalsIn(log, terms, more.graph);
    CompetesMonotone(terms, terms, State(graph, if x.Enlist? then {} else principals), State(more.graph, among), x);
    forall y | y in log && Overtakes(y, x) ensures !Competes(terms, more.graph, among, y) {
      if Competes(terms, more.graph, among, y) {
        RootIsAdministrator(graph);
        assert Competes(terms, graph, principals, y);
        assert Leads(log, terms, graph, principals, y);
      }
    }
    UnovertakenIsInForce(log, terms, more, x);
  }

  lemma PassMonotone(log: Log, terms: Terms, state: State, more: State)
    requires Orderly(state.graph.root, log) && Below(state, more)
    ensures Below(Pass(log, terms, state), Pass(log, terms, more))
  {
    var before, after := Pass(log, terms, state), Pass(log, terms, more);
    forall p | p in before.principals ensures p in after.principals {
      if p != User(state.graph.root) {
        var x :| x in log && x.Enlist? && x.principal == p && Wins(log, terms, state.graph, {}, x)
                 && (p.User? ==> p.userId in terms.vouched);
        WinnerStaysInForce(log, terms, state.graph, {}, more, x);
      }
    }
    forall g | g in before.graph.grants ensures g in after.graph.grants {
      var x :| x in log && x.Issue? && BodyOf(x) == Granted(g) && Wins(log, terms, state.graph, before.principals, x);
      WinnerStaysInForce(log, terms, state.graph, before.principals, more, x);
    }
    forall m | m in before.graph.memberships ensures m in after.graph.memberships {
      var x :| x in log && x.Join? && BodyOf(x) == Joined(m) && Wins(log, terms, state.graph, before.principals, x);
      WinnerStaysInForce(log, terms, state.graph, before.principals, more, x);
    }
  }

  lemma {:induction false} PassesRise(root: UserId, log: Log, terms: Terms, n: nat)
    requires Orderly(root, log)
    ensures Below(Passes(root, log, terms, n), Passes(root, log, terms, n + 1))
  {
    PassesKeepRoot(root, log, terms, n);
    if n == 0 {
    } else {
      PassesKeepRoot(root, log, terms, n - 1);
      PassesRise(root, log, terms, n - 1);
      PassMonotone(log, terms, Passes(root, log, terms, n - 1), Passes(root, log, terms, n));
    }
  }

  /** Everything a state puts in force, as bodies. */
  function Items(state: State): set<Body> {
    (set g | g in state.graph.grants :: Granted(g))
    + (set m | m in state.graph.memberships :: Joined(m))
    + (set p | p in state.principals :: Present(p))
  }

  /** Everything the log says, and the root. */
  function Said(root: UserId, log: Log): set<Body> {
    {Present(User(root))} + set r | r in log :: BodyOf(r)
  }

  lemma PassSaysNoMore(log: Log, terms: Terms, state: State)
    ensures Items(Pass(log, terms, state)) <= Said(state.graph.root, log)
  {
  }

  lemma SubsetIsSmaller<T>(a: set<T>, b: set<T>)
    requires a <= b
    ensures |a| <= |b| && (a != b ==> |a| < |b|)
  {
    assert b == a + (b - a);
  }

  lemma BelowItems(a: State, b: State)
    requires Below(a, b)
    ensures Items(a) <= Items(b) && (Items(a) == Items(b) ==> a == b)
  {
    if Items(a) == Items(b) {
      forall g | g in b.graph.grants ensures g in a.graph.grants { assert Granted(g) in Items(a); }
      forall m | m in b.graph.memberships ensures m in a.graph.memberships { assert Joined(m) in Items(a); }
      forall p | p in b.principals ensures p in a.principals { assert Present(p) in Items(a); }
    }
  }

  ghost function Size(root: UserId, log: Log, terms: Terms, n: nat): nat {
    |Items(Passes(root, log, terms, n))|
  }

  ghost predicate SettledAfter(root: UserId, log: Log, terms: Terms, n: nat) {
    Settled(log, terms, Passes(root, log, terms, n))
  }

  lemma UnsettledPassGrows(root: UserId, log: Log, terms: Terms, n: nat)
    requires Orderly(root, log) && !SettledAfter(root, log, terms, n)
    ensures Size(root, log, terms, n) < Size(root, log, terms, n + 1)
  {
    var before, after := Passes(root, log, terms, n), Passes(root, log, terms, n + 1);
    PassesRise(root, log, terms, n);
    BelowItems(before, after);
    SubsetIsSmaller(Items(before), Items(after));
  }

  /** A size that grows until something happens either reaches any number or it has happened. */
  lemma {:induction false} GrowthReaches(size: nat -> nat, stopped: nat -> bool, n: nat) returns (k: nat)
    requires forall i: nat :: stopped(i) || size(i) < size(i + 1)
    ensures k <= n && (stopped(k) || (k == n && size(n) >= n))
  {
    if n == 0 {
      k := 0;
    } else {
      k := GrowthReaches(size, stopped, n - 1);
      if !stopped(k) {
        k := n;
      }
    }
  }

  /** So a bounded size stops growing within its bound. */
  lemma GrowthStops(size: nat -> nat, stopped: nat -> bool, bound: nat) returns (k: nat)
    requires forall i: nat :: stopped(i) || size(i) < size(i + 1)
    requires forall i: nat :: size(i) <= bound
    ensures k <= bound && stopped(k)
  {
    assert size(bound + 1) <= bound;
    k := GrowthReaches(size, stopped, bound);
  }

  lemma SizeIsBounded(root: UserId, log: Log, terms: Terms, n: nat)
    ensures Size(root, log, terms, n) <= |Said(root, log)|
  {
    if n == 0 {
    } else {
      PassesKeepRoot(root, log, terms, n - 1);
      PassSaysNoMore(log, terms, Passes(root, log, terms, n - 1));
      SubsetIsSmaller(Items(Passes(root, log, terms, n)), Said(root, log));
    }
  }

  ghost function Sizes(root: UserId, log: Log, terms: Terms): nat -> nat {
    (k: nat) => Size(root, log, terms, k)
  }

  ghost function Stops(root: UserId, log: Log, terms: Terms): nat -> bool {
    (k: nat) => SettledAfter(root, log, terms, k)
  }

  lemma PassesGrowUntilSettled(root: UserId, log: Log, terms: Terms)
    requires Orderly(root, log)
    ensures forall i: nat :: Stops(root, log, terms)(i) || Sizes(root, log, terms)(i) < Sizes(root, log, terms)(i + 1)
    ensures forall i: nat :: Sizes(root, log, terms)(i) <= |Said(root, log)|
  {
    forall i: nat ensures Stops(root, log, terms)(i) || Sizes(root, log, terms)(i) < Sizes(root, log, terms)(i + 1) {
      if !SettledAfter(root, log, terms, i) { UnsettledPassGrows(root, log, terms, i); }
    }
    forall i: nat ensures Sizes(root, log, terms)(i) <= |Said(root, log)| {
      SizeIsBounded(root, log, terms, i);
    }
  }

  /** An orderly log settles, and the program's passes get there: at the latest after as many as
      the log says things. */
  lemma OrderlyLogSettles(root: UserId, log: Log, terms: Terms) returns (n: nat)
    requires Orderly(root, log)
    ensures n <= |Said(root, log)| && SettledAfter(root, log, terms, n)
  {
    PassesGrowUntilSettled(root, log, terms);
    n := GrowthStops(Sizes(root, log, terms), Stops(root, log, terms), |Said(root, log)|);
  }
}
