/**
 The authority a principal holds, kept as lists that grow by set union, and the rule for which
 permissions its holder may hand on.
 */
module Authority {
  import opened Format
  import opened Matching

  predicate GrantableSubset(child: seq<GrantClass>, parent: seq<GrantClass>) {
    forall i :: 0 <= i < |child| ==> child[i] in parent
  }

  predicate NoRepeats<T(==)>(items: seq<T>) {
    forall i, j :: 0 <= i < j < |items| ==> items[i] != items[j]
  }

  /** The value of an authority set: three duplicate-free lists and the administer flag. */
  datatype Authorities = Authorities(
    read: seq<KeyspaceSelector>,
    write: seq<KeyspaceSelector>,
    manage: seq<ManageGrant>,
    administer: bool)
  {
    predicate CanRead(secret: SecretSelector) {
      || administer
      || (exists i :: 0 <= i < |read| && SelectorMatches(read[i], secret))
      || (exists i :: 0 <= i < |write| && SelectorMatches(write[i], secret))
      || (exists i :: 0 <= i < |manage| && SelectorMatches(manage[i].selector, secret))
    }

    predicate CanWrite(secret: SecretSelector) {
      || administer
      || (exists i :: 0 <= i < |write| && SelectorMatches(write[i], secret))
      || (exists i :: 0 <= i < |manage| && SelectorMatches(manage[i].selector, secret))
    }

    predicate CanManage(secret: SecretSelector) {
      || administer
      || (exists i :: 0 <= i < |manage| && SelectorMatches(manage[i].selector, secret))
    }

    predicate HoldsReadOver(selector: KeyspaceSelector) {
      || administer
      || (exists i :: 0 <= i < |read| && SelectorSubsumes(read[i], selector))
      || (exists i :: 0 <= i < |write| && SelectorSubsumes(write[i], selector))
      || (exists i :: 0 <= i < |manage| && SelectorSubsumes(manage[i].selector, selector))
    }

    predicate HoldsWriteOver(selector: KeyspaceSelector) {
      || administer
      || (exists i :: 0 <= i < |write| && SelectorSubsumes(write[i], selector))
      || (exists i :: 0 <= i < |manage| && SelectorSubsumes(manage[i].selector, selector))
    }

    predicate ManagesWith(class_: GrantClass, selector: KeyspaceSelector) {
      exists i :: 0 <= i < |manage| && class_ in manage[i].grantable && SelectorSubsumes(manage[i].selector, selector)
    }

    predicate CanCreatePermission(permission: GrantPermission) {
      administer ||
      match permission
      case ReadKeyspace(selector) => HoldsReadOver(selector) && ManagesWith(Read, selector)
      case WriteKeyspace(selector) => HoldsWriteOver(selector) && ManagesWith(Write, selector)
      case ManageKeyspace(target) =>
        exists i :: 0 <= i < |manage|
          && Manage in manage[i].grantable
          && SelectorSubsumes(manage[i].selector, target.selector)
          && GrantableSubset(target.grantable, manage[i].grantable)
      case Administer => administer
    }

    /** The permissions held, as a set: what the lists stand for. */
    function Held(): set<GrantPermission> {
      (set i | 0 <= i < |read| :: ReadKeyspace(read[i]))
      + (set i | 0 <= i < |write| :: WriteKeyspace(write[i]))
      + (set i | 0 <= i < |manage| :: ManageKeyspace(manage[i]))
      + (if administer then {Administer} else {})
    }

    predicate DuplicateFree() {
      NoRepeats(read) && NoRepeats(write) && NoRepeats(manage)
    }
  }

  /** `all()`, the selector that matches the whole vault. */
  const WHOLE_VAULT := KeyspaceSelector(AnyTuple, [])

  const ROOT_AUTHORITY :=
    Authorities([WHOLE_VAULT], [WHOLE_VAULT], [ManageGrant(WHOLE_VAULT, [Read, Write, Manage])], true)

  const NO_AUTHORITY := Authorities([], [], [], false)

  // ---------------------------------------------------------------------------------------
  // The growable set
  // ---------------------------------------------------------------------------------------

  method PushUnique<T(==)>(items: seq<T>, item: T) returns (pushed: seq<T>, changed: bool)
    requires NoRepeats(items)
    ensures NoRepeats(pushed)
    ensures forall x :: x in pushed <==> x in items || x == item
    ensures changed <==> item !in items
    ensures items <= pushed && (!changed ==> pushed == items)
  {
    changed := item !in items;
    pushed := if changed then items + [item] else items;
  }

  method PushAllUnique<T(==)>(items: seq<T>, more: seq<T>) returns (pushed: seq<T>, changed: bool)
    requires NoRepeats(items)
    ensures NoRepeats(pushed)
    ensures forall x :: x in pushed <==> x in items || x in more
    ensures changed <==> exists x :: x in more && x !in items
    ensures !changed ==> pushed == items
  {
    pushed, changed := items, false;
    for n := 0 to |more|
      invariant NoRepeats(pushed)
      invariant forall x :: x in pushed <==> x in items || x in more[..n]
      invariant changed <==> exists x :: x in more[..n] && x !in items
      invariant !changed ==> pushed == items
    {
      var step;
      pushed, step := PushUnique(pushed, more[n]);
      assert more[..n + 1] == more[..n] + [more[n]];
      assert step ==> more[n] in more[..n + 1] && more[n] !in items;
      changed := changed || step;
    }
    assert more[..|more|] == more;
  }

  function ReadPermissions(selectors: seq<KeyspaceSelector>): (r: seq<GrantPermission>)
  {
    seq(|selectors|, i requires 0 <= i < |selectors| => ReadKeyspace(selectors[i]))
  }

  function WritePermissions(selectors: seq<KeyspaceSelector>): (r: seq<GrantPermission>)
  {
    seq(|selectors|, i requires 0 <= i < |selectors| => WriteKeyspace(selectors[i]))
  }

  function ManagePermissions(grants: seq<ManageGrant>): (r: seq<GrantPermission>)
  {
    seq(|grants|, i requires 0 <= i < |grants| => ManageKeyspace(grants[i]))
  }

  lemma HeldMembership(a: Authorities)
    ensures forall s :: ReadKeyspace(s) in a.Held() <==> s in a.read
    ensures forall s :: WriteKeyspace(s) in a.Held() <==> s in a.write
    ensures forall m :: ManageKeyspace(m) in a.Held() <==> m in a.manage
    ensures Administer in a.Held() <==> a.administer
  {
  }

  /** The authority that one permission alone confers. */
  ghost function Single(permission: GrantPermission): Authorities {
    match permission
    case ReadKeyspace(selector) => NO_AUTHORITY.(read := [selector])
    case WriteKeyspace(selector) => NO_AUTHORITY.(write := [selector])
    case ManageKeyspace(grant) => NO_AUTHORITY.(manage := [grant])
    case Administer => NO_AUTHORITY.(administer := true)
  }

  lemma HeldOfSingle(permission: GrantPermission)
    ensures Single(permission).Held() == {permission}
  {
    HeldMembership(Single(permission));
    forall p ensures p in Single(permission).Held() <==> p == permission {
      match p {
        case ReadKeyspace(s) =>
        case WriteKeyspace(s) =>
        case ManageKeyspace(m) =>
        case Administer =>
      }
    }
  }

  lemma ListedPermissions(a: Authorities, permissions: seq<GrantPermission>)
    requires permissions == ReadPermissions(a.read) + WritePermissions(a.write) + ManagePermissions(a.manage)
                            + (if a.administer then [Administer] else [])
    ensures (set p | p in permissions) == a.Held()
  {
    var listed := set p | p in permissions;
    forall p | p in a.Held() ensures p in permissions {
      if i :| 0 <= i < |a.read| && p == ReadKeyspace(a.read[i]) {
        assert ReadPermissions(a.read)[i] == p;
      } else if i :| 0 <= i < |a.write| && p == WriteKeyspace(a.write[i]) {
        assert WritePermissions(a.write)[i] == p;
      } else if i :| 0 <= i < |a.manage| && p == ManageKeyspace(a.manage[i]) {
        assert ManagePermissions(a.manage)[i] == p;
      } else {
        assert permissions[|permissions| - 1] == p;
      }
    }
  }

  lemma HeldUnion(a: Authorities, b: Authorities, merged: Authorities)
    requires forall x :: x in merged.read <==> x in a.read || x in b.read
    requires forall x :: x in merged.write <==> x in a.write || x in b.write
    requires forall x :: x in merged.manage <==> x in a.manage || x in b.manage
    requires merged.administer == (a.administer || b.administer)
    ensures merged.Held() == a.Held() + b.Held()
  {
    HeldMembership(a);
    HeldMembership(b);
    HeldMembership(merged);
    forall p ensures p in merged.Held() <==> p in a.Held() + b.Held() {
      match p {
        case ReadKeyspace(s) =>
        case WriteKeyspace(s) =>
        case ManageKeyspace(m) =>
        case Administer =>
      }
    }
  }

  lemma HeldSubset(a: Authorities, b: Authorities)
    ensures a.Held() <= b.Held() <==>
            && (forall x :: x in a.read ==> x in b.read)
            && (forall x :: x in a.write ==> x in b.write)
            && (forall x :: x in a.manage ==> x in b.manage)
            && (a.administer ==> b.administer)
  {
    HeldMembership(a);
    HeldMembership(b);
    if a.Held() <= b.Held() {
      forall x | x in a.read ensures x in b.read { assert ReadKeyspace(x) in b.Held(); }
      forall x | x in a.write ensures x in b.write { assert WriteKeyspace(x) in b.Held(); }
      forall x | x in a.manage ensures x in b.manage { assert ManageKeyspace(x) in b.Held(); }
    }
  }

  class AuthoritySet {
    var read: seq<KeyspaceSelector>
    var write: seq<KeyspaceSelector>
    var manage: seq<ManageGrant>
    var administer: bool

    function Value(): Authorities
      reads this
    {
      Authorities(read, write, manage, administer)
    }

    ghost predicate Valid()
      reads this
    {
      Value().DuplicateFree()
    }

    /** The default, empty authority. */
    constructor ()
      ensures Valid() && Value() == NO_AUTHORITY
    {
      read, write, manage, administer := [], [], [], false;
    }

    constructor Root()
      ensures Valid() && Value() == ROOT_AUTHORITY
    {
      read, write := [WHOLE_VAULT], [WHOLE_VAULT];
      manage, administer := [ManageGrant(WHOLE_VAULT, [Read, Write, Manage])], true;
    }

    /** Adds one permission; the answer is whether the held set grew. */
    method AddPermission(permission: GrantPermission) returns (changed: bool)
      requires Valid()
      modifies this
      ensures Valid()
      ensures Value().Held() == old(Value().Held()) + {permission}
      ensures changed <==> permission !in old(Value().Held())
    {
      ghost var was := Value();
      match permission {
        case ReadKeyspace(selector) => read, changed := PushUnique(read, selector);
        case WriteKeyspace(selector) => write, changed := PushUnique(write, selector);
        case ManageKeyspace(grant) => manage, changed := PushUnique(manage, grant);
        case Administer =>
          changed := !administer;
          administer := true;
      }
      HeldUnion(was, Single(permission), Value());
      HeldMembership(was);
      HeldOfSingle(permission);
    }

    /** Absorbs everything `other` holds; the answer is whether the held set grew. */
    method MergeFrom(other: AuthoritySet) returns (changed: bool)
      requires Valid()
      modifies this
      ensures Valid()
      ensures Value().Held() == old(Value().Held()) + old(other.Value().Held())
      ensures changed <==> !(old(other.Value().Held()) <= old(Value().Held()))
    {
      var was, more := Value(), other.Value();
      var readGrew, writeGrew, manageGrew;
      read, readGrew := PushAllUnique(read, more.read);
      write, writeGrew := PushAllUnique(write, more.write);
      manage, manageGrew := PushAllUnique(manage, more.manage);
      changed := readGrew || writeGrew || manageGrew;
      if more.administer && !administer {
        administer := true;
        changed := true;
      }
      HeldUnion(was, more, Value());
      HeldSubset(more, was);
    }

    /** Every permission conferred, as grant permissions. */
    method AsGrantPermissions() returns (permissions: seq<GrantPermission>)
      ensures (set p | p in permissions) == Value().Held()
    {
      permissions := [];
      for i := 0 to |read|
        invariant permissions == ReadPermissions(read[..i])
      {
        permissions := permissions + [ReadKeyspace(read[i])];
        assert read[..i + 1][..i] == read[..i];
      }
      assert read[..|read|] == read;
      for i := 0 to |write|
        invariant permissions == ReadPermissions(read) + WritePermissions(write[..i])
      {
        permissions := permissions + [WriteKeyspace(write[i])];
        assert write[..i + 1][..i] == write[..i];
      }
      assert write[..|write|] == write;
      for i := 0 to |manage|
        invariant permissions == ReadPermissions(read) + WritePermissions(write) + ManagePermissions(manage[..i])
      {
        permissions := permissions + [ManageKeyspace(manage[i])];
        assert manage[..i + 1][..i] == manage[..i];
      }
      assert manage[..|manage|] == manage;
      if administer {
        permissions := permissions + [Administer];
      }
      ListedPermissions(Value(), permissions);
    }
  }

  // ---------------------------------------------------------------------------------------
  // What the lists mean
  // ---------------------------------------------------------------------------------------

  /** Whether holding `held` is by itself enough to create `permission`. */
  predicate Enables(held: GrantPermission, permission: GrantPermission) {
    match held
    case Administer => true
    case ManageKeyspace(m) =>
      (match permission
       case ReadKeyspace(s) => Read in m.grantable && SelectorSubsumes(m.selector, s)
       case WriteKeyspace(s) => Write in m.grantable && SelectorSubsumes(m.selector, s)
       case ManageKeyspace(t) =>
         && Manage in m.grantable
         && SelectorSubsumes(m.selector, t.selector)
         && GrantableSubset(t.grantable, m.grantable)
       case Administer => false)
    case _ => false
  }

  /** The creation rule in one clause: the separate "holds the use-permission" conditions are
      implied by the manage grant, so exactly one held permission decides. */
  lemma CanCreateIffEnabled(a: Authorities, permission: GrantPermission)
    ensures a.CanCreatePermission(permission) <==> exists q :: q in a.Held() && Enables(q, permission)
  {
    HeldMembership(a);
    if a.CanCreatePermission(permission) {
      if a.administer {
        assert Enables(Administer, permission);
      } else {
        var i :| 0 <= i < |a.manage| && Enables(ManageKeyspace(a.manage[i]), permission);
        assert ManageKeyspace(a.manage[i]) in a.Held();
      }
    }
    if q :| q in a.Held() && Enables(q, permission) {
      if q.ManageKeyspace? {
        var i :| 0 <= i < |a.manage| && a.manage[i] == q.manage;
      }
    }
  }

  /** Delegation chains collapse: what a delegated permission enables, its creator could have
      created directly. */
  lemma EnablingIsTransitive(q: GrantPermission, r: GrantPermission, permission: GrantPermission)
    requires Enables(q, r) && Enables(r, permission)
    ensures Enables(q, permission)
  {
    if q.ManageKeyspace? && r.ManageKeyspace? {
      match permission {
        case ReadKeyspace(s) => SubsumptionTransitive(q.manage.selector, r.manage.selector, s);
        case WriteKeyspace(s) => SubsumptionTransitive(q.manage.selector, r.manage.selector, s);
        case ManageKeyspace(t) => SubsumptionTransitive(q.manage.selector, r.manage.selector, t.selector);
        case Administer =>
      }
    }
  }

  /** Use of a secret depends only on the held set: administer, or a matching permission of the
      right strength. */
  predicate Admits(held: GrantPermission, need: GrantClass, secret: SecretSelector) {
    match held
    case Administer => true
    case ManageKeyspace(m) => SelectorMatches(m.selector, secret)
    case WriteKeyspace(s) => need != Manage && SelectorMatches(s, secret)
    case ReadKeyspace(s) => need == Read && SelectorMatches(s, secret)
  }

  predicate Can(a: Authorities, need: GrantClass, secret: SecretSelector) {
    match need
    case Read => a.CanRead(secret)
    case Write => a.CanWrite(secret)
    case Manage => a.CanManage(secret)
  }

  lemma UseDependsOnHeld(a: Authorities, need: GrantClass, secret: SecretSelector)
    ensures Can(a, need, secret) <==> exists q :: q in a.Held() && Admits(q, need, secret)
  {
    HeldMembership(a);
    if Can(a, need, secret) {
      if a.administer {
        assert Admits(Administer, need, secret);
      } else if i :| 0 <= i < |a.manage| && SelectorMatches(a.manage[i].selector, secret) {
        assert ManageKeyspace(a.manage[i]) in a.Held() && Admits(ManageKeyspace(a.manage[i]), need, secret);
      } else if i :| 0 <= i < |a.write| && SelectorMatches(a.write[i], secret) {
        assert WriteKeyspace(a.write[i]) in a.Held() && Admits(WriteKeyspace(a.write[i]), need, secret);
      } else {
        var i :| 0 <= i < |a.read| && SelectorMatches(a.read[i], secret);
        assert ReadKeyspace(a.read[i]) in a.Held() && Admits(ReadKeyspace(a.read[i]), need, secret);
      }
    }
  }

  /** A merged authority can do exactly what one of its two sides could, for every capability
      and every secret, whatever order its lists are in. */
  lemma MergedCapabilities(
    a: Authorities, b: Authorities, merged: Authorities, need: GrantClass, secret: SecretSelector)
    requires merged.Held() == a.Held() + b.Held()
    ensures Can(merged, need, secret) <==> Can(a, need, secret) || Can(b, need, secret)
  {
    UseDependsOnHeld(a, need, secret);
    UseDependsOnHeld(b, need, secret);
    UseDependsOnHeld(merged, need, secret);
  }

  /** administer > manage > write > read. */
  lemma CapabilityHierarchy(a: Authorities, secret: SecretSelector)
    ensures a.administer ==> a.CanManage(secret)
    ensures a.CanManage(secret) ==> a.CanWrite(secret)
    ensures a.CanWrite(secret) ==> a.CanRead(secret)
  {
  }

  /** Whoever can grant read over a keyspace can itself read every secret in it: no grant opens
      access its author could not decrypt and re-encrypt. */
  lemma GrantersCanReadWhatTheyGrant(
    a: Authorities, permission: GrantPermission, selector: KeyspaceSelector, secret: SecretSelector)
    requires permission == ReadKeyspace(selector) || permission == WriteKeyspace(selector)
    requires a.CanCreatePermission(permission) && SelectorMatches(selector, secret)
    ensures a.CanRead(secret) && a.CanWrite(secret) && a.CanManage(secret)
  {
    if !a.administer {
      var i :| 0 <= i < |a.manage| && SelectorSubsumes(a.manage[i].selector, selector);
      SubsumptionSound(a.manage[i].selector, selector, secret);
    }
  }
}
