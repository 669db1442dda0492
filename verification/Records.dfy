/** Record keys, record bodies and the typed facts a ratchet is persisted as. */
module Records {
  import opened Format

  /** What last-writer-wins resolution groups records by. */
  datatype RecordKey =
    | VaultRootKey
    | EntryPointKey(userId: UserId)
    | UserKey(userId: UserId)
    | UserHandleKey(handleId: HashValue)
    | GroupKey(groupId: GroupId)
    | GroupMemberKey(memberId: HashValue)
    | GrantKey(grantId: HashValue)
    | SecretKey(secretId: HashValue)
    | VaultHandleKey(handleId: HashValue)

  /** The preimage of a content-derived key, remembered so an erased key can still be named. */
  datatype KeyOrigin =
    | SecretOrigin(selector: SecretSelector)
    | UserHandleOrigin(handle: string)
    | VaultHandleOrigin(handle: string)
    | GroupMemberOrigin(groupId: GroupId, member: PrincipalRef)

  datatype RatchetRecord =
    | UserFact(id: HashValue, count: nat)
    | UserHandleFact(id: HashValue, count: nat, handle: string)
    | VaultHandleFact(id: HashValue, count: nat, handle: string)
    | GroupFact(id: HashValue, count: nat)
    | GroupMemberFact(id: HashValue, count: nat, membership: Option<(GroupId, PrincipalRef)>)
    | GrantFact(id: HashValue, count: nat)
    | SecretFact(id: HashValue, count: nat, selector: SecretSelector)
    | EntryPointFact(id: HashValue, count: nat)
    | FormatVersionFact(version: nat)
    | TrustedRootFact(trustedRoot: HashValue)
  {
    function Key(): Option<RecordKey> {
      match this
      case FormatVersionFact(_) => None
      case TrustedRootFact(_) => None
      case UserFact(id, _) => Some(UserKey(id))
      case UserHandleFact(id, _, _) => Some(UserHandleKey(id))
      case VaultHandleFact(id, _, _) => Some(VaultHandleKey(id))
      case GroupFact(id, _) => Some(GroupKey(id))
      case GroupMemberFact(id, _, _) => Some(GroupMemberKey(id))
      case GrantFact(id, _) => Some(GrantKey(id))
      case SecretFact(id, _, _) => Some(SecretKey(id))
      case EntryPointFact(id, _) => Some(EntryPointKey(id))
    }

    function Counter(): nat {
      match this
      case FormatVersionFact(version) => version
      case TrustedRootFact(_) => 0
      case _ => count
    }

    /** The remembered preimage; the empty sentinel reads as none. */
    function Origin(): Option<KeyOrigin> {
      match this
      case UserHandleFact(_, _, handle) => if handle != "" then Some(UserHandleOrigin(handle)) else None
      case VaultHandleFact(_, _, handle) => if handle != "" then Some(VaultHandleOrigin(handle)) else None
      case GroupMemberFact(_, _, Some(m)) => Some(GroupMemberOrigin(m.0, m.1))
      case SecretFact(_, _, selector) => if selector.tuple != [] then Some(SecretOrigin(selector)) else None
      case _ => None
    }
  }

  /** The watermark fact for a counter at a key; a missing or mismatched origin encodes as the
      empty sentinel, and the root key has no fact. */
  function ForKey(key: RecordKey, counter: nat, origin: Option<KeyOrigin>): Option<RatchetRecord> {
    match key
    case VaultRootKey => None
    case EntryPointKey(id) => Some(EntryPointFact(id, counter))
    case UserKey(id) => Some(UserFact(id, counter))
    case UserHandleKey(id) =>
      Some(UserHandleFact(id, counter, match origin case Some(UserHandleOrigin(h)) => h case _ => ""))
    case VaultHandleKey(id) =>
      Some(VaultHandleFact(id, counter, match origin case Some(VaultHandleOrigin(h)) => h case _ => ""))
    case GroupKey(id) => Some(GroupFact(id, counter))
    case GroupMemberKey(id) =>
      Some(GroupMemberFact(id, counter, match origin case Some(GroupMemberOrigin(g, m)) => Some((g, m)) case _ => None))
    case GrantKey(id) => Some(GrantFact(id, counter))
    case SecretKey(id) =>
      Some(SecretFact(id, counter, match origin case Some(SecretOrigin(s)) => s case _ => SecretSelector([], [])))
  }

  /** Whether a fact at `key` can carry `origin`: the kinds agree and it is not the sentinel. */
  predicate Carries(key: RecordKey, origin: KeyOrigin) {
    match origin
    case SecretOrigin(selector) => key.SecretKey? && selector.tuple != []
    case UserHandleOrigin(handle) => key.UserHandleKey? && handle != ""
    case VaultHandleOrigin(handle) => key.VaultHandleKey? && handle != ""
    case GroupMemberOrigin(_, _) => key.GroupMemberKey?
  }

  /** A fact reads back its key and counter always, and its origin exactly when it can carry it. */
  lemma ForKeyReadsBack(key: RecordKey, counter: nat, origin: Option<KeyOrigin>)
    ensures ForKey(key, counter, origin).None? <==> key == VaultRootKey
    ensures ForKey(key, counter, origin).Some? ==>
              var fact := ForKey(key, counter, origin).value;
              && fact.Key() == Some(key)
              && fact.Counter() == counter
              && fact.Origin() == (if origin.Some? && Carries(key, origin.value) then origin else None)
  {
    match key {
      case VaultRootKey =>
      case EntryPointKey(_) =>
      case UserKey(_) =>
      case UserHandleKey(_) =>
      case GroupKey(_) =>
      case GroupMemberKey(_) =>
      case GrantKey(_) =>
      case SecretKey(_) =>
      case VaultHandleKey(_) =>
    }
  }

  // ---------------------------------------------------------------------------------------
  // Vault record bodies
  // ---------------------------------------------------------------------------------------

  datatype RecordBody =
    | VaultRoot(id: UserId, hpke: Bytes)
    | EntryPoint(trustedRoot: UserId, hpke: Bytes, count: nat)
    | UserAdded(id: UserId, signing: Bytes, hpke: Bytes, count: nat)
    | UserDeleted(id: UserId, reason: Option<string>, count: nat)
    | UserHandle(id: HashValue, handle: string, user: UserId, count: nat)
    | VaultHandle(id: HashValue, handle: string, count: nat)
    | GroupAdded(id: GroupId, seed: Bytes, handle: string, count: nat)
    | GroupDeleted(id: GroupId, count: nat)
    | GroupMember(id: HashValue, group: GroupId, member: PrincipalRef, count: nat)
    | GroupMemberDeleted(id: HashValue, group: GroupId, member: PrincipalRef, count: nat)
    | GrantAdded(id: HashValue, seed: Bytes, subject: PrincipalRef, permission: GrantPermission, count: nat)
    | GrantDeleted(id: HashValue, permission: GrantPermission, count: nat)
    | Secret(id: HashValue, selector: SecretSelector, sealed: Bytes, count: nat)
    | SecretDeleted(id: HashValue, selector: SecretSelector, count: nat)
  {
    function LwwCounter(): Option<nat> {
      match this
      case VaultRoot(_, _) => None
      case _ => Some(count)
    }

    /** The same body at a fresh counter; the root has none. */
    function WithLwwCounter(counter: nat): Option<RecordBody> {
      match this
      case VaultRoot(_, _) => None
      case EntryPoint(root, hpke, _) => Some(EntryPoint(root, hpke, counter))
      case UserAdded(id, signing, hpke, _) => Some(UserAdded(id, signing, hpke, counter))
      case UserDeleted(id, reason, _) => Some(UserDeleted(id, reason, counter))
      case UserHandle(id, handle, user, _) => Some(UserHandle(id, handle, user, counter))
      case VaultHandle(id, handle, _) => Some(VaultHandle(id, handle, counter))
      case GroupAdded(id, seed, handle, _) => Some(GroupAdded(id, seed, handle, counter))
      case GroupDeleted(id, _) => Some(GroupDeleted(id, counter))
      case GroupMember(id, group, member, _) => Some(GroupMember(id, group, member, counter))
      case GroupMemberDeleted(id, group, member, _) => Some(GroupMemberDeleted(id, group, member, counter))
      case GrantAdded(id, seed, subject, permission, _) => Some(GrantAdded(id, seed, subject, permission, counter))
      case GrantDeleted(id, permission, _) => Some(GrantDeleted(id, permission, counter))
      case Secret(id, selector, sealed, _) => Some(Secret(id, selector, sealed, counter))
      case SecretDeleted(id, selector, _) => Some(SecretDeleted(id, selector, counter))
    }

    predicate IsDeletion() {
      UserDeleted? || GroupDeleted? || GroupMemberDeleted? || GrantDeleted? || SecretDeleted?
    }

    /** The key a body resolves at; only an entry point keys on its resolved signer. */
    function KeyFor(signer: UserId): RecordKey {
      match this
      case VaultRoot(_, _) => VaultRootKey
      case EntryPoint(_, _, _) => EntryPointKey(signer)
      case UserAdded(id, _, _, _) => UserKey(id)
      case UserDeleted(id, _, _) => UserKey(id)
      case UserHandle(id, _, _, _) => UserHandleKey(id)
      case VaultHandle(id, _, _) => VaultHandleKey(id)
      case GroupAdded(id, _, _, _) => GroupKey(id)
      case GroupDeleted(id, _) => GroupKey(id)
      case GroupMember(id, _, _, _) => GroupMemberKey(id)
      case GroupMemberDeleted(id, _, _, _) => GroupMemberKey(id)
      case GrantAdded(id, _, _, _, _) => GrantKey(id)
      case GrantDeleted(id, _, _) => GrantKey(id)
      case Secret(id, _, _, _) => SecretKey(id)
      case SecretDeleted(id, _, _) => SecretKey(id)
    }
  }

  /** Re-stamping changes the counter and nothing resolution looks at besides it. */
  lemma RestampKeepsKey(body: RecordBody, counter: nat, signer: UserId)
    ensures body.WithLwwCounter(counter).None? <==> body.LwwCounter().None?
    ensures body.WithLwwCounter(counter).Some? ==>
              var bumped := body.WithLwwCounter(counter).value;
              && bumped.LwwCounter() == Some(counter)
              && bumped.KeyFor(signer) == body.KeyFor(signer)
              && bumped.IsDeletion() == body.IsDeletion()
              && bumped.WithLwwCounter(body.LwwCounter().value) == Some(body)
  {
  }

  /** An addition and its deletion share a key, of their own kind and id; the root has its own, and
      only an entry point keys on its signer. */
  lemma KeysByKind(body: RecordBody, signer: UserId)
    ensures body.VaultRoot? ==> body.KeyFor(signer) == VaultRootKey && body.LwwCounter().None?
    ensures !body.VaultRoot? ==> body.LwwCounter() == Some(body.count)
    ensures body.EntryPoint? ==> body.KeyFor(signer) == EntryPointKey(signer)
    ensures body.UserAdded? || body.UserDeleted? ==> body.KeyFor(signer) == UserKey(body.id)
    ensures body.UserHandle? ==> body.KeyFor(signer) == UserHandleKey(body.id)
    ensures body.VaultHandle? ==> body.KeyFor(signer) == VaultHandleKey(body.id)
    ensures body.GroupAdded? || body.GroupDeleted? ==> body.KeyFor(signer) == GroupKey(body.id)
    ensures body.GroupMember? || body.GroupMemberDeleted? ==> body.KeyFor(signer) == GroupMemberKey(body.id)
    ensures body.GrantAdded? || body.GrantDeleted? ==> body.KeyFor(signer) == GrantKey(body.id)
    ensures body.Secret? || body.SecretDeleted? ==> body.KeyFor(signer) == SecretKey(body.id)
  {
  }

  /** Re-stamping keeps the class and every field but the counter. */
  lemma RestampKeepsFields(body: RecordBody, counter: nat)
    requires !body.VaultRoot?
    ensures body.WithLwwCounter(counter).Some?
    ensures var bumped := body.WithLwwCounter(counter).value;
            && bumped.LwwCounter() == Some(counter)
            && (body.EntryPoint? ==>
                  bumped.EntryPoint? && bumped.trustedRoot == body.trustedRoot && bumped.hpke == body.hpke)
            && (body.UserAdded? ==>
                  bumped.UserAdded? && bumped.id == body.id && bumped.signing == body.signing
                      && bumped.hpke == body.hpke)
            && (body.UserDeleted? ==> bumped.UserDeleted? && bumped.id == body.id && bumped.reason == body.reason)
            && (body.UserHandle? ==>
                  bumped.UserHandle? && bumped.id == body.id && bumped.handle == body.handle
                      && bumped.user == body.user)
            && (body.VaultHandle? ==> bumped.VaultHandle? && bumped.id == body.id && bumped.handle == body.handle)
            && (body.GroupAdded? ==>
                  bumped.GroupAdded? && bumped.id == body.id && bumped.seed == body.seed
                      && bumped.handle == body.handle)
            && (body.GroupDeleted? ==> bumped.GroupDeleted? && bumped.id == body.id)
            && (body.GroupMember? ==>
                  bumped.GroupMember? && bumped.id == body.id && bumped.group == body.group
                      && bumped.member == body.member)
            && (body.GroupMemberDeleted? ==>
                  bumped.GroupMemberDeleted? && bumped.id == body.id
                  && bumped.group == body.group && bumped.member == body.member)
            && (body.GrantAdded? ==>
                  bumped.GrantAdded? && bumped.id == body.id && bumped.seed == body.seed
                  && bumped.subject == body.subject && bumped.permission == body.permission)
            && (body.GrantDeleted? ==>
                  bumped.GrantDeleted? && bumped.id == body.id && bumped.permission == body.permission)
            && (body.Secret? ==>
                  bumped.Secret? && bumped.id == body.id && bumped.selector == body.selector
                      && bumped.sealed == body.sealed)
            && (body.SecretDeleted? ==>
                  bumped.SecretDeleted? && bumped.id == body.id && bumped.selector == body.selector)
  {
  }
}
