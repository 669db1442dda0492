/** The record format's value types, as far as authority, selection, merging and the ratchet use them. */
module Format {

  datatype Option<+T> = None | Some(value: T)

  /** A content-derived id or record hash. Only equality and the total order of hashes are ever
      consulted, so a hash is read as the number its bytes spell. */
  type HashValue = nat
  type UserId = HashValue
  type GroupId = HashValue
  type Byte = b: int | 0 <= b < 256
  type Bytes = seq<Byte>

  datatype SecretLabel = SecretLabel(key: string, value: string)

  datatype SecretSelector = SecretSelector(tuple: seq<string>, labels: seq<SecretLabel>)

  datatype TupleMatcher = AnyTuple | Exact(parts: seq<string>) | Prefix(parts: seq<string>)

  datatype LabelMatcher = AnyValue | Equals(value: string) | In(values: seq<string>) | Absent

  datatype KeyspaceLabel = KeyspaceLabel(key: string, matcher: LabelMatcher)

  datatype KeyspaceSelector = KeyspaceSelector(tuple: TupleMatcher, labels: seq<KeyspaceLabel>)

  datatype GrantClass = Read | Write | Manage

  datatype ManageGrant = ManageGrant(selector: KeyspaceSelector, grantable: seq<GrantClass>)

  datatype GrantPermission =
    | ReadKeyspace(selector: KeyspaceSelector)
    | WriteKeyspace(selector: KeyspaceSelector)
    | ManageKeyspace(manage: ManageGrant)
    | Administer

  datatype PrincipalRef = User(userId: UserId) | Group(groupId: GroupId)
}

/** Rust's ordering of strings: lexicographic by code point. */
module Ordering {

  predicate Less(a: string, b: string) {
    b != [] && (a == [] || a[0] < b[0] || (a[0] == b[0] && Less(a[1..], b[1..])))
  }

  lemma {:induction false} LessIsIrreflexive(a: string)
    ensures !Less(a, a)
  {
    if a == [] {
    } else {
      LessIsIrreflexive(a[1..]);
    }
  }

  lemma {:induction false} LessIsTransitive(a: string, b: string, c: string)
    requires Less(a, b) && Less(b, c)
    ensures Less(a, c)
  {
    if a != [] && a[0] == b[0] && b[0] == c[0] { LessIsTransitive(a[1..], b[1..], c[1..]); }
  }

  lemma {:induction false} LessIsTotal(a: string, b: string)
    ensures Less(a, b) || a == b || Less(b, a)
  {
    if a != [] && b != [] && a[0] == b[0] {
      LessIsTotal(a[1..], b[1..]);
      assert a == [a[0]] + a[1..] && b == [b[0]] + b[1..];
    }
  }

  /** The first characters that differ are at `i`, and `a` has the lower one. */
  predicate LowerAt(a: string, b: string, i: nat) {
    i < |a| && i < |b| && a[..i] == b[..i] && a[i] < b[i]
  }

  lemma LowerAtNext(a: string, b: string, i: nat)
    requires a != [] && b != [] && a[0] == b[0]
    ensures LowerAt(a, b, i + 1) <==> LowerAt(a[1..], b[1..], i)
  {
    if i < |a[1..]| && i < |b[1..]| {
      assert a[..i + 1] == [a[0]] + a[1..][..i] && b[..i + 1] == [b[0]] + b[1..][..i];
      assert a[..i + 1][1..] == a[1..][..i] && b[..i + 1][1..] == b[1..][..i];
    }
  }

  lemma LowerAtFirst(a: string, b: string, i: nat)
    requires a != [] && b != [] && a[0] != b[0] && i > 0
    ensures !LowerAt(a, b, i)
  {
    assert i < |a| && i < |b| ==> a[..i][0] != b[..i][0];
  }

  lemma LowerSomewhereNext(a: string, b: string)
    requires a != [] && b != [] && a[0] == b[0]
    ensures (exists i :: LowerAt(a, b, i)) <==> (exists i :: LowerAt(a[1..], b[1..], i))
  {
    if i: nat :| LowerAt(a[1..], b[1..], i) { LowerAtNext(a, b, i); }
    if i: nat :| LowerAt(a, b, i) {
      assert i > 0;
      LowerAtNext(a, b, i - 1);
    }
  }

  /** Code point order: a proper prefix comes first, and otherwise the lower of the first two
      characters that differ. */
  lemma {:induction false} LessIff(a: string, b: string)
    ensures Less(a, b) <==> (a <= b && a != b) || exists i :: LowerAt(a, b, i)
  {
    if a == [] || b == [] {
    } else if a[0] != b[0] {
      forall i: nat | i > 0 ensures !LowerAt(a, b, i) { LowerAtFirst(a, b, i); }
      assert LowerAt(a, b, 0) <==> a[0] < b[0];
    } else {
      LessIff(a[1..], b[1..]);
      LowerSomewhereNext(a, b);
      assert a == [a[0]] + a[1..] && b == [b[0]] + b[1..];
    }
  }
}
