/**
 Keyspace matching and the syntactic subsumption check that every delegation decision rests on.
 The check is proved to be exactly semantic containment on the selectors that vault validation
 admits, and shown to be stricter than containment on each kind of selector it refuses.
 */
module Matching {
  import opened Format
  import opened Ordering

  /** First-match lookup, as the record's label list is searched. */
  function SecretLabelValue(labels: seq<SecretLabel>, key: string): Option<string> {
    if labels == [] then None
    else if labels[0].key == key then Some(labels[0].value)
    else SecretLabelValue(labels[1..], key)
  }

  function LabelMatcherFor(labels: seq<KeyspaceLabel>, key: string): Option<LabelMatcher> {
    if labels == [] then None
    else if labels[0].key == key then Some(labels[0].matcher)
    else LabelMatcherFor(labels[1..], key)
  }

  predicate TupleMatches(matcher: TupleMatcher, tuple: seq<string>) {
    match matcher
    case AnyTuple => true
    case Exact(exact) => exact == tuple
    case Prefix(prefix) => prefix <= tuple
  }

  predicate LabelMatches(matcher: LabelMatcher, value: Option<string>) {
    match matcher
    case AnyValue => value.Some?
    case Equals(expected) => value == Some(expected)
    case In(values) => value.Some? && value.value in values
    case Absent => value.None?
  }

  predicate SelectorMatches(grant: KeyspaceSelector, secret: SecretSelector) {
    && TupleMatches(grant.tuple, secret.tuple)
    && forall i :: 0 <= i < |grant.labels| ==>
         LabelMatches(grant.labels[i].matcher, SecretLabelValue(secret.labels, grant.labels[i].key))
  }

  predicate TupleSubsumes(parent: TupleMatcher, child: TupleMatcher) {
    match (parent, child)
    case (AnyTuple, _) => true
    case (Prefix(p), Prefix(c)) => p <= c
    case (Prefix(p), Exact(c)) => p <= c
    case (Exact(p), Exact(c)) => p == c
    case _ => false
  }

  predicate LabelSubsumes(parent: LabelMatcher, child: Option<LabelMatcher>) {
    match (parent, child)
    case (_, None) => false
    case (AnyValue, Some(c)) => !c.Absent?
    case (Equals(p), Some(Equals(c))) => p == c
    case (Equals(p), Some(In(cs))) => forall i :: 0 <= i < |cs| ==> cs[i] == p
    case (In(ps), Some(Equals(c))) => c in ps
    case (In(ps), Some(In(cs))) => forall i :: 0 <= i < |cs| ==> cs[i] in ps
    case (Absent, Some(Absent)) => true
    case _ => false
  }

  predicate LabelsSubsume(parent: KeyspaceSelector, child: KeyspaceSelector) {
    forall i :: 0 <= i < |parent.labels| ==>
      LabelSubsumes(parent.labels[i].matcher, LabelMatcherFor(child.labels, parent.labels[i].key))
  }

  predicate SelectorSubsumes(parent: KeyspaceSelector, child: KeyspaceSelector) {
    TupleSubsumes(parent.tuple, child.tuple) && LabelsSubsume(parent, child)
  }

  // ---------------------------------------------------------------------------------------
  // Well-formedness, as structural validation checks it before a record is admitted
  // ---------------------------------------------------------------------------------------

  predicate SecretLabelsSorted(labels: seq<SecretLabel>) {
    forall i, j :: 0 <= i < j < |labels| ==> Less(labels[i].key, labels[j].key)
  }

  predicate ValidSecret(secret: SecretSelector) {
    SecretLabelsSorted(secret.labels)
  }

  predicate StringsSorted(values: seq<string>) {
    forall i, j :: 0 <= i < j < |values| ==> Less(values[i], values[j])
  }

  predicate NonEmptyPrefix(selector: KeyspaceSelector) {
    selector.tuple != Prefix([])
  }

  /** `validate_keyspace_selector`: what a grant's selector must satisfy to be admitted. */
  predicate ValidKeyspace(selector: KeyspaceSelector) {
    && NonEmptyPrefix(selector)
    && (forall i, j :: 0 <= i < j < |selector.labels| ==> Less(selector.labels[i].key, selector.labels[j].key))
    && (forall i :: 0 <= i < |selector.labels| && selector.labels[i].matcher.In? ==>
          selector.labels[i].matcher.values != [] && StringsSorted(selector.labels[i].matcher.values))
  }

  predicate DistinctKeys(labels: seq<KeyspaceLabel>) {
    forall i, j :: 0 <= i < j < |labels| ==> labels[i].key != labels[j].key
  }

  predicate NoEmptyIn(labels: seq<KeyspaceLabel>) {
    forall i :: 0 <= i < |labels| ==> labels[i].matcher != In([])
  }

  /** What exactness needs of a parent and a child; weaker than both having been validated. */
  predicate Comparable(parent: KeyspaceSelector, child: KeyspaceSelector) {
    NonEmptyPrefix(parent) && DistinctKeys(child.labels) && NoEmptyIn(child.labels)
  }

  lemma ValidKeyspacesAreComparable(parent: KeyspaceSelector, child: KeyspaceSelector)
    requires ValidKeyspace(parent) && ValidKeyspace(child)
    ensures Comparable(parent, child)
  {
    forall i, j | 0 <= i < j < |child.labels| ensures child.labels[i].key != child.labels[j].key {
      LessIsIrreflexive(child.labels[i].key);
    }
  }

  /** The prefix constructor never makes the one tuple matcher the check mistreats. */
  function UnderPrefix(parts: seq<string>): (selector: KeyspaceSelector)
    ensures ValidKeyspace(selector)
    ensures forall secret :: SelectorMatches(selector, secret) <==> parts <= secret.tuple
  {
    if parts == [] then KeyspaceSelector(AnyTuple, []) else KeyspaceSelector(Prefix(parts), [])
  }

  /** Semantic containment over every well-formed secret. */
  ghost predicate Contains(parent: KeyspaceSelector, child: KeyspaceSelector) {
    forall secret :: ValidSecret(secret) && SelectorMatches(child, secret) ==> SelectorMatches(parent, secret)
  }

  // ---------------------------------------------------------------------------------------
  // Soundness: subsumption implies containment, for all selectors and all secrets
  // ---------------------------------------------------------------------------------------

  lemma {:induction false} FoundMatcherIsListed(labels: seq<KeyspaceLabel>, key: string)
    requires LabelMatcherFor(labels, key).Some?
    ensures exists i :: 0 <= i < |labels| && labels[i].key == key
                        && labels[i].matcher == LabelMatcherFor(labels, key).value
  {
    if labels[0].key != key {
      FoundMatcherIsListed(labels[1..], key);
      var i :| 0 <= i < |labels[1..]| && labels[1..][i].key == key
               && labels[1..][i].matcher == LabelMatcherFor(labels, key).value;
      assert labels[i + 1] == labels[1..][i];
    }
  }

  lemma LabelSubsumptionSound(parent: LabelMatcher, child: LabelMatcher, value: Option<string>)
    requires LabelSubsumes(parent, Some(child)) && LabelMatches(child, value)
    ensures LabelMatches(parent, value)
  {
  }

  lemma SubsumptionSound(parent: KeyspaceSelector, child: KeyspaceSelector, secret: SecretSelector)
    requires SelectorSubsumes(parent, child) && SelectorMatches(child, secret)
    ensures SelectorMatches(parent, secret)
  {
    forall i | 0 <= i < |parent.labels|
      ensures LabelMatches(parent.labels[i].matcher, SecretLabelValue(secret.labels, parent.labels[i].key))
    {
      var key := parent.labels[i].key;
      FoundMatcherIsListed(child.labels, key);
      LabelSubsumptionSound(parent.labels[i].matcher, LabelMatcherFor(child.labels, key).value,
                            SecretLabelValue(secret.labels, key));
    }
  }

  // ---------------------------------------------------------------------------------------
  // Completeness: when the check says no, some well-formed secret shows why
  // ---------------------------------------------------------------------------------------

  /** Insert into a sorted label list, keeping it sorted. */
  function InsertLabel(entry: SecretLabel, labels: seq<SecretLabel>): seq<SecretLabel> {
    if labels == [] || Less(entry.key, labels[0].key) then [entry] + labels
    else [labels[0]] + InsertLabel(entry, labels[1..])
  }

  lemma {:induction false} InsertLabelLookup(entry: SecretLabel, labels: seq<SecretLabel>, key: string)
    requires SecretLabelValue(labels, entry.key).None?
    ensures SecretLabelValue(InsertLabel(entry, labels), key)
         == if key == entry.key then Some(entry.value) else SecretLabelValue(labels, key)
  {
    var inserted := InsertLabel(entry, labels);
    if labels == [] || Less(entry.key, labels[0].key) {
      assert inserted[1..] == labels;
    } else {
      assert inserted[0] == labels[0] && inserted[1..] == InsertLabel(entry, labels[1..]);
      InsertLabelLookup(entry, labels[1..], key);
    }
  }

  lemma {:induction false} InsertLabelSorted(entry: SecretLabel, labels: seq<SecretLabel>)
    requires SecretLabelsSorted(labels) && SecretLabelValue(labels, entry.key).None?
    ensures SecretLabelsSorted(InsertLabel(entry, labels))
    ensures forall l :: l in InsertLabel(entry, labels) ==> l == entry || l in labels
  {
    if labels == [] {
    } else {
      if Less(entry.key, labels[0].key) {
        forall j | 1 <= j < |labels| ensures Less(entry.key, labels[j].key) {
          LessIsTransitive(entry.key, labels[0].key, labels[j].key);
        }
      } else {
        LessIsTotal(entry.key, labels[0].key);
        InsertLabelSorted(entry, labels[1..]);
        var rest := InsertLabel(entry, labels[1..]);
        forall j | 0 <= j < |rest| ensures Less(labels[0].key, rest[j].key) {
          assert rest[j] in rest;
        }
      }
    }
  }

  /** A value a matcher accepts. */
  function Sample(matcher: LabelMatcher): (value: Option<string>)
    requires matcher != In([])
    ensures LabelMatches(matcher, value)
  {
    match matcher
    case AnyValue => Some("")
    case Equals(v) => Some(v)
    case In(vs) => Some(vs[0])
    case Absent => None
  }

  function SampleTuple(matcher: TupleMatcher): (tuple: seq<string>)
    ensures TupleMatches(matcher, tuple)
  {
    match matcher
    case AnyTuple => []
    case Exact(t) => t
    case Prefix(t) => t
  }

  /** Secret labels that put `value` at `key` and satisfy every other listed matcher. */
  function AssignLabels(labels: seq<KeyspaceLabel>, key: string, value: Option<string>): seq<SecretLabel>
    requires NoEmptyIn(labels)
  {
    if labels == [] then
      if value.Some? then [SecretLabel(key, value.value)] else []
    else
      var rest := AssignLabels(labels[1..], key, value);
      var picked := Sample(labels[0].matcher);
      if labels[0].key == key || picked.None? then rest
      else InsertLabel(SecretLabel(labels[0].key, picked.value), rest)
  }

  function FoundSample(labels: seq<KeyspaceLabel>, key: string): Option<string>
    requires NoEmptyIn(labels) && LabelMatcherFor(labels, key).Some?
  {
    if labels[0].key == key then Sample(labels[0].matcher) else FoundSample(labels[1..], key)
  }

  lemma {:induction false} KeyNotRepeated(labels: seq<KeyspaceLabel>)
    requires labels != [] && DistinctKeys(labels)
    ensures LabelMatcherFor(labels[1..], labels[0].key).None?
  {
    if LabelMatcherFor(labels[1..], labels[0].key).Some? {
      FoundMatcherIsListed(labels[1..], labels[0].key);
    }
  }

  lemma {:induction false} AssignedLookup(labels: seq<KeyspaceLabel>, key: string, value: Option<string>, query: string)
    requires NoEmptyIn(labels) && DistinctKeys(labels)
    ensures SecretLabelValue(AssignLabels(labels, key, value), query) ==
            if query == key then value
            else match LabelMatcherFor(labels, query) case Some(m) => FoundSample(labels, query) case None => None
  {
    if labels == [] {
    } else {
      AssignedLookup(labels[1..], key, value, query);
      AssignedLookup(labels[1..], key, value, labels[0].key);
      KeyNotRepeated(labels);
      var picked := Sample(labels[0].matcher);
      if labels[0].key != key && picked.Some? {
        InsertLabelLookup(SecretLabel(labels[0].key, picked.value), AssignLabels(labels[1..], key, value), query);
      }
    }
  }

  lemma {:induction false} AssignedSorted(labels: seq<KeyspaceLabel>, key: string, value: Option<string>)
    requires NoEmptyIn(labels) && DistinctKeys(labels)
    ensures SecretLabelsSorted(AssignLabels(labels, key, value))
  {
    if labels == [] {
    } else {
      AssignedSorted(labels[1..], key, value);
      var picked := Sample(labels[0].matcher);
      if labels[0].key != key && picked.Some? {
        AssignedLookup(labels[1..], key, value, labels[0].key);
        KeyNotRepeated(labels);
        InsertLabelSorted(SecretLabel(labels[0].key, picked.value), AssignLabels(labels[1..], key, value));
      }
    }
  }

  lemma {:induction false} ListedMatcherIsFound(labels: seq<KeyspaceLabel>, i: nat)
    requires i < |labels| && DistinctKeys(labels)
    ensures LabelMatcherFor(labels, labels[i].key) == Some(labels[i].matcher)
    ensures NoEmptyIn(labels) ==> FoundSample(labels, labels[i].key) == Sample(labels[i].matcher)
  {
    if i == 0 {
    } else {
      assert labels[1..][i - 1] == labels[i];
      ListedMatcherIsFound(labels[1..], i - 1);
    }
  }

  /** The assigned labels satisfy every matcher of the list, when `value` suits `key`'s own. */
  lemma AssignedLabelsMatch(labels: seq<KeyspaceLabel>, key: string, value: Option<string>)
    requires NoEmptyIn(labels) && DistinctKeys(labels)
    requires LabelMatcherFor(labels, key).Some? ==> LabelMatches(LabelMatcherFor(labels, key).value, value)
    ensures forall i :: 0 <= i < |labels| ==>
              LabelMatches(labels[i].matcher, SecretLabelValue(AssignLabels(labels, key, value), labels[i].key))
  {
    forall i | 0 <= i < |labels|
      ensures LabelMatches(labels[i].matcher, SecretLabelValue(AssignLabels(labels, key, value), labels[i].key))
    {
      ListedMatcherIsFound(labels, i);
      AssignedLookup(labels, key, value, labels[i].key);
    }
  }

  /** A string longer than, hence different from, every listed one. */
  function Fresh(values: seq<string>): string {
    if values == [] then "x" else values[0] + Fresh(values[1..])
  }

  lemma {:induction false} FreshIsNew(values: seq<string>)
    ensures forall v :: v in values ==> |v| < |Fresh(values)|
    ensures Fresh(values) !in values
  {
    if values == [] {
    } else {
      FreshIsNew(values[1..]);
      assert forall v :: v in values ==> v == values[0] || v in values[1..];
    }
  }

  lemma DistinguishingListed(allowed: seq<string>, child: Option<LabelMatcher>) returns (value: Option<string>)
    requires child != Some(In([]))
    requires child.Some? && child.value.Equals? ==> child.value.value !in allowed
    requires child.Some? && child.value.In? ==>
        exists i :: 0 <= i < |child.value.values| && child.value.values[i] !in allowed
    ensures child.Some? ==> LabelMatches(child.value, value)
    ensures value.Some? ==> value.value !in allowed
  {
    match child {
      case None => value := None;
      case Some(AnyValue) =>
        FreshIsNew(allowed);
        value := Some(Fresh(allowed));
      case Some(Equals(c)) => value := Some(c);
      case Some(In(cs)) =>
        var i :| 0 <= i < |cs| && cs[i] !in allowed;
        value := Some(cs[i]);
      case Some(Absent) => value := None;
    }
  }

  /** When a parent matcher does not subsume the child's, some value tells them apart. */
  lemma DistinguishingValue(parent: LabelMatcher, child: Option<LabelMatcher>) returns (value: Option<string>)
    requires !LabelSubsumes(parent, child) && child != Some(In([]))
    ensures child.Some? ==> LabelMatches(child.value, value)
    ensures !LabelMatches(parent, value)
  {
    match parent {
      case AnyValue => value := None;
      case Absent => value := if child.None? then Some("") else Sample(child.value);
      case Equals(e) => value := DistinguishingListed([e], child);
      case In(es) => value := DistinguishingListed(es, child);
    }
  }

  /** A tuple the child accepts and the parent refuses. */
  lemma DistinguishingTuple(parent: TupleMatcher, child: TupleMatcher) returns (tuple: seq<string>)
    requires !TupleSubsumes(parent, child) && parent != Prefix([])
    ensures TupleMatches(child, tuple) && !TupleMatches(parent, tuple)
  {
    tuple := SampleTuple(child);
    if TupleMatches(parent, tuple) {
      tuple := tuple + [""];
    }
  }

  lemma {:induction false} FoundSampleMatches(labels: seq<KeyspaceLabel>, key: string)
    requires NoEmptyIn(labels)
    ensures LabelMatcherFor(labels, key) != Some(In([]))
    ensures LabelMatcherFor(labels, key).Some? ==>
              LabelMatches(LabelMatcherFor(labels, key).value, FoundSample(labels, key))
  {
    if labels != [] && labels[0].key != key { FoundSampleMatches(labels[1..], key); }
  }

  /** Refusal always has a well-formed witness: a secret inside the child and outside the parent. */
  lemma RefusalWitness(parent: KeyspaceSelector, child: KeyspaceSelector) returns (secret: SecretSelector)
    requires Comparable(parent, child) && !SelectorSubsumes(parent, child)
    ensures ValidSecret(secret) && SelectorMatches(child, secret) && !SelectorMatches(parent, secret)
  {
    if !TupleSubsumes(parent.tuple, child.tuple) {
      var tuple := DistinguishingTuple(parent.tuple, child.tuple);
      var value := if LabelMatcherFor(child.labels, "").Some? then FoundSample(child.labels, "") else None;
      FoundSampleMatches(child.labels, "");
      AssignedSorted(child.labels, "", value);
      AssignedLabelsMatch(child.labels, "", value);
      secret := SecretSelector(tuple, AssignLabels(child.labels, "", value));
    } else {
      var i :| 0 <= i < |parent.labels|
               && !LabelSubsumes(parent.labels[i].matcher, LabelMatcherFor(child.labels, parent.labels[i].key));
      var key := parent.labels[i].key;
      FoundSampleMatches(child.labels, key);
      var value := DistinguishingValue(parent.labels[i].matcher, LabelMatcherFor(child.labels, key));
      AssignedSorted(child.labels, key, value);
      AssignedLabelsMatch(child.labels, key, value);
      AssignedLookup(child.labels, key, value, key);
      secret := SecretSelector(SampleTuple(child.tuple), AssignLabels(child.labels, key, value));
    }
  }

  /** The syntactic check is exactly containment. */
  lemma SubsumptionExact(parent: KeyspaceSelector, child: KeyspaceSelector)
    requires Comparable(parent, child)
    ensures SelectorSubsumes(parent, child) <==> Contains(parent, child)
  {
    if SelectorSubsumes(parent, child) {
      forall secret | ValidSecret(secret) && SelectorMatches(child, secret)
        ensures SelectorMatches(parent, secret)
      {
        SubsumptionSound(parent, child, secret);
      }
    } else {
      var secret := RefusalWitness(parent, child);
    }
  }

  /** Each hypothesis of exactness is needed: an empty prefix in the parent, an empty `In` in
      the child and a repeated label key in the child all make the check refuse a contained
      selector. Validation refuses all three shapes. */
  lemma NonCanonicalSelectorsAreRefused(key: string, value: string)
    ensures var any := KeyspaceSelector(AnyTuple, []);
            var emptyPrefix := KeyspaceSelector(Prefix([]), []);
            var labelled := KeyspaceSelector(AnyTuple, [KeyspaceLabel(key, Equals(value))]);
            var nothing := KeyspaceSelector(AnyTuple, [KeyspaceLabel(key + "x", In([]))]);
            var repeated := KeyspaceSelector(AnyTuple,
                              [KeyspaceLabel(key, AnyValue), KeyspaceLabel(key, Equals(value))]);
            && Contains(emptyPrefix, any) && !SelectorSubsumes(emptyPrefix, any)
            && Contains(labelled, nothing) && !SelectorSubsumes(labelled, nothing)
            && Contains(labelled, repeated) && !SelectorSubsumes(labelled, repeated)
            && !ValidKeyspace(emptyPrefix) && !ValidKeyspace(nothing) && !ValidKeyspace(repeated)
  {
    var labelled := KeyspaceSelector(AnyTuple, [KeyspaceLabel(key, Equals(value))]);
    var nothing := KeyspaceSelector(AnyTuple, [KeyspaceLabel(key + "x", In([]))]);
    var repeated := KeyspaceSelector(AnyTuple, [KeyspaceLabel(key, AnyValue), KeyspaceLabel(key, Equals(value))]);
    LessIsIrreflexive(key);
    assert Less(repeated.labels[0].key, repeated.labels[1].key) == false;
    assert LabelMatcherFor(nothing.labels, key).None?;
    assert !LabelSubsumes(labelled.labels[0].matcher, LabelMatcherFor(nothing.labels, labelled.labels[0].key));
    assert !LabelSubsumes(labelled.labels[0].matcher, LabelMatcherFor(repeated.labels, labelled.labels[0].key));
    forall secret | SelectorMatches(repeated, secret) ensures SelectorMatches(labelled, secret) {
      assert LabelMatches(repeated.labels[1].matcher, SecretLabelValue(secret.labels, repeated.labels[1].key));
    }
    forall secret ensures !SelectorMatches(nothing, secret) {
      assert !LabelMatches(nothing.labels[0].matcher, SecretLabelValue(secret.labels, nothing.labels[0].key));
    }
  }

  // ---------------------------------------------------------------------------------------
  // Subsumption is a preorder
  // ---------------------------------------------------------------------------------------

  lemma LabelSubsumptionTransitive(a: LabelMatcher, b: LabelMatcher, c: Option<LabelMatcher>)
    requires LabelSubsumes(a, Some(b)) && LabelSubsumes(b, c)
    ensures LabelSubsumes(a, c)
  {
  }

  lemma SubsumptionTransitive(a: KeyspaceSelector, b: KeyspaceSelector, c: KeyspaceSelector)
    requires SelectorSubsumes(a, b) && SelectorSubsumes(b, c)
    ensures SelectorSubsumes(a, c)
  {
    forall i | 0 <= i < |a.labels|
      ensures LabelSubsumes(a.labels[i].matcher, LabelMatcherFor(c.labels, a.labels[i].key))
    {
      var key := a.labels[i].key;
      FoundMatcherIsListed(b.labels, key);
      var mb := LabelMatcherFor(b.labels, key).value;
      LabelSubsumptionTransitive(a.labels[i].matcher, mb, LabelMatcherFor(c.labels, key));
    }
  }

  lemma SubsumptionReflexive(a: KeyspaceSelector)
    requires DistinctKeys(a.labels)
    ensures SelectorSubsumes(a, a)
  {
    forall i | 0 <= i < |a.labels|
      ensures LabelSubsumes(a.labels[i].matcher, LabelMatcherFor(a.labels, a.labels[i].key))
    {
      ListedMatcherIsFound(a.labels, i);
    }
  }
}
