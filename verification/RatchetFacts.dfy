/** What a ratchet remembers: over any history of its operations, and through its persisted form. */
module RatchetFacts {
  import opened Format
  import opened Records
  import opened Ratchet

  // ---------------------------------------------------------------------------------------
  // Absorbing persisted facts
  // ---------------------------------------------------------------------------------------

  predicate KeyedAt(facts: seq<RatchetRecord>, i: int, key: RecordKey) {
    0 <= i < |facts| && facts[i].Key() == Some(key)
  }

  /** What one fact does at one key. */
  lemma AbsorbedStep(r: RatchetState, fact: RatchetRecord, key: RecordKey)
    ensures var next, hit := Absorbed(r, fact), fact.Key() == Some(key);
            && (key in next.watermarks <==> key in r.watermarks || hit)
            && At(next.watermarks, key) ==
               (if hit then Max(At(r.watermarks, key), fact.Counter()) else At(r.watermarks, key))
            && OriginAt(next, key) ==
               (if key in r.origins then Some(r.origins[key]) else if hit then fact.Origin() else None)
  {
  }

  /** After absorbing any list of facts, each watermark is exactly the maximum of the starting
      one and the counters listed for its key. */
  lemma {:induction false} AbsorbedWatermark(r: RatchetState, facts: seq<RatchetRecord>, key: RecordKey)
    ensures var w := AbsorbedAll(r, facts).watermarks;
            && (key in w <==> key in r.watermarks || exists i :: KeyedAt(facts, i, key))
            && At(r.watermarks, key) <= At(w, key)
            && (forall i :: KeyedAt(facts, i, key) ==> facts[i].Counter() <= At(w, key))
            && (At(w, key) == At(r.watermarks, key)
                || exists i :: KeyedAt(facts, i, key) && facts[i].Counter() == At(w, key))
    decreases |facts|
  {
    if facts == [] {
    } else {
      var front, last := facts[..|facts| - 1], facts[|facts| - 1];
      AbsorbedWatermark(r, front, key);
      AbsorbedStep(AbsorbedAll(r, front), last, key);
      assert forall i :: KeyedAt(front, i, key) ==> KeyedAt(facts, i, key) && facts[i] == front[i];
      assert forall i :: KeyedAt(facts, i, key) ==> KeyedAt(front, i, key) || i == |facts| - 1;
      if last.Key() == Some(key) { assert KeyedAt(facts, |facts| - 1, key); }
    }
  }

  lemma {:induction false} AbsorbedVersion(r: RatchetState, facts: seq<RatchetRecord>)
    ensures var v := AbsorbedAll(r, facts).formatVersion;
            && r.formatVersion <= v
            && (forall i :: 0 <= i < |facts| && facts[i].FormatVersionFact? ==> facts[i].version <= v)
            && (v == r.formatVersion || FormatVersionFact(v) in facts)
    ensures AbsorbedAll(r, facts).trustedRoot == r.trustedRoot
    ensures AbsorbedAll(r, facts).unknownRecords == r.unknownRecords
    decreases |facts|
  {
    if facts == [] {
    } else {
      AbsorbedVersion(r, facts[..|facts| - 1]);
    }
  }

  predicate NamedAt(facts: seq<RatchetRecord>, i: int, key: RecordKey) {
    KeyedAt(facts, i, key) && facts[i].Origin().Some?
  }

  /** A remembered origin is never replaced; a new one is the origin of some listed fact. */
  lemma {:induction false} AbsorbedOrigin(r: RatchetState, facts: seq<RatchetRecord>, key: RecordKey)
    ensures var o := AbsorbedAll(r, facts).origins;
            && (key in o <==> key in r.origins || exists i :: NamedAt(facts, i, key))
            && (key in r.origins ==> o[key] == r.origins[key])
            && (key in o && key !in r.origins ==>
                      exists i :: NamedAt(facts, i, key) && facts[i].Origin() == Some(o[key]))
    decreases |facts|
  {
    if facts == [] {
    } else {
      var front, last := facts[..|facts| - 1], facts[|facts| - 1];
      AbsorbedOrigin(r, front, key);
      AbsorbedStep(AbsorbedAll(r, front), last, key);
      assert forall i :: NamedAt(front, i, key) ==> NamedAt(facts, i, key) && facts[i] == front[i];
      assert forall i :: NamedAt(facts, i, key) ==> NamedAt(front, i, key) || i == |facts| - 1;
      if last.Key() == Some(key) && last.Origin().Some? { assert NamedAt(facts, |facts| - 1, key); }
    }
  }

  predicate SameFacts(facts: seq<RatchetRecord>, others: seq<RatchetRecord>) {
    && (forall i :: 0 <= i < |facts| ==> facts[i] in others)
    && (forall i :: 0 <= i < |others| ==> others[i] in facts)
  }

  /** No two facts name the same key differently. */
  predicate ConsistentlyNamed(facts: seq<RatchetRecord>) {
    forall i, j | 0 <= i < |facts| && 0 <= j < |facts| ::
      facts[i].Key() == facts[j].Key() && facts[i].Origin().Some? && facts[j].Origin().Some? ==>
        facts[i].Origin() == facts[j].Origin()
  }

  lemma KeyedInBoth(facts: seq<RatchetRecord>, others: seq<RatchetRecord>, i: int, key: RecordKey) returns (j: int)
    requires SameFacts(facts, others) && KeyedAt(facts, i, key)
    ensures KeyedAt(others, j, key) && others[j] == facts[i]
  {
    j :| 0 <= j < |others| && others[j] == facts[i];
  }

  lemma SameWatermark(r: RatchetState, facts: seq<RatchetRecord>, others: seq<RatchetRecord>, key: RecordKey)
    requires SameFacts(facts, others)
    ensures key in AbsorbedAll(r, facts).watermarks ==> key in AbsorbedAll(r, others).watermarks
    ensures At(AbsorbedAll(r, facts).watermarks, key) <= At(AbsorbedAll(r, others).watermarks, key)
  {
    AbsorbedWatermark(r, facts, key);
    AbsorbedWatermark(r, others, key);
    var w := AbsorbedAll(r, facts).watermarks;
    if i :| KeyedAt(facts, i, key) {
      var j := KeyedInBoth(facts, others, i, key);
    }
    if i :| KeyedAt(facts, i, key) && facts[i].Counter() == At(w, key) {
      var j := KeyedInBoth(facts, others, i, key);
    }
  }

  lemma SameOrigin(r: RatchetState, facts: seq<RatchetRecord>, others: seq<RatchetRecord>, key: RecordKey)
    requires SameFacts(facts, others) && (ConsistentlyNamed(facts) || ConsistentlyNamed(others))
    ensures key in AbsorbedAll(r, facts).origins ==>
              key in AbsorbedAll(r, others).origins
              && AbsorbedAll(r, facts).origins[key] == AbsorbedAll(r, others).origins[key]
  {
    AbsorbedOrigin(r, facts, key);
    AbsorbedOrigin(r, others, key);
    var a, b := AbsorbedAll(r, facts).origins, AbsorbedAll(r, others).origins;
    if key in a && key !in r.origins {
      var i :| NamedAt(facts, i, key) && facts[i].Origin() == Some(a[key]);
      var j := KeyedInBoth(facts, others, i, key);
      assert NamedAt(others, j, key);
      var k :| NamedAt(others, k, key) && others[k].Origin() == Some(b[key]);
      var l := KeyedInBoth(others, facts, k, key);
    }
  }

  /** The same facts in any order, with any repetition, leave the same watermarks and format
      version; origins too when the facts name each key one way. */
  lemma AbsorbOrderIrrelevant(r: RatchetState, facts: seq<RatchetRecord>, others: seq<RatchetRecord>)
    requires SameFacts(facts, others)
    ensures AbsorbedAll(r, facts).watermarks == AbsorbedAll(r, others).watermarks
    ensures AbsorbedAll(r, facts).formatVersion == AbsorbedAll(r, others).formatVersion
    ensures ConsistentlyNamed(facts) ==> AbsorbedAll(r, facts).origins == AbsorbedAll(r, others).origins
  {
    var a, b := AbsorbedAll(r, facts), AbsorbedAll(r, others);
    forall key ensures key in a.watermarks <==> key in b.watermarks
               ensures At(a.watermarks, key) == At(b.watermarks, key)
    {
      SameWatermark(r, facts, others, key);
      SameWatermark(r, others, facts, key);
    }
    assert forall key :: key in a.watermarks ==> a.watermarks[key] == At(b.watermarks, key);
    AbsorbedVersion(r, facts);
    AbsorbedVersion(r, others);
    if ConsistentlyNamed(facts) {
      forall key ensures key in a.origins <==> key in b.origins
                 ensures key in a.origins && key in b.origins ==> a.origins[key] == b.origins[key]
      {
        SameOrigin(r, facts, others, key);
        SameOrigin(r, others, facts, key);
      }
    }
  }

  /** Without consistent naming the first fact wins, so order shows. */
  lemma InconsistentNamesShowOrder(id: HashValue)
    ensures var facts := [UserHandleFact(id, 1, "a"), UserHandleFact(id, 1, "b")];
            var swapped := [facts[1], facts[0]];
            SameFacts(facts, swapped)
            && AbsorbedAll(Fresh(0), facts).origins != AbsorbedAll(Fresh(0), swapped).origins
  {
    var a, b := UserHandleFact(id, 1, "a"), UserHandleFact(id, 1, "b");
    assert [a, b][..1] == [a] && [b, a][..1] == [b] && [a][..0] == [] && [b][..0] == [];
    assert AbsorbedAll(Fresh(0), [a]).origins == map[UserHandleKey(id) := UserHandleOrigin("a")];
    assert AbsorbedAll(Fresh(0), [b]).origins == map[UserHandleKey(id) := UserHandleOrigin("b")];
    assert AbsorbedAll(Fresh(0), [a, b]).origins[UserHandleKey(id)] == UserHandleOrigin("a");
    assert AbsorbedAll(Fresh(0), [b, a]).origins[UserHandleKey(id)] == UserHandleOrigin("b");
  }

  // ---------------------------------------------------------------------------------------
  // The encoding round trip
  // ---------------------------------------------------------------------------------------

  /** No root key, and origins only at watermarked keys of a kind that can carry them. */
  predicate WellFormed(r: RatchetState) {
    && VaultRootKey !in r.watermarks
    && forall key :: key in r.origins ==> key in r.watermarks && Carries(key, r.origins[key])
  }

  ghost predicate Lists(facts: seq<RatchetRecord>, r: RatchetState) {
    forall fact :: fact in facts <==> IsRecordOf(r, fact)
  }

  lemma ListedFact(r: RatchetState, facts: seq<RatchetRecord>, key: RecordKey) returns (i: int)
    requires Lists(facts, r) && key in r.watermarks && key != VaultRootKey
    ensures KeyedAt(facts, i, key) && facts[i].Counter() == r.watermarks[key]
    ensures facts[i].Origin() == if key in r.origins && Carries(key, r.origins[key]) then Some(r.origins[key]) else None
  {
    ForKeyReadsBack(key, r.watermarks[key], OriginAt(r, key));
    var fact := ForKey(key, r.watermarks[key], OriginAt(r, key)).value;
    assert IsRecordOf(r, fact);
    assert fact in facts;
    i :| 0 <= i < |facts| && facts[i] == fact;
  }

  lemma ListedFactsOnly(r: RatchetState, facts: seq<RatchetRecord>, i: int, key: RecordKey)
    requires Lists(facts, r) && KeyedAt(facts, i, key)
    ensures key in r.watermarks && key != VaultRootKey && facts[i].Counter() == r.watermarks[key]
    ensures facts[i].Origin() == if key in r.origins && Carries(key, r.origins[key]) then Some(r.origins[key]) else None
  {
    assert facts[i] in facts;
    var k :| k in r.watermarks && ForKey(k, r.watermarks[k], OriginAt(r, k)) == Some(facts[i]);
    ForKeyReadsBack(k, r.watermarks[k], OriginAt(r, k));
  }

  /** The watermarks and origins that survive encoding. */
  function Encodable(r: RatchetState): Watermarks {
    r.watermarks - {VaultRootKey}
  }

  function EncodableOrigins(r: RatchetState): Origins {
    map key | key in r.origins && key in Encodable(r) && Carries(key, r.origins[key]) :: r.origins[key]
  }

  /** The pointwise join of two ratchets as `after` is written down: the higher counter at each
      key, the origin remembered first, the higher format version. */
  function Joined(r: RatchetState, after: RatchetState): RatchetState {
    r.(watermarks := PointwiseMax(r.watermarks, Encodable(after)),
       origins := EncodableOrigins(after) + r.origins,
       formatVersion := Max(r.formatVersion, after.formatVersion))
  }

  function OriginIn(origins: Origins, key: RecordKey): Option<KeyOrigin> {
    if key in origins then Some(origins[key]) else None
  }

  lemma ListedAt(r: RatchetState, after: RatchetState, facts: seq<RatchetRecord>, key: RecordKey)
    requires Lists(facts, after)
    ensures var absorbed, joined := AbsorbedAll(r, facts), Joined(r, after);
            && (key in absorbed.watermarks <==> key in joined.watermarks)
            && At(absorbed.watermarks, key) == At(joined.watermarks, key)
            && OriginAt(absorbed, key) == OriginAt(joined, key)
  {
    AbsorbedWatermark(r, facts, key);
    AbsorbedOrigin(r, facts, key);
    forall i | KeyedAt(facts, i, key)
      ensures key in Encodable(after) && facts[i].Counter() == after.watermarks[key]
      ensures facts[i].Origin() == OriginIn(EncodableOrigins(after), key)
    {
      ListedFactsOnly(after, facts, i, key);
    }
    if key in Encodable(after) {
      var i := ListedFact(after, facts, key);
      assert key in EncodableOrigins(after) ==> NamedAt(facts, i, key);
    }
  }

  lemma ListedVersion(r: RatchetState, after: RatchetState, facts: seq<RatchetRecord>)
    requires Lists(facts, after)
    ensures AbsorbedAll(r, facts).formatVersion == Max(r.formatVersion, after.formatVersion)
  {
    AbsorbedVersion(r, facts);
    forall fact | fact in facts && fact.FormatVersionFact? ensures fact.version == after.formatVersion {
      if key :| key in after.watermarks && ForKey(key, after.watermarks[key], OriginAt(after, key)) == Some(fact) {
        ForKeyReadsBack(key, after.watermarks[key], OriginAt(after, key));
      }
    }
    if after.formatVersion > 0 {
      assert IsRecordOf(after, FormatVersionFact(after.formatVersion));
      var i :| 0 <= i < |facts| && facts[i] == FormatVersionFact(after.formatVersion);
    }
  }

  lemma SameEverywhere(a: RatchetState, b: RatchetState)
    requires forall key :: key in a.watermarks <==> key in b.watermarks
    requires forall key :: At(a.watermarks, key) == At(b.watermarks, key)
    requires forall key :: OriginAt(a, key) == OriginAt(b, key)
    ensures a.watermarks == b.watermarks && a.origins == b.origins
  {
    forall key | key in a.watermarks ensures a.watermarks[key] == b.watermarks[key] {
      assert At(a.watermarks, key) == At(b.watermarks, key);
    }
    forall key ensures key in a.origins <==> key in b.origins
               ensures key in a.origins && key in b.origins ==> a.origins[key] == b.origins[key]
    {
      assert OriginAt(a, key) == OriginAt(b, key);
    }
  }

  /** Absorbing another ratchet's records, in any order and with any repetition, is the join. */
  lemma AbsorbListed(r: RatchetState, after: RatchetState, facts: seq<RatchetRecord>)
    requires Lists(facts, after)
    ensures AbsorbedAll(r, facts) == Joined(r, after)
  {
    var absorbed, joined := AbsorbedAll(r, facts), Joined(r, after);
    AbsorbedVersion(r, facts);
    ListedVersion(r, after, facts);
    forall key ensures key in absorbed.watermarks <==> key in joined.watermarks
               ensures At(absorbed.watermarks, key) == At(joined.watermarks, key)
               ensures OriginAt(absorbed, key) == OriginAt(joined, key)
    {
      ListedAt(r, after, facts, key);
    }
    SameEverywhere(absorbed, joined);
  }

  /** Absorbing a ratchet's records, in any order and with any repetition, into a fresh ratchet
      restores it exactly when it is well-formed. */
  lemma EncodingRoundTrip(r: RatchetState, facts: seq<RatchetRecord>)
    requires Lists(facts, r)
    ensures AbsorbedAll(Fresh(r.trustedRoot), facts) == r.(unknownRecords := []) <==> WellFormed(r)
  {
    AbsorbListed(Fresh(r.trustedRoot), r, facts);
    var restored := Joined(Fresh(r.trustedRoot), r);
    assert restored.watermarks == Encodable(r);
    assert restored.origins == EncodableOrigins(r);
    if WellFormed(r) {
      assert EncodableOrigins(r) == r.origins;
    }
    if restored == r.(unknownRecords := []) {
      forall key | key in r.origins ensures key in r.watermarks && Carries(key, r.origins[key]) {
        assert key in EncodableOrigins(r);
      }
    }
  }

  // ---------------------------------------------------------------------------------------
  // Histories
  // ---------------------------------------------------------------------------------------

  datatype Event =
    | Apply(update: RatchetUpdate)
    | Absorb(fact: RatchetRecord)
    | Accept(key: RecordKey, counter: nat)

  function After(r: RatchetState, event: Event): RatchetState {
    match event
    case Apply(update) => Updated(r, update)
    case Absorb(fact) => Absorbed(r, fact)
    case Accept(key, counter) => Lowered(r, key, counter)
  }

  function AfterAll(r: RatchetState, events: seq<Event>): RatchetState {
    if events == [] then r else After(AfterAll(r, events[..|events| - 1]), events[|events| - 1])
  }

  /** The counter an event raises `key` to, if it raises it. */
  function Raises(event: Event, key: RecordKey): Option<nat> {
    match event
    case Apply(update) => if key in update.raisedWatermarks then Some(update.raisedWatermarks[key]) else None
    case Absorb(fact) => if fact.Key() == Some(key) then Some(fact.Counter()) else None
    case Accept(_, _) => None
  }

  predicate AcceptsAt(events: seq<Event>, i: int, key: RecordKey) {
    0 <= i < |events| && events[i].Accept? && events[i].key == key
  }

  /** `last` is the index of the key's last acceptance, or -1 when there is none. */
  predicate LastAcceptance(events: seq<Event>, key: RecordKey, last: int) {
    && -1 <= last < |events|
    && (last >= 0 ==> AcceptsAt(events, last, key))
    && forall i :: last < i < |events| ==> !AcceptsAt(events, i, key)
  }

  /** What the key stood at when its history last began. */
  function Floor(start: Watermarks, events: seq<Event>, key: RecordKey, last: int): Option<nat>
    requires -1 <= last < |events| && (last >= 0 ==> events[last].Accept?)
  {
    if last == -1 then if key in start then Some(start[key]) else None
    else if events[last].counter == 0 then None
    else Some(events[last].counter)
  }

  predicate RaisedAt(events: seq<Event>, i: int, key: RecordKey) {
    0 <= i < |events| && Raises(events[i], key).Some?
  }

  /** `w` is the maximum of the floor and every raise after `last`; absent when there is neither. */
  ghost predicate IsMaximumSince(w: Option<nat>, floor: Option<nat>, events: seq<Event>, key: RecordKey, last: int) {
    && (w.None? <==> floor.None? && !exists i :: last < i && RaisedAt(events, i, key))
    && (w.Some? ==>
          && (floor.Some? ==> floor.value <= w.value)
          && (forall i :: last < i && RaisedAt(events, i, key) ==> Raises(events[i], key).value <= w.value)
          && (w == floor || exists i :: last < i && RaisedAt(events, i, key) && Raises(events[i], key) == w))
  }

  function WatermarkOf(r: RatchetState, key: RecordKey): Option<nat> {
    if key in r.watermarks then Some(r.watermarks[key]) else None
  }

  function Raise(w: Option<nat>, raise: Option<nat>): Option<nat> {
    match (w, raise)
    case (_, None) => w
    case (None, Some(c)) => Some(c)
    case (Some(n), Some(c)) => Some(Max(n, c))
  }

  /** An event that is not the key's own acceptance raises it or leaves it alone. */
  lemma OneMoreEvent(r: RatchetState, event: Event, key: RecordKey)
    requires !(event.Accept? && event.key == key)
    ensures WatermarkOf(After(r, event), key) == Raise(WatermarkOf(r, key), Raises(event, key))
  {
  }

  lemma ExtendMaximum(w: Option<nat>, floor: Option<nat>, events: seq<Event>, key: RecordKey, last: int)
    requires events != [] && -1 <= last < |events| - 1
    requires IsMaximumSince(w, floor, events[..|events| - 1], key, last)
    ensures IsMaximumSince(Raise(w, Raises(events[|events| - 1], key)), floor, events, key, last)
  {
    var front, end := events[..|events| - 1], |events| - 1;
    assert forall i :: RaisedAt(front, i, key) ==>
        RaisedAt(events, i, key) && Raises(front[i], key) == Raises(events[i], key);
    assert forall i :: RaisedAt(events, i, key) ==> RaisedAt(front, i, key) || i == end;
    if Raises(events[end], key).Some? { assert RaisedAt(events, end, key); }
  }

  /** After any history, each watermark is the maximum of the counters raised since the key's
      last acceptance, with the accepted counter as floor. */
  lemma {:induction false} WatermarkHistory(start: RatchetState, events: seq<Event>, key: RecordKey, last: int)
    requires LastAcceptance(events, key, last)
    ensures IsMaximumSince(WatermarkOf(AfterAll(start, events), key),
                           Floor(start.watermarks, events, key, last), events, key, last)
    decreases |events|
  {
    if last == |events| - 1 {
      if events != [] {
        assert AcceptsAt(events, last, key);
      }
    } else {
      var front, event := events[..|events| - 1], events[|events| - 1];
      assert !AcceptsAt(events, |events| - 1, key);
      assert forall i :: 0 <= i < |front| ==> front[i] == events[i];
      assert forall i :: AcceptsAt(front, i, key) ==> AcceptsAt(events, i, key);
      assert LastAcceptance(front, key, last) by {
        if last >= 0 { assert AcceptsAt(events, last, key); }
      }
      WatermarkHistory(start, front, key, last);
      OneMoreEvent(AfterAll(start, front), event, key);
      var floor := Floor(start.watermarks, events, key, last);
      ExtendMaximum(WatermarkOf(AfterAll(start, front), key), floor, events, key, last);
    }
  }

  /** An acceptance changes no other key. */
  lemma AcceptanceIsLocal(r: RatchetState, key: RecordKey, counter: nat, other: RecordKey)
    requires other != key
    ensures WatermarkOf(Lowered(r, key, counter), other) == WatermarkOf(r, other)
    ensures OriginAt(Lowered(r, key, counter), other) == OriginAt(r, other)
  {
  }

  // ---------------------------------------------------------------------------------------
  // Rollback detection
  // ---------------------------------------------------------------------------------------

  /** The keys whose verified counter fell below the remembered one. */
  function RollbackKeys(remembered: Watermarks, current: Watermarks): set<RecordKey> {
    set key | key in remembered && At(current, key) < remembered[key]
  }

  /** Accepting what the vault shows clears that key's rollback and no other. */
  lemma AcceptanceClearsExactly(r: RatchetState, current: Watermarks, key: RecordKey)
    ensures RollbackKeys(Lowered(r, key, At(current, key)).watermarks, current)
         == RollbackKeys(r.watermarks, current) - {key}
  {
  }

  /** Folding in a validation leaves no key regressed against that validation's counters
      exactly when none was. */
  lemma UpdateNeverHidesRollback(r: RatchetState, update: RatchetUpdate, current: Watermarks)
    requires forall key :: key in update.raisedWatermarks ==> update.raisedWatermarks[key] == At(current, key)
    ensures RollbackKeys(Updated(r, update).watermarks, current) == RollbackKeys(r.watermarks, current)
  {
  }

  /** Two ratchets ordered by what they remember. */
  predicate AtLeast(r: RatchetState, lower: RatchetState) {
    && lower.formatVersion <= r.formatVersion
    && forall key :: key in lower.watermarks ==> key in r.watermarks && lower.watermarks[key] <= r.watermarks[key]
  }

  lemma UpdateOnlyRaises(r: RatchetState, update: RatchetUpdate)
    ensures AtLeast(Updated(r, update), r)
  {
  }

  /** What an update makes of a ratchet, key by key: the higher counter, the origin remembered first
      or else the update's, the higher version; and nothing else. */
  lemma UpdatedSpelled(r: RatchetState, update: RatchetUpdate, key: RecordKey)
    ensures var next := Updated(r, update);
            && (key in next.watermarks <==> key in r.watermarks || key in update.raisedWatermarks)
            && (key in r.watermarks && key in update.raisedWatermarks ==>
                  next.watermarks[key] == (if r.watermarks[key] < update.raisedWatermarks[key]
                                           then update.raisedWatermarks[key] else r.watermarks[key]))
            && (key in r.watermarks && key !in update.raisedWatermarks ==> next.watermarks[key] == r.watermarks[key])
            && (key !in r.watermarks && key in update.raisedWatermarks ==>
                  next.watermarks[key] == update.raisedWatermarks[key])
            && (key in r.origins ==> key in next.origins && next.origins[key] == r.origins[key])
            && (key !in r.origins && key in update.origins ==>
                  key in next.origins && next.origins[key] == update.origins[key])
            && (key !in r.origins && key !in update.origins ==> key !in next.origins)
            && next.formatVersion == (if update.raisedFormatVersion.Some?
                && r.formatVersion < update.raisedFormatVersion.value
                                      then update.raisedFormatVersion.value else r.formatVersion)
            && next.trustedRoot == r.trustedRoot && next.unknownRecords == r.unknownRecords
  {
  }

  /** And what an acceptance makes of the key it is about. */
  lemma AcceptedSpelled(r: RatchetState, key: RecordKey, counter: nat)
    ensures var next := Lowered(r, key, counter);
            && (counter == 0 ==> key !in next.watermarks && key !in next.origins)
            && (counter > 0 ==>
                  key in next.watermarks && next.watermarks[key] == counter && OriginAt(next, key) == OriginAt(r, key))
            && next.formatVersion == r.formatVersion && next.trustedRoot == r.trustedRoot
            && next.unknownRecords == r.unknownRecords
  {
  }
}
