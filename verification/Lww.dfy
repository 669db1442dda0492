/**
 Last-writer-wins resolution of verified records. A key whose highest counter carries diverging
 bodies has no winner, and resolving such a conflict is proved to work and to touch nothing else.
 */
module Lww {
  import opened Format
  import opened Records
  import opened Ratchet
  import opened RatchetFacts

  datatype VerifiedRecord = VerifiedRecord(hash: HashValue, body: RecordBody, key: RecordKey, signer: UserId)

  function CounterOf(record: VerifiedRecord): nat {
    match record.body.LwwCounter() case Some(c) => c case None => 0
  }

  datatype ConflictSlot = ConflictSlot(counter: nat, candidates: set<HashValue>)

  datatype Resolution = Resolution(winners: map<RecordKey, VerifiedRecord>, conflicted: map<RecordKey, ConflictSlot>)

  // ---------------------------------------------------------------------------------------
  // What resolution means
  // ---------------------------------------------------------------------------------------

  /** What a resolution is asked under: the rollback-suspected keys, and the authority gate of
      the record class being resolved. */
  datatype Rules = Rules(rollbacks: set<RecordKey>, admits: VerifiedRecord -> bool)

  /** Records at a rollback-suspected key are inert; the rest compete if their class admits them. */
  predicate Competes(record: VerifiedRecord, rules: Rules) {
    record.key !in rules.rollbacks && rules.admits(record)
  }

  /** `record` carries the highest counter among the competitors at its key. */
  ghost predicate Leads(records: seq<VerifiedRecord>, rules: Rules, record: VerifiedRecord) {
    && record in records && Competes(record, rules)
    && forall other :: other in records && Competes(other, rules) && other.key == record.key ==>
         CounterOf(other) <= CounterOf(record)
  }

  ghost predicate Contested(records: seq<VerifiedRecord>, rules: Rules, key: RecordKey) {
    exists a, b :: Leads(records, rules, a) && Leads(records, rules, b)
                   && a.key == key && b.key == key && a.body != b.body
  }

  /** A winner leads its key, uncontested, with the least hash among equal leaders; a conflict
      lists exactly the leaders of a contested key; a key without competitors has neither. */
  ghost predicate IsResolutionAt(records: seq<VerifiedRecord>, rules: Rules, r: Resolution, key: RecordKey) {
    && (key in r.winners <==> (exists a :: Leads(records, rules, a) && a.key == key) && !Contested(records, rules, key))
    && (key in r.conflicted <==> Contested(records, rules, key))
    && (key in r.winners ==>
          && Leads(records, rules, r.winners[key]) && r.winners[key].key == key
          && forall a :: Leads(records, rules, a) && a.key == key ==> r.winners[key].hash <= a.hash)
    && (key in r.conflicted ==>
          && (forall h :: h in r.conflicted[key].candidates <==>
                exists a :: Leads(records, rules, a) && a.key == key && a.hash == h)
          && (forall a :: Leads(records, rules, a) && a.key == key ==> CounterOf(a) == r.conflicted[key].counter))
  }

  ghost predicate IsResolution(records: seq<VerifiedRecord>, rules: Rules, r: Resolution) {
    forall key :: IsResolutionAt(records, rules, r, key)
  }

  // ---------------------------------------------------------------------------------------
  // The resolution loop
  // ---------------------------------------------------------------------------------------

  type Slots = map<RecordKey, seq<VerifiedRecord>>

  /** Every slot holds exactly the leaders, so far, of its key. */
  ghost predicate SlotsLead(slots: Slots, records: seq<VerifiedRecord>, rules: Rules) {
    && (forall key :: key in slots ==> slots[key] != [])
    && forall record: VerifiedRecord :: (record.key in slots && record in slots[record.key]) <==>
              Leads(records, rules, record)
  }

  ghost predicate SlotsKeyed(slots: Slots) {
    forall key, record :: key in slots && record in slots[key] ==> record.key == key
  }

  /** A competitor replaces lower leaders, joins equal ones and yields to higher ones. */
  function Pushed(slots: Slots, record: VerifiedRecord): Slots
    requires forall key :: key in slots ==> slots[key] != []
  {
    if record.key !in slots then slots[record.key := [record]]
    else
      var leading := CounterOf(slots[record.key][0]);
      if CounterOf(record) > leading then slots[record.key := [record]]
      else if CounterOf(record) == leading then slots[record.key := slots[record.key] + [record]]
      else slots
  }

  lemma InertRecord(slots: Slots, records: seq<VerifiedRecord>, rules: Rules, record: VerifiedRecord)
    requires SlotsLead(slots, records, rules) && !Competes(record, rules)
    ensures SlotsLead(slots, records + [record], rules)
  {
    forall r ensures Leads(records + [record], rules, r) <==> Leads(records, rules, r) {}
  }

  /** How one more competitor changes who leads. */
  lemma LeadsAfter(records: seq<VerifiedRecord>, rules: Rules,
                   record: VerifiedRecord, r: VerifiedRecord)
    requires Competes(record, rules)
    ensures Leads(records + [record], rules, r) <==>
            if r.key != record.key then Leads(records, rules, r)
            else
              || (Leads(records, rules, r) && CounterOf(record) <= CounterOf(r))
              || (r == record && forall o :: o in records && Competes(o, rules) && o.key == record.key ==>
                    CounterOf(o) <= CounterOf(record))
  {
    var more := records + [record];
    assert forall o :: o in more <==> o in records || o == record;
  }

  lemma {:induction false} LeaderExists(records: seq<VerifiedRecord>, rules: Rules, key: RecordKey)
    ensures (exists o :: o in records && Competes(o, rules) && o.key == key) ==>
            exists a :: Leads(records, rules, a) && a.key == key
  {
    if records == [] {
    } else {
      var front, last := records[..|records| - 1], records[|records| - 1];
      assert records == front + [last];
      LeaderExists(front, rules, key);
      if Competes(last, rules) {
        if a :| Leads(front, rules, a) && a.key == key {
          LeadsAfter(front, rules, last, a);
          LeadsAfter(front, rules, last, last);
        } else {
          LeadsAfter(front, rules, last, last);
        }
      } else {
        forall r ensures Leads(records, rules, r) <==> Leads(front, rules, r) {}
      }
    }
  }

  lemma PushedRecord(slots: Slots, records: seq<VerifiedRecord>, rules: Rules, record: VerifiedRecord)
    requires SlotsLead(slots, records, rules) && SlotsKeyed(slots) && Competes(record, rules)
    ensures SlotsLead(Pushed(slots, record), records + [record], rules) && SlotsKeyed(Pushed(slots, record))
  {
    var next := Pushed(slots, record);
    LeaderExists(records, rules, record.key);
    if record.key in slots {
      assert slots[record.key][0] in slots[record.key];
      assert Leads(records, rules, slots[record.key][0]);
    }
    forall r: VerifiedRecord ensures (r.key in next && r in next[r.key]) <==> Leads(records + [record], rules, r) {
      LeadsAfter(records, rules, record, r);
    }
  }

  method CollectSlots(records: seq<VerifiedRecord>, rules: Rules) returns (slots: Slots)
    ensures SlotsLead(slots, records, rules) && SlotsKeyed(slots)
  {
    slots := map[];
    for i := 0 to |records|
      invariant SlotsLead(slots, records[..i], rules) && SlotsKeyed(slots)
    {
      var record := records[i];
      assert records[..i + 1] == records[..i] + [record];
      if record.key in rules.rollbacks || !rules.admits(record) {
        InertRecord(slots, records[..i], rules, record);
        continue;
      }
      PushedRecord(slots, records[..i], rules, record);
      slots := Pushed(slots, record);
    }
    assert records[..|records|] == records;
  }

  /** The least hash among a slot's candidates. */
  method LeastHash(candidates: seq<VerifiedRecord>) returns (winner: VerifiedRecord)
    requires candidates != []
    ensures winner in candidates && forall c :: c in candidates ==> winner.hash <= c.hash
  {
    winner := candidates[0];
    for i := 1 to |candidates|
      invariant winner in candidates && forall j :: 0 <= j < i ==> winner.hash <= candidates[j].hash
    {
      if candidates[i].hash < winner.hash {
        winner := candidates[i];
      }
    }
  }

  /** The verdict on one key's leaders. */
  datatype Verdict = Won(winner: VerifiedRecord) | Split(slot: ConflictSlot)

  predicate Diverging(candidates: seq<VerifiedRecord>)
    requires candidates != []
  {
    exists i :: 0 <= i < |candidates| && candidates[i].body != candidates[0].body
  }

  predicate Settles(candidates: seq<VerifiedRecord>, verdict: Verdict)
    requires candidates != []
  {
    match verdict
    case Won(winner) =>
      !Diverging(candidates) && winner in candidates && forall c :: c in candidates ==> winner.hash <= c.hash
    case Split(slot) =>
      Diverging(candidates) && slot == ConflictSlot(CounterOf(candidates[0]), set c | c in candidates :: c.hash)
  }

  method Settle(candidates: seq<VerifiedRecord>) returns (verdict: Verdict)
    requires candidates != []
    ensures Settles(candidates, verdict)
  {
    if Diverging(candidates) {
      verdict := Split(ConflictSlot(CounterOf(candidates[0]), set c | c in candidates :: c.hash));
    } else {
      var winner := LeastHash(candidates);
      verdict := Won(winner);
    }
  }

  function VerdictAt(r: Resolution, key: RecordKey): Option<Verdict> {
    if key in r.winners then if key in r.conflicted then None else Some(Won(r.winners[key]))
    else if key in r.conflicted then Some(Split(r.conflicted[key]))
    else None
  }

  ghost predicate SettledAt(r: Resolution, slots: Slots, key: RecordKey) {
    if key in slots then slots[key] != [] && VerdictAt(r, key).Some? && Settles(slots[key], VerdictAt(r, key).value)
    else key !in r.winners && key !in r.conflicted
  }

  lemma DivergingIsContested(records: seq<VerifiedRecord>, rules: Rules, slots: Slots, key: RecordKey)
    requires SlotsLead(slots, records, rules) && SlotsKeyed(slots) && key in slots && Diverging(slots[key])
    ensures Contested(records, rules, key)
  {
    var candidates := slots[key];
    var i :| 0 <= i < |candidates| && candidates[i].body != candidates[0].body;
    assert candidates[i] in candidates && candidates[0] in candidates;
    assert Leads(records, rules, candidates[i]) && Leads(records, rules, candidates[0]);
  }

  lemma ContestedIffDiverging(records: seq<VerifiedRecord>, rules: Rules, slots: Slots, key: RecordKey)
    requires SlotsLead(slots, records, rules) && SlotsKeyed(slots) && key in slots
    ensures Contested(records, rules, key) <==> Diverging(slots[key])
  {
    var candidates := slots[key];
    if Diverging(candidates) { DivergingIsContested(records, rules, slots, key); }
    if Contested(records, rules, key) {
      var a, b :| Leads(records, rules, a) && Leads(records, rules, b)
                  && a.key == key && b.key == key && a.body != b.body;
      var i :| 0 <= i < |candidates| && candidates[i] == a;
      var j :| 0 <= j < |candidates| && candidates[j] == b;
    }
  }

  lemma SettledIsResolution(records: seq<VerifiedRecord>, rules: Rules, slots: Slots, r: Resolution, key: RecordKey)
    requires SlotsLead(slots, records, rules) && SlotsKeyed(slots) && SettledAt(r, slots, key)
    ensures IsResolutionAt(records, rules, r, key)
  {
    if key in slots {
      var candidates := slots[key];
      assert candidates[0] in candidates;
      assert Leads(records, rules, candidates[0]) && candidates[0].key == key;
      ContestedIffDiverging(records, rules, slots, key);
    }
  }

  method LwwResolution(records: seq<VerifiedRecord>, rules: Rules) returns (r: Resolution)
    ensures IsResolution(records, rules, r)
  {
    var slots := CollectSlots(records, rules);
    r := Resolution(map[], map[]);
    var pending := slots.Keys;
    while pending != {}
      invariant pending <= slots.Keys
      invariant forall key :: key in pending ==> key !in r.winners && key !in r.conflicted
      invariant forall key :: key !in pending ==> SettledAt(r, slots, key)
    {
      var key :| key in pending;
      var verdict := Settle(slots[key]);
      ghost var before := r;
      match verdict {
        case Won(winner) => r := r.(winners := r.winners[key := winner]);
        case Split(slot) => r := r.(conflicted := r.conflicted[key := slot]);
      }
      pending := pending - {key};
      assert VerdictAt(r, key) == Some(verdict);
      forall k | k !in pending ensures SettledAt(r, slots, k) {
        if k != key { assert SettledAt(before, slots, k); }
      }
    }
    forall key ensures IsResolutionAt(records, rules, r, key) {
      SettledIsResolution(records, rules, slots, r, key);
    }
  }

  // ---------------------------------------------------------------------------------------
  // Resolution is a function of the record set
  // ---------------------------------------------------------------------------------------

  /** Distinct records have distinct hashes: the hash commits to the whole envelope. */
  predicate HashesIdentify(records: seq<VerifiedRecord>) {
    forall i, j :: 0 <= i < |records| && 0 <= j < |records| && records[i].hash == records[j].hash ==>
        records[i] == records[j]
  }

  /** A key with the same leaders gets the same verdict. */
  lemma KeyKeepsVerdict(records: seq<VerifiedRecord>, rules: Rules, records': seq<VerifiedRecord>, rules': Rules,
                        before: Resolution, after: Resolution, key: RecordKey)
    requires HashesIdentify(records)
    requires forall r: VerifiedRecord :: r.key == key ==> (Leads(records', rules', r) <==> Leads(records, rules, r))
    requires IsResolutionAt(records, rules, before, key) && IsResolutionAt(records', rules', after, key)
    ensures key in before.winners <==> key in after.winners
    ensures key in before.winners && key in after.winners ==> before.winners[key] == after.winners[key]
    ensures key in before.conflicted <==> key in after.conflicted
    ensures key in before.conflicted && key in after.conflicted ==> before.conflicted[key] == after.conflicted[key]
  {
    assert Contested(records, rules, key) <==> Contested(records', rules', key);
    if key in before.winners && key in after.winners {
      var i :| 0 <= i < |records| && records[i] == before.winners[key];
      var j :| 0 <= j < |records| && records[j] == after.winners[key];
      assert records[i].hash == records[j].hash;
    }
    if key in before.conflicted && key in after.conflicted {
      assert before.conflicted[key].candidates == after.conflicted[key].candidates;
      var a, b :| Leads(records, rules, a) && Leads(records, rules, b)
                  && a.key == key && b.key == key && a.body != b.body;
      assert CounterOf(a) == before.conflicted[key].counter == after.conflicted[key].counter;
    }
  }

  lemma ResolutionUnique(
    records: seq<VerifiedRecord>, others: seq<VerifiedRecord>, rules: Rules, r: Resolution, s: Resolution)
    requires forall x :: x in records <==> x in others
    requires HashesIdentify(records)
    requires IsResolution(records, rules, r) && IsResolution(others, rules, s)
    ensures r == s
  {
    forall x ensures Leads(records, rules, x) <==> Leads(others, rules, x) {}
    forall key ensures key in r.winners <==> key in s.winners
               ensures key in r.winners && key in s.winners ==> r.winners[key] == s.winners[key]
               ensures key in r.conflicted <==> key in s.conflicted
               ensures key in r.conflicted && key in s.conflicted ==> r.conflicted[key] == s.conflicted[key]
    {
      KeyKeepsVerdict(records, rules, others, rules, r, s, key);
    }
  }
}
