/**
 The local rollback ratchet: the highest verified counter at each record key. It only rises, except
 through one explicit acceptance, and its persisted form determines it.
 */
module Ratchet {
  import opened Format
  import opened Records

  type Watermarks = map<RecordKey, nat>
  type Origins = map<RecordKey, KeyOrigin>

  datatype RatchetState = RatchetState(
    trustedRoot: HashValue,
    watermarks: Watermarks,
    origins: Origins,
    formatVersion: nat,
    unknownRecords: seq<Bytes>)

  datatype RatchetUpdate = RatchetUpdate(
    raisedWatermarks: Watermarks, origins: Origins, raisedFormatVersion: Option<nat>)

  function Max(a: nat, b: nat): nat {
    if a < b then b else a
  }

  /** The remembered counter, zero when nothing is remembered. */
  function At(watermarks: Watermarks, key: RecordKey): nat {
    if key in watermarks then watermarks[key] else 0
  }

  function Raised(watermarks: Watermarks, key: RecordKey, counter: nat): Watermarks {
    watermarks[key := Max(At(watermarks, key), counter)]
  }

  /** The first origin remembered at a key sticks. */
  function Remembered(origins: Origins, key: RecordKey, origin: KeyOrigin): Origins {
    if key in origins then origins else origins[key := origin]
  }

  function Fresh(trustedRoot: HashValue): RatchetState {
    RatchetState(trustedRoot, map[], map[], 0, [])
  }

  function PointwiseMax(a: Watermarks, b: Watermarks): Watermarks {
    map key | key in a.Keys + b.Keys :: Max(At(a, key), At(b, key))
  }

  function Updated(r: RatchetState, update: RatchetUpdate): RatchetState {
    r.(watermarks := PointwiseMax(r.watermarks, update.raisedWatermarks),
       origins := update.origins + r.origins,
       formatVersion := if update.raisedFormatVersion.Some?
                        then Max(r.formatVersion, update.raisedFormatVersion.value) else r.formatVersion)
  }

  lemma PointwiseMaxOneMore(a: Watermarks, b: Watermarks, pending: set<RecordKey>, key: RecordKey)
    requires key in pending && pending <= b.Keys
    ensures PointwiseMax(a, b - (pending - {key})) == Raised(PointwiseMax(a, b - pending), key, b[key])
  {
    var less, more := b - pending, b - (pending - {key});
    assert more.Keys == less.Keys + {key};
    assert forall k :: k in less ==> more[k] == less[k];
  }

  function Absorbed(r: RatchetState, fact: RatchetRecord): RatchetState {
    match fact
    case TrustedRootFact(_) => r
    case FormatVersionFact(version) => r.(formatVersion := Max(r.formatVersion, version))
    case _ =>
      match fact.Key()
      case None => r
      case Some(key) =>
        r.(watermarks := Raised(r.watermarks, key, fact.Counter()),
           origins := match fact.Origin()
                      case Some(origin) => Remembered(r.origins, key, origin)
                      case None => r.origins)
  }

  function AbsorbedAll(r: RatchetState, facts: seq<RatchetRecord>): RatchetState {
    if facts == [] then r else Absorbed(AbsorbedAll(r, facts[..|facts| - 1]), facts[|facts| - 1])
  }

  function OriginAt(r: RatchetState, key: RecordKey): Option<KeyOrigin> {
    if key in r.origins then Some(r.origins[key]) else None
  }

  /** Whether `fact` is one of the records a ratchet is written as. */
  predicate IsRecordOf(r: RatchetState, fact: RatchetRecord) {
    || (exists key :: key in r.watermarks && ForKey(key, r.watermarks[key], OriginAt(r, key)) == Some(fact))
    || (r.formatVersion > 0 && fact == FormatVersionFact(r.formatVersion))
    || fact == TrustedRootFact(r.trustedRoot)
  }

  datatype ConflictKind = Tie | Rollback(rememberedCounter: nat)
  datatype Conflict = Conflict(counter: nat, kind: ConflictKind)
  datatype AcceptOutcome =
    | Accepted(rememberedCounter: nat, acceptedCounter: nat)
    | NoConflict | TieNeedsWinner

  /** Forget `key` down to what the vault shows; nothing at all when it shows nothing. */
  function Lowered(r: RatchetState, key: RecordKey, counter: nat): RatchetState {
    if counter == 0 then r.(watermarks := r.watermarks - {key}, origins := r.origins - {key})
    else r.(watermarks := r.watermarks[key := counter])
  }

  // ---------------------------------------------------------------------------------------
  // The mutable ratchet
  // ---------------------------------------------------------------------------------------

  class LocalRatchet {
    const trustedRoot: HashValue
    var watermarks: Watermarks
    var origins: Origins
    var formatVersion: nat
    var unknownRecords: seq<Bytes>

    function Value(): RatchetState
      reads this
    {
      RatchetState(trustedRoot, watermarks, origins, formatVersion, unknownRecords)
    }

    constructor (trustedRoot: HashValue)
      ensures Value() == Fresh(trustedRoot)
    {
      this.trustedRoot := trustedRoot;
      watermarks, origins, formatVersion, unknownRecords := map[], map[], 0, [];
    }

    method ApplyUpdate(update: RatchetUpdate)
      modifies this
      ensures Value() == Updated(old(Value()), update)
    {
      RaiseWatermarks(update.raisedWatermarks);
      RememberOrigins(update.origins);
      if update.raisedFormatVersion.Some? {
        formatVersion := Max(formatVersion, update.raisedFormatVersion.value);
      }
    }

    method RaiseWatermarks(raised: Watermarks)
      modifies this`watermarks
      ensures watermarks == PointwiseMax(old(watermarks), raised)
    {
      var pending := raised.Keys;
      assert raised - pending == map[];
      while pending != {}
        invariant pending <= raised.Keys
        invariant watermarks == PointwiseMax(old(watermarks), raised - pending)
      {
        var key :| key in pending;
        PointwiseMaxOneMore(old(watermarks), raised, pending, key);
        watermarks := Raised(watermarks, key, raised[key]);
        pending := pending - {key};
      }
      assert raised - {} == raised;
    }

    method RememberOrigins(named: Origins)
      modifies this`origins
      ensures origins == named + old(origins)
    {
      var pending := named.Keys;
      while pending != {}
        invariant pending <= named.Keys
        invariant origins == (named - pending) + old(origins)
      {
        var key :| key in pending;
        origins := Remembered(origins, key, named[key]);
        pending := pending - {key};
      }
      assert named - {} == named;
    }

    method AbsorbRecord(fact: RatchetRecord)
      modifies this
      ensures Value() == Absorbed(old(Value()), fact)
    {
      if fact.FormatVersionFact? {
        formatVersion := Max(formatVersion, fact.version);
      } else if fact.Key().Some? {
        var key := fact.Key().value;
        watermarks := Raised(watermarks, key, fact.Counter());
        if fact.Origin().Some? {
          origins := Remembered(origins, key, fact.Origin().value);
        }
      }
    }

    method ToRecords() returns (records: seq<RatchetRecord>)
      ensures forall fact :: fact in records <==> IsRecordOf(Value(), fact)
    {
      records := [];
      ghost var done: set<RecordKey> := {};
      var pending := watermarks.Keys;
      while pending != {}
        invariant pending !! done && pending + done == watermarks.Keys
        invariant forall fact :: fact in records <==>
                    exists key :: key in done && ForKey(key, watermarks[key], OriginAt(Value(), key)) == Some(fact)
      {
        var key :| key in pending;
        var fact := ForKey(key, watermarks[key], OriginAt(Value(), key));
        ghost var before := done;
        pending, done := pending - {key}, done + {key};
        if fact.Some? {
          records := records + [fact.value];
        }
        assert forall k :: k in done <==> k in before || k == key;
      }
      if formatVersion > 0 {
        records := records + [FormatVersionFact(formatVersion)];
      }
      records := records + [TrustedRootFact(trustedRoot)];
    }

    /** The one operation that lowers a watermark: it needs a rollback conflict at the key, and
        refuses a tie. */
    method AcceptRollback(conflicted: map<RecordKey, Conflict>, key: RecordKey) returns (outcome: AcceptOutcome)
      modifies this
      ensures outcome == (if key !in conflicted then NoConflict
                          else match conflicted[key].kind
                               case Tie => TieNeedsWinner
                               case Rollback(remembered) => Accepted(remembered, conflicted[key].counter))
      ensures Value() == if outcome.Accepted? then Lowered(old(Value()), key, outcome.acceptedCounter) else old(Value())
    {
      if key !in conflicted {
        return NoConflict;
      }
      match conflicted[key].kind {
        case Tie => return TieNeedsWinner;
        case Rollback(remembered) =>
          var counter := conflicted[key].counter;
          if counter == 0 {
            watermarks := watermarks - {key};
            origins := origins - {key};
          } else {
            watermarks := watermarks[key := counter];
          }
          return Accepted(remembered, counter);
      }
    }
  }
}
