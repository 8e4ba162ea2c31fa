/** The five tables of the store and its transactions (app/src/store.rs). */
module Store {
  import opened Bytes
  import opened Types
  import opened Keys

  /** What the tables hold. */
  datatype Tables = Tables(
    proposals: map<Key, ProposedValue>,
    blockData: map<Key, Bytes>,
    decided: map<Height, Value>,
    certificates: map<Height, CommitCertificate>,
    decidedData: map<Height, Bytes>)

  const EMPTY_TABLES := Tables(map[], map[], map[], map[], map[])

  /** A write transaction: it happens as a whole or not at all. */
  datatype Txn =
    | StoreProposal(proposal: ProposedValue)
    | StoreBlockData(key: Key, data: Bytes)
    | StoreDecided(value: Value, certificate: CommitCertificate)
    | StoreDecidedData(height: Height, data: Bytes)
    | Prune(retain: Height)

  function PutIfAbsent<K, V>(table: map<K, V>, key: K, value: V): map<K, V> {
    if key in table then table else table[key := value]
  }

  function KeepKeysFrom<V>(table: map<Key, V>, retain: Height): map<Key, V> {
    map k | k in table && k.0 >= retain :: table[k]
  }

  function Apply(t: Tables, txn: Txn): Tables {
    match txn
    case StoreProposal(p) => t.(proposals := PutIfAbsent(t.proposals, (p.height, p.round), p))
    case StoreBlockData(key, data) => t.(blockData := PutIfAbsent(t.blockData, key, data))
    case StoreDecided(value, certificate) =>
      t.(decided := t.decided[certificate.height := value],
         certificates := t.certificates[certificate.height := certificate])
    case StoreDecidedData(height, data) => t.(decidedData := PutIfAbsent(t.decidedData, height, data))
    case Prune(retain) =>
      // certificates and decided block data are removed by the keys of the decided values
      var pruned := set h | h in t.decided && h < retain;
      Tables(KeepKeysFrom(t.proposals, retain), KeepKeysFrom(t.blockData, retain),
             t.decided - pruned, t.certificates - pruned, t.decidedData - pruned)
  }

  function ApplyAll(t: Tables, txns: seq<Txn>): Tables
    decreases txns
  {
    if txns == [] then t else ApplyAll(Apply(t, txns[0]), txns[1..])
  }

  lemma {:induction false} ApplyAllAppend(t: Tables, a: seq<Txn>, b: seq<Txn>)
    ensures ApplyAll(t, a + b) == ApplyAll(ApplyAll(t, a), b)
    decreases a
  {
    if a == [] {
      assert a + b == b;
    } else {
      assert (a + b)[1..] == a[1..] + b;
      ApplyAllAppend(Apply(t, a[0]), a[1..], b);
    }
  }

  /** Handlers commit at most three transactions. */
  lemma ApplyThree(t: Tables, txns: seq<Txn>, k: nat)
    requires k <= |txns| <= 3
    ensures k == 0 ==> ApplyAll(t, txns[..k]) == t
    ensures k == 1 ==> ApplyAll(t, txns[..k]) == Apply(t, txns[0])
    ensures k == 2 ==> ApplyAll(t, txns[..k]) == Apply(Apply(t, txns[0]), txns[1])
    ensures k == 3 ==> ApplyAll(t, txns[..k]) == Apply(Apply(Apply(t, txns[0]), txns[1]), txns[2])
  {
    var p := txns[..k];
    if k > 0 {
      var t1 := Apply(t, p[0]);
      assert ApplyAll(t, p) == ApplyAll(t1, p[1..]);
      if k > 1 {
        assert p[1..][1..] == p[2..];
        var t2 := Apply(t1, p[1]);
        assert ApplyAll(t1, p[1..]) == ApplyAll(t2, p[2..]);
        if k > 2 {
          assert p[2..][1..] == [];
          assert ApplyAll(t2, p[2..]) == ApplyAll(Apply(t2, p[2]), []);
        } else {
          assert p[2..] == [];
        }
      } else {
        assert p[1..] == [];
      }
    }
  }

  lemma ApplyOneMore(t: Tables, txns: seq<Txn>, txn: Txn)
    ensures ApplyAll(t, txns + [txn]) == Apply(ApplyAll(t, txns), txn)
  {
    ApplyAllAppend(t, txns, [txn]);
    assert [txn][1..] == [];
    assert ApplyAll(ApplyAll(t, txns), [txn]) == ApplyAll(Apply(ApplyAll(t, txns), txn), []);
  }

  lemma ApplyTwo(t: Tables, a: Txn, b: Txn)
    ensures ApplyAll(t, [a, b]) == Apply(Apply(t, a), b)
  {
    ApplyThree(t, [a, b], 2);
    assert [a, b][..2] == [a, b];
  }

  /** The block data for a key: what was proposed under it or else what was decided at its height. */
  function BlockDataFor(t: Tables, key: Key): Option<Bytes> {
    if key in t.blockData then Some(t.blockData[key])
    else if key.0 in t.decidedData then Some(t.decidedData[key.0])
    else None
  }

  function DecidedAt(t: Tables, height: Height): Option<DecidedValue> {
    if height in t.decided && height in t.certificates
    then Some(DecidedValue(t.decided[height], t.certificates[height]))
    else None
  }

  /** `Db`: tables whose rows are kept in the order of their encoded keys. */
  class Db {
    var undecidedProposals: map<Key, ProposedValue>
    var undecidedBlockData: map<Key, Bytes>
    var decidedValues: map<Height, Value>
    var certificates: map<Height, CommitCertificate>
    var decidedBlockData: map<Height, Bytes>

    /** The transactions committed so far. */
    ghost var log: seq<Txn>

    function View(): Tables
      reads this
    {
      Tables(undecidedProposals, undecidedBlockData, decidedValues, certificates, decidedBlockData)
    }

    /** A write has committed `txn` and nothing else. */
    twostate predicate Committed(txn: Txn)
      reads this
    {
      View() == Apply(old(View()), txn) && log == old(log) + [txn]
    }

    constructor ()
      ensures View() == EMPTY_TABLES && log == []
    {
      undecidedProposals, undecidedBlockData := map[], map[];
      decidedValues, certificates, decidedBlockData := map[], map[], map[];
      log := [];
    }

    method GetDecidedValue(height: Height) returns (result: Option<DecidedValue>)
      ensures result == DecidedAt(View(), height)
      ensures result.Some? <==> height in decidedValues && height in certificates
      ensures result.Some? ==> result.value.value == decidedValues[height] && result.value.certificate == certificates[height]
    {
      var value := if height in decidedValues then Some(decidedValues[height]) else None;
      var certificate := if height in certificates then Some(certificates[height]) else None;
      result := if value.Some? && certificate.Some? then Some(DecidedValue(value.value, certificate.value)) else None;
    }

    /**
      Both tables change in one transaction; an earlier decision is overwritten. Encoding a certificate panics
      when its round is absent.
    */
    method InsertDecidedValue(decidedValue: DecidedValue)
      requires decidedValue.certificate.round.At?
      modifies this
      ensures Committed(StoreDecided(decidedValue.value, decidedValue.certificate))
    {
      var height := decidedValue.certificate.height;
      decidedValues := decidedValues[height := decidedValue.value];
      certificates := certificates[height := decidedValue.certificate];
      log := log + [StoreDecided(decidedValue.value, decidedValue.certificate)];
    }

    method GetUndecidedProposal(height: Height, round: Round) returns (proposal: Option<ProposedValue>)
      ensures proposal == if (height, round) in View().proposals then Some(View().proposals[(height, round)]) else None
    {
      var key := (height, round);
      proposal := if key in undecidedProposals then Some(undecidedProposals[key]) else None;
    }

    /** Encoding a proposal panics when its round is absent. */
    method InsertUndecidedProposal(proposal: ProposedValue)
      requires proposal.round.At?
      modifies this
      ensures Committed(StoreProposal(proposal))
    {
      var key := (proposal.height, proposal.round);
      if key !in undecidedProposals {
        undecidedProposals := undecidedProposals[key := proposal];
      }
      log := log + [StoreProposal(proposal)];
    }

    method InsertUndecidedBlockData(height: Height, round: Round, data: Bytes)
      modifies this
      ensures Committed(StoreBlockData((height, round), data))
    {
      var key := (height, round);
      if key !in undecidedBlockData {
        undecidedBlockData := undecidedBlockData[key := data];
      }
      log := log + [StoreBlockData((height, round), data)];
    }

    method InsertDecidedBlockData(height: Height, data: Bytes)
      modifies this
      ensures Committed(StoreDecidedData(height, data))
    {
      if height !in decidedBlockData {
        decidedBlockData := decidedBlockData[height := data];
      }
      log := log + [StoreDecidedData(height, data)];
    }

    method GetBlockData(height: Height, round: Round) returns (data: Option<Bytes>)
      ensures data == BlockDataFor(View(), (height, round))
      ensures data == if (height, round) in undecidedBlockData then Some(undecidedBlockData[(height, round)])
                      else if height in decidedBlockData then Some(decidedBlockData[height]) else None
    {
      if (height, round) in undecidedBlockData {
        return Some(undecidedBlockData[(height, round)]);
      }
      if height in decidedBlockData {
        return Some(decidedBlockData[height]);
      }
      return None;
    }

    /** The keys below `bound` in the order of their encodings, each decoded from its bytes. */
    static method UndecidedRange<V>(table: map<Key, V>, bound: Key) returns (keys: seq<Key>)
      requires bound.1 == Nil
      ensures forall k :: k in keys <==> k in table && k.0 < bound.0
    {
      keys := [];
      var rest := table.Keys;
      while rest != {}
        invariant rest <= table.Keys
        invariant forall k :: k in keys <==> k in table.Keys - rest && k.0 < bound.0
        decreases |rest|
      {
        var k :| k in rest;
        rest := rest - {k};
        KeyRoundTrip(k);
        NilIsLeast(k, bound.0);
        var row := KeyBytes(k);
        if KeyLess(row, KeyBytes(bound)) {
          keys := keys + [KeyFromBytes(row)];
        }
      }
    }

    static method HeightRange<V>(table: map<Height, V>, bound: Height) returns (keys: seq<Height>)
      ensures forall h :: h in keys <==> h in table && h < bound
    {
      keys := [];
      var rest := table.Keys;
      while rest != {}
        invariant rest <= table.Keys
        invariant forall h :: h in keys <==> h in table.Keys - rest && h < bound
        decreases |rest|
      {
        var h :| h in rest;
        rest := rest - {h};
        HeightRoundTrip(h);
        HeightRoundTrip(bound);
        var row := HeightBytes(h);
        if HeightLess(row, HeightBytes(bound)) {
          keys := keys + [HeightFromBytes(row)];
        }
      }
    }

    static method RemoveAll<K, V>(table: map<K, V>, keys: seq<K>, ghost gone: set<K>) returns (rest: map<K, V>)
      requires forall k :: k in gone <==> k in keys
      ensures rest == table - gone
    {
      rest := table;
      for i := 0 to |keys|
        invariant rest == table - set k | k in keys[..i]
      {
        rest := rest - {keys[i]};
      }
      assert keys[..|keys|] == keys;
      assert (set k | k in keys) == gone;
    }

    /** One transaction that removes everything below `retain`. */
    method Prune(retain: Height) returns (pruned: seq<Height>)
      modifies this
      ensures Committed(Txn.Prune(retain))
      ensures forall h :: h in pruned <==> h in old(decidedValues) && h < retain
    {
      undecidedProposals := RemoveBelow(undecidedProposals, retain);
      undecidedBlockData := RemoveBelow(undecidedBlockData, retain);

      pruned := HeightRange(decidedValues, retain);
      ghost var below := set h | h in decidedValues && h < retain;
      assert forall h :: h in below <==> h in pruned;
      decidedValues := RemoveAll(decidedValues, pruned, below);
      certificates := RemoveAll(certificates, pruned, below);
      decidedBlockData := RemoveAll(decidedBlockData, pruned, below);
      log := log + [Txn.Prune(retain)];
    }

    static method RemoveBelow<V>(table: map<Key, V>, retain: Height) returns (rest: map<Key, V>)
      ensures rest == KeepKeysFrom(table, retain)
    {
      var keys := UndecidedRange(table, (retain, Nil));
      rest := RemoveAll(table, keys, set k | k in keys);
    }

    /** The first row of the decided values, in the order of encoded heights. */
    method MinDecidedValueHeight() returns (height: Option<Height>)
      ensures height.None? <==> decidedValues == map[]
      ensures height.Some? ==> height.value in decidedValues && forall h :: h in decidedValues ==> height.value <= h
    {
      height := None;
      var rest := decidedValues.Keys;
      while rest != {}
        invariant rest <= decidedValues.Keys
        invariant height.None? <==> rest == decidedValues.Keys
        invariant height.Some? ==>
          && height.value in decidedValues
          && forall h :: h in decidedValues && h !in rest ==> height.value <= h
        decreases |rest|
      {
        var h :| h in rest;
        rest := rest - {h};
        HeightRoundTrip(h);
        if height.Some? {
          HeightRoundTrip(height.value);
        }
        if height.None? || HeightLess(HeightBytes(h), HeightBytes(height.value)) {
          height := Some(h);
        }
      }
    }
  }
}
