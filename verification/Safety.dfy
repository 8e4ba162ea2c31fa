/** What the tables of a node keep over all its runs, crashes between transactions included. */
module Safety {
  import opened Types
  import opened Store
  import opened Node

  // ---------------------------------------------------------------------------------------------
  // The tables fit together after every single transaction

  ghost predicate Consistent(t: Tables) {
    && t.decided.Keys == t.certificates.Keys
    && t.decidedData.Keys <= t.decided.Keys
    && t.blockData.Keys <= t.proposals.Keys
  }

  /** What a transaction may rely on: the transactions before it in the same handler. */
  ghost predicate Grounded(t: Tables, txn: Txn) {
    match txn
    case StoreBlockData(key, _) => key in t.proposals
    case StoreDecidedData(height, _) => height in t.decided
    case _ => true
  }

  lemma ApplyKeepsConsistent(t: Tables, txn: Txn)
    requires Consistent(t) && Grounded(t, txn)
    ensures Consistent(Apply(t, txn))
  {
  }

  ghost predicate AllGrounded(t: Tables, txns: seq<Txn>)
    decreases txns
  {
    txns == [] || (Grounded(t, txns[0]) && AllGrounded(Apply(t, txns[0]), txns[1..]))
  }

  lemma {:induction false} GroundedTxnsKeepConsistent(t: Tables, txns: seq<Txn>, k: nat)
    requires Consistent(t) && AllGrounded(t, txns) && k <= |txns|
    ensures Consistent(ApplyAll(t, txns[..k]))
    decreases txns
  {
    if k > 0 {
      ApplyKeepsConsistent(t, txns[0]);
      GroundedTxnsKeepConsistent(Apply(t, txns[0]), txns[1..], k - 1);
      assert txns[..k][1..] == txns[1..][..k - 1];
    }
  }

  lemma GroundedOneByOne(t: Tables, txns: seq<Txn>)
    requires |txns| <= 3
    requires |txns| > 0 ==> Grounded(t, txns[0])
    requires |txns| > 1 ==> Grounded(Apply(t, txns[0]), txns[1])
    requires |txns| > 2 ==> Grounded(Apply(Apply(t, txns[0]), txns[1]), txns[2])
    ensures AllGrounded(t, txns)
  {
    if |txns| > 0 {
      var t1, rest := Apply(t, txns[0]), txns[1..];
      if |rest| > 0 {
        var t2, last := Apply(t1, rest[0]), rest[1..];
        assert |last| > 0 ==> Grounded(t2, last[0]) && last[1..] == [];
        assert AllGrounded(t2, last);
      }
      assert AllGrounded(t1, rest);
    }
  }

  lemma HandlersGroundTxns(cfg: Config, n: Node, event: Event)
    ensures AllGrounded(n.tables, Txns(cfg, n, event))
  {
    GroundedOneByOne(n.tables, Txns(cfg, n, event));
  }

  /** After every prefix of a handler's transactions the tables fit together. */
  lemma TxnsKeepConsistent(cfg: Config, n: Node, event: Event, k: nat)
    requires Consistent(n.tables) && k <= |Txns(cfg, n, event)|
    ensures Consistent(ApplyAll(n.tables, Txns(cfg, n, event)[..k]))
  {
    HandlersGroundTxns(cfg, n, event);
    GroundedTxnsKeepConsistent(n.tables, Txns(cfg, n, event), k);
  }

  lemma StepTables(cfg: Config, n: Node, step: Step)
    requires StepAllowed(cfg, n, step)
    ensures var txns := Txns(cfg, n, step.event);
            Next(cfg, n, step).tables == ApplyAll(n.tables, txns[..if step.Done? then |txns| else step.committed])
  {
    var txns := Txns(cfg, n, step.event);
    assert txns[..|txns|] == txns;
  }

  /** Over every run, with crashes anywhere, the tables fit together. */
  lemma {:induction false} ConsistentForever(cfg: Config, n: Node, steps: seq<Step>)
    requires RunAllowed(cfg, n, steps) && Consistent(n.tables)
    ensures Consistent(Run(cfg, n, steps).tables)
  {
    if steps != [] {
      var front, last := steps[..|steps| - 1], steps[|steps| - 1];
      ConsistentForever(cfg, n, front);
      var m := Run(cfg, n, front);
      StepTables(cfg, m, last);
      TxnsKeepConsistent(cfg, m, last.event, if last.Done? then |Txns(cfg, m, last.event)| else last.committed);
    }
  }

  /** A completed prune leaves nothing below the retained height in any table and everything else as it was. */
  lemma PruneIsAHeightFilter(t: Tables, retain: Height)
    requires Consistent(t)
    ensures var p := Apply(t, Prune(retain));
            && (forall k :: k in p.proposals <==> k in t.proposals && k.0 >= retain)
            && (forall k :: k in p.blockData <==> k in t.blockData && k.0 >= retain)
            && (forall h :: h in p.decided <==> h in t.decided && h >= retain)
            && (forall h :: h in p.certificates <==> h in t.certificates && h >= retain)
            && (forall h :: h in p.decidedData <==> h in t.decidedData && h >= retain)
            && (forall k :: k in p.proposals ==> p.proposals[k] == t.proposals[k])
            && (forall k :: k in p.blockData ==> p.blockData[k] == t.blockData[k])
            && (forall h :: h in p.decided ==> p.decided[h] == t.decided[h] && p.certificates[h] == t.certificates[h])
            && (forall h :: h in p.decidedData ==> p.decidedData[h] == t.decidedData[h])
  {
  }
}
