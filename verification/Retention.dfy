/** How long the undecided proposals and their block data stay, over all runs of a node with crashes anywhere. */
module Retention {
  import opened Bytes
  import opened Types
  import opened Keys
  import opened Signing
  import opened Store
  import opened Node
  import opened Safety
  import opened History

  /** The step commits a prune that covers `height`. */
  ghost predicate Removes(cfg: Config, n: Node, step: Step, height: Height) {
    && Commits(n, step.event)
    && CommittedCount(cfg, n, step) == |Txns(cfg, n, step.event)|
    && height < RetainHeight(step.event.certificate.height)
  }

  /** A row is gone if `removed`, and unchanged otherwise. */
  ghost predicate StaysUnless<V>(rows: map<Key, V>, later: map<Key, V>, k: Key, removed: bool) {
    k in rows ==> if removed then k !in later else k in later && later[k] == rows[k]
  }

  /** No step changes a row or removes one except by pruning its height; new rows are not below the node's height. */
  lemma RowsAfterStep(cfg: Config, n: Node, step: Step, k: Key)
    requires StepAllowed(cfg, n, step)
    ensures var t' := Next(cfg, n, step).tables;
            && StaysUnless(n.tables.proposals, t'.proposals, k, Removes(cfg, n, step, k.0))
            && StaysUnless(n.tables.blockData, t'.blockData, k, Removes(cfg, n, step, k.0))
            && (k in t'.proposals && k !in n.tables.proposals ==> n.height <= k.0)
            && (k in t'.blockData && k !in n.tables.blockData ==> n.height <= k.0)
  {
    var committed := CommittedCount(cfg, n, step);
    if !Commits(n, step.event) || committed == 0 {
      OtherSteps(cfg, n, step);
      assert Commits(n, step.event) ==> |Txns(cfg, n, step.event)| > 0;
    } else {
      StepTables(cfg, n, step);
      if committed < |Txns(cfg, n, step.event)| {
        PartOfCommit(n.tables, step.event.certificate, committed);
      } else {
        var txns := Txns(cfg, n, step.event);
        assert txns[..|txns|] == txns;
        CommitTables(n.tables, step.event.certificate);
      }
    }
  }

  // ---------------------------------------------------------------------------------------------
  // Write once until pruned

  ghost predicate NeverRemoved(cfg: Config, n: Node, steps: seq<Step>, height: Height)
    requires RunAllowed(cfg, n, steps)
  {
    steps == [] ||
    (NeverRemoved(cfg, n, steps[..|steps| - 1], height)
     && !Removes(cfg, Run(cfg, n, steps[..|steps| - 1]), steps[|steps| - 1], height))
  }

  /** What the start node holds under `k` is there, unchanged, after every step of the run. */
  ghost predicate HeldThroughout(cfg: Config, n: Node, steps: seq<Step>, k: Key)
    requires RunAllowed(cfg, n, steps)
  {
    && StaysUnless(n.tables.proposals, Run(cfg, n, steps).tables.proposals, k, false)
    && StaysUnless(n.tables.blockData, Run(cfg, n, steps).tables.blockData, k, false)
    && (steps == [] || HeldThroughout(cfg, n, steps[..|steps| - 1], k))
  }

  /**
    Over any run from any node, crashes included: a stored proposal and its block data are there, unchanged, for as
    long as no prune covers their height, and no longer.
  */
  lemma {:induction false} HeldUntilPruned(cfg: Config, n: Node, steps: seq<Step>, k: Key)
    requires RunAllowed(cfg, n, steps) && (k in n.tables.proposals || k in n.tables.blockData)
    ensures HeldThroughout(cfg, n, steps, k) <==> NeverRemoved(cfg, n, steps, k.0)
  {
    if steps != [] {
      var front := steps[..|steps| - 1];
      HeldUntilPruned(cfg, n, front, k);
      RowsAfterStep(cfg, Run(cfg, n, front), steps[|steps| - 1], k);
    }
  }

  /** So they survive any run that decides nothing more than 25 heights above them. */
  lemma {:induction false} HeldWithoutLaterDecision(cfg: Config, n: Node, steps: seq<Step>, k: Key)
    requires RunAllowed(cfg, n, steps)
    requires forall i :: 0 <= i < |steps| && steps[i].event.Decided? ==>
               steps[i].event.certificate.height <= k.0 + 25
    ensures NeverRemoved(cfg, n, steps, k.0)
    ensures k in n.tables.proposals ==>
              k in Run(cfg, n, steps).tables.proposals && Run(cfg, n, steps).tables.proposals[k] == n.tables.proposals[k]
    ensures k in n.tables.blockData ==>
              k in Run(cfg, n, steps).tables.blockData && Run(cfg, n, steps).tables.blockData[k] == n.tables.blockData[k]
  {
    if steps != [] {
      HeldWithoutLaterDecision(cfg, n, steps[..|steps| - 1], k);
      RowsAfterStep(cfg, Run(cfg, n, steps[..|steps| - 1]), steps[|steps| - 1], k);
    }
  }

  /** Rows are unchanged while their height is within the window below `height`, and gone afterwards. */
  ghost predicate Kept<V>(rows: map<Key, V>, later: map<Key, V>, height: Height) {
    forall k :: k in rows ==>
      if height <= k.0 + 26 then k in later && later[k] == rows[k] else k !in later
  }

  ghost predicate WrittenOnce(n: Node, n': Node) {
    && n.height <= n'.height
    && Kept(n.tables.proposals, n'.tables.proposals, n'.height)
    && Kept(n.tables.blockData, n'.tables.blockData, n'.height)
  }

  lemma KeptTransitive<V>(a: map<Key, V>, b: map<Key, V>, c: map<Key, V>, h1: Height, h2: Height)
    requires Kept(a, b, h1) && Kept(b, c, h2) && h1 <= h2 && AllWithin(c, h2)
    ensures Kept(a, c, h2)
  {
  }

  lemma DataWithin(n: Node, first: Height)
    requires Window(n, first)
    ensures AllWithin(n.tables.blockData, n.height)
  {
  }

  lemma WrittenOnceStep(cfg: Config, n: Node, first: Height, step: Step)
    requires StepAllowed(cfg, n, step) && Window(n, first) && InPlace(cfg, n, first, step)
    ensures WrittenOnce(n, Next(cfg, n, step))
  {
    DataWithin(n, first);
    forall k | k in n.tables.proposals || k in n.tables.blockData
      ensures Removes(cfg, n, step, k.0) <==> Next(cfg, n, step).height > k.0 + 26
    {
    }
    var n' := Next(cfg, n, step);
    forall k | k in n.tables.proposals || k in n.tables.blockData
      ensures var removed := n'.height > k.0 + 26;
              && StaysUnless(n.tables.proposals, n'.tables.proposals, k, removed)
              && StaysUnless(n.tables.blockData, n'.tables.blockData, k, removed)
    {
      RowsAfterStep(cfg, n, step, k);
    }
  }

  lemma WrittenOnceTransitive(a: Node, b: Node, c: Node, first: Height)
    requires WrittenOnce(a, b) && WrittenOnce(b, c) && Window(c, first)
    ensures WrittenOnce(a, c)
  {
    DataWithin(c, first);
    KeptTransitive(a.tables.proposals, b.tables.proposals, c.tables.proposals, b.height, c.height);
    KeptTransitive(a.tables.blockData, b.tables.blockData, c.tables.blockData, b.height, c.height);
  }

  /**
    Over every run from an empty store whose restarts are in place, from any moment of it to any later one: what was
    stored is unchanged while its height is within 26 of the current one; after that it is gone, and it stays gone.
  */
  lemma {:induction false} WriteOnceUntilPruned(cfg: Config, first: Height, steps: seq<Step>, i: nat)
    requires RunAllowed(cfg, Boot(first, EMPTY_TABLES), steps) && i <= |steps|
    requires RestartsInPlace(cfg, Boot(first, EMPTY_TABLES), first, steps)
    ensures RunAllowed(cfg, Boot(first, EMPTY_TABLES), steps[..i])
    ensures WrittenOnce(Run(cfg, Boot(first, EMPTY_TABLES), steps[..i]), Run(cfg, Boot(first, EMPTY_TABLES), steps))
  {
    SlidingHistory(cfg, first, steps);
    if i == |steps| {
      assert steps[..i] == steps;
      DataWithin(Run(cfg, Boot(first, EMPTY_TABLES), steps), first);
    } else {
      var front, last := steps[..|steps| - 1], steps[|steps| - 1];
      assert front[..i] == steps[..i];
      WriteOnceUntilPruned(cfg, first, front, i);
      SlidingHistory(cfg, first, front);
      var m := Run(cfg, Boot(first, EMPTY_TABLES), front);
      WrittenOnceStep(cfg, m, first, last);
      WrittenOnceTransitive(Run(cfg, Boot(first, EMPTY_TABLES), steps[..i]), m,
                            Run(cfg, Boot(first, EMPTY_TABLES), steps), first);
    }
  }

  // ---------------------------------------------------------------------------------------------
  // When a pruned key comes back

  ghost predicate RestartsFrom(steps: seq<Step>, lowest: nat) {
    forall i :: 0 <= i < |steps| && steps[i].Crashed? ==> lowest <= steps[i].restart
  }

  /** As long as no restart is at or below its height, a key that the node has passed and does not hold stays away. */
  lemma {:induction false} StaysAway(cfg: Config, n: Node, steps: seq<Step>, k: Key)
    requires RunAllowed(cfg, n, steps) && RestartsFrom(steps, k.0 + 1)
    requires n.started == n.height > k.0
    ensures var n' := Run(cfg, n, steps);
            && n'.started == n'.height > k.0
            && (k !in n.tables.proposals ==> k !in n'.tables.proposals)
            && (k !in n.tables.blockData ==> k !in n'.tables.blockData)
  {
    if steps != [] {
      var front := steps[..|steps| - 1];
      StaysAway(cfg, n, front, k);
      RowsAfterStep(cfg, Run(cfg, n, front), steps[|steps| - 1], k);
    }
  }

  /** A run brings the key back without a restart below `lowest`. */
  ghost predicate BringsBack(cfg: Config, n: Node, steps: seq<Step>, k: Key, lowest: Height) {
    && RunAllowed(cfg, n, steps) && RestartsFrom(steps, lowest)
    && k in Run(cfg, n, steps).tables.proposals && k in Run(cfg, n, steps).tables.blockData
  }

  /** A restart at the height of a key, and a proposal for it, bring it back. */
  lemma RestartBringsBack(cfg: Config, n: Node, k: Key, data: Bytes)
    requires k.1.At? && Streamable(data)
    ensures BringsBack(cfg, n, [Crashed(ConsensusReady, 0, k.0), Done(StartedRound(k.0, k.1)), Done(GetValue(k.0, k.1, data))],
                       k, k.0)
  {
    var restart, round := Crashed(ConsensusReady, 0, k.0), Done(StartedRound(k.0, k.1));
    var propose := Done(GetValue(k.0, k.1, data));
    RunOneMore(cfg, n, [], restart);
    RunOneMore(cfg, n, [] + [restart], round);
    var m := Run(cfg, n, [] + [restart] + [round]);
    RunOneMore(cfg, n, [] + [restart] + [round], propose);
    StoreEffect(m.tables, ProposedOf(cfg.crypto, k.0, k.1, cfg.address, data), k, data);
    assert [] + [restart] + [round] + [propose] == [restart, round, propose];
  }

  /**
    A key that was pruned, or was never held, at a height that the node has passed can come back if and only if the
    node is restarted at that height or a lower one.
  */
  lemma ComesBackIff(cfg: Config, n: Node, k: Key, lowest: Height)
    requires n.started == n.height > k.0 && k.1.At? && k !in n.tables.proposals
    ensures (exists steps :: BringsBack(cfg, n, steps, k, lowest)) <==> lowest <= k.0
  {
    if lowest <= k.0 {
      var steps := [Crashed(ConsensusReady, 0, k.0), Done(StartedRound(k.0, k.1)), Done(GetValue(k.0, k.1, []))];
      RestartBringsBack(cfg, n, k, []);
      assert BringsBack(cfg, n, steps, k, lowest);
    } else {
      forall steps ensures !BringsBack(cfg, n, steps, k, lowest) {
        if RunAllowed(cfg, n, steps) && RestartsFrom(steps, lowest) {
          StaysAway(cfg, n, steps, k);
        }
      }
    }
  }
}
