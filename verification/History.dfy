/** The decided history and the undecided proposals of a node over its runs. */
module History {
  import opened Bytes
  import opened Types
  import opened Keys
  import opened Streaming
  import opened Signing
  import opened Store
  import opened Node
  import opened Safety

  // ---------------------------------------------------------------------------------------------
  // What a whole handler does to the tables

  /** The tables just before the prune of a commit. */
  ghost function Decide(t: Tables, certificate: CommitCertificate): Tables
    requires (certificate.height, certificate.round) in t.proposals
  {
    var key := (certificate.height, certificate.round);
    var data := BlockDataFor(t, key);
    t.(decided := t.decided[certificate.height := t.proposals[key].value],
       certificates := t.certificates[certificate.height := certificate],
       decidedData :=
         if data.Some? then PutIfAbsent(t.decidedData, certificate.height, data.value) else t.decidedData)
  }

  lemma DecisionTables(t: Tables, certificate: CommitCertificate)
    requires (certificate.height, certificate.round) in t.proposals
    ensures ApplyAll(t, DecisionTxns(t, certificate)) == Decide(t, certificate)
  {
    var key := (certificate.height, certificate.round);
    var decide, data := StoreDecided(t.proposals[key].value, certificate), BlockDataFor(t, key);
    if data.Some? {
      ApplyTwo(t, decide, StoreDecidedData(certificate.height, data.value));
      assert DecisionTxns(t, certificate) == [decide, StoreDecidedData(certificate.height, data.value)];
    } else {
      ApplyOneMore(t, [], decide);
      assert DecisionTxns(t, certificate) == [] + [decide];
    }
  }

  lemma CommitTables(t: Tables, certificate: CommitCertificate)
    requires (certificate.height, certificate.round) in t.proposals
    ensures ApplyAll(t, CommitTxns(t, certificate))
         == Apply(Decide(t, certificate), Prune(RetainHeight(certificate.height)))
  {
    DecisionTables(t, certificate);
    ApplyOneMore(t, DecisionTxns(t, certificate), Prune(RetainHeight(certificate.height)));
  }

  /** A commit decides and then drops everything below the retained height. */
  lemma CommitEffect(t: Tables, certificate: CommitCertificate)
    requires Consistent(t) && (certificate.height, certificate.round) in t.proposals
    ensures Consistent(Decide(t, certificate))
    ensures ApplyAll(t, CommitTxns(t, certificate))
         == Apply(Decide(t, certificate), Prune(RetainHeight(certificate.height)))
  {
    CommitTables(t, certificate);
    var d := Decide(t, certificate);
    assert d.decided.Keys == t.decided.Keys + {certificate.height} == d.certificates.Keys;
  }

  /** A completed commit leaves, in all five tables, exactly the rows of the last 26 heights up to its own. */
  lemma CommitKeepsLast(t: Tables, c: CommitCertificate)
    requires Consistent(t) && (c.height, c.round) in t.proposals
    ensures var t' := ApplyAll(t, CommitTxns(t, c));
            && (forall k :: k in t'.proposals <==> k in t.proposals && c.height <= k.0 + 25)
            && (forall k :: k in t'.blockData <==> k in t.blockData && c.height <= k.0 + 25)
            && (forall h :: h in t'.decided <==> (h in t.decided || h == c.height) && c.height <= h + 25)
            && (forall h :: h in t'.certificates <==> (h in t.certificates || h == c.height) && c.height <= h + 25)
            && (forall h :: h in t'.decidedData <==>
                  (h in t.decidedData || (h == c.height && (c.height, c.round) in t.blockData)) && c.height <= h + 25)
  {
    CommitEffect(t, c);
    PruneIsAHeightFilter(Decide(t, c), RetainHeight(c.height));
  }

  /** All rows of one table are rows of another. */
  predicate RowsOf<K, V(==)>(part: map<K, V>, whole: map<K, V>) {
    forall k :: k in part ==> k in whole && part[k] == whole[k]
  }

  /**
    They hold what they held. Only the decision at the height of the commit is new; its block data is the one that the
    height already had, or else that of the decided round.
  */
  lemma CommitKeepsRows(t: Tables, c: CommitCertificate)
    requires Consistent(t) && (c.height, c.round) in t.proposals
    ensures var t', h, key := ApplyAll(t, CommitTxns(t, c)), c.height, (c.height, c.round);
            && RowsOf(t'.proposals, t.proposals) && RowsOf(t'.blockData, t.blockData)
            && RowsOf(t'.decided - {h}, t.decided) && RowsOf(t'.certificates - {h}, t.certificates)
            && RowsOf(t'.decidedData - {h}, t.decidedData)
            && (h in t'.decidedData ==>
                  if h in t.decidedData then t'.decidedData[h] == t.decidedData[h]
                  else key in t.blockData && t'.decidedData[h] == t.blockData[key])
  {
    CommitEffect(t, c);
    PruneIsAHeightFilter(Decide(t, c), RetainHeight(c.height));
  }

  /** What is decided is the stored proposal of the certificate's round. */
  lemma DecidesTheStoredProposal(t: Tables, certificate: CommitCertificate)
    requires Consistent(t) && (certificate.height, certificate.round) in t.proposals
    ensures var h, stored := certificate.height, t.proposals[(certificate.height, certificate.round)].value;
            var t' := ApplyAll(t, CommitTxns(t, certificate));
            && h in t'.decided && t'.decided[h] == stored && h in t'.certificates && t'.certificates[h] == certificate
  {
    CommitEffect(t, certificate);
  }

  /** Every decided value has the id that its certificate names. */
  ghost predicate NamesMatch(t: Tables) {
    forall h :: h in t.decided && h in t.certificates ==> t.decided[h].Id() == t.certificates[h].valueId
  }

  /** A run at whose end a value is decided on a certificate for another one. */
  lemma DecidesAnotherValue(cfg: Config, height: Height, data: Bytes)
    requires Streamable(data) && height < 0xFFFF_FFFF_FFFF_FFFF
    ensures var other := if cfg.crypto.sipHash(data) == 0 then 1 else 0;
            var steps := [Done(GetValue(height, At(0), data)), Done(Decided(CommitCertificate(height, At(0), other, [])))];
            && RunAllowed(cfg, Boot(height, EMPTY_TABLES), steps)
            && !NamesMatch(Run(cfg, Boot(height, EMPTY_TABLES), steps).tables)
  {
    var n := Boot(height, EMPTY_TABLES);
    var propose := Done(GetValue(height, At(0), data));
    var certificate := CommitCertificate(height, At(0), if cfg.crypto.sipHash(data) == 0 then 1 else 0, []);
    RunOneMore(cfg, n, [], propose);
    RunOneMore(cfg, n, [propose], Done(Decided(certificate)));
    assert [] + [propose] == [propose] && [propose] + [Done(Decided(certificate))] == [propose, Done(Decided(certificate))];
    StoreEffect(EMPTY_TABLES, ProposedOf(cfg.crypto, height, At(0), cfg.address, data), (height, At(0)), data);
    var t := Run(cfg, n, [propose]).tables;
    DecidesTheStoredProposal(t, certificate);
  }

  /** Storing a proposal and its data: both tables keep what they already had. */
  lemma StoreEffect(t: Tables, proposal: ProposedValue, key: Key, data: Bytes)
    ensures ApplyAll(t, [StoreProposal(proposal), StoreBlockData(key, data)])
         == t.(proposals := PutIfAbsent(t.proposals, (proposal.height, proposal.round), proposal),
               blockData := PutIfAbsent(t.blockData, key, data))
  {
    ApplyTwo(t, StoreProposal(proposal), StoreBlockData(key, data));
  }

  /** Every event either stores one proposal under a height not below the node's, commits, or leaves the tables alone. */
  lemma EventEffect(cfg: Config, n: Node, event: Event) returns (stored: Option<ProposedValue>)
    requires Allowed(n, event)
    ensures stored.Some? ==>
              && stored.value.height >= n.height
              && stored.value.valid && stored.value.validRound == Nil
              && stored.value.value.value == cfg.crypto.sipHash(stored.value.value.extensions)
              && Txns(cfg, n, event) == [StoreProposal(stored.value),
                   StoreBlockData((stored.value.height, stored.value.round), stored.value.value.extensions)]
              && !event.Decided?
    ensures stored.None? && !event.Decided? ==> Txns(cfg, n, event) == []
    ensures Handle(cfg, n, event).tables == ApplyAll(n.tables, Txns(cfg, n, event))
  {
    stored := None;
    match event
    case GetValue(height, round, data) =>
      stored := Some(ProposedOf(cfg.crypto, height, round, cfg.address, data));
    case ReceivedPart(from, msg) =>
      var parts := InsertPart(n.streams, from, msg).1;
      if parts.Some? {
        stored := Take(cfg, n.height, parts.value).1;
      }
    case _ =>
  }

  // ---------------------------------------------------------------------------------------------
  // What a crash leaves of a handler

  /** The event commits a decision. */
  ghost predicate Commits(n: Node, event: Event) {
    event.Decided? && (event.certificate.height, event.certificate.round) in n.tables.proposals
  }

  /** How many transactions of its event a step commits. */
  ghost function CommittedCount(cfg: Config, n: Node, step: Step): nat {
    if step.Done? then |Txns(cfg, n, step.event)| else step.committed
  }

  lemma Front<T>(s: seq<T>, x: T)
    ensures (s + [x])[..|s|] == s
  {
  }

  lemma FirstOfCommit(t: Tables, certificate: CommitCertificate)
    requires (certificate.height, certificate.round) in t.proposals
    ensures ApplyAll(t, CommitTxns(t, certificate)[..1]) == Decide(t, certificate).(decidedData := t.decidedData)
  {
    var decide := StoreDecided(t.proposals[(certificate.height, certificate.round)].value, certificate);
    assert CommitTxns(t, certificate)[..1] == [] + [decide];
    ApplyOneMore(t, [], decide);
  }

  /** Cut off before its last transaction, a commit has written the decision and, in a second one, any block data. */
  lemma PartOfCommit(t: Tables, certificate: CommitCertificate, k: nat)
    requires (certificate.height, certificate.round) in t.proposals
    requires 0 < k < |CommitTxns(t, certificate)|
    ensures var d := Decide(t, certificate);
            ApplyAll(t, CommitTxns(t, certificate)[..k]) == if k == 1 then d.(decidedData := t.decidedData) else d
  {
    if k == 1 {
      FirstOfCommit(t, certificate);
    } else {
      DecisionTables(t, certificate);
      Front(DecisionTxns(t, certificate), Prune(RetainHeight(certificate.height)));
    }
  }

  /** Between its transactions a proposal is stored without its block data. */
  lemma PartOfStore(t: Tables, proposal: ProposedValue, key: Key, data: Bytes)
    ensures ApplyAll(t, [StoreProposal(proposal), StoreBlockData(key, data)][..1])
         == t.(proposals := PutIfAbsent(t.proposals, (proposal.height, proposal.round), proposal))
  {
    ApplyThree(t, [StoreProposal(proposal), StoreBlockData(key, data)], 1);
  }

  ghost predicate Adds(t: Tables, t': Tables, height: Height) {
    && t'.decided == t.decided && t'.certificates == t.certificates && t'.decidedData == t.decidedData
    && (forall k :: k in t.proposals ==> k in t'.proposals && t'.proposals[k] == t.proposals[k])
    && (forall k :: k in t.blockData ==> k in t'.blockData && t'.blockData[k] == t.blockData[k])
    && (forall k :: k in t'.proposals && k !in t.proposals ==> height <= k.0)
    && (forall k :: k in t'.blockData && k !in t.blockData ==> height <= k.0)
  }

  lemma StoringAdds(t: Tables, p: ProposedValue, height: Height)
    requires height <= p.height
    ensures var txns := [StoreProposal(p), StoreBlockData((p.height, p.round), p.value.extensions)];
            Adds(t, ApplyAll(t, txns), height) && Adds(t, ApplyAll(t, txns[..1]), height)
  {
    StoreEffect(t, p, (p.height, p.round), p.value.extensions);
    PartOfStore(t, p, (p.height, p.round), p.value.extensions);
  }

  /** A step that decides nothing at most adds one proposal, at a height not below the node's, and its data. */
  lemma OtherSteps(cfg: Config, n: Node, step: Step)
    requires StepAllowed(cfg, n, step) && (!Commits(n, step.event) || CommittedCount(cfg, n, step) == 0)
    ensures Adds(n.tables, Next(cfg, n, step).tables, n.height)
  {
    var txns, k := Txns(cfg, n, step.event), CommittedCount(cfg, n, step);
    StepTables(cfg, n, step);
    var stored := EventEffect(cfg, n, step.event);
    if k == 0 {
      assert txns[..0] == [];
    } else if stored.Some? {
      StoringAdds(n.tables, stored.value, n.height);
      assert txns[..2] == txns;
    }
  }

  // ---------------------------------------------------------------------------------------------
  // The window of heights

  /** The last 26 heights below `height`, or all since `first`. */
  ghost predicate IsWindow(heights: set<Height>, first: Height, height: Height) {
    first <= height && forall h :: h in heights <==> first <= h < height <= h + 26
  }

  ghost predicate AllWithin<V>(rows: map<Key, V>, height: Height) {
    forall k :: k in rows ==> height <= k.0 + 26
  }

  /** Since the node started at `first` on an empty store: what it has decided and what it still holds. */
  ghost predicate Window(n: Node, first: Height) {
    && Consistent(n.tables)
    && n.started == n.height
    && IsWindow(n.tables.decided.Keys, first, n.height)
    && AllWithin(n.tables.proposals, n.height)
  }

  lemma OneHeightPerWindow(heights: set<Height>, first: Height, a: Height, b: Height)
    requires IsWindow(heights, first, a)
    ensures IsWindow(heights, first, b) <==> a == b
  {
    if first <= a < b {
      assert b - 1 !in heights;
    } else if first <= b < a {
      assert a - 1 in heights;
    }
  }

  /** One more decision, at the current height, makes a window only if none of the old ones had to go. */
  lemma GrownWindow(heights: set<Height>, first: Height, a: Height, b: Height)
    requires IsWindow(heights, first, a) && a < 0xFFFF_FFFF_FFFF_FFFF
    ensures IsWindow(heights + {a}, first, b) <==> b == a + 1 && a < first + 26
  {
    var grown := heights + {a};
    assert a in grown;
    if b == a + 1 && a >= first + 26 {
      assert a - 26 in grown;
    } else if b > a + 1 {
      assert b - 1 !in grown;
    }
  }

  /**
    A crash and the restart after it keep the window exactly when the node starts again where it was: at its height
    or, when the decision was written already, at the next one; and when the prune that was cut off, if any, would
    have removed nothing.
  */
  ghost predicate InPlace(cfg: Config, n: Node, first: Height, step: Step)
    requires StepAllowed(cfg, n, step)
  {
    step.Crashed? ==>
      if !Commits(n, step.event) || step.committed == 0 then step.restart == n.height
      else
        && step.restart == n.height + 1
        && (step.committed < |Txns(cfg, n, step.event)| ==>
              n.height < first + 26 && AllWithin(n.tables.proposals, n.height + 1))
  }

  lemma WindowAfterCommit(cfg: Config, n: Node, first: Height, event: Event)
    requires Allowed(n, event) && Window(n, first) && Commits(n, event)
    ensures Window(Handle(cfg, n, event), first)
  {
    CommitEffect(n.tables, event.certificate);
    WindowAfterPrune(Decide(n.tables, event.certificate), first, n.height);
  }

  lemma WindowAfterPrune(d: Tables, first: Height, height: Height)
    requires Consistent(d) && height in d.decided && IsWindow(d.decided.Keys - {height}, first, height)
    requires AllWithin(d.proposals, height) && height < 0xFFFF_FFFF_FFFF_FFFF
    ensures var t := Apply(d, Prune(RetainHeight(height)));
            Consistent(t) && IsWindow(t.decided.Keys, first, height + 1) && AllWithin(t.proposals, height + 1)
  {
    var t := Apply(d, Prune(RetainHeight(height)));
    forall h ensures h in t.decided <==> first <= h < height + 1 <= h + 26 {
      assert h in d.decided.Keys - {height} <==> h in d.decided && h != height;
    }
  }

  lemma WindowAfterHandler(cfg: Config, n: Node, first: Height, event: Event)
    requires Allowed(n, event) && Window(n, first)
    ensures Window(Handle(cfg, n, event), first)
  {
    if Commits(n, event) {
      WindowAfterCommit(cfg, n, first, event);
    } else {
      OtherSteps(cfg, n, Done(event));
      StepTables(cfg, n, Done(event));
      TxnsKeepConsistent(cfg, n, event, |Txns(cfg, n, event)|);
    }
  }

  lemma WindowAfterCommitCrash(cfg: Config, n: Node, first: Height, step: Step)
    requires StepAllowed(cfg, n, step) && Window(n, first)
    requires step.Crashed? && Commits(n, step.event) && step.committed > 0
    ensures Window(Next(cfg, n, step), first) <==> InPlace(cfg, n, first, step)
  {
    var c, n' := step.event.certificate, Next(cfg, n, step);
    StepTables(cfg, n, step);
    TxnsKeepConsistent(cfg, n, step.event, step.committed);
    if step.committed == |Txns(cfg, n, step.event)| {
      var done := Handle(cfg, n, step.event);
      WindowAfterHandler(cfg, n, first, step.event);
      assert Txns(cfg, n, step.event)[..step.committed] == Txns(cfg, n, step.event);
      OneHeightPerWindow(done.tables.decided.Keys, first, done.height, step.restart);
    } else {
      PartOfCommit(n.tables, c, step.committed);
      assert n'.tables.decided.Keys == n.tables.decided.Keys + {n.height};
      GrownWindow(n.tables.decided.Keys, first, n.height, step.restart);
    }
  }

  lemma WindowStep(cfg: Config, n: Node, first: Height, step: Step)
    requires StepAllowed(cfg, n, step) && Window(n, first)
    ensures Window(Next(cfg, n, step), first) <==> InPlace(cfg, n, first, step)
  {
    if step.Done? {
      WindowAfterHandler(cfg, n, first, step.event);
    } else if Commits(n, step.event) && step.committed > 0 {
      WindowAfterCommitCrash(cfg, n, first, step);
    } else {
      OtherSteps(cfg, n, step);
      StepTables(cfg, n, step);
      TxnsKeepConsistent(cfg, n, step.event, step.committed);
      OneHeightPerWindow(n.tables.decided.Keys, first, n.height, step.restart);
    }
  }

  ghost predicate RestartsInPlace(cfg: Config, n: Node, first: Height, steps: seq<Step>)
    requires RunAllowed(cfg, n, steps)
  {
    steps == [] ||
    (RestartsInPlace(cfg, n, first, steps[..|steps| - 1])
     && InPlace(cfg, Run(cfg, n, steps[..|steps| - 1]), first, steps[|steps| - 1]))
  }

  ghost predicate WindowThroughout(cfg: Config, n: Node, first: Height, steps: seq<Step>)
    requires RunAllowed(cfg, n, steps)
  {
    Window(Run(cfg, n, steps), first) && (steps == [] || WindowThroughout(cfg, n, first, steps[..|steps| - 1]))
  }

  /**
    Sliding history: over a run from an empty store, crashes included, the decided heights are at all times exactly
    the last 26 before the current height, or all since the first, and no older proposal is left, if and only if
    every restart is in place.
  */
  lemma {:induction false} SlidingHistory(cfg: Config, first: Height, steps: seq<Step>)
    requires RunAllowed(cfg, Boot(first, EMPTY_TABLES), steps)
    ensures WindowThroughout(cfg, Boot(first, EMPTY_TABLES), first, steps)
       <==> RestartsInPlace(cfg, Boot(first, EMPTY_TABLES), first, steps)
    ensures var n := Run(cfg, Boot(first, EMPTY_TABLES), steps);
            RestartsInPlace(cfg, Boot(first, EMPTY_TABLES), first, steps) ==>
              && (forall h :: h in n.tables.decided <==> first <= h < n.height <= h + 26)
              && (forall k :: k in n.tables.proposals ==> n.height <= k.0 + 26)
  {
    var n := Boot(first, EMPTY_TABLES);
    if steps == [] {
      assert Window(n, first);
    } else {
      var front := steps[..|steps| - 1];
      SlidingHistory(cfg, first, front);
      if WindowThroughout(cfg, n, first, front) {
        assert Window(Run(cfg, n, front), first);
        WindowStep(cfg, Run(cfg, n, front), first, steps[|steps| - 1]);
      }
    }
  }

  /** In particular without crashes. */
  lemma {:induction false} CrashFreeIsInPlace(cfg: Config, n: Node, first: Height, steps: seq<Step>)
    requires RunAllowed(cfg, n, steps) && CrashFree(steps)
    ensures RestartsInPlace(cfg, n, first, steps)
  {
    if steps != [] {
      CrashFreeIsInPlace(cfg, n, first, steps[..|steps| - 1]);
    }
  }

  lemma RunOneMore(cfg: Config, n: Node, steps: seq<Step>, step: Step)
    requires RunAllowed(cfg, n, steps) && StepAllowed(cfg, Run(cfg, n, steps), step)
    ensures RunAllowed(cfg, n, steps + [step])
    ensures Run(cfg, n, steps + [step]) == Next(cfg, Run(cfg, n, steps), step)
  {
    var all := steps + [step];
    assert all[..|all| - 1] == steps && all[|all| - 1] == step && all != [];
  }

  /** A restart at the configured height, after one decision, is not in place. */
  lemma RestartBreaksWindow(cfg: Config, first: Height, data: Bytes, certificate: CommitCertificate)
    requires Streamable(data) && first < 0xFFFF_FFFF_FFFF_FFFF
    requires certificate.height == first && certificate.round == At(0)
    ensures var n := Boot(first, EMPTY_TABLES);
            var steps := [Done(GetValue(first, At(0), data)), Done(Decided(certificate)),
                          Crashed(ConsensusReady, 0, first)];
            RunAllowed(cfg, n, steps) && !Window(Run(cfg, n, steps), first)
  {
    var n := Boot(first, EMPTY_TABLES);
    var propose, decide := Done(GetValue(first, At(0), data)), Done(Decided(certificate));
    var restart := Crashed(ConsensusReady, 0, first);
    RunOneMore(cfg, n, [], propose);
    StoreEffect(EMPTY_TABLES, ProposedOf(cfg.crypto, first, At(0), cfg.address, data), (first, At(0)), data);
    RunOneMore(cfg, n, [] + [propose], decide);
    var decided := [] + [propose] + [decide];
    RunOneMore(cfg, n, decided, restart);
    CrashFreeIsInPlace(cfg, n, first, decided);
    SlidingHistory(cfg, first, decided);
    WindowStep(cfg, Run(cfg, n, decided), first, restart);
    assert decided + [restart] == [propose, decide, restart];
  }

  /** The height advances, by one and to round 0, exactly when a decision is written; the decision is at the old height. */
  lemma HeightAdvancesWithDecisions(cfg: Config, n: Node, first: Height, event: Event)
    requires Allowed(n, event) && Window(n, first)
    ensures var n' := Handle(cfg, n, event);
            && n'.height in {n.height, n.height + 1}
            && (n'.height == n.height + 1 <==> n.height in n'.tables.decided)
            && (n'.height == n.height + 1 ==> n'.round == At(0))
            && (n'.height == n.height ==> n'.tables.decided == n.tables.decided)
  {
    WindowAfterHandler(cfg, n, first, event);
    var stored := EventEffect(cfg, n, event);
    if stored.Some? {
      StoreEffect(n.tables, stored.value, (stored.value.height, stored.value.round), stored.value.value.extensions);
    }
  }

  /**
    The earliest height told to peers: every height from it up to the current one is served. On an empty store
    the answer is height 1, so this holds exactly when something was decided or the node started no later than that.
  */
  lemma EarliestIsServed(n: Node, first: Height, earliest: Height)
    requires Window(n, first) && IsEarliest(n.tables, earliest)
    ensures (forall h :: earliest <= h < n.height ==> DecidedAt(n.tables, h).Some?) <==> n.height > first || first <= 1
  {
    if n.height > first {
      assert n.height - 1 in n.tables.decided;
    } else {
      assert n.tables.decided.Keys == {};
      assert first > 1 ==> earliest <= 1 < n.height && DecidedAt(n.tables, 1).None?;
    }
  }

  lemma WindowSize(n: Node, first: Height)
    requires Window(n, first)
    ensures |n.tables.decided| <= 26
    ensures n.height - first >= 26 ==> |n.tables.decided| == 26
    ensures n.height - first <= 26 ==> |n.tables.decided| == n.height - first
  {
    var low := if n.height - first >= 26 then n.height - 26 else first;
    IntervalSize(n.tables.decided.Keys, low, n.height);
  }

  lemma {:induction false} IntervalSize(heights: set<Height>, low: nat, high: nat)
    requires low <= high && forall h :: h in heights <==> low <= h < high < 0x1_0000_0000_0000_0000
    requires high < 0x1_0000_0000_0000_0000
    ensures |heights| == high - low
    decreases high
  {
    if low == high {
      assert heights == {};
    } else {
      IntervalSize(heights - {high - 1}, low, high - 1);
    }
  }

  // ---------------------------------------------------------------------------------------------
  // The ids of decided values

  /** A step that writes a decision finds the value that its certificate names. */
  ghost predicate NamesItsValue(cfg: Config, n: Node, step: Step) {
    Commits(n, step.event) && CommittedCount(cfg, n, step) > 0 ==>
      var c := step.event.certificate;
      n.tables.proposals[(c.height, c.round)].value.Id() == c.valueId
  }

  lemma NamesAfterDecision(t: Tables, certificate: CommitCertificate)
    requires Consistent(t) && NamesMatch(t) && (certificate.height, certificate.round) in t.proposals
    ensures var stored := t.proposals[(certificate.height, certificate.round)].value;
            && (NamesMatch(Decide(t, certificate)) <==> stored.Id() == certificate.valueId)
            && (NamesMatch(Apply(Decide(t, certificate), Prune(RetainHeight(certificate.height))))
                <==> stored.Id() == certificate.valueId)
  {
    var d := Decide(t, certificate);
    var p := Apply(d, Prune(RetainHeight(certificate.height)));
    assert certificate.height in d.decided && certificate.height in d.certificates;
    assert certificate.height in p.decided && certificate.height in p.certificates;
  }

  /** Nothing compares the two: exactly when a step, crashed anywhere or not, keeps the ids equal. */
  lemma NamesMatchWhen(cfg: Config, n: Node, step: Step)
    requires StepAllowed(cfg, n, step) && Consistent(n.tables) && NamesMatch(n.tables)
    ensures NamesMatch(Next(cfg, n, step).tables) <==> NamesItsValue(cfg, n, step)
  {
    var committed := CommittedCount(cfg, n, step);
    if !Commits(n, step.event) || committed == 0 {
      OtherSteps(cfg, n, step);
    } else {
      var c, txns := step.event.certificate, Txns(cfg, n, step.event);
      StepTables(cfg, n, step);
      NamesAfterDecision(n.tables, c);
      if committed < |txns| {
        PartOfCommit(n.tables, c, committed);
      } else {
        assert txns[..committed] == txns;
        CommitTables(n.tables, c);
      }
    }
  }

  ghost predicate NamesItsValues(cfg: Config, n: Node, steps: seq<Step>)
    requires RunAllowed(cfg, n, steps)
  {
    steps == [] ||
    (NamesItsValues(cfg, n, steps[..|steps| - 1])
     && NamesItsValue(cfg, Run(cfg, n, steps[..|steps| - 1]), steps[|steps| - 1]))
  }

  ghost predicate NamesMatchThroughout(cfg: Config, n: Node, steps: seq<Step>)
    requires RunAllowed(cfg, n, steps)
  {
    && NamesMatch(Run(cfg, n, steps).tables)
    && (steps == [] || NamesMatchThroughout(cfg, n, steps[..|steps| - 1]))
  }

  /**
    Over every run, crashes included, decided values have at all times the ids that their certificates name, if and
    only if every decision is written on a certificate that names the stored proposal of its round.
  */
  lemma {:induction false} NamesMatchThroughoutWhen(cfg: Config, n: Node, steps: seq<Step>)
    requires RunAllowed(cfg, n, steps) && Consistent(n.tables) && NamesMatch(n.tables)
    ensures NamesMatchThroughout(cfg, n, steps) <==> NamesItsValues(cfg, n, steps)
  {
    if steps != [] {
      var front := steps[..|steps| - 1];
      NamesMatchThroughoutWhen(cfg, n, front);
      ConsistentForever(cfg, n, front);
      if NamesMatchThroughout(cfg, n, front) {
        assert NamesMatch(Run(cfg, n, front).tables);
        NamesMatchWhen(cfg, Run(cfg, n, front), steps[|steps| - 1]);
      }
    }
  }
}
