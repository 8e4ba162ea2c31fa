/** Agreement between the tables: the block data held for a key is the block of the value held for it. */
module Index {
  import opened Bytes
  import opened Types
  import opened Keys
  import opened Signing
  import opened Store
  import opened Node
  import opened Safety
  import opened History

  /** A value and its block data belong together. */
  predicate Belongs(crypto: Crypto, value: Value, data: Bytes) {
    value.value == crypto.sipHash(data) && value.extensions == data
  }

  // ---------------------------------------------------------------------------------------------
  // What holds in every run

  /**
    Every stored proposal is a valid one for its key, with the hash of its bytes and no earlier valid round, and every
    decided value is the proposal that is held for its height and the round of its certificate.
  */
  ghost predicate Rooted(crypto: Crypto, t: Tables) {
    && (forall k :: k in t.proposals ==>
          var p := t.proposals[k];
          && p.height == k.0 && p.round == k.1 && p.validRound == Nil && p.valid
          && p.value.value == crypto.sipHash(p.value.extensions))
    && (forall h :: h in t.decided ==>
          && h in t.certificates && t.certificates[h].height == h
          && (h, t.certificates[h].round) in t.proposals
          && t.decided[h] == t.proposals[(h, t.certificates[h].round)].value)
  }

  ghost predicate RootedTxn(crypto: Crypto, t: Tables, txn: Txn) {
    match txn
    case StoreProposal(p) => p.validRound == Nil && p.valid && p.value.value == crypto.sipHash(p.value.extensions)
    case StoreDecided(value, c) => (c.height, c.round) in t.proposals && value == t.proposals[(c.height, c.round)].value
    case _ => true
  }

  lemma ApplyKeepsRooted(crypto: Crypto, t: Tables, txn: Txn)
    requires Rooted(crypto, t) && RootedTxn(crypto, t, txn)
    ensures Rooted(crypto, Apply(t, txn))
  {
  }

  /** Only the first transaction of a handler depends on what the tables hold. */
  lemma {:induction false} TxnsKeepRooted(crypto: Crypto, t: Tables, txns: seq<Txn>)
    requires Rooted(crypto, t) && (txns != [] ==> RootedTxn(crypto, t, txns[0]))
    requires forall i :: 0 < i < |txns| ==> !txns[i].StoreDecided? && !txns[i].StoreProposal?
    ensures Rooted(crypto, ApplyAll(t, txns))
    decreases txns
  {
    if txns != [] {
      ApplyKeepsRooted(crypto, t, txns[0]);
      TxnsKeepRooted(crypto, Apply(t, txns[0]), txns[1..]);
    }
  }

  lemma StepKeepsRooted(cfg: Config, n: Node, step: Step)
    requires StepAllowed(cfg, n, step) && Rooted(cfg.crypto, n.tables)
    ensures Rooted(cfg.crypto, Next(cfg, n, step).tables)
  {
    StepTables(cfg, n, step);
    var stored := EventEffect(cfg, n, step.event);
    TxnsKeepRooted(cfg.crypto, n.tables, Txns(cfg, n, step.event)[..CommittedCount(cfg, n, step)]);
  }

  /** Over every run, crashes anywhere and heights decided again included. */
  lemma {:induction false} RootedForever(cfg: Config, n: Node, steps: seq<Step>)
    requires RunAllowed(cfg, n, steps) && Rooted(cfg.crypto, n.tables)
    ensures Rooted(cfg.crypto, Run(cfg, n, steps).tables)
  {
    if steps != [] {
      RootedForever(cfg, n, steps[..|steps| - 1]);
      StepKeepsRooted(cfg, Run(cfg, n, steps[..|steps| - 1]), steps[|steps| - 1]);
    }
  }

  // ---------------------------------------------------------------------------------------------
  // Agreement of block data and values

  /** Undecided and decided block data accompany exactly the undecided and decided values. */
  ghost predicate Paired(crypto: Crypto, t: Tables) {
    && t.blockData.Keys == t.proposals.Keys
    && (forall k :: k in t.proposals ==> Belongs(crypto, t.proposals[k].value, t.blockData[k]))
    && t.decidedData.Keys == t.decided.Keys
    && (forall h :: h in t.decided ==> Belongs(crypto, t.decided[h], t.decidedData[h]))
  }

  /** A height that still has decided block data is decided with the same block. */
  ghost predicate SameBlock(t: Tables, certificate: CommitCertificate)
    requires (certificate.height, certificate.round) in t.proposals
  {
    certificate.height in t.decidedData ==>
      t.decidedData[certificate.height] == t.proposals[(certificate.height, certificate.round)].value.extensions
  }

  /** A step that keeps the tables paired: exactly under these conditions, both on the tables before it. */
  ghost predicate Settles(cfg: Config, n: Node, step: Step) {
    var txns, committed := Txns(cfg, n, step.event), CommittedCount(cfg, n, step);
    // no crash between a new proposal and its block data
    && (committed == 1 && |txns| == 2 && txns[0].StoreProposal? ==>
          (txns[0].proposal.height, txns[0].proposal.round) in n.tables.proposals)
    // no decision over the data of another block, and no crash between a decision and its block data
    && (Commits(n, step.event) && committed > 0 ==>
          && SameBlock(n.tables, step.event.certificate)
          && (committed == 1 ==> step.event.certificate.height in n.tables.decidedData))
  }

  lemma PairedPuts(crypto: Crypto, t: Tables, p: ProposedValue)
    requires Paired(crypto, t) && Belongs(crypto, p.value, p.value.extensions)
    ensures Paired(crypto, t.(proposals := PutIfAbsent(t.proposals, (p.height, p.round), p),
                              blockData := PutIfAbsent(t.blockData, (p.height, p.round), p.value.extensions)))
    ensures Paired(crypto, t.(proposals := PutIfAbsent(t.proposals, (p.height, p.round), p)))
       <==> (p.height, p.round) in t.proposals
  {
    var t' := t.(proposals := PutIfAbsent(t.proposals, (p.height, p.round), p));
    if (p.height, p.round) !in t.proposals {
      assert (p.height, p.round) in t'.proposals.Keys && (p.height, p.round) !in t'.blockData.Keys;
    }
  }

  lemma PairedStoring(crypto: Crypto, t: Tables, p: ProposedValue)
    requires Paired(crypto, t) && Belongs(crypto, p.value, p.value.extensions)
    ensures var txns := [StoreProposal(p), StoreBlockData((p.height, p.round), p.value.extensions)];
            && Paired(crypto, ApplyAll(t, txns))
            && (Paired(crypto, ApplyAll(t, txns[..1])) <==> (p.height, p.round) in t.proposals)
  {
    PairedPuts(crypto, t, p);
    PartOfStore(t, p, (p.height, p.round), p.value.extensions);
    StoreEffect(t, p, (p.height, p.round), p.value.extensions);
  }

  lemma PairedStore(cfg: Config, n: Node, step: Step)
    requires StepAllowed(cfg, n, step) && !Commits(n, step.event)
    requires Paired(cfg.crypto, n.tables)
    ensures Paired(cfg.crypto, Next(cfg, n, step).tables) <==> Settles(cfg, n, step)
  {
    var txns, committed := Txns(cfg, n, step.event), CommittedCount(cfg, n, step);
    StepTables(cfg, n, step);
    var stored := EventEffect(cfg, n, step.event);
    if committed == 0 {
      assert txns[..0] == [];
    } else if stored.Some? {
      PairedStoring(cfg.crypto, n.tables, stored.value);
      assert txns[..2] == txns;
    }
  }

  lemma PairedDecide(crypto: Crypto, t: Tables, c: CommitCertificate)
    requires Consistent(t) && Paired(crypto, t) && (c.height, c.round) in t.proposals
    ensures Paired(crypto, Decide(t, c)) <==> SameBlock(t, c)
    ensures Paired(crypto, Decide(t, c).(decidedData := t.decidedData))
       <==> c.height in t.decidedData && SameBlock(t, c)
  {
    var d, key := Decide(t, c), (c.height, c.round);
    assert t.blockData[key] == t.proposals[key].value.extensions;
    assert d.decided.Keys == t.decided.Keys + {c.height} == d.decidedData.Keys;
    assert d.decided[c.height] == t.proposals[key].value;
  }

  /** A prune does not remove what was just decided, so it repairs nothing. */
  lemma PairedPrune(crypto: Crypto, t: Tables, c: CommitCertificate)
    requires Consistent(t) && Paired(crypto, t) && (c.height, c.round) in t.proposals
    ensures Paired(crypto, Apply(Decide(t, c), Prune(RetainHeight(c.height)))) <==> Paired(crypto, Decide(t, c))
  {
    var d := Decide(t, c);
    var p := Apply(d, Prune(RetainHeight(c.height)));
    assert c.height in p.decided && p.decided[c.height] == d.decided[c.height];
    assert c.height in d.decidedData && p.decidedData[c.height] == d.decidedData[c.height];
    PairedDecide(crypto, t, c);
  }

  lemma PairedCommit(cfg: Config, n: Node, step: Step)
    requires StepAllowed(cfg, n, step) && Commits(n, step.event)
    requires Consistent(n.tables) && Paired(cfg.crypto, n.tables)
    ensures Paired(cfg.crypto, Next(cfg, n, step).tables) <==> Settles(cfg, n, step)
  {
    var c, txns, committed := step.event.certificate, Txns(cfg, n, step.event), CommittedCount(cfg, n, step);
    StepTables(cfg, n, step);
    assert (c.height, c.round) in n.tables.blockData.Keys;
    assert |txns| == 3;
    PairedDecide(cfg.crypto, n.tables, c);
    if committed == 0 {
      assert txns[..0] == [];
    } else if committed < |txns| {
      PartOfCommit(n.tables, c, committed);
    } else {
      assert txns[..committed] == txns;
      CommitTables(n.tables, c);
      PairedPrune(cfg.crypto, n.tables, c);
    }
  }

  ghost predicate SettlesThroughout(cfg: Config, n: Node, steps: seq<Step>)
    requires RunAllowed(cfg, n, steps)
  {
    steps == [] ||
    (SettlesThroughout(cfg, n, steps[..|steps| - 1])
     && Settles(cfg, Run(cfg, n, steps[..|steps| - 1]), steps[|steps| - 1]))
  }

  ghost predicate PairedThroughout(cfg: Config, n: Node, steps: seq<Step>)
    requires RunAllowed(cfg, n, steps)
  {
    && Paired(cfg.crypto, Run(cfg, n, steps).tables)
    && (steps == [] || PairedThroughout(cfg, n, steps[..|steps| - 1]))
  }

  /**
    Over every run, crashes included: block data and values go together at all times, in the undecided and in the
    decided tables, if and only if every step settles.
  */
  lemma {:induction false} IndexAgreement(cfg: Config, n: Node, steps: seq<Step>)
    requires RunAllowed(cfg, n, steps) && Consistent(n.tables) && Paired(cfg.crypto, n.tables)
    ensures PairedThroughout(cfg, n, steps) <==> SettlesThroughout(cfg, n, steps)
  {
    if steps != [] {
      var front, last := steps[..|steps| - 1], steps[|steps| - 1];
      var m := Run(cfg, n, front);
      IndexAgreement(cfg, n, front);
      ConsistentForever(cfg, n, front);
      if PairedThroughout(cfg, n, front) {
        assert Paired(cfg.crypto, m.tables);
        if Commits(m, last.event) {
          PairedCommit(cfg, m, last);
        } else {
          PairedStore(cfg, m, last);
        }
      }
    }
  }

  /** No crash inside a handler, restarts between handlers allowed, and no height decided while it has a decision. */
  ghost predicate Orderly(cfg: Config, n: Node, steps: seq<Step>)
    requires RunAllowed(cfg, n, steps)
  {
    steps == [] ||
    (Orderly(cfg, n, steps[..|steps| - 1])
     && var m, last := Run(cfg, n, steps[..|steps| - 1]), steps[|steps| - 1];
        && CommittedCount(cfg, m, last) in {0, |Txns(cfg, m, last.event)|}
        && (Commits(m, last.event) ==> last.event.certificate.height !in m.tables.decided))
  }

  /** Such runs always settle. */
  lemma {:induction false} OrderlyRunsSettle(cfg: Config, n: Node, steps: seq<Step>)
    requires RunAllowed(cfg, n, steps) && Consistent(n.tables) && Orderly(cfg, n, steps)
    ensures SettlesThroughout(cfg, n, steps)
  {
    if steps != [] {
      var front := steps[..|steps| - 1];
      OrderlyRunsSettle(cfg, n, front);
      ConsistentForever(cfg, n, front);
    }
  }

  /** Then looking up the block data of a decided round gives the decided block. */
  lemma LookupFindsDecidedBlock(crypto: Crypto, t: Tables, height: Height)
    requires Consistent(t) && Rooted(crypto, t) && Paired(crypto, t) && height in t.decided
    ensures BlockDataFor(t, (height, t.certificates[height].round)) == Some(t.decided[height].extensions)
  {
    assert (height, t.certificates[height].round) in t.blockData.Keys;
  }

  // ---------------------------------------------------------------------------------------------
  // Runs that lose it

  /** The two transactions that store a proposal. */
  function Storing(proposal: ProposedValue, data: Bytes): seq<Txn> {
    [StoreProposal(proposal), StoreBlockData((proposal.height, proposal.round), data)]
  }

  /**
    When storing a proposal ends in agreement for its key: the key was unused, or it already had agreeing data,
    or a crash had left it without data and the very same block is stored again.
  */
  lemma StoringAgreesWhen(t: Tables, proposal: ProposedValue)
    requires Consistent(t)
    ensures var key, data := (proposal.height, proposal.round), proposal.value.extensions;
            var t' := ApplyAll(t, Storing(proposal, data));
            && key in t'.proposals && key in t'.blockData
            && (t'.blockData[key] == t'.proposals[key].value.extensions <==>
                  || key !in t.proposals
                  || (key in t.blockData && t.blockData[key] == t.proposals[key].value.extensions)
                  || (key !in t.blockData && t.proposals[key].value.extensions == data))
  {
    StoreEffect(t, proposal, (proposal.height, proposal.round), proposal.value.extensions);
  }

  /** Two blocks proposed for one height and round, with a crash between the transactions of the first. */
  lemma CrashBreaksAgreement(cfg: Config, height: Height, a: Bytes, b: Bytes)
    requires Streamable(a) && Streamable(b) && a != b
    ensures var n := Boot(height, EMPTY_TABLES);
            var steps := [Crashed(GetValue(height, At(0), a), 1, height), Done(GetValue(height, At(0), b))];
            && RunAllowed(cfg, n, steps)
            && var t, key := Run(cfg, n, steps).tables, (height, At(0));
               key in t.proposals && key in t.blockData && t.blockData[key] != t.proposals[key].value.extensions
  {
    var n := Boot(height, EMPTY_TABLES);
    var first, second := Crashed(GetValue(height, At(0), a), 1, height), Done(GetValue(height, At(0), b));
    var p, q := ProposedOf(cfg.crypto, height, At(0), cfg.address, a), ProposedOf(cfg.crypto, height, At(0), cfg.address, b);
    RunOneMore(cfg, n, [], first);
    PartOfStore(EMPTY_TABLES, p, (height, At(0)), a);
    RunOneMore(cfg, n, [] + [first], second);
    StoringAgreesWhen(Run(cfg, n, [] + [first]).tables, q);
    assert [] + [first] + [second] == [first, second];
  }

  /** A second decision of a height overwrites the decision, and not its block data. */
  lemma SecondDecisionOverwrites(t: Tables, c1: CommitCertificate, c2: CommitCertificate)
    requires c1.height == c2.height && c1.height !in t.decidedData
    requires (c1.height, c1.round) in t.proposals && (c1.height, c1.round) in t.blockData
    requires (c2.height, c2.round) in t.proposals
    ensures var t1 := ApplyAll(t, CommitTxns(t, c1));
            && (c2.height, c2.round) in t1.proposals
            && var t2 := ApplyAll(t1, CommitTxns(t1, c2));
               && c2.height in t2.decided && t2.decided[c2.height] == t.proposals[(c2.height, c2.round)].value
               && c2.height in t2.decidedData && t2.decidedData[c2.height] == t.blockData[(c1.height, c1.round)]
  {
    CommitTables(t, c1);
    var t1 := Apply(Decide(t, c1), Prune(RetainHeight(c1.height)));
    assert t1.decidedData[c1.height] == t.blockData[(c1.height, c1.round)];
    CommitTables(t1, c2);
  }

  /** What a node holds after it proposed two blocks for different rounds of a height. */
  ghost predicate HoldsBoth(cfg: Config, t: Tables, height: Height, a: Bytes, b: Bytes) {
    && height !in t.decidedData
    && (height, At(0)) in t.proposals && (height, At(0)) in t.blockData && t.blockData[(height, At(0))] == a
    && (height, At(1)) in t.proposals && t.proposals[(height, At(1))].value == Value.New(cfg.crypto, b)
  }

  function Proposing(height: Height, a: Bytes, b: Bytes): seq<Step> {
    [Done(GetValue(height, At(0), a)), Done(StartedRound(height, At(1))), Done(GetValue(height, At(1), b))]
  }

  function Deciding(height: Height): seq<Step> {
    [Done(Decided(CommitCertificate(height, At(0), 0, []))), Crashed(ConsensusReady, 0, height),
     Done(Decided(CommitCertificate(height, At(1), 0, [])))]
  }

  lemma ProposingRun(cfg: Config, height: Height, a: Bytes, b: Bytes)
    requires Streamable(a) && Streamable(b)
    ensures RunAllowed(cfg, Boot(height, EMPTY_TABLES), Proposing(height, a, b))
    ensures var m := Run(cfg, Boot(height, EMPTY_TABLES), Proposing(height, a, b));
            m.height == height && HoldsBoth(cfg, m.tables, height, a, b)
  {
    var n, steps := Boot(height, EMPTY_TABLES), Proposing(height, a, b);
    RunOneMore(cfg, n, [], steps[0]);
    StoreEffect(EMPTY_TABLES, ProposedOf(cfg.crypto, height, At(0), cfg.address, a), (height, At(0)), a);
    RunOneMore(cfg, n, [] + [steps[0]], steps[1]);
    var t := Run(cfg, n, [] + [steps[0]] + [steps[1]]).tables;
    assert t == Run(cfg, n, [] + [steps[0]]).tables;
    RunOneMore(cfg, n, [] + [steps[0]] + [steps[1]], steps[2]);
    StoreEffect(t, ProposedOf(cfg.crypto, height, At(1), cfg.address, b), (height, At(1)), b);
    assert [] + [steps[0]] + [steps[1]] + [steps[2]] == steps;
  }

  lemma DecidingRun(cfg: Config, m: Node, height: Height, a: Bytes, b: Bytes)
    requires m.height == height < 0xFFFF_FFFF_FFFF_FFFF && HoldsBoth(cfg, m.tables, height, a, b)
    ensures RunAllowed(cfg, m, Deciding(height))
    ensures var t := Run(cfg, m, Deciding(height)).tables;
            && height in t.decided && t.decided[height] == Value.New(cfg.crypto, b)
            && height in t.decidedData && t.decidedData[height] == a
  {
    var steps := Deciding(height);
    SecondDecisionOverwrites(m.tables, steps[0].event.certificate, steps[2].event.certificate);
    RunOneMore(cfg, m, [], steps[0]);
    var decided := Run(cfg, m, [] + [steps[0]]);
    StepTables(cfg, decided, steps[1]);
    assert Txns(cfg, decided, ConsensusReady)[..0] == [];
    RunOneMore(cfg, m, [] + [steps[0]], steps[1]);
    RunOneMore(cfg, m, [] + [steps[0]] + [steps[1]], steps[2]);
    assert [] + [steps[0]] + [steps[1]] + [steps[2]] == steps;
  }

  lemma LastOfRun(cfg: Config, n: Node, start: seq<Step>, last: Step)
    requires RunAllowed(cfg, n, start + [last])
    ensures RunAllowed(cfg, n, start) && StepAllowed(cfg, Run(cfg, n, start), last)
    ensures Run(cfg, n, start + [last]) == Next(cfg, Run(cfg, n, start), last)
  {
    var all := start + [last];
    assert all[..|all| - 1] == start && all[|all| - 1] == last && all != [];
  }

  lemma {:induction false} RunAppend(cfg: Config, n: Node, front: seq<Step>, back: seq<Step>)
    requires RunAllowed(cfg, n, front) && RunAllowed(cfg, Run(cfg, n, front), back)
    ensures RunAllowed(cfg, n, front + back)
    ensures Run(cfg, n, front + back) == Run(cfg, Run(cfg, n, front), back)
  {
    if back == [] {
      assert front + back == front;
    } else {
      var start, last := back[..|back| - 1], back[|back| - 1];
      assert back == start + [last];
      LastOfRun(cfg, Run(cfg, n, front), start, last);
      RunAppend(cfg, n, front, start);
      RunOneMore(cfg, n, front + start, last);
      Associate(front, start, [last]);
    }
  }

  /**
    One block for each height and round, no crash inside a handler, but a height that is decided again in another
    round after a restart: the value of one block is held with the data of the other.
  */
  lemma SecondDecisionKeepsFirstData(cfg: Config, height: Height, a: Bytes, b: Bytes)
    requires Streamable(a) && Streamable(b) && a != b && height < 0xFFFF_FFFF_FFFF_FFFF
    ensures var n, steps := Boot(height, EMPTY_TABLES), Proposing(height, a, b) + Deciding(height);
            && RunAllowed(cfg, n, steps)
            && var t := Run(cfg, n, steps).tables;
               height in t.decided && height in t.decidedData && !Belongs(cfg.crypto, t.decided[height], t.decidedData[height])
  {
    var n := Boot(height, EMPTY_TABLES);
    ProposingRun(cfg, height, a, b);
    DecidingRun(cfg, Run(cfg, n, Proposing(height, a, b)), height, a, b);
    RunAppend(cfg, n, Proposing(height, a, b), Deciding(height));
  }

  // ---------------------------------------------------------------------------------------------
  // Agreement with what was proposed

  /** The one block proposed for a key. */
  datatype Block = Block(proposer: Address, data: Bytes)
  type Blocks = map<Key, Block>

  function ValueOf(crypto: Crypto, key: Key, block: Block): ProposedValue {
    ProposedOf(crypto, key.0, key.1, block.proposer, block.data)
  }

  /** Proposals and their data are what was proposed under their keys, decided values what was in their round. */
  ghost predicate Agrees(crypto: Crypto, t: Tables, blocks: Blocks) {
    && (forall k :: k in t.proposals ==> k in blocks && t.proposals[k] == ValueOf(crypto, k, blocks[k]))
    && (forall k :: k in t.blockData ==> k in blocks && t.blockData[k] == blocks[k].data)
    && (forall h :: h in t.decided ==>
          && h in t.certificates && (h, t.certificates[h].round) in blocks
          && t.decided[h] == Value.New(crypto, blocks[(h, t.certificates[h].round)].data))
  }

  ghost predicate TxnAgrees(crypto: Crypto, txn: Txn, blocks: Blocks) {
    match txn
    case StoreProposal(p) =>
      var k := (p.height, p.round);
      k in blocks && p == ValueOf(crypto, k, blocks[k])
    case StoreBlockData(k, data) => k in blocks && data == blocks[k].data
    case StoreDecided(value, c) =>
      (c.height, c.round) in blocks && value == Value.New(crypto, blocks[(c.height, c.round)].data)
    case _ => true
  }

  lemma ApplyKeepsAgreement(crypto: Crypto, t: Tables, txn: Txn, blocks: Blocks)
    requires Agrees(crypto, t, blocks) && TxnAgrees(crypto, txn, blocks)
    ensures Agrees(crypto, Apply(t, txn), blocks)
  {
  }

  /** An event brings to a node no second block for a key. */
  ghost predicate EventAgrees(cfg: Config, n: Node, event: Event, blocks: Blocks) {
    match event
    case GetValue(height, round, data) =>
      (height, round) in blocks && blocks[(height, round)] == Block(cfg.address, data)
    case ReceivedPart(from, msg) =>
      var value := ReceiveReply(cfg, n, from, msg);
      value.Some? ==>
        var key := (value.value.height, value.value.round);
        key in blocks && value.value == ValueOf(cfg.crypto, key, blocks[key])
    case _ => true
  }

  lemma ReceivingStores(cfg: Config, n: Node, event: Event)
    requires event.ReceivedPart?
    ensures var reply := ReceiveReply(cfg, n, event.from, event.msg);
            Txns(cfg, n, event) == if reply.None? then [] else Storing(reply.value, reply.value.value.extensions)
  {
  }

  lemma StoringFits(crypto: Crypto, key: Key, blocks: Blocks, i: nat)
    requires key in blocks && i < 2
    ensures var p := ValueOf(crypto, key, blocks[key]);
            TxnAgrees(crypto, Storing(p, p.value.extensions)[i], blocks)
  {
  }

  lemma TxnsAgree(cfg: Config, n: Node, event: Event, blocks: Blocks, i: nat)
    requires Agrees(cfg.crypto, n.tables, blocks) && EventAgrees(cfg, n, event, blocks)
    requires i < |Txns(cfg, n, event)|
    ensures TxnAgrees(cfg.crypto, Txns(cfg, n, event)[i], blocks)
  {
    match event
    case GetValue(height, round, data) => StoringFits(cfg.crypto, (height, round), blocks, i);
    case ReceivedPart(from, msg) =>
      ReceivingStores(cfg, n, event);
      var p := ReceiveReply(cfg, n, from, msg).value;
      StoringFits(cfg.crypto, (p.height, p.round), blocks, i);
    case _ =>
  }

  /** After any prefix of an event's transactions, crashes included, the tables still agree with what was proposed. */
  lemma TxnsKeepAgreement(cfg: Config, n: Node, event: Event, blocks: Blocks, k: nat)
    requires Agrees(cfg.crypto, n.tables, blocks) && EventAgrees(cfg, n, event, blocks)
    requires k <= |Txns(cfg, n, event)|
    ensures Agrees(cfg.crypto, ApplyAll(n.tables, Txns(cfg, n, event)[..k]), blocks)
  {
    forall i | 0 <= i < k ensures TxnAgrees(cfg.crypto, Txns(cfg, n, event)[i], blocks) {
      TxnsAgree(cfg, n, event, blocks, i);
    }
    AgreementAfter(cfg.crypto, n.tables, Txns(cfg, n, event)[..k], blocks);
  }

  lemma {:induction false} AgreementAfter(crypto: Crypto, t: Tables, txns: seq<Txn>, blocks: Blocks)
    requires Agrees(crypto, t, blocks)
    requires forall i :: 0 <= i < |txns| ==> TxnAgrees(crypto, txns[i], blocks)
    ensures Agrees(crypto, ApplyAll(t, txns), blocks)
    decreases txns
  {
    if txns != [] {
      ApplyKeepsAgreement(crypto, t, txns[0], blocks);
      AgreementAfter(crypto, Apply(t, txns[0]), txns[1..], blocks);
    }
  }

  ghost predicate RunAgrees(cfg: Config, n: Node, steps: seq<Step>, blocks: Blocks)
    requires RunAllowed(cfg, n, steps)
  {
    steps == [] ||
    (RunAgrees(cfg, n, steps[..|steps| - 1], blocks)
     && EventAgrees(cfg, Run(cfg, n, steps[..|steps| - 1]), steps[|steps| - 1].event, blocks))
  }

  /**
    With crashes anywhere and heights decided any number of times, but one block for a key, values and undecided
    block data are always what was proposed.
  */
  lemma {:induction false} AgreementDespiteCrashes(cfg: Config, n: Node, steps: seq<Step>, blocks: Blocks)
    requires RunAllowed(cfg, n, steps) && RunAgrees(cfg, n, steps, blocks)
    requires Agrees(cfg.crypto, n.tables, blocks)
    ensures Agrees(cfg.crypto, Run(cfg, n, steps).tables, blocks)
  {
    if steps != [] {
      var front, last := steps[..|steps| - 1], steps[|steps| - 1];
      AgreementDespiteCrashes(cfg, n, front, blocks);
      var m := Run(cfg, n, front);
      StepTables(cfg, m, last);
      TxnsKeepAgreement(cfg, m, last.event, blocks, CommittedCount(cfg, m, last));
    }
  }

  /** Decided block data is that of the block proposed in the decided round. */
  ghost predicate DataAgrees(t: Tables, blocks: Blocks) {
    forall h :: h in t.decidedData ==>
      && h in t.certificates && (h, t.certificates[h].round) in blocks
      && t.decidedData[h] == blocks[(h, t.certificates[h].round)].data
  }

  /** A step that writes a decision does not write it over the data of another block. */
  ghost predicate KeepsBlock(cfg: Config, n: Node, step: Step) {
    Commits(n, step.event) && CommittedCount(cfg, n, step) > 0 ==> SameBlock(n.tables, step.event.certificate)
  }

  lemma DataAfterDecision(crypto: Crypto, t: Tables, c: CommitCertificate, blocks: Blocks)
    requires Consistent(t) && Agrees(crypto, t, blocks) && DataAgrees(t, blocks) && (c.height, c.round) in t.proposals
    ensures DataAgrees(Decide(t, c), blocks) <==> SameBlock(t, c)
    ensures DataAgrees(Decide(t, c).(decidedData := t.decidedData), blocks) <==> SameBlock(t, c)
  {
    var d := Decide(t, c);
    assert t.proposals[(c.height, c.round)].value.extensions == blocks[(c.height, c.round)].data;
    assert c.height in d.certificates && d.certificates[c.height] == c;
    if c.height in t.decidedData {
      assert d.decidedData[c.height] == t.decidedData[c.height];
    }
  }

  /** A prune keeps the one height at which there may be disagreement. */
  lemma DataSurvivesPrune(d: Tables, blocks: Blocks, retain: Height, kept: Height)
    requires d.decided.Keys == d.certificates.Keys && retain <= kept
    requires DataAgrees(d.(decidedData := d.decidedData - {kept}), blocks)
    ensures DataAgrees(Apply(d, Prune(retain)), blocks) <==> DataAgrees(d, blocks)
  {
    var p, rest := Apply(d, Prune(retain)), d.decidedData - {kept};
    forall h | h in p.decidedData ensures h in d.decidedData && p.decidedData[h] == d.decidedData[h] {
    }
    if kept in d.decidedData {
      assert kept in p.decidedData;
    }
    forall h | h in d.decidedData && h != kept ensures h in rest && rest[h] == d.decidedData[h] {
    }
  }

  lemma DataAfterPrune(crypto: Crypto, t: Tables, c: CommitCertificate, blocks: Blocks)
    requires Consistent(t) && Agrees(crypto, t, blocks) && DataAgrees(t, blocks) && (c.height, c.round) in t.proposals
    ensures DataAgrees(Apply(Decide(t, c), Prune(RetainHeight(c.height))), blocks) <==> SameBlock(t, c)
  {
    DataAfterDecision(crypto, t, c, blocks);
    CommitEffect(t, c);
    DataSurvivesPrune(Decide(t, c), blocks, RetainHeight(c.height), c.height);
  }

  lemma DataAfterStep(cfg: Config, n: Node, step: Step, blocks: Blocks)
    requires StepAllowed(cfg, n, step) && Consistent(n.tables)
    requires Agrees(cfg.crypto, n.tables, blocks) && DataAgrees(n.tables, blocks)
    ensures DataAgrees(Next(cfg, n, step).tables, blocks) <==> KeepsBlock(cfg, n, step)
  {
    var committed := CommittedCount(cfg, n, step);
    if !Commits(n, step.event) || committed == 0 {
      OtherSteps(cfg, n, step);
    } else {
      var c, txns := step.event.certificate, Txns(cfg, n, step.event);
      StepTables(cfg, n, step);
      DataAfterDecision(cfg.crypto, n.tables, c, blocks);
      if committed < |txns| {
        PartOfCommit(n.tables, c, committed);
      } else {
        assert txns[..committed] == txns;
        CommitTables(n.tables, c);
        DataAfterPrune(cfg.crypto, n.tables, c, blocks);
      }
    }
  }

  ghost predicate KeepsBlocks(cfg: Config, n: Node, steps: seq<Step>)
    requires RunAllowed(cfg, n, steps)
  {
    steps == [] ||
    (KeepsBlocks(cfg, n, steps[..|steps| - 1])
     && KeepsBlock(cfg, Run(cfg, n, steps[..|steps| - 1]), steps[|steps| - 1]))
  }

  ghost predicate DataThroughout(cfg: Config, n: Node, steps: seq<Step>, blocks: Blocks)
    requires RunAllowed(cfg, n, steps)
  {
    && DataAgrees(Run(cfg, n, steps).tables, blocks)
    && (steps == [] || DataThroughout(cfg, n, steps[..|steps| - 1], blocks))
  }

  /**
    Under the same assumption, decided block data is at all times that of the decided value if and only if no
    decision is written over the data of another block.
  */
  lemma {:induction false} DataDespiteCrashes(cfg: Config, n: Node, steps: seq<Step>, blocks: Blocks)
    requires RunAllowed(cfg, n, steps) && RunAgrees(cfg, n, steps, blocks)
    requires Consistent(n.tables) && Agrees(cfg.crypto, n.tables, blocks) && DataAgrees(n.tables, blocks)
    ensures DataThroughout(cfg, n, steps, blocks) <==> KeepsBlocks(cfg, n, steps)
  {
    if steps != [] {
      var front := steps[..|steps| - 1];
      DataDespiteCrashes(cfg, n, front, blocks);
      ConsistentForever(cfg, n, front);
      AgreementDespiteCrashes(cfg, n, front, blocks);
      if DataThroughout(cfg, n, front, blocks) {
        assert DataAgrees(Run(cfg, n, front).tables, blocks);
        DataAfterStep(cfg, Run(cfg, n, front), steps[|steps| - 1], blocks);
      }
    }
  }

  /** Agreement with what was proposed is agreement between the tables. */
  lemma AgreementIsIndexAgreement(crypto: Crypto, t: Tables, blocks: Blocks)
    requires Agrees(crypto, t, blocks)
    ensures forall k :: k in t.proposals && k in t.blockData ==> Belongs(crypto, t.proposals[k].value, t.blockData[k])
    ensures DataAgrees(t, blocks) ==>
              forall h :: h in t.decided && h in t.decidedData ==> Belongs(crypto, t.decided[h], t.decidedData[h])
  {
  }
}
