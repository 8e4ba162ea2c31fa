/**
  A cluster of nodes over an unreliable network. Whatever was published can reach any node, its publisher
  included, at any later time, any number of times and in any order, or never; nodes crash and restart between
  any two transactions and between any two messages they publish.
*/
module Cluster {
  import opened Bytes
  import opened Types
  import opened Keys
  import opened Streaming
  import opened Reassembly
  import opened Signing
  import opened Store
  import opened Node
  import opened Safety
  import opened History
  import opened Index

  type Configs = map<PeerId, Config>

  /** A proposal that a node started to store: who made it, under which stream counter, and the block. */
  datatype Publication = Publication(peer: PeerId, nonce: u32, data: Bytes)
  type Publications = map<Key, Publication>

  datatype Cluster = Cluster(
    nodes: map<PeerId, Node>,
    net: set<Arrival>,
    published: Publications)

  datatype ClusterStep = ClusterStep(id: PeerId, step: Step, sent: nat)

  ghost predicate SameCrypto(cfgs: Configs, crypto: Crypto) {
    forall p :: p in cfgs ==> cfgs[p].crypto == crypto
  }

  ghost predicate WellFormed(cfgs: Configs, published: Publications) {
    forall k :: k in published ==> k.1.At? && published[k].peer in cfgs && Streamable(published[k].data)
  }

  /** The stream of a publication. */
  ghost function PublishedId(published: Publications, k: Key): StreamId
    requires k in published && k.1.At?
  {
    StreamIdBytes(k.0, k.1.number, published[k].nonce)
  }

  ghost function Parts(cfgs: Configs, published: Publications, k: Key): (parts: seq<ProposalPart>)
    requires k in published && published[k].peer in cfgs && Streamable(published[k].data)
    ensures StartsWithInit(parts) && parts[0].init.height == k.0 && parts[0].init.round == k.1
  {
    PartsFor(cfgs[published[k].peer], k.0, k.1, published[k].data)
  }

  ghost function BlocksOf(cfgs: Configs, published: Publications): Blocks
    requires WellFormed(cfgs, published)
  {
    map k | k in published :: Block(cfgs[published[k].peer].address, published[k].data)
  }

  /** Whether a step leaves a trace of its proposal. */
  predicate Proposes(step: Step) {
    step.event.GetValue? && (step.Done? || step.committed > 0)
  }

  ghost predicate ClusterAllowed(cfgs: Configs, c: Cluster, s: ClusterStep) {
    && s.id in c.nodes && s.id in cfgs
    && StepAllowed(cfgs[s.id], c.nodes[s.id], s.step)
    && match s.step.event
       case GetValue(height, round, data) =>
         // at most one proposal for a height and a round
         && (height, round) !in c.published
         && s.sent <= |StreamFor(cfgs[s.id], height, round.number, c.nodes[s.id].nonce, data)|
         && (s.step.Done? ==> s.sent == |StreamFor(cfgs[s.id], height, round.number, c.nodes[s.id].nonce, data)|)
         && (s.step.Crashed? && s.step.committed < 2 ==> s.sent == 0)
       case ReceivedPart(from, msg) => (from, msg) in c.net
       case _ => true
  }

  ghost function Publish(cfgs: Configs, c: Cluster, s: ClusterStep): Publications
    requires ClusterAllowed(cfgs, c, s)
  {
    if Proposes(s.step) then
      c.published[(s.step.event.height, s.step.event.round) :=
        Publication(s.id, c.nodes[s.id].nonce, s.step.event.data)]
    else c.published
  }

  ghost function Send(cfgs: Configs, c: Cluster, s: ClusterStep): set<Arrival>
    requires ClusterAllowed(cfgs, c, s)
  {
    match s.step.event
    case GetValue(height, round, data) =>
      var msgs := StreamFor(cfgs[s.id], height, round.number, c.nodes[s.id].nonce, data);
      c.net + set m | m in msgs[..s.sent] :: (s.id, m)
    case _ => c.net
  }

  ghost function ClusterNext(cfgs: Configs, c: Cluster, s: ClusterStep): Cluster
    requires ClusterAllowed(cfgs, c, s)
  {
    Cluster(
      c.nodes[s.id := Next(cfgs[s.id], c.nodes[s.id], s.step)],
      Send(cfgs, c, s),
      Publish(cfgs, c, s))
  }

  // ---------------------------------------------------------------------------------------------
  // The invariant

  /** A message in the network is one of the stream of a publication by its sender. */
  ghost predicate Genuine(cfgs: Configs, published: Publications, a: Arrival, k: Key)
    requires WellFormed(cfgs, published)
  {
    k in published && published[k].peer == a.0 && a.1 in Messages(PublishedId(published, k), Parts(cfgs, published, k))
  }

  ghost predicate NetGenuine(cfgs: Configs, published: Publications, net: set<Arrival>)
    requires WellFormed(cfgs, published)
  {
    forall a :: a in net ==> exists k :: Genuine(cfgs, published, a, k)
  }

  /** A stream that a node is receiving is fed by a single publication. */
  ghost predicate Feeds(cfgs: Configs, published: Publications, key: StreamKey, s: Stream, k: Key)
    requires WellFormed(cfgs, published)
  {
    && k in published && key == (published[k].peer, PublishedId(published, k))
    && Faithful(s, key.1, Parts(cfgs, published, k))
  }

  ghost predicate StreamsFed(cfgs: Configs, published: Publications, streams: Streams)
    requires WellFormed(cfgs, published)
  {
    forall key :: key in streams ==> exists k :: Feeds(cfgs, published, key, streams[key], k)
  }

  ghost predicate NodeSafe(cfgs: Configs, crypto: Crypto, published: Publications, n: Node)
    requires WellFormed(cfgs, published)
  {
    && Consistent(n.tables)
    && Agrees(crypto, n.tables, BlocksOf(cfgs, published))
    && StreamsFed(cfgs, published, n.streams)
  }

  ghost predicate ClusterSafe(cfgs: Configs, crypto: Crypto, c: Cluster) {
    && SameCrypto(cfgs, crypto)
    && WellFormed(cfgs, c.published)
    && NetGenuine(cfgs, c.published, c.net)
    && (forall p :: p in c.nodes ==> NodeSafe(cfgs, crypto, c.published, c.nodes[p]))
  }

  // ---------------------------------------------------------------------------------------------
  // Delivery

  /** Streams of different publications have different identifiers. */
  lemma StreamIdsDiffer(cfgs: Configs, published: Publications, j: Key, k: Key)
    requires WellFormed(cfgs, published) && j in published && k in published
    requires PublishedId(published, j) == PublishedId(published, k)
    ensures j == k
  {
    StreamIdInjective(j.0, j.1.number, published[j].nonce, k.0, k.1.number, published[k].nonce);
  }

  /** A genuine message leaves the streams fed and emits nothing or what its publisher proposed. */
  lemma Delivery(cfgs: Configs, published: Publications, streams: Streams, a: Arrival, k: Key)
    requires WellFormed(cfgs, published) && StreamsFed(cfgs, published, streams) && Genuine(cfgs, published, a, k)
    ensures StreamsFed(cfgs, published, InsertPart(streams, a.0, a.1).0)
    ensures InsertPart(streams, a.0, a.1).1 in {None, Some(ReportOf(Parts(cfgs, published, k)))}
  {
    var key := KeyOf(a);
    var parts := Parts(cfgs, published, k);
    var s := EntryOf(streams, key);
    assert a.1.streamId == PublishedId(published, k);
    if key in streams {
      var j :| Feeds(cfgs, published, key, streams[key], j);
      StreamIdsDiffer(cfgs, published, j, k);
    }
    assert Faithful(s, key.1, parts);
    FaithfulStep(s, key.1, parts, a.1);
    EntriesStay(streams, a.0, a.1);
    var streams' := InsertPart(streams, a.0, a.1).0;
    forall x | x in streams' ensures exists y :: Feeds(cfgs, published, x, streams'[x], y) {
      if x == key {
        assert Feeds(cfgs, published, x, streams'[x], k);
      }
    }
  }

  /** What a node takes from a reassembled publication is the proposal as its publisher stored it. */
  lemma TakesPublication(cfgs: Configs, crypto: Crypto, published: Publications, k: Key, cfg: Config, height: Height)
    requires SameCrypto(cfgs, crypto) && WellFormed(cfgs, published) && k in published && cfg.crypto == crypto
    ensures Take(cfg, height, ReportOf(Parts(cfgs, published, k))).1
            in {None, Some(ValueOf(crypto, k, BlocksOf(cfgs, published)[k]))}
  {
    var pub, sender := published[k], cfgs[published[k].peer];
    PartsAssemble(crypto, sender.key, sender.address, ValueFor(sender, k.0, k.1, pub.data), pub.data);
  }

  // ---------------------------------------------------------------------------------------------
  // Every step keeps the invariant

  /** `later` has all the publications of `published`. */
  ghost predicate Includes(later: Publications, published: Publications) {
    forall k :: k in published ==> k in later && later[k] == published[k]
  }

  lemma PublicationsGrow(cfgs: Configs, crypto: Crypto, published: Publications, later: Publications, n: Node)
    requires WellFormed(cfgs, published) && WellFormed(cfgs, later)
    requires Includes(later, published)
    requires NodeSafe(cfgs, crypto, published, n)
    ensures NodeSafe(cfgs, crypto, later, n)
  {
    BlocksGrow(cfgs, crypto, published, later, n.tables);
    forall key | key in n.streams ensures exists k :: Feeds(cfgs, later, key, n.streams[key], k) {
      var k :| Feeds(cfgs, published, key, n.streams[key], k);
      assert Feeds(cfgs, later, key, n.streams[key], k);
    }
  }

  lemma BlocksGrow(cfgs: Configs, crypto: Crypto, published: Publications, later: Publications, t: Tables)
    requires WellFormed(cfgs, published) && WellFormed(cfgs, later) && Includes(later, published)
    ensures Agrees(crypto, t, BlocksOf(cfgs, published)) ==> Agrees(crypto, t, BlocksOf(cfgs, later))
    ensures DataAgrees(t, BlocksOf(cfgs, published)) ==> DataAgrees(t, BlocksOf(cfgs, later))
  {
  }

  /** A message that a step adds to the network belongs to the publication of that step. */
  lemma SentIsGenuine(cfgs: Configs, c: Cluster, s: ClusterStep, a: Arrival)
    requires ClusterAllowed(cfgs, c, s) && WellFormed(cfgs, c.published) && WellFormed(cfgs, Publish(cfgs, c, s))
    requires a in Send(cfgs, c, s) && a !in c.net
    ensures Genuine(cfgs, Publish(cfgs, c, s), a, (s.step.event.height, s.step.event.round))
  {
    var event, later := s.step.event, Publish(cfgs, c, s);
    var msgs := StreamFor(cfgs[s.id], event.height, event.round.number, c.nodes[s.id].nonce, event.data);
    assert a.0 == s.id && a.1 in msgs[..s.sent];
    assert s.sent > 0 && Proposes(s.step);
    var k := (event.height, event.round);
    assert later[k] == Publication(s.id, c.nodes[s.id].nonce, event.data);
    assert a.1 in msgs;
  }

  lemma PublishGrows(cfgs: Configs, c: Cluster, s: ClusterStep)
    requires WellFormed(cfgs, c.published) && ClusterAllowed(cfgs, c, s)
    ensures WellFormed(cfgs, Publish(cfgs, c, s)) && Includes(Publish(cfgs, c, s), c.published)
  {
  }

  lemma StaysGenuine(cfgs: Configs, published: Publications, later: Publications, a: Arrival, k: Key)
    requires WellFormed(cfgs, published) && WellFormed(cfgs, later) && Includes(later, published)
    requires Genuine(cfgs, published, a, k)
    ensures Genuine(cfgs, later, a, k)
  {
  }

  lemma NetGrows(cfgs: Configs, c: Cluster, s: ClusterStep)
    requires WellFormed(cfgs, c.published) && NetGenuine(cfgs, c.published, c.net) && ClusterAllowed(cfgs, c, s)
    ensures WellFormed(cfgs, Publish(cfgs, c, s))
    ensures NetGenuine(cfgs, Publish(cfgs, c, s), Send(cfgs, c, s))
  {
    PublishGrows(cfgs, c, s);
    var later := Publish(cfgs, c, s);
    forall a | a in Send(cfgs, c, s) ensures exists k :: Genuine(cfgs, later, a, k) {
      if a in c.net {
        var k :| Genuine(cfgs, c.published, a, k);
        StaysGenuine(cfgs, c.published, later, a, k);
      } else {
        SentIsGenuine(cfgs, c, s, a);
      }
    }
  }

  lemma DeliveryAgrees(cfgs: Configs, crypto: Crypto, published: Publications, cfg: Config, n: Node, a: Arrival, k: Key)
    requires SameCrypto(cfgs, crypto) && cfg.crypto == crypto && WellFormed(cfgs, published)
    requires StreamsFed(cfgs, published, n.streams) && Genuine(cfgs, published, a, k)
    ensures EventAgrees(cfg, n, ReceivedPart(a.0, a.1), BlocksOf(cfgs, published))
  {
    Delivery(cfgs, published, n.streams, a, k);
    TakesPublication(cfgs, crypto, published, k, cfg, n.height);
  }

  lemma StepAgrees(cfgs: Configs, crypto: Crypto, c: Cluster, s: ClusterStep, later: Publications)
    requires SameCrypto(cfgs, crypto) && WellFormed(cfgs, c.published) && NetGenuine(cfgs, c.published, c.net)
    requires ClusterAllowed(cfgs, c, s) && later == Publish(cfgs, c, s)
    requires WellFormed(cfgs, later) && StreamsFed(cfgs, later, c.nodes[s.id].streams)
    requires s.step.event.GetValue? ==> Proposes(s.step)
    ensures EventAgrees(cfgs[s.id], c.nodes[s.id], s.step.event, BlocksOf(cfgs, later))
  {
    if s.step.event.ReceivedPart? {
      var a := (s.step.event.from, s.step.event.msg);
      var k :| Genuine(cfgs, c.published, a, k);
      DeliveryAgrees(cfgs, crypto, later, cfgs[s.id], c.nodes[s.id], a, k);
    }
  }

  lemma NodeStep(cfgs: Configs, crypto: Crypto, c: Cluster, s: ClusterStep)
    requires ClusterSafe(cfgs, crypto, c) && ClusterAllowed(cfgs, c, s)
    requires WellFormed(cfgs, Publish(cfgs, c, s))
    ensures NodeSafe(cfgs, crypto, Publish(cfgs, c, s), Next(cfgs[s.id], c.nodes[s.id], s.step))
  {
    var cfg, n, later := cfgs[s.id], c.nodes[s.id], Publish(cfgs, c, s);
    var committed := CommittedCount(cfg, n, s.step);
    PublishGrows(cfgs, c, s);
    PublicationsGrow(cfgs, crypto, c.published, later, n);
    StepTables(cfg, n, s.step);
    TxnsKeepConsistent(cfg, n, s.step.event, committed);
    if s.step.event.GetValue? && !Proposes(s.step) {
      assert Txns(cfg, n, s.step.event)[..0] == [];
    } else {
      StepAgrees(cfgs, crypto, c, s, later);
      TxnsKeepAgreement(cfg, n, s.step.event, BlocksOf(cfgs, later), committed);
    }
    if s.step.Done? && s.step.event.ReceivedPart? {
      var a := (s.step.event.from, s.step.event.msg);
      var k :| Genuine(cfgs, c.published, a, k);
      Delivery(cfgs, c.published, n.streams, a, k);
    }
  }

  lemma ClusterStepSafe(cfgs: Configs, crypto: Crypto, c: Cluster, s: ClusterStep)
    requires ClusterSafe(cfgs, crypto, c) && ClusterAllowed(cfgs, c, s)
    ensures ClusterSafe(cfgs, crypto, ClusterNext(cfgs, c, s))
  {
    NetGrows(cfgs, c, s);
    PublishGrows(cfgs, c, s);
    NodeStep(cfgs, crypto, c, s);
    var later := Publish(cfgs, c, s);
    var c' := ClusterNext(cfgs, c, s);
    forall p | p in c'.nodes ensures NodeSafe(cfgs, crypto, later, c'.nodes[p]) {
      if p != s.id {
        PublicationsGrow(cfgs, crypto, c.published, later, c.nodes[p]);
      }
    }
  }

  // ---------------------------------------------------------------------------------------------
  // Runs

  ghost predicate ClusterRunAllowed(cfgs: Configs, c: Cluster, steps: seq<ClusterStep>)
    decreases |steps|, 0
  {
    steps == [] ||
    (ClusterRunAllowed(cfgs, c, steps[..|steps| - 1])
     && ClusterAllowed(cfgs, ClusterRun(cfgs, c, steps[..|steps| - 1]), steps[|steps| - 1]))
  }

  ghost function ClusterRun(cfgs: Configs, c: Cluster, steps: seq<ClusterStep>): Cluster
    requires ClusterRunAllowed(cfgs, c, steps)
    decreases |steps|, 1
  {
    if steps == [] then c
    else ClusterNext(cfgs, ClusterRun(cfgs, c, steps[..|steps| - 1]), steps[|steps| - 1])
  }

  /** Every node starts on an empty store, each at a height of its own, and nothing has been published. */
  ghost predicate Initial(c: Cluster) {
    && c.net == {} && c.published == map[]
    && (forall p :: p in c.nodes ==> c.nodes[p] == Boot(c.nodes[p].height, EMPTY_TABLES))
  }

  lemma {:induction false} AlwaysSafe(cfgs: Configs, crypto: Crypto, c: Cluster, steps: seq<ClusterStep>)
    requires SameCrypto(cfgs, crypto) && Initial(c) && ClusterRunAllowed(cfgs, c, steps)
    ensures ClusterSafe(cfgs, crypto, ClusterRun(cfgs, c, steps))
  {
    if steps != [] {
      AlwaysSafe(cfgs, crypto, c, steps[..|steps| - 1]);
      ClusterStepSafe(cfgs, crypto, ClusterRun(cfgs, c, steps[..|steps| - 1]), steps[|steps| - 1]);
    }
  }

  /** Both decisions of a height are on certificates of the same round. */
  ghost predicate SameRound(a: Tables, b: Tables, height: Height) {
    height in a.certificates && height in b.certificates && a.certificates[height].round == b.certificates[height].round
  }

  lemma {:induction false} PrefixRuns(cfgs: Configs, c: Cluster, steps: seq<ClusterStep>, i: nat)
    requires ClusterRunAllowed(cfgs, c, steps) && i <= |steps|
    ensures ClusterRunAllowed(cfgs, c, steps[..i])
  {
    if i < |steps| {
      var front := steps[..|steps| - 1];
      PrefixRuns(cfgs, c, front, i);
      assert front[..i] == steps[..i];
    } else {
      assert steps[..i] == steps;
    }
  }

  /** The cluster after the first `i` steps of a run. */
  ghost function ClusterAfter(cfgs: Configs, c: Cluster, steps: seq<ClusterStep>, i: nat): Cluster
    requires ClusterRunAllowed(cfgs, c, steps) && i <= |steps|
  {
    PrefixRuns(cfgs, c, steps, i);
    ClusterRun(cfgs, c, steps[..i])
  }

  /** What was published stays so, and every node stays what the publications make of it. */
  lemma {:induction false} PublishedStays(cfgs: Configs, crypto: Crypto, c: Cluster, steps: seq<ClusterStep>, i: nat)
    requires SameCrypto(cfgs, crypto) && Initial(c) && ClusterRunAllowed(cfgs, c, steps) && i <= |steps|
    ensures Includes(ClusterRun(cfgs, c, steps).published, ClusterAfter(cfgs, c, steps, i).published)
  {
    if i < |steps| {
      var front := steps[..|steps| - 1];
      PublishedStays(cfgs, crypto, c, front, i);
      assert front[..i] == steps[..i];
      AlwaysSafe(cfgs, crypto, c, front);
      PublishGrows(cfgs, ClusterRun(cfgs, c, front), steps[|steps| - 1]);
    } else {
      assert steps[..i] == steps;
    }
  }

  /** Decisions on certificates of the same round, and proposals for the same height and round, are the same. */
  ghost predicate Agreeing(a: Tables, b: Tables) {
    && (forall h | h in a.decided && h in b.decided && SameRound(a, b, h) :: a.decided[h] == b.decided[h])
    && (forall k :: k in a.proposals && k in b.proposals ==> a.proposals[k] == b.proposals[k])
    && (forall k :: k in a.blockData && k in b.blockData ==> a.blockData[k] == b.blockData[k])
  }

  /** And so is the block data of these decisions, as far as it is held. */
  ghost predicate DataAgreeing(crypto: Crypto, a: Tables, b: Tables) {
    forall h | h in a.decidedData && SameRound(a, b, h) ::
      && (h in b.decidedData ==> a.decidedData[h] == b.decidedData[h])
      && (h in b.decided ==> Belongs(crypto, b.decided[h], a.decidedData[h]))
  }

  /** Two nodes whose tables agree with the same publications agree with each other. */
  lemma SameBlocksAgree(crypto: Crypto, a: Tables, b: Tables, blocks: Blocks)
    requires Agrees(crypto, a, blocks) && Agrees(crypto, b, blocks)
    ensures Agreeing(a, b)
    ensures DataAgrees(a, blocks) && DataAgrees(b, blocks) ==> DataAgreeing(crypto, a, b)
  {
  }

  lemma SafeClustersAgree(cfgs: Configs, crypto: Crypto, c: Cluster, d: Cluster, p: PeerId, q: PeerId)
    requires ClusterSafe(cfgs, crypto, c) && ClusterSafe(cfgs, crypto, d) && Includes(d.published, c.published)
    requires p in c.nodes && q in d.nodes
    ensures Agreeing(c.nodes[p].tables, d.nodes[q].tables)
    ensures ClusterDataAgrees(cfgs, c) && ClusterDataAgrees(cfgs, d) ==>
              DataAgreeing(crypto, c.nodes[p].tables, d.nodes[q].tables)
  {
    PublicationsGrow(cfgs, crypto, c.published, d.published, c.nodes[p]);
    BlocksGrow(cfgs, crypto, c.published, d.published, c.nodes[p].tables);
    SameBlocksAgree(crypto, c.nodes[p].tables, d.nodes[q].tables, BlocksOf(cfgs, d.published));
  }

  /**
    Cluster agreement: in every run, what one node holds at one time and another node at any later time agree: for
    a height that both decided on certificates of the same round they hold the same value; and proposals for the same
    height and round, be they a node's own or received, are the same, and so is their block data. Neither pruning nor
    crashes nor repeated decisions make a difference.
  */
  lemma Agreement(cfgs: Configs, crypto: Crypto, start: Cluster, steps: seq<ClusterStep>, i: nat, p: PeerId, q: PeerId)
    requires SameCrypto(cfgs, crypto) && Initial(start) && ClusterRunAllowed(cfgs, start, steps) && i <= |steps|
    requires p in ClusterAfter(cfgs, start, steps, i).nodes && q in ClusterRun(cfgs, start, steps).nodes
    ensures Agreeing(ClusterAfter(cfgs, start, steps, i).nodes[p].tables, ClusterRun(cfgs, start, steps).nodes[q].tables)
  {
    PrefixRuns(cfgs, start, steps, i);
    AlwaysSafe(cfgs, crypto, start, steps[..i]);
    AlwaysSafe(cfgs, crypto, start, steps);
    PublishedStays(cfgs, crypto, start, steps, i);
    SafeClustersAgree(cfgs, crypto, ClusterAfter(cfgs, start, steps, i), ClusterRun(cfgs, start, steps), p, q);
  }

  // ---------------------------------------------------------------------------------------------
  // Decided block data

  ghost predicate ClusterDataAgrees(cfgs: Configs, c: Cluster) {
    WellFormed(cfgs, c.published) && forall p :: p in c.nodes ==> DataAgrees(c.nodes[p].tables, BlocksOf(cfgs, c.published))
  }

  lemma ClusterDataStep(cfgs: Configs, crypto: Crypto, c: Cluster, s: ClusterStep)
    requires ClusterSafe(cfgs, crypto, c) && ClusterDataAgrees(cfgs, c) && ClusterAllowed(cfgs, c, s)
    ensures ClusterDataAgrees(cfgs, ClusterNext(cfgs, c, s)) <==> KeepsBlock(cfgs[s.id], c.nodes[s.id], s.step)
  {
    var later, c' := Publish(cfgs, c, s), ClusterNext(cfgs, c, s);
    PublishGrows(cfgs, c, s);
    forall p | p in c.nodes
      ensures Agrees(crypto, c.nodes[p].tables, BlocksOf(cfgs, later)) && DataAgrees(c.nodes[p].tables, BlocksOf(cfgs, later))
    {
      assert NodeSafe(cfgs, crypto, c.published, c.nodes[p]);
      BlocksGrow(cfgs, crypto, c.published, later, c.nodes[p].tables);
    }
    assert NodeSafe(cfgs, crypto, c.published, c.nodes[s.id]);
    DataAfterStep(cfgs[s.id], c.nodes[s.id], s.step, BlocksOf(cfgs, later));
    assert c'.nodes[s.id] == Next(cfgs[s.id], c.nodes[s.id], s.step);
  }

  ghost predicate ClusterKeepsBlocks(cfgs: Configs, c: Cluster, steps: seq<ClusterStep>)
    requires ClusterRunAllowed(cfgs, c, steps)
  {
    steps == [] ||
    (ClusterKeepsBlocks(cfgs, c, steps[..|steps| - 1])
     && var m, last := ClusterRun(cfgs, c, steps[..|steps| - 1]), steps[|steps| - 1];
        KeepsBlock(cfgs[last.id], m.nodes[last.id], last.step))
  }

  ghost predicate ClusterDataThroughout(cfgs: Configs, c: Cluster, steps: seq<ClusterStep>)
    requires ClusterRunAllowed(cfgs, c, steps)
  {
    && ClusterDataAgrees(cfgs, ClusterRun(cfgs, c, steps))
    && (steps == [] || ClusterDataThroughout(cfgs, c, steps[..|steps| - 1]))
  }

  /**
    In every run all decided block data is at all times that of the block decided on, if and only if no node writes a
    decision over the data of another block.
  */
  lemma {:induction false} DataAlwaysAgrees(cfgs: Configs, crypto: Crypto, c: Cluster, steps: seq<ClusterStep>)
    requires SameCrypto(cfgs, crypto) && Initial(c) && ClusterRunAllowed(cfgs, c, steps)
    ensures ClusterDataThroughout(cfgs, c, steps) <==> ClusterKeepsBlocks(cfgs, c, steps)
  {
    if steps != [] {
      var front := steps[..|steps| - 1];
      DataAlwaysAgrees(cfgs, crypto, c, front);
      AlwaysSafe(cfgs, crypto, c, front);
      if ClusterDataThroughout(cfgs, c, front) {
        assert ClusterDataAgrees(cfgs, ClusterRun(cfgs, c, front));
        ClusterDataStep(cfgs, crypto, ClusterRun(cfgs, c, front), steps[|steps| - 1]);
      }
    }
  }

  /** A node that writes a decision over an earlier one does so on a certificate of the same round. */
  ghost predicate SameRoundAgain(cfg: Config, n: Node, step: Step) {
    Commits(n, step.event) && CommittedCount(cfg, n, step) > 0 ==>
      var c := step.event.certificate;
      c.height in n.tables.certificates ==> n.tables.certificates[c.height].round == c.round
  }

  ghost predicate OneRoundPerHeight(cfgs: Configs, c: Cluster, steps: seq<ClusterStep>)
    requires ClusterRunAllowed(cfgs, c, steps)
  {
    steps == [] ||
    (OneRoundPerHeight(cfgs, c, steps[..|steps| - 1])
     && var m, last := ClusterRun(cfgs, c, steps[..|steps| - 1]), steps[|steps| - 1];
        SameRoundAgain(cfgs[last.id], m.nodes[last.id], last.step))
  }

  /** In the same round it is the same block. */
  lemma SameRoundSameBlock(cfg: Config, n: Node, step: Step, blocks: Blocks)
    requires Agrees(cfg.crypto, n.tables, blocks) && DataAgrees(n.tables, blocks) && SameRoundAgain(cfg, n, step)
    ensures KeepsBlock(cfg, n, step)
  {
  }

  /** So decided block data is never in danger when consensus decides a height in one round only. */
  lemma {:induction false} OneRoundKeepsBlocks(cfgs: Configs, crypto: Crypto, c: Cluster, steps: seq<ClusterStep>)
    requires SameCrypto(cfgs, crypto) && Initial(c) && ClusterRunAllowed(cfgs, c, steps)
    requires OneRoundPerHeight(cfgs, c, steps)
    ensures ClusterKeepsBlocks(cfgs, c, steps)
  {
    if steps != [] {
      var front, last := steps[..|steps| - 1], steps[|steps| - 1];
      OneRoundKeepsBlocks(cfgs, crypto, c, front);
      DataAlwaysAgrees(cfgs, crypto, c, front);
      AlwaysSafe(cfgs, crypto, c, front);
      var m := ClusterRun(cfgs, c, front);
      assert NodeSafe(cfgs, crypto, m.published, m.nodes[last.id]);
      SameRoundSameBlock(cfgs[last.id], m.nodes[last.id], last.step, BlocksOf(cfgs, m.published));
    }
  }

  lemma {:induction false} KeepsBlocksBefore(cfgs: Configs, c: Cluster, steps: seq<ClusterStep>, i: nat)
    requires ClusterRunAllowed(cfgs, c, steps) && ClusterKeepsBlocks(cfgs, c, steps) && i <= |steps|
    ensures ClusterRunAllowed(cfgs, c, steps[..i]) && ClusterKeepsBlocks(cfgs, c, steps[..i])
  {
    if i < |steps| {
      var front := steps[..|steps| - 1];
      KeepsBlocksBefore(cfgs, c, front, i);
      assert front[..i] == steps[..i];
    } else {
      assert steps[..i] == steps;
    }
  }

  /** Then what two nodes hold at any two times agrees in the block data of decisions too. */
  lemma DataAgreement(cfgs: Configs, crypto: Crypto, start: Cluster, steps: seq<ClusterStep>, i: nat, p: PeerId, q: PeerId)
    requires SameCrypto(cfgs, crypto) && Initial(start) && ClusterRunAllowed(cfgs, start, steps) && i <= |steps|
    requires ClusterKeepsBlocks(cfgs, start, steps)
    requires p in ClusterAfter(cfgs, start, steps, i).nodes && q in ClusterRun(cfgs, start, steps).nodes
    ensures DataAgreeing(crypto, ClusterAfter(cfgs, start, steps, i).nodes[p].tables,
                         ClusterRun(cfgs, start, steps).nodes[q].tables)
  {
    KeepsBlocksBefore(cfgs, start, steps, i);
    AlwaysSafe(cfgs, crypto, start, steps[..i]);
    AlwaysSafe(cfgs, crypto, start, steps);
    DataAlwaysAgrees(cfgs, crypto, start, steps[..i]);
    DataAlwaysAgrees(cfgs, crypto, start, steps);
    PublishedStays(cfgs, crypto, start, steps, i);
    SafeClustersAgree(cfgs, crypto, ClusterAfter(cfgs, start, steps, i), ClusterRun(cfgs, start, steps), p, q);
  }
}
