/** In a cluster: a node that got a whole publication in time holds it, keeps it and can decide on it. */
module Availability {
  import opened Bytes
  import opened Types
  import opened Keys
  import opened Streaming
  import opened Reassembly
  import opened Store
  import opened Safety
  import opened Node
  import opened History
  import opened Retention
  import opened Origin
  import opened Cluster

  // ---------------------------------------------------------------------------------------------
  // One node

  /** The steps since the last restart. */
  function Since(steps: seq<Step>): (since: seq<Step>)
    ensures CrashFree(since)
  {
    if steps == [] || steps[|steps| - 1].Crashed? then []
    else Since(steps[..|steps| - 1]) + [steps[|steps| - 1]]
  }

  /** A node is where these steps led from its last start. */
  lemma {:induction false} SinceRestart(cfg: Config, first: Height, tables: Tables, steps: seq<Step>)
    returns (height: Height, t: Tables)
    requires RunAllowed(cfg, Boot(first, tables), steps)
    ensures RunAllowed(cfg, Boot(height, t), Since(steps))
    ensures Run(cfg, Boot(height, t), Since(steps)) == Run(cfg, Boot(first, tables), steps)
  {
    if steps == [] {
      height, t := first, tables;
    } else {
      var front, last := steps[..|steps| - 1], steps[|steps| - 1];
      if last.Crashed? {
        var n := Run(cfg, Boot(first, tables), steps);
        height, t := n.height, n.tables;
      } else {
        height, t := SinceRestart(cfg, first, tables, front);
        RunOneMore(cfg, Boot(height, t), Since(front), last);
      }
    }
  }

  /** Between restarts the height never goes back. */
  lemma HeightGrows(cfg: Config, n: Node, event: Event)
    requires Allowed(n, event) && n.started == n.height
    ensures Handle(cfg, n, event).started == Handle(cfg, n, event).height >= n.height
  {
  }

  lemma {:induction false} StartedAtHeight(cfg: Config, first: Height, tables: Tables, steps: seq<Step>)
    requires RunAllowed(cfg, Boot(first, tables), steps) && CrashFree(steps)
    ensures Run(cfg, Boot(first, tables), steps).started == Run(cfg, Boot(first, tables), steps).height
  {
    if steps != [] {
      StartedAtHeight(cfg, first, tables, steps[..|steps| - 1]);
      HeightGrows(cfg, Run(cfg, Boot(first, tables), steps[..|steps| - 1]), steps[|steps| - 1].event);
    }
  }

  /** The node holds something under the key in both tables. */
  predicate HoldsRow(t: Tables, k: Key) {
    k in t.proposals && k in t.blockData
  }

  /** A row is not removed before its height is passed. */
  lemma HeldAtItsHeight(cfg: Config, n: Node, event: Event, k: Key)
    requires Allowed(n, event) && n.height <= k.0 && HoldsRow(n.tables, k)
    ensures HoldsRow(Handle(cfg, n, event).tables, k)
  {
    RowsAfterStep(cfg, n, Done(event), k);
  }

  /** All of a known proposer's stream reached the node, and nothing else under the identifier of the stream. */
  ghost predicate GotStream(cfg: Config, sender: Config, steps: seq<Step>, key: StreamKey, k: Key, data: Bytes)
    requires Streamable(data)
  {
    var own, msgs := Project(Arrivals(steps), key), Messages(key.1, PartsFor(sender, k.0, k.1, data));
    Knows(cfg, sender) && (forall m :: m in own ==> m in msgs) && Covers(own, msgs)
  }

  lemma OwnArrivals(front: seq<Step>, last: Step, key: StreamKey)
    ensures var e := last.event;
            Project(Arrivals(front + [last]), key) == Project(Arrivals(front), key)
              + if e.ReceivedPart? && KeyOf((e.from, e.msg)) == key then [e.msg] else []
  {
    assert (front + [last])[..|front|] == front;
    if last.event.ReceivedPart? {
      var a := (last.event.from, last.event.msg);
      assert (Arrivals(front) + [a])[..|Arrivals(front)|] == Arrivals(front);
    } else {
      assert Arrivals(front) + [] == Arrivals(front);
    }
  }

  lemma CompletingArrival(cfg: Config, sender: Config, front: seq<Step>, last: Step, key: StreamKey, k: Key, data: Bytes)
    requires Streamable(data)
    requires GotStream(cfg, sender, front + [last], key, k, data) && !GotStream(cfg, sender, front, key, k, data)
    ensures last.event.ReceivedPart? && KeyOf((last.event.from, last.event.msg)) == key
    ensures Completes(Arrivals(front) + [(last.event.from, last.event.msg)], PartsFor(sender, k.0, k.1, data))
  {
    OwnArrivals(front, last, key);
    var before := Project(Arrivals(front), key);
    forall m | m in before ensures m in Project(Arrivals(front + [last]), key) {
    }
    assert (front + [last])[..|front|] == front;
    var all := Arrivals(front + [last]);
    assert all[..|all| - 1] == Arrivals(front);
  }

  lemma CompletionIsHeld(cfg: Config, sender: Config, first: Height, tables: Tables, front: seq<Step>, last: Step,
                         key: StreamKey, k: Key, data: Bytes)
    requires RunAllowed(cfg, Boot(first, tables), front) && CrashFree(front) && Streamable(data) && last.Done?
    requires Allowed(Run(cfg, Boot(first, tables), front), last.event) && Run(cfg, Boot(first, tables), front).height <= k.0
    requires GotStream(cfg, sender, front + [last], key, k, data) && !GotStream(cfg, sender, front, key, k, data)
    ensures HoldsRow(Handle(cfg, Run(cfg, Boot(first, tables), front), last.event).tables, k)
  {
    CompletingArrival(cfg, sender, front, last, key, k, data);
    HonestProposalIsStored(cfg, sender, first, tables, front, last.event.from, last.event.msg, k.0, k.1, data);
  }

  lemma CoveredIsNotEmpty(own: seq<StreamMessage>, msgs: seq<StreamMessage>)
    requires msgs != [] && Covers(own, msgs)
    ensures own != []
  {
    assert msgs[0] in msgs;
  }

  /** A node that got the whole stream, and has not passed the height since its last start, holds a row for it. */
  lemma {:induction false} StreamIsHeld(cfg: Config, sender: Config, first: Height, tables: Tables, steps: seq<Step>,
                                        key: StreamKey, k: Key, data: Bytes)
    requires RunAllowed(cfg, Boot(first, tables), steps) && CrashFree(steps) && Streamable(data)
    requires GotStream(cfg, sender, steps, key, k, data) && Run(cfg, Boot(first, tables), steps).height <= k.0
    ensures HoldsRow(Run(cfg, Boot(first, tables), steps).tables, k)
  {
    CoveredIsNotEmpty(Project(Arrivals(steps), key), Messages(key.1, PartsFor(sender, k.0, k.1, data)));
    if steps != [] {
      var front, last := steps[..|steps| - 1], steps[|steps| - 1];
      var m := Run(cfg, Boot(first, tables), front);
      StartedAtHeight(cfg, first, tables, front);
      HeightGrows(cfg, m, last.event);
      assert steps == front + [last];
      if GotStream(cfg, sender, front, key, k, data) {
        StreamIsHeld(cfg, sender, first, tables, front, key, k, data);
        HeldAtItsHeight(cfg, m, last.event, k);
      } else {
        CompletionIsHeld(cfg, sender, first, tables, front, last, key, k, data);
      }
    }
  }

  // ---------------------------------------------------------------------------------------------
  // A node of a cluster

  function NodeSteps(steps: seq<ClusterStep>, q: PeerId): seq<Step> {
    if steps == [] then []
    else
      var last := steps[|steps| - 1];
      NodeSteps(steps[..|steps| - 1], q) + (if last.id == q then [last.step] else [])
  }

  /** In a run of the cluster each node makes a run of its own. */
  lemma {:induction false} NodeRun(cfgs: Configs, c: Cluster, steps: seq<ClusterStep>, q: PeerId)
    requires ClusterRunAllowed(cfgs, c, steps) && q in c.nodes && q in cfgs
    ensures RunAllowed(cfgs[q], c.nodes[q], NodeSteps(steps, q))
    ensures q in ClusterRun(cfgs, c, steps).nodes
    ensures ClusterRun(cfgs, c, steps).nodes[q] == Run(cfgs[q], c.nodes[q], NodeSteps(steps, q))
  {
    if steps != [] {
      var front, last := steps[..|steps| - 1], steps[|steps| - 1];
      NodeRun(cfgs, c, front, q);
      if last.id == q {
        RunOneMore(cfgs[q], c.nodes[q], NodeSteps(front, q), last.step);
      } else {
        assert NodeSteps(front, q) + [] == NodeSteps(front, q);
      }
    }
  }

  /** What reached a node was in the network, and still is. */
  lemma {:induction false} ArrivalsWereSent(cfgs: Configs, c: Cluster, steps: seq<ClusterStep>, q: PeerId)
    requires ClusterRunAllowed(cfgs, c, steps)
    ensures forall a :: a in Arrivals(NodeSteps(steps, q)) ==> a in ClusterRun(cfgs, c, steps).net
  {
    if steps != [] {
      var front, last := steps[..|steps| - 1], steps[|steps| - 1];
      ArrivalsWereSent(cfgs, c, front, q);
      if last.id == q {
        assert (NodeSteps(front, q) + [last.step])[..|NodeSteps(front, q)|] == NodeSteps(front, q);
      } else {
        assert NodeSteps(front, q) + [] == NodeSteps(front, q);
      }
    }
  }

  lemma {:induction false} SinceArrivals(steps: seq<Step>)
    ensures forall a :: a in Arrivals(Since(steps)) ==> a in Arrivals(steps)
  {
    if steps != [] && steps[|steps| - 1].Done? {
      var front, last := steps[..|steps| - 1], steps[|steps| - 1];
      SinceArrivals(front);
      assert (Since(front) + [last])[..|Since(front)|] == Since(front);
    }
  }

  lemma {:induction false} ProjectFrom(arrivals: seq<Arrival>, key: StreamKey, m: StreamMessage)
    requires m in Project(arrivals, key)
    ensures (key.0, m) in arrivals && m.streamId == key.1
  {
    var front, last := arrivals[..|arrivals| - 1], arrivals[|arrivals| - 1];
    assert last in arrivals;
    if m in Project(front, key) {
      ProjectFrom(front, key, m);
    }
  }

  ghost function StreamOf(published: Publications, k: Key): StreamKey
    requires k in published && k.1.At?
  {
    (published[k].peer, PublishedId(published, k))
  }

  /**
    Since its last restart the node got every message of the publication, whose proposer it knows, and it has not
    passed the height.
  */
  ghost predicate GotPublication(cfgs: Configs, c: Cluster, q: PeerId, since: seq<Step>, k: Key) {
    && q in cfgs && q in c.nodes && c.nodes[q].height <= k.0
    && WellFormed(cfgs, c.published) && k in c.published && Knows(cfgs[q], cfgs[c.published[k].peer])
    && Covers(Project(Arrivals(since), StreamOf(c.published, k)),
              Messages(PublishedId(c.published, k), Parts(cfgs, c.published, k)))
  }

  /** The node holds the proposal and the block of a publication. */
  ghost predicate HoldsPublication(crypto: Crypto, published: Publications, proposer: Address, t: Tables, k: Key)
    requires k in published
  {
    && HoldsRow(t, k)
    && t.blockData[k] == published[k].data
    && var p := t.proposals[k];
       && p.height == k.0 && p.round == k.1 && p.validRound == Nil && p.proposer == proposer && p.valid
       && p.value.value == crypto.sipHash(published[k].data) && p.value.extensions == published[k].data
  }

  /** In a cluster nothing else comes under the identifier of a publication. */
  lemma OwnStreamIsGenuine(cfgs: Configs, c: Cluster, arrivals: seq<Arrival>, k: Key, m: StreamMessage)
    requires WellFormed(cfgs, c.published) && NetGenuine(cfgs, c.published, c.net) && k in c.published
    requires forall a :: a in arrivals ==> a in c.net
    requires m in Project(arrivals, StreamOf(c.published, k))
    ensures m in Messages(PublishedId(c.published, k), Parts(cfgs, c.published, k))
  {
    ProjectFrom(arrivals, StreamOf(c.published, k), m);
    var a := (c.published[k].peer, m);
    var j :| Genuine(cfgs, c.published, a, j);
    StreamIdsDiffer(cfgs, c.published, j, k);
  }

  lemma PublicationIsHeld(cfgs: Configs, crypto: Crypto, start: Cluster, steps: seq<ClusterStep>, q: PeerId, k: Key)
    requires SameCrypto(cfgs, crypto) && Initial(start) && ClusterRunAllowed(cfgs, start, steps) && q in start.nodes
    requires GotPublication(cfgs, ClusterRun(cfgs, start, steps), q, Since(NodeSteps(steps, q)), k)
    ensures HoldsRow(ClusterRun(cfgs, start, steps).nodes[q].tables, k)
  {
    var c, own, since := ClusterRun(cfgs, start, steps), NodeSteps(steps, q), Since(NodeSteps(steps, q));
    AlwaysSafe(cfgs, crypto, start, steps);
    NodeRun(cfgs, start, steps, q);
    ArrivalsWereSent(cfgs, start, steps, q);
    SinceArrivals(own);
    var height, t := SinceRestart(cfgs[q], start.nodes[q].height, EMPTY_TABLES, own);
    forall m | m in Project(Arrivals(since), StreamOf(c.published, k))
      ensures m in Messages(PublishedId(c.published, k), Parts(cfgs, c.published, k))
    {
      OwnStreamIsGenuine(cfgs, c, Arrivals(since), k, m);
    }
    StreamIsHeld(cfgs[q], cfgs[c.published[k].peer], height, t, since, StreamOf(c.published, k), k, c.published[k].data);
  }

  /**
    Availability: in every run of the cluster, crashes included, a node that got a whole publication of a proposer it
    knows since its last restart, before passing its height, holds that proposal and its block.
  */
  lemma Available(cfgs: Configs, crypto: Crypto, start: Cluster, steps: seq<ClusterStep>, q: PeerId, k: Key)
    requires SameCrypto(cfgs, crypto) && Initial(start) && ClusterRunAllowed(cfgs, start, steps) && q in start.nodes
    requires GotPublication(cfgs, ClusterRun(cfgs, start, steps), q, Since(NodeSteps(steps, q)), k)
    ensures var c := ClusterRun(cfgs, start, steps);
            HoldsPublication(crypto, c.published, cfgs[c.published[k].peer].address, c.nodes[q].tables, k)
  {
    PublicationIsHeld(cfgs, crypto, start, steps, q, k);
    AlwaysSafe(cfgs, crypto, start, steps);
    var c := ClusterRun(cfgs, start, steps);
    assert NodeSafe(cfgs, crypto, c.published, c.nodes[q]);
  }

  /** It keeps them, crashes included, for as long as it commits no prune above their height. */
  lemma StaysAvailable(cfgs: Configs, crypto: Crypto, c: Cluster, more: seq<ClusterStep>, q: PeerId, k: Key,
                       published: Publications, proposer: Address)
    requires ClusterRunAllowed(cfgs, c, more) && q in c.nodes && q in cfgs && k in published
    requires HoldsPublication(crypto, published, proposer, c.nodes[q].tables, k)
    requires RunAllowed(cfgs[q], c.nodes[q], NodeSteps(more, q))
    requires NeverRemoved(cfgs[q], c.nodes[q], NodeSteps(more, q), k.0)
    ensures q in ClusterRun(cfgs, c, more).nodes
    ensures HoldsPublication(crypto, published, proposer, ClusterRun(cfgs, c, more).nodes[q].tables, k)
  {
    NodeRun(cfgs, c, more, q);
    HeldUntilPruned(cfgs[q], c.nodes[q], NodeSteps(more, q), k);
  }

  /** And a decision on that round then commits that block. */
  lemma DecisionCommits(cfg: Config, n: Node, certificate: CommitCertificate, published: Publications, proposer: Address)
    requires var k := (certificate.height, certificate.round);
             k in published && HoldsPublication(cfg.crypto, published, proposer, n.tables, k)
    requires Consistent(n.tables) && Allowed(n, Decided(certificate))
    ensures var k, t := (certificate.height, certificate.round), Handle(cfg, n, Decided(certificate)).tables;
            && k.0 in t.decided && t.decided[k.0].value == cfg.crypto.sipHash(published[k].data)
            && t.decided[k.0].extensions == published[k].data
            && k.0 in t.certificates && t.certificates[k.0] == certificate
            && k.0 in t.decidedData
            && (t.decidedData[k.0] == published[k].data <==>
                  k.0 !in n.tables.decidedData || n.tables.decidedData[k.0] == published[k].data)
  {
    DecidesTheStoredProposal(n.tables, certificate);
    CommitEffect(n.tables, certificate);
  }

  /** The three together: from a publication that reached a node in time to the decision on it. */
  lemma PublicationIsDecided(cfgs: Configs, crypto: Crypto, start: Cluster, steps: seq<ClusterStep>,
                             more: seq<ClusterStep>, q: PeerId, certificate: CommitCertificate)
    requires SameCrypto(cfgs, crypto) && Initial(start) && ClusterRunAllowed(cfgs, start, steps) && q in start.nodes
    requires GotPublication(cfgs, ClusterRun(cfgs, start, steps), q, Since(NodeSteps(steps, q)),
                            (certificate.height, certificate.round))
    requires var c := ClusterRun(cfgs, start, steps);
             && ClusterRunAllowed(cfgs, c, more) && RunAllowed(cfgs[q], c.nodes[q], NodeSteps(more, q))
             && NeverRemoved(cfgs[q], c.nodes[q], NodeSteps(more, q), certificate.height)
             && q in ClusterRun(cfgs, c, more).nodes
             && Allowed(ClusterRun(cfgs, c, more).nodes[q], Decided(certificate))
    ensures var c, k := ClusterRun(cfgs, start, steps), (certificate.height, certificate.round);
            var t := Handle(cfgs[q], ClusterRun(cfgs, c, more).nodes[q], Decided(certificate)).tables;
            && k.0 in t.decided && t.decided[k.0].value == crypto.sipHash(c.published[k].data)
            && t.decided[k.0].extensions == c.published[k].data
            && k.0 in t.certificates && t.certificates[k.0] == certificate && k.0 in t.decidedData
  {
    var c, k := ClusterRun(cfgs, start, steps), (certificate.height, certificate.round);
    Available(cfgs, crypto, start, steps, q, k);
    StaysAvailable(cfgs, crypto, c, more, q, k, c.published, cfgs[c.published[k].peer].address);
    AlwaysSafe(cfgs, crypto, start, steps);
    assert NodeSafe(cfgs, crypto, c.published, c.nodes[q]);
    NodeRun(cfgs, c, more, q);
    ConsistentForever(cfgs[q], c.nodes[q], NodeSteps(more, q));
    DecisionCommits(cfgs[q], ClusterRun(cfgs, c, more).nodes[q], certificate, c.published,
                    cfgs[c.published[k].peer].address);
  }
}
