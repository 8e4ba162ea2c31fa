/** Where the proposals of a node come from, and that honest ones arrive. */
module Origin {
  import opened Bytes
  import opened Types
  import opened Keys
  import opened Streaming
  import opened Reassembly
  import opened Signing
  import opened Store
  import opened Node
  import opened Safety
  import opened History
  import opened Index

  // ---------------------------------------------------------------------------------------------
  // Only own or verified proposals are stored

  /** The node was asked for this proposal by the i-th event of the run. */
  ghost predicate AskedFor(cfg: Config, steps: seq<Step>, i: nat, p: ProposedValue) {
    && i < |steps| && steps[i].event.GetValue?
    && p == ProposedOf(cfg.crypto, steps[i].event.height, steps[i].event.round, cfg.address, steps[i].event.data)
  }

  /**
    The i-th event of the run was the arrival that completed a stream in this node's memory. The parts it emitted were
    not outdated and passed verification under a validator's key, and they make up this proposal.
  */
  ghost predicate Reassembled(cfg: Config, n: Node, steps: seq<Step>, i: nat, p: ProposedValue) {
    && i < |steps| && steps[i].event.ReceivedPart? && RunAllowed(cfg, n, steps[..i])
    && var m := Run(cfg, n, steps[..i]);
       var parts := InsertPart(m.streams, steps[i].event.from, steps[i].event.msg).1;
       parts.Some? && Vouched(cfg, m.height, parts.value, p)
  }

  ghost predicate Vouched(cfg: Config, height: Height, parts: ProposalParts, p: ProposedValue) {
    && ReportsItsInit(parts) && parts.height >= height
    && Verify(cfg.crypto, cfg.validators, parts) == None
    && p == Assemble(cfg.crypto, parts).0
  }

  ghost predicate HasOrigin(cfg: Config, n: Node, steps: seq<Step>, p: ProposedValue) {
    (exists i :: AskedFor(cfg, steps, i, p)) || (exists i :: Reassembled(cfg, n, steps, i, p))
  }

  ghost predicate AllHaveOrigin(cfg: Config, n: Node, steps: seq<Step>, t: Tables) {
    forall k :: k in t.proposals ==> HasOrigin(cfg, n, steps, t.proposals[k])
  }

  ghost predicate StreamsSound(streams: Streams) {
    forall key :: key in streams ==> Sound(streams[key])
  }

  lemma InsertKeepsSound(streams: Streams, from: PeerId, msg: StreamMessage)
    requires StreamsSound(streams)
    ensures StreamsSound(InsertPart(streams, from, msg).0)
    ensures var result := InsertPart(streams, from, msg).1;
            result.Some? ==> ReportsItsInit(result.value)
  {
    var s := EntryOf(streams, (from, msg.streamId));
    AcceptKeepsSound(s, msg);
    EntriesStay(streams, from, msg);
    if Streamed(s, msg).1.Some? {
      SoundEmission(s, msg);
    }
  }

  lemma StoredHasOrigin(cfg: Config, n: Node, steps: seq<Step>, step: Step, i: nat)
    requires RunAllowed(cfg, n, steps) && StreamsSound(Run(cfg, n, steps).streams)
    requires i < |Txns(cfg, Run(cfg, n, steps), step.event)| && Txns(cfg, Run(cfg, n, steps), step.event)[i].StoreProposal?
    ensures HasOrigin(cfg, n, steps + [step], Txns(cfg, Run(cfg, n, steps), step.event)[i].proposal)
  {
    var m := Run(cfg, n, steps);
    var p := Txns(cfg, m, step.event)[i].proposal;
    assert (steps + [step])[..|steps|] == steps;
    match step.event
    case GetValue(height, round, data) =>
      assert AskedFor(cfg, steps + [step], |steps|, p);
    case ReceivedPart(from, msg) =>
      InsertKeepsSound(m.streams, from, msg);
      assert Vouched(cfg, m.height, InsertPart(m.streams, from, msg).1.value, p);
      assert Reassembled(cfg, n, steps + [step], |steps|, p);
    case _ =>
  }

  lemma ReassembledRemains(cfg: Config, n: Node, steps: seq<Step>, step: Step, i: nat, p: ProposedValue)
    requires Reassembled(cfg, n, steps, i, p)
    ensures Reassembled(cfg, n, steps + [step], i, p)
  {
    assert (steps + [step])[..i] == steps[..i];
  }

  lemma OriginsRemain(cfg: Config, n: Node, steps: seq<Step>, step: Step, p: ProposedValue)
    requires HasOrigin(cfg, n, steps, p)
    ensures HasOrigin(cfg, n, steps + [step], p)
  {
    if i: nat :| AskedFor(cfg, steps, i, p) {
      assert AskedFor(cfg, steps + [step], i, p);
    } else {
      var i: nat :| Reassembled(cfg, n, steps, i, p);
      ReassembledRemains(cfg, n, steps, step, i, p);
    }
  }

  lemma ApplyKeepsOrigins(cfg: Config, n: Node, steps: seq<Step>, t: Tables, txn: Txn)
    requires AllHaveOrigin(cfg, n, steps, t) && (txn.StoreProposal? ==> HasOrigin(cfg, n, steps, txn.proposal))
    ensures AllHaveOrigin(cfg, n, steps, Apply(t, txn))
  {
  }

  lemma {:induction false} TxnsKeepOrigins(cfg: Config, n: Node, steps: seq<Step>, t: Tables, txns: seq<Txn>)
    requires AllHaveOrigin(cfg, n, steps, t)
    requires forall i :: 0 <= i < |txns| && txns[i].StoreProposal? ==> HasOrigin(cfg, n, steps, txns[i].proposal)
    ensures AllHaveOrigin(cfg, n, steps, ApplyAll(t, txns))
    decreases txns
  {
    if txns != [] {
      ApplyKeepsOrigins(cfg, n, steps, t, txns[0]);
      TxnsKeepOrigins(cfg, n, steps, Apply(t, txns[0]), txns[1..]);
    }
  }

  /**
    Over every run from an empty store, crashes included: a stored proposal is one that the node was asked for, or one
    that it reassembled itself from messages that reached it and that passed verification.
  */
  lemma {:induction false} StoredProposalsAreVouchedFor(cfg: Config, first: Height, steps: seq<Step>)
    requires RunAllowed(cfg, Boot(first, EMPTY_TABLES), steps)
    ensures AllHaveOrigin(cfg, Boot(first, EMPTY_TABLES), steps, Run(cfg, Boot(first, EMPTY_TABLES), steps).tables)
    ensures StreamsSound(Run(cfg, Boot(first, EMPTY_TABLES), steps).streams)
  {
    if steps != [] {
      var n, front, last := Boot(first, EMPTY_TABLES), steps[..|steps| - 1], steps[|steps| - 1];
      StoredProposalsAreVouchedFor(cfg, first, front);
      assert steps == front + [last];
      OriginsAfterStep(cfg, n, front, last);
      if last.event.ReceivedPart? {
        InsertKeepsSound(Run(cfg, n, front).streams, last.event.from, last.event.msg);
      }
    }
  }

  lemma OriginsAfterStep(cfg: Config, n: Node, front: seq<Step>, last: Step)
    requires RunAllowed(cfg, n, front) && StepAllowed(cfg, Run(cfg, n, front), last)
    requires AllHaveOrigin(cfg, n, front, Run(cfg, n, front).tables) && StreamsSound(Run(cfg, n, front).streams)
    ensures AllHaveOrigin(cfg, n, front + [last], Next(cfg, Run(cfg, n, front), last).tables)
  {
    var steps, m := front + [last], Run(cfg, n, front);
    var txns := Txns(cfg, m, last.event);
    var done := txns[..if last.Done? then |txns| else last.committed];
    StepTables(cfg, m, last);
    forall k | k in m.tables.proposals ensures HasOrigin(cfg, n, steps, m.tables.proposals[k]) {
      OriginsRemain(cfg, n, front, last, m.tables.proposals[k]);
    }
    forall i | 0 <= i < |done| && done[i].StoreProposal? ensures HasOrigin(cfg, n, steps, done[i].proposal) {
      StoredHasOrigin(cfg, n, front, last, i);
    }
    TxnsKeepOrigins(cfg, n, steps, m.tables, done);
  }

  // ---------------------------------------------------------------------------------------------
  // Stream identifiers

  lemma {:induction false} PrefixAllowed(cfg: Config, n: Node, steps: seq<Step>, i: nat)
    requires RunAllowed(cfg, n, steps) && i <= |steps|
    ensures RunAllowed(cfg, n, steps[..i])
    ensures i < |steps| ==> StepAllowed(cfg, Run(cfg, n, steps[..i]), steps[i])
  {
    if i == |steps| {
      assert steps[..i] == steps;
    } else {
      assert steps[..|steps| - 1][..i] == steps[..i];
      PrefixAllowed(cfg, n, steps[..|steps| - 1], i);
    }
  }

  /** The proposals that a process has made since it was last started. */
  function MadeSinceStart(steps: seq<Step>): nat {
    if steps == [] || steps[|steps| - 1].Crashed? then 0
    else MadeSinceStart(steps[..|steps| - 1]) + if steps[|steps| - 1].event.GetValue? then 1 else 0
  }

  /** The stream counter counts them. */
  lemma {:induction false} NonceCounts(cfg: Config, first: Height, tables: Tables, steps: seq<Step>)
    requires RunAllowed(cfg, Boot(first, tables), steps)
    ensures Run(cfg, Boot(first, tables), steps).nonce == MadeSinceStart(steps)
  {
    if steps != [] {
      NonceCounts(cfg, first, tables, steps[..|steps| - 1]);
    }
  }

  /** The i-th event of a run asks for a proposal. */
  ghost predicate Asks(cfg: Config, n: Node, steps: seq<Step>, i: nat) {
    i < |steps| && steps[i].event.GetValue? && RunAllowed(cfg, n, steps[..i]) && steps[i].event.round.At?
  }

  /** The identifier of the stream published for the i-th event of a run. */
  ghost function StreamIdAt(cfg: Config, n: Node, steps: seq<Step>, i: nat): StreamId
    requires Asks(cfg, n, steps, i)
  {
    StreamIdBytes(steps[i].event.height, steps[i].event.round.number, Run(cfg, n, steps[..i]).nonce)
  }

  /**
    Over every run, crashes included, two proposals of a node have the same stream identifier if and only if they are
    for the same height and round and as many proposals preceded each since the last restart before it.
  */
  lemma StreamIdsEqualWhen(cfg: Config, first: Height, tables: Tables, steps: seq<Step>, i: nat, j: nat)
    requires RunAllowed(cfg, Boot(first, tables), steps) && i < |steps| && j < |steps|
    requires steps[i].event.GetValue? && steps[j].event.GetValue?
    ensures var n, e, f := Boot(first, tables), steps[i].event, steps[j].event;
            && Asks(cfg, n, steps, i) && Asks(cfg, n, steps, j)
            && (StreamIdAt(cfg, n, steps, i) == StreamIdAt(cfg, n, steps, j) <==>
                  e.height == f.height && e.round == f.round && MadeSinceStart(steps[..i]) == MadeSinceStart(steps[..j]))
  {
    var n := Boot(first, tables);
    PrefixAllowed(cfg, n, steps, i);
    PrefixAllowed(cfg, n, steps, j);
    NonceCounts(cfg, first, tables, steps[..i]);
    NonceCounts(cfg, first, tables, steps[..j]);
    if StreamIdAt(cfg, n, steps, i) == StreamIdAt(cfg, n, steps, j) {
      StreamIdInjective(
        steps[i].event.height, steps[i].event.round.number, Run(cfg, n, steps[..i]).nonce,
        steps[j].event.height, steps[j].event.round.number, Run(cfg, n, steps[..j]).nonce);
    }
  }

  lemma {:induction false} MadeGrows(steps: seq<Step>, i: nat)
    requires CrashFree(steps) && i < |steps|
    ensures MadeSinceStart(steps) >= MadeSinceStart(steps[..i]) + if steps[i].event.GetValue? then 1 else 0
  {
    var front := steps[..|steps| - 1];
    if i < |front| {
      assert front[..i] == steps[..i];
      MadeGrows(front, i);
    }
  }

  /** So the streams that a node publishes between restarts have pairwise different identifiers. */
  lemma StreamIdsDistinct(cfg: Config, first: Height, tables: Tables, steps: seq<Step>, i: nat, j: nat)
    requires RunAllowed(cfg, Boot(first, tables), steps) && CrashFree(steps) && i < j < |steps|
    requires steps[i].event.GetValue? && steps[j].event.GetValue?
    ensures var n := Boot(first, tables);
            Asks(cfg, n, steps, i) && Asks(cfg, n, steps, j) && StreamIdAt(cfg, n, steps, i) != StreamIdAt(cfg, n, steps, j)
  {
    StreamIdsEqualWhen(cfg, first, tables, steps, i, j);
    assert steps[..j][..i] == steps[..i];
    MadeGrows(steps[..j], i);
  }

  /** A run with a restart that repeats an identifier, for two different blocks. */
  lemma RestartRepeatsStreamId(cfg: Config, height: Height, a: Bytes, b: Bytes)
    requires Streamable(a) && Streamable(b)
    ensures var n := Boot(height, EMPTY_TABLES);
            var steps := [Crashed(GetValue(height, At(0), a), 0, height), Done(GetValue(height, At(0), b))];
            && RunAllowed(cfg, n, steps) && Asks(cfg, n, steps, 0) && Asks(cfg, n, steps, 1)
            && StreamIdAt(cfg, n, steps, 0) == StreamIdAt(cfg, n, steps, 1)
  {
    var n := Boot(height, EMPTY_TABLES);
    var first, second := Crashed(GetValue(height, At(0), a), 0, height), Done(GetValue(height, At(0), b));
    RunOneMore(cfg, n, [], first);
    RunOneMore(cfg, n, [] + [first], second);
    assert [] + [first] + [second] == [first, second];
    StreamIdsEqualWhen(cfg, height, EMPTY_TABLES, [first, second], 0, 1);
    assert [first, second][..1] == [first] && [first, second][..0] == [];
  }

  // ---------------------------------------------------------------------------------------------
  // Honest proposals arrive

  /** The messages that reached the node, with their senders. */
  function Arrivals(steps: seq<Step>): seq<Arrival> {
    if steps == [] then []
    else
      var event := steps[|steps| - 1].event;
      Arrivals(steps[..|steps| - 1]) + (if event.ReceivedPart? then [(event.from, event.msg)] else [])
  }

  lemma {:induction false} StreamsFromArrivals(cfg: Config, first: Height, tables: Tables, steps: seq<Step>)
    requires RunAllowed(cfg, Boot(first, tables), steps) && CrashFree(steps)
    ensures Run(cfg, Boot(first, tables), steps).streams == AfterAll(Arrivals(steps))
  {
    if steps != [] {
      var front, last := steps[..|steps| - 1], steps[|steps| - 1];
      StreamsFromArrivals(cfg, first, tables, front);
      if last.event.ReceivedPart? {
        AfterAllOneMore(Arrivals(front), (last.event.from, last.event.msg));
      } else {
        assert Arrivals(front) + [] == Arrivals(front);
      }
    }
  }

  /** The receiver looks up the proposer's key under its address. */
  ghost predicate Knows(cfg: Config, sender: Config) {
    && sender.crypto == cfg.crypto && cfg.crypto.SignaturesVerify()
    && HasKey(cfg.validators, sender.address, cfg.crypto.publicKey(sender.key))
  }

  /** A receiver that knows the proposer takes exactly its value and its block. */
  lemma TakesHonestParts(cfg: Config, sender: Config, current: Height, height: Height, round: Round, data: Bytes)
    requires Streamable(data) && Knows(cfg, sender) && current <= height
    ensures var p := ProposedOf(cfg.crypto, height, round, sender.address, data);
            Take(cfg, current, ReportOf(PartsFor(sender, height, round, data))) == (Storing(p, data), Some(p))
  {
    HonestProposalAccepted(cfg.crypto, cfg.validators, sender.key, sender.address,
                           ValueFor(sender, height, round, data), data);
    PartsAssemble(cfg.crypto, sender.key, sender.address, ValueFor(sender, height, round, data), data);
  }

  /**
    A block of any length, none and exact multiples of the chunk size included, arrives exactly once, and as it was:
    whatever the order of its messages and however often each is repeated.
  */
  lemma BlockArrivesOnce(cfg: Config, sender: Config, height: Height, round: u32, nonce: u32, data: Bytes,
                         d: seq<StreamMessage>) returns (i: nat)
    requires Streamable(data) && sender.crypto == cfg.crypto
    requires forall m :: m in d <==> m in StreamFor(sender, height, round, nonce, data)
    ensures var parts := ReportOf(PartsFor(sender, height, At(round), data));
            && EmitsOnlyAt(d, i, parts)
            && Assemble(cfg.crypto, parts) == (ProposedOf(cfg.crypto, height, At(round), sender.address, data), data)
  {
    i := DeliveredOnce(d, StreamIdBytes(height, round, nonce), PartsFor(sender, height, At(round), data));
    PartsAssemble(cfg.crypto, sender.key, sender.address, ValueFor(sender, height, At(round), data), data);
  }

  /** The last arrival completes the stream of these parts: before it a message was missing, with it none is. */
  ghost predicate Completes(arrivals: seq<Arrival>, parts: seq<ProposalPart>)
    requires StartsWithInit(parts)
  {
    arrivals != [] &&
    var key := KeyOf(arrivals[|arrivals| - 1]);
    var own, before := Project(arrivals, key), Project(arrivals[..|arrivals| - 1], key);
    var msgs := Messages(key.1, parts);
    (forall m :: m in own ==> m in msgs) && Covers(own, msgs) && !Covers(before, msgs)
  }

  lemma CompletedStreamEmits(arrivals: seq<Arrival>, parts: seq<ProposalPart>)
    requires StartsWithInit(parts) && Completes(arrivals, parts)
    ensures EmissionAmongAll(arrivals) == Some(ReportOf(parts))
  {
    var key := KeyOf(arrivals[|arrivals| - 1]);
    var own := Project(arrivals, key);
    EmissionOfItsStream(arrivals);
    assert own[..|own| - 1] == Project(arrivals[..|arrivals| - 1], key);
    ExactlyOnce(own, key.1, parts);
  }

  /** Afterwards the tables hold something under the key, and exactly this unless they held something else before. */
  ghost predicate StoredUnder(k: Key, p: ProposedValue, data: Bytes, t: Tables, t': Tables) {
    && k in t'.proposals && k in t'.blockData
    && (t'.proposals[k] == p <==> k !in t.proposals || t.proposals[k] == p)
    && (t'.blockData[k] == data <==> k !in t.blockData || t.blockData[k] == data)
  }

  lemma StoringStores(t: Tables, p: ProposedValue, data: Bytes)
    ensures StoredUnder((p.height, p.round), p, data, t, ApplyAll(t, Storing(p, data)))
  {
    StoreEffect(t, p, (p.height, p.round), data);
  }

  /** No message of an honest stream overflows the counter. */
  lemma CompletingIsCountable(arrivals: seq<Arrival>, parts: seq<ProposalPart>)
    requires StartsWithInit(parts) && Completes(arrivals, parts)
    ensures Countable(arrivals[|arrivals| - 1].1)
  {
    var key := KeyOf(arrivals[|arrivals| - 1]);
    var own := Project(arrivals, key);
    assert own[|own| - 1] == arrivals[|arrivals| - 1].1;
    assert own[|own| - 1] in Messages(key.1, parts);
  }

  /** With what its memory holds of the arrivals before, a node takes what the last one completes. */
  lemma CompletionTaken(cfg: Config, sender: Config, n: Node, arrivals: seq<Arrival>, from: PeerId, msg: StreamMessage,
                        height: Height, round: Round, data: Bytes)
    requires Streamable(data) && Knows(cfg, sender) && n.streams == AfterAll(arrivals) && n.height <= height
    requires Completes(arrivals + [(from, msg)], PartsFor(sender, height, round, data))
    ensures var p := ProposedOf(cfg.crypto, height, round, sender.address, data);
            && Txns(cfg, n, ReceivedPart(from, msg)) == Storing(p, data)
            && ReceiveReply(cfg, n, from, msg) == Some(p)
  {
    CompletedStreamEmits(arrivals + [(from, msg)], PartsFor(sender, height, round, data));
    assert (arrivals + [(from, msg)])[..|arrivals|] == arrivals;
    TakesHonestParts(cfg, sender, n.height, height, round, data);
  }

  /**
    From the publisher's block to the receiver's store: while a node runs, and whatever else reaches it, the message
    that completes the stream of a known proposer is answered with a valid proposal of that proposer's block. This
    proposal and the block are committed and are what the node then holds, unless it had stored something else for
    that height and round.
  */
  lemma HonestProposalIsStored(cfg: Config, sender: Config, first: Height, tables: Tables, steps: seq<Step>,
                               from: PeerId, msg: StreamMessage, height: Height, round: Round, data: Bytes)
    requires RunAllowed(cfg, Boot(first, tables), steps) && CrashFree(steps)
    requires Streamable(data) && Knows(cfg, sender)
    requires Run(cfg, Boot(first, tables), steps).height <= height
    requires Completes(Arrivals(steps) + [(from, msg)], PartsFor(sender, height, round, data))
    ensures var n, k := Run(cfg, Boot(first, tables), steps), (height, round);
            && Countable(msg) && ReceiveReply(cfg, n, from, msg).Some?
            && var p := ReceiveReply(cfg, n, from, msg).value;
               && p.height == height && p.round == round && p.validRound == Nil && p.proposer == sender.address
               && p.value.value == cfg.crypto.sipHash(data) && p.value.extensions == data && p.valid
               && Txns(cfg, n, ReceivedPart(from, msg)) == [StoreProposal(p), StoreBlockData(k, data)]
               && StoredUnder(k, p, data, n.tables, Handle(cfg, n, ReceivedPart(from, msg)).tables)
  {
    var n := Run(cfg, Boot(first, tables), steps);
    StreamsFromArrivals(cfg, first, tables, steps);
    CompletionTaken(cfg, sender, n, Arrivals(steps), from, msg, height, round, data);
    CompletingIsCountable(Arrivals(steps) + [(from, msg)], PartsFor(sender, height, round, data));
    StoringStores(n.tables, ProposedOf(cfg.crypto, height, round, sender.address, data), data);
  }
}
