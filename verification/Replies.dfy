/** What consensus is told by the proposer of a block and by those who receive it. */
module Replies {
  import opened Bytes
  import opened Types
  import opened Reassembly
  import opened Store
  import opened Node
  import opened History
  import opened Origin
  import opened App

  /** The last arrival completes the published stream: before it a message was missing, with it none is. */
  ghost predicate CompletesStream(before: seq<Arrival>, last: Arrival, published: seq<StreamMessage>) {
    var own, key := Project(before + [last], KeyOf(last)), KeyOf(last);
    (forall m :: m in own ==> m in published) && Covers(own, published) && !Covers(Project(before, key), published)
  }

  lemma CompletesItsParts(before: seq<Arrival>, last: Arrival, streamId: StreamId, parts: seq<ProposalPart>)
    requires StartsWithInit(parts) && CompletesStream(before, last, Messages(streamId, parts))
    ensures Completes(before + [last], parts)
  {
    var own := Project(before + [last], KeyOf(last));
    assert (before + [last])[..|before|] == before;
    assert own[|own| - 1] == last.1;
    assert last.1 in own;
    assert KeyOf(last).1 == streamId;
  }

  /** What the proposer of a block stores, unless it had stored something under the key, is what it answers. */
  lemma ProposerStoresItsAnswer(sender: Config, m: Node, height: Height, round: Round, data: Bytes, reply: Reply,
                                published: seq<StreamMessage>)
    requires MsgSafe(m, ValueRequest(height, round, data))
    requires Answers(sender, m, ValueRequest(height, round, data), reply, published)
    ensures var t := AfterMsg(sender, m, ValueRequest(height, round, data)).tables;
            && (height, round) in t.proposals
            && var p := t.proposals[(height, round)];
               if (height, round) in m.tables.proposals then p == m.tables.proposals[(height, round)]
               else p.height == height && p.round == round && p.value == reply.value.value && p.valid
  {
    StoreEffect(m.tables, ProposeTxns(sender, height, round, data)[0].proposal, (height, round), data);
  }

  /**
    Everyone names the same value: a node that gets the last missing message of what the proposer published, and knows
    the proposer, tells its consensus the height, the round and the value that the proposer told its own.
  */
  lemma ReceiversAnswerTheSame(sender: Config, m: Node, height: Height, round: Round, data: Bytes, reply: Reply,
                               published: seq<StreamMessage>, cfg: Config, first: Height, tables: Tables,
                               steps: seq<Step>, from: PeerId, msg: StreamMessage)
    requires MsgSafe(m, ValueRequest(height, round, data))
    requires Answers(sender, m, ValueRequest(height, round, data), reply, published)
    requires RunAllowed(cfg, Boot(first, tables), steps) && CrashFree(steps) && Knows(cfg, sender)
    requires Run(cfg, Boot(first, tables), steps).height <= height
    requires CompletesStream(Arrivals(steps), (from, msg), published)
    ensures var answer := ReceiveReply(cfg, Run(cfg, Boot(first, tables), steps), from, msg);
            && answer.Some? && answer.value.valid
            && answer.value.height == reply.value.height && answer.value.round == reply.value.round
            && answer.value.value == reply.value.value
  {
    CompletesItsParts(Arrivals(steps), (from, msg), published[0].streamId, PartsFor(sender, height, round, data));
    HonestProposalIsStored(cfg, sender, first, tables, steps, from, msg, height, round, data);
  }
}
