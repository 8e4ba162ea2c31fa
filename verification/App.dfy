/** The message loop of the application (app/src/app.rs). */
module App {
  import opened Bytes
  import opened Types
  import opened Store
  import opened Node
  import opened Codec
  import opened Rounds
  import opened State

  /** Messages from consensus. A block to propose comes with the request. */
  datatype AppMsg =
    | Ready
    | RoundStarted(height: Height, round: Round, proposer: Address)
    | ValueRequest(height: Height, round: Round, block: Bytes)
    | ProposalPartReceived(from: PeerId, part: StreamMessage)
    | ValidatorSetRequest(height: Height)
    | ValueDecided(certificate: CommitCertificate)
    | SyncedValue(height: Height, round: Round, proposer: Address, valueBytes: Bytes)
    | DecidedValueRequest(height: Height)
    | HistoryMinHeightRequest
    | RestreamRequest
    | PeerJoined(peer: PeerId)
    | PeerLeft(peer: PeerId)

  datatype Reply =
    | NoReply
    | StartHeight(height: Height, validators: seq<Validator>)
    | LocalValue(value: LocallyProposedValue)
    | RemoteValue(proposal: Option<ProposedValue>)
    | Validators(validators: seq<Validator>)
    | DecidedValueReply(decided: Option<RawDecidedValue>)
    | HistoryMinHeight(height: Height)

  /** The messages that may change more than the set of peers. */
  function EventOf(msg: AppMsg): Option<Event> {
    match msg
    case Ready => Some(ConsensusReady)
    case RoundStarted(height, round, proposer) => Some(StartedRound(height, round))
    case ValueRequest(height, round, block) => Some(GetValue(height, round, block))
    case ProposalPartReceived(from, part) => Some(ReceivedPart(from, part))
    case ValueDecided(certificate) => Some(Decided(certificate))
    case _ => None
  }

  /** No panic: parts come from the decoder and synced values decode. */
  predicate MsgSafe(n: Node, msg: AppMsg) {
    && (EventOf(msg).Some? ==> Safe(n, EventOf(msg).value) && EventHasRound(EventOf(msg).value))
    && (msg.SyncedValue? ==> DecodeValue(msg.valueBytes).Some?)
  }

  predicate MsgAllowed(n: Node, msg: AppMsg) {
    MsgSafe(n, msg) && (EventOf(msg).Some? ==> Promised(n, EventOf(msg).value))
  }

  ghost function TxnsOf(config: Config, n: Node, msg: AppMsg): seq<Txn> {
    if EventOf(msg).Some? then Txns(config, n, EventOf(msg).value) else []
  }

  ghost function AfterMsg(config: Config, n: Node, msg: AppMsg): Node
    requires MsgSafe(n, msg)
  {
    if EventOf(msg).Some? then Handle(config, n, EventOf(msg).value) else n
  }

  /** What is answered, and what is published for a proposal. */
  ghost predicate Answers(config: Config, n: Node, msg: AppMsg, reply: Reply, published: seq<StreamMessage>)
    requires MsgSafe(n, msg)
  {
    match msg
    case Ready => reply == StartHeight(n.height, config.validators) && published == []
    case ValueRequest(height, round, block) =>
      && reply.LocalValue? && reply.value.height == height && reply.value.round == round
      && reply.value.value.value == config.crypto.sipHash(block) && reply.value.value.extensions == block
      && published == StreamFor(config, height, round.number, n.nonce, block)
    case ProposalPartReceived(from, part) =>
      reply == RemoteValue(ReceiveReply(config, n, from, part)) && published == []
    case ValidatorSetRequest(_) => reply == Validators(config.validators) && published == []
    case ValueDecided(certificate) =>
      var stored := (certificate.height, certificate.round) in n.tables.proposals;
      reply == StartHeight(if stored then n.height + 1 else n.height, config.validators) && published == []
    case SyncedValue(height, round, proposer, valueBytes) =>
      && reply == RemoteValue(Some(ProposedValue(height, round, Nil, proposer, DecodeValue(valueBytes).value, true)))
      && published == []
    case DecidedValueRequest(height) =>
      var t := n.tables;
      && reply == DecidedValueReply(
           if height in t.decided && height in t.certificates
           then Some(RawDecidedValue(EncodeValue(t.decided[height]), t.certificates[height])) else None)
      && published == []
    case HistoryMinHeightRequest =>
      reply.HistoryMinHeight? && IsEarliest(n.tables, reply.height) && published == []
    case _ => reply == NoReply && published == []
  }

  function PeersAfter(peers: set<PeerId>, msg: AppMsg): set<PeerId> {
    match msg
    case PeerJoined(peer) => peers + {peer}
    case PeerLeft(peer) => peers - {peer}
    case _ => peers
  }

  /** Messages that ask something or report on peers. */
  method HandleQuery(state: State, msg: AppMsg) returns (reply: Reply)
    requires EventOf(msg).None? && state.Valid() && MsgSafe(state.View(), msg)
    modifies state`peers
    ensures Answers(state.config, old(state.View()), msg, reply, [])
    ensures state.peers == PeersAfter(old(state.peers), msg)
    ensures msg.PeerJoined? ==> state.peers == old(state.peers) + {msg.peer}
    ensures msg.PeerLeft? ==> state.peers == old(state.peers) - {msg.peer}
  {
    reply := NoReply;
    match msg {
      case ValidatorSetRequest(_) =>
        reply := Validators(state.config.validators);
      case SyncedValue(height, round, proposer, valueBytes) =>
        var value := DecodeValue(valueBytes).value;
        reply := RemoteValue(Some(ProposedValue(height, round, Nil, proposer, value, true)));
      case DecidedValueRequest(height) =>
        var decided := state.GetDecidedValue(height);
        reply := DecidedValueReply(if decided.Some? then Some(RawDecided(decided.value)) else None);
      case HistoryMinHeightRequest =>
        var minHeight := state.GetEarliestHeight();
        reply := HistoryMinHeight(minHeight);
      case RestreamRequest =>
      case PeerJoined(peer) =>
        state.peers := state.peers + {peer};
      case PeerLeft(peer) =>
        state.peers := state.peers - {peer};
    }
  }

  /** The message is handled: state, log, reply and publication are those of the state machine. */
  twostate predicate Handled(state: State, msg: AppMsg, reply: Reply, published: seq<StreamMessage>)
    requires old(MsgSafe(state.View(), msg))
    reads state, state.store, state.streamsMap, state.streamsMap.Repr
  {
    && state.Valid()
    && state.View() == AfterMsg(state.config, old(state.View()), msg)
    && state.store.log == old(state.store.log) + TxnsOf(state.config, old(state.View()), msg)
    && Answers(state.config, old(state.View()), msg, reply, published)
    && state.peers == PeersAfter(old(state.peers), msg)
    && state.currentProposer == if msg.RoundStarted? then Some(msg.proposer) else old(state.currentProposer)
  }

  method OnStart(state: State, msg: AppMsg) returns (reply: Reply)
    requires msg.Ready? || msg.RoundStarted?
    requires state.Valid() && MsgSafe(state.View(), msg)
    modifies state
    ensures Handled(state, msg, reply, [])
    ensures state.store.View() == old(state.store.View()) && state.streamsMap.model == old(state.streamsMap.model)
    ensures (state.currentHeight, state.currentRound) ==
              if msg.RoundStarted? then (msg.height, msg.round) else old((state.currentHeight, state.currentRound))
    ensures msg.Ready? ==> state.started == state.currentHeight
  {
    match msg {
      case Ready =>
        reply := StartHeight(state.currentHeight, state.config.validators);
        state.started := state.currentHeight;
      case RoundStarted(height, round, proposer) =>
        reply := NoReply;
        state.currentHeight, state.currentRound, state.currentProposer := height, round, Some(proposer);
    }
  }

  method OnValueRequest(state: State, msg: AppMsg) returns (reply: Reply, published: seq<StreamMessage>)
    requires msg.ValueRequest?
    requires state.Valid() && MsgSafe(state.View(), msg)
    modifies state, state.store
    ensures Handled(state, msg, reply, published)
  {
    HandlerKeepsRounds(state.config, state.View(), EventOf(msg).value);
    var proposal := state.ProposeValue(msg.height, msg.round, msg.block);
    reply := LocalValue(proposal);
    published := state.StreamProposal(proposal, msg.block);
  }

  method OnDecided(state: State, msg: AppMsg) returns (reply: Reply)
    requires msg.ValueDecided?
    requires state.Valid() && MsgSafe(state.View(), msg)
    modifies state, state.store
    ensures Handled(state, msg, reply, [])
  {
    HandlerKeepsRounds(state.config, state.View(), EventOf(msg).value);
    state.Commit(msg.certificate);
    reply := StartHeight(state.currentHeight, state.config.validators);
    state.started := state.currentHeight;
  }

  /** One turn of the loop. */
  method HandleMsg(state: State, msg: AppMsg) returns (reply: Reply, published: seq<StreamMessage>)
    requires state.Valid() && MsgSafe(state.View(), msg)
    modifies state, state.store, state.streamsMap.Repr
    ensures fresh(state.streamsMap.Repr - old(state.streamsMap.Repr))
    ensures Handled(state, msg, reply, published)
  {
    published := [];
    match msg {
      case Ready =>
        reply := OnStart(state, msg);
      case RoundStarted(_, _, _) =>
        reply := OnStart(state, msg);
      case ValueRequest(_, _, _) =>
        reply, published := OnValueRequest(state, msg);
      case ProposalPartReceived(from, part) =>
        var value := state.ReceivedProposalPart(from, part);
        reply := RemoteValue(value);
      case ValueDecided(_) =>
        reply := OnDecided(state, msg);
      case _ =>
        reply := HandleQuery(state, msg);
    }
  }

  // ---------------------------------------------------------------------------------------------
  // The loop

  ghost predicate InboxAllowed(config: Config, n: Node, inbox: seq<AppMsg>)
    decreases |inbox|, 0
  {
    inbox == [] ||
    (InboxAllowed(config, n, inbox[..|inbox| - 1])
     && MsgAllowed(AfterInbox(config, n, inbox[..|inbox| - 1]), inbox[|inbox| - 1]))
  }

  ghost function AfterInbox(config: Config, n: Node, inbox: seq<AppMsg>): Node
    requires InboxAllowed(config, n, inbox)
    decreases |inbox|, 1
  {
    if inbox == [] then n
    else AfterMsg(config, AfterInbox(config, n, inbox[..|inbox| - 1]), inbox[|inbox| - 1])
  }

  /** The steps of the state machine that a loop over these messages takes. */
  function StepsOf(inbox: seq<AppMsg>): (steps: seq<Step>)
    ensures CrashFree(steps)
  {
    if inbox == [] then []
    else
      var event := EventOf(inbox[|inbox| - 1]);
      StepsOf(inbox[..|inbox| - 1]) + if event.Some? then [Done(event.value)] else []
  }

  lemma {:induction false} InboxIsRun(config: Config, n: Node, inbox: seq<AppMsg>)
    requires InboxAllowed(config, n, inbox)
    ensures RunAllowed(config, n, StepsOf(inbox))
    ensures Run(config, n, StepsOf(inbox)) == AfterInbox(config, n, inbox)
  {
    if inbox != [] {
      var front, last := inbox[..|inbox| - 1], inbox[|inbox| - 1];
      InboxIsRun(config, n, front);
      if EventOf(last).Some? {
        var step := Done(EventOf(last).value);
        assert (StepsOf(front) + [step])[..|StepsOf(front)|] == StepsOf(front);
      } else {
        assert StepsOf(front) + [] == StepsOf(front);
      }
    }
  }

  lemma {:induction false} InboxPrefixAllowed(config: Config, n: Node, inbox: seq<AppMsg>, i: nat)
    requires InboxAllowed(config, n, inbox) && i <= |inbox|
    ensures InboxAllowed(config, n, inbox[..i])
    ensures i < |inbox| ==> MsgAllowed(AfterInbox(config, n, inbox[..i]), inbox[i])
  {
    if i == |inbox| {
      assert inbox[..i] == inbox;
    } else {
      assert inbox[..|inbox| - 1][..i] == inbox[..i];
      InboxPrefixAllowed(config, n, inbox[..|inbox| - 1], i);
    }
  }

  /** The i-th message was answered from the state that the messages before it led to. */
  ghost predicate Answered(config: Config, n: Node, inbox: seq<AppMsg>, i: nat, reply: Reply, published: seq<StreamMessage>)
    requires i < |inbox|
  {
    && InboxAllowed(config, n, inbox[..i])
    && MsgAllowed(AfterInbox(config, n, inbox[..i]), inbox[i])
    && Answers(config, AfterInbox(config, n, inbox[..i]), inbox[i], reply, published)
  }

  /** `run`: until the channel closes, every message is answered; the state is that of a run without crashes. */
  method RunLoop(state: State, inbox: seq<AppMsg>) returns (replies: seq<Reply>, published: seq<seq<StreamMessage>>)
    requires state.Valid() && InboxAllowed(state.config, state.View(), inbox)
    modifies state, state.store, state.streamsMap.Repr
    ensures state.Valid()
    ensures RunAllowed(state.config, old(state.View()), StepsOf(inbox))
    ensures state.View() == Run(state.config, old(state.View()), StepsOf(inbox))
    ensures |replies| == |published| == |inbox|
    ensures forall i | 0 <= i < |inbox| :: Answered(state.config, old(state.View()), inbox, i, replies[i], published[i])
  {
    ghost var start := state.View();
    replies, published := [], [];
    for i := 0 to |inbox|
      invariant state.Valid() && fresh(state.streamsMap.Repr - old(state.streamsMap.Repr))
      invariant InboxAllowed(state.config, start, inbox[..i])
      invariant state.View() == AfterInbox(state.config, start, inbox[..i])
      invariant |replies| == |published| == i
      invariant forall j | 0 <= j < i :: Answered(state.config, start, inbox, j, replies[j], published[j])
    {
      InboxPrefixAllowed(state.config, start, inbox, i);
      assert inbox[..i + 1][..i] == inbox[..i];
      var reply, msgs := HandleMsg(state, inbox[i]);
      replies, published := replies + [reply], published + [msgs];
    }
    assert inbox[..|inbox|] == inbox;
    InboxIsRun(state.config, start, inbox);
  }
}
