/**
  A node as a state machine (app/src/state.rs, app/src/app.rs): what each message from consensus does to the
  memory of the process and which transactions it commits, one by one, to the store.
*/
module Node {
  import opened Bytes
  import opened Types
  import opened Streaming
  import opened Reassembly
  import opened Signing
  import opened Store

  const MAX_HISTORY_LENGTH: nat := 25

  datatype Config = Config(crypto: Crypto, validators: seq<Validator>, key: PrivateKey, address: Address)

  /** `started` is the last height handed to consensus; the other fields are those of the process and its store. */
  datatype Node = Node(
    height: Height,
    round: Round,
    started: Height,
    nonce: u32,
    streams: Streams,
    tables: Tables)

  /** A process that starts on an existing store. The height to start at comes from the configuration. */
  function Boot(height: Height, tables: Tables): Node {
    Node(height, At(0), height, 0, map[], tables)
  }

  datatype Event =
    | ConsensusReady
    | StartedRound(height: Height, round: Round)
    | GetValue(height: Height, round: Round, data: Bytes)
    | ReceivedPart(from: PeerId, msg: StreamMessage)
    | Decided(certificate: CommitCertificate)

  // ---------------------------------------------------------------------------------------------
  // Receiving a proposal part

  /** What is done with the parts of a complete stream: the transactions to commit and the reply. */
  function Take(cfg: Config, height: Height, parts: ProposalParts): (seq<Txn>, Option<ProposedValue>) {
    if parts.height < height then ([], None)
    else if Verify(cfg.crypto, cfg.validators, parts).Some? then ([], None)
    else
      var (proposal, data) := Assemble(cfg.crypto, parts);
      ([StoreProposal(proposal), StoreBlockData((parts.height, parts.round), data)], Some(proposal))
  }

  ghost function ReceiveTxns(cfg: Config, n: Node, from: PeerId, msg: StreamMessage): seq<Txn> {
    var parts := InsertPart(n.streams, from, msg).1;
    if parts.None? then [] else Take(cfg, n.height, parts.value).0
  }

  ghost function ReceiveReply(cfg: Config, n: Node, from: PeerId, msg: StreamMessage): Option<ProposedValue> {
    var parts := InsertPart(n.streams, from, msg).1;
    if parts.None? then None else Take(cfg, n.height, parts.value).1
  }

  // ---------------------------------------------------------------------------------------------
  // Proposing a value

  function ProposeTxns(cfg: Config, height: Height, round: Round, data: Bytes): seq<Txn> {
    [StoreProposal(ProposedOf(cfg.crypto, height, round, cfg.address, data)), StoreBlockData((height, round), data)]
  }

  function ValueFor(cfg: Config, height: Height, round: Round, data: Bytes): LocallyProposedValue {
    LocallyProposedValue(height, round, Value.New(cfg.crypto, data))
  }

  function PartsFor(cfg: Config, height: Height, round: Round, data: Bytes): seq<ProposalPart> {
    MakeParts(cfg.crypto, cfg.key, cfg.address, ValueFor(cfg, height, round, data), data)
  }

  /** Blocks are bounded by the address space. */
  predicate Streamable(data: Bytes) {
    |data| < 0x8000_0000_0000_0000
  }

  /** The messages published for a proposal. */
  function StreamFor(cfg: Config, height: Height, round: u32, nonce: u32, data: Bytes): seq<StreamMessage>
    requires Streamable(data)
  {
    Messages(StreamIdBytes(height, round, nonce), PartsFor(cfg, height, At(round), data))
  }

  // ---------------------------------------------------------------------------------------------
  // Committing a decision

  function RetainHeight(height: Height): Height {
    if height < MAX_HISTORY_LENGTH then 0 else height - MAX_HISTORY_LENGTH
  }

  /** The transactions by which `commit` records a decision on a stored proposal. */
  function DecisionTxns(t: Tables, certificate: CommitCertificate): seq<Txn>
    requires (certificate.height, certificate.round) in t.proposals
  {
    var key := (certificate.height, certificate.round);
    var decide := StoreDecided(t.proposals[key].value, certificate);
    var data := BlockDataFor(Apply(t, decide), key);
    [decide] + if data.Some? then [StoreDecidedData(certificate.height, data.value)] else []
  }

  /** The transactions of `commit`. Nothing at all is done when the proposal is not in the store. */
  function CommitTxns(t: Tables, certificate: CommitCertificate): seq<Txn> {
    if (certificate.height, certificate.round) !in t.proposals then []
    else DecisionTxns(t, certificate) + [Prune(RetainHeight(certificate.height))]
  }

  // ---------------------------------------------------------------------------------------------
  // Steps and runs

  /** Handling the event does not panic: assertions hold and no counter overflows. */
  predicate Safe(n: Node, event: Event) {
    match event
    case ConsensusReady => true
    case StartedRound(height, round) => true
    case GetValue(height, round, data) =>
      height == n.height && round == n.round && round.At? && Streamable(data) && n.nonce < 0xFFFF_FFFF
    case ReceivedPart(from, msg) => Countable(msg)
    case Decided(certificate) =>
      (certificate.height, certificate.round) in n.tables.proposals ==> n.height < 0xFFFF_FFFF_FFFF_FFFF
  }

  /** What consensus promises: rounds of the height it was last told to start, and decisions on the current one. */
  predicate Promised(n: Node, event: Event) {
    match event
    case StartedRound(height, round) => height == n.started
    case Decided(certificate) => certificate.height == n.height < 0xFFFF_FFFF_FFFF_FFFF
    case _ => true
  }

  predicate Allowed(n: Node, event: Event) {
    Safe(n, event) && Promised(n, event)
  }

  /** The transactions that handling an event commits, in order. */
  ghost function Txns(cfg: Config, n: Node, event: Event): seq<Txn> {
    match event
    case GetValue(height, round, data) => ProposeTxns(cfg, height, round, data)
    case ReceivedPart(from, msg) => ReceiveTxns(cfg, n, from, msg)
    case Decided(certificate) => CommitTxns(n.tables, certificate)
    case _ => []
  }

  ghost function Handle(cfg: Config, n: Node, event: Event): Node
    requires Safe(n, event)
  {
    var n' := n.(tables := ApplyAll(n.tables, Txns(cfg, n, event)));
    match event
    case ConsensusReady => n'.(started := n.height)
    case StartedRound(height, round) => n'.(height := height, round := round)
    case GetValue(height, round, data) => n'.(nonce := n.nonce + 1)
    case ReceivedPart(from, msg) => n'.(streams := InsertPart(n.streams, from, msg).0)
    case Decided(certificate) =>
      if (certificate.height, certificate.round) in n.tables.proposals
      then n'.(height := n.height + 1, round := At(0), started := n.height + 1)
      else n'.(started := n.height)
  }

  /** A step of a run: an event handled to its end, or a crash after some of its transactions and a restart. */
  datatype Step =
    | Done(event: Event)
    | Crashed(event: Event, committed: nat, restart: Height)

  ghost predicate StepAllowed(cfg: Config, n: Node, step: Step) {
    Allowed(n, step.event) && (step.Crashed? ==> step.committed <= |Txns(cfg, n, step.event)|)
  }

  ghost function Next(cfg: Config, n: Node, step: Step): Node
    requires StepAllowed(cfg, n, step)
  {
    match step
    case Done(event) => Handle(cfg, n, event)
    case Crashed(event, committed, restart) => Boot(restart, ApplyAll(n.tables, Txns(cfg, n, event)[..committed]))
  }

  ghost predicate RunAllowed(cfg: Config, n: Node, steps: seq<Step>)
    decreases |steps|, 0
  {
    steps == [] ||
    (RunAllowed(cfg, n, steps[..|steps| - 1])
     && StepAllowed(cfg, Run(cfg, n, steps[..|steps| - 1]), steps[|steps| - 1]))
  }

  /** The node after all the steps. */
  ghost function Run(cfg: Config, n: Node, steps: seq<Step>): Node
    requires RunAllowed(cfg, n, steps)
    decreases |steps|, 1
  {
    if steps == [] then n
    else Next(cfg, Run(cfg, n, steps[..|steps| - 1]), steps[|steps| - 1])
  }

  predicate CrashFree(steps: seq<Step>) {
    forall i :: 0 <= i < |steps| ==> steps[i].Done?
  }

  // ---------------------------------------------------------------------------------------------
  // Answers to queries

  ghost predicate IsLeast(heights: set<Height>, least: Height) {
    least in heights && forall h :: h in heights ==> least <= h
  }

  /** `get_earliest_height`: the least decided height, or else the default height. */
  ghost predicate IsEarliest(t: Tables, height: Height) {
    if t.decided == map[] then height == DEFAULT_HEIGHT else IsLeast(t.decided.Keys, height)
  }
}
