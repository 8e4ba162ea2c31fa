/** Rounds are always there where the code takes them for granted, and rows read back as they were written. */
module Rounds {
  import opened Types
  import opened Streaming
  import opened Reassembly
  import opened Store
  import opened Node
  import opened Safety
  import opened Codec

  ghost predicate RoundsPresent(streams: Streams) {
    forall key :: key in streams && streams[key].init.Some? ==> streams[key].init.value.round.At?
  }

  lemma RoundsStayPresent(streams: Streams, from: PeerId, msg: StreamMessage)
    requires RoundsPresent(streams) && HasRound(msg)
    ensures RoundsPresent(InsertPart(streams, from, msg).0)
    ensures InsertPart(streams, from, msg).1.Some? ==> InsertPart(streams, from, msg).1.value.round.At?
  {
    EntriesStay(streams, from, msg);
  }

  ghost predicate RoundsStored(t: Tables) {
    && (forall k :: k in t.proposals ==> k.1.At? && t.proposals[k].round == k.1)
    && (forall h :: h in t.certificates ==> t.certificates[h].round.At?)
  }

  ghost predicate HasRounds(n: Node) {
    RoundsPresent(n.streams) && RoundsStored(n.tables)
  }

  /** What the encoders of the store require. */
  predicate TxnHasRound(txn: Txn) {
    match txn
    case StoreProposal(p) => p.round.At?
    case StoreDecided(value, certificate) => certificate.round.At?
    case _ => true
  }

  lemma ApplyKeepsRounds(t: Tables, txn: Txn)
    requires RoundsStored(t) && TxnHasRound(txn)
    ensures RoundsStored(Apply(t, txn))
  {
  }

  lemma {:induction false} TxnsKeepRounds(t: Tables, txns: seq<Txn>)
    requires RoundsStored(t) && forall txn :: txn in txns ==> TxnHasRound(txn)
    ensures RoundsStored(ApplyAll(t, txns))
    decreases txns
  {
    if txns != [] {
      ApplyKeepsRounds(t, txns[0]);
      TxnsKeepRounds(Apply(t, txns[0]), txns[1..]);
    }
  }

  /** Received parts were decoded from the wire. */
  predicate EventHasRound(event: Event) {
    event.ReceivedPart? ==> HasRound(event.msg)
  }

  /** No handler runs into a panic of an encoder. */
  lemma TxnsHaveRounds(cfg: Config, n: Node, event: Event)
    requires Safe(n, event) && EventHasRound(event) && HasRounds(n)
    ensures forall txn :: txn in Txns(cfg, n, event) ==> TxnHasRound(txn)
  {
    if event.ReceivedPart? {
      RoundsStayPresent(n.streams, event.from, event.msg);
    }
  }

  lemma HandlerKeepsRounds(cfg: Config, n: Node, event: Event)
    requires Safe(n, event) && EventHasRound(event) && HasRounds(n)
    ensures HasRounds(Handle(cfg, n, event))
  {
    TxnsHaveRounds(cfg, n, event);
    TxnsKeepRounds(n.tables, Txns(cfg, n, event));
    if event.ReceivedPart? {
      RoundsStayPresent(n.streams, event.from, event.msg);
    }
  }

  ghost predicate StepsHaveRounds(steps: seq<Step>) {
    forall i :: 0 <= i < |steps| ==> EventHasRound(steps[i].event)
  }

  lemma StepKeepsRounds(cfg: Config, n: Node, step: Step)
    requires StepAllowed(cfg, n, step) && EventHasRound(step.event) && HasRounds(n)
    ensures HasRounds(Next(cfg, n, step))
  {
    match step
    case Done(event) => HandlerKeepsRounds(cfg, n, event);
    case Crashed(event, committed, restart) =>
      TxnsHaveRounds(cfg, n, event);
      TxnsKeepRounds(n.tables, Txns(cfg, n, event)[..committed]);
  }

  lemma {:induction false} RoundsForever(cfg: Config, n: Node, steps: seq<Step>)
    requires RunAllowed(cfg, n, steps) && StepsHaveRounds(steps) && HasRounds(n)
    ensures HasRounds(Run(cfg, n, steps))
  {
    if steps != [] {
      RoundsForever(cfg, n, steps[..|steps| - 1]);
      StepKeepsRounds(cfg, Run(cfg, n, steps[..|steps| - 1]), steps[|steps| - 1]);
    }
  }

  ghost predicate RowsReadBack(t: Tables)
    requires RoundsStored(t)
  {
    && (forall k :: k in t.proposals && Sendable(EncodeProposedValue(t.proposals[k])) ==>
         DecodeProposedValue(EncodeProposedValue(t.proposals[k])) == Some(t.proposals[k]))
    && (forall h :: h in t.decided && Sendable(EncodeValue(t.decided[h])) ==>
         DecodeValue(EncodeValue(t.decided[h])) == Some(t.decided[h]))
    && (forall h :: h in t.certificates && Sendable(EncodeCertificate(t.certificates[h])) ==>
         DecodeCertificate(EncodeCertificate(t.certificates[h])) == Some(t.certificates[h]))
  }

  /**
    After any run every row of the store was encoded without a panic, and decodes to what was stored: nothing is
    lost by the store holding bytes.
  */
  lemma StoredRowsReadBack(cfg: Config, n: Node, steps: seq<Step>)
    requires RunAllowed(cfg, n, steps) && StepsHaveRounds(steps) && HasRounds(n)
    ensures RoundsStored(Run(cfg, n, steps).tables) && RowsReadBack(Run(cfg, n, steps).tables)
  {
    RoundsForever(cfg, n, steps);
    var t := Run(cfg, n, steps).tables;
    forall k | k in t.proposals && Sendable(EncodeProposedValue(t.proposals[k]))
      ensures DecodeProposedValue(EncodeProposedValue(t.proposals[k])) == Some(t.proposals[k])
    {
      ProposedValueTravels(t.proposals[k]);
    }
    forall h | h in t.decided && Sendable(EncodeValue(t.decided[h]))
      ensures DecodeValue(EncodeValue(t.decided[h])) == Some(t.decided[h])
    {
      ValueTravels(t.decided[h]);
    }
    forall h | h in t.certificates && Sendable(EncodeCertificate(t.certificates[h]))
      ensures DecodeCertificate(EncodeCertificate(t.certificates[h])) == Some(t.certificates[h])
    {
      CertificateTravels(t.certificates[h]);
    }
  }

  /** What a node answers to `GetDecidedValue`. */
  function RawDecided(decided: DecidedValue): RawDecidedValue {
    RawDecidedValue(EncodeValue(decided.value), decided.certificate)
  }

  function Served(t: Tables, height: Height): Option<RawDecidedValue> {
    var decided := DecidedAt(t, height);
    if decided.Some? then Some(RawDecided(decided.value)) else None
  }

  /**
    A node that fell behind gets, for every height that any run of its peer has decided and kept, exactly the value
    and the certificate of that decision.
  */
  lemma SyncDeliversDecisions(cfg: Config, n: Node, steps: seq<Step>, height: Height)
    requires RunAllowed(cfg, n, steps) && StepsHaveRounds(steps) && HasRounds(n) && Consistent(n.tables)
    requires height in Run(cfg, n, steps).tables.decided
    ensures var t := Run(cfg, n, steps).tables;
            && height in t.certificates && Served(t, height).Some? && ResponseHasRounds(ValueResponse(height, Served(t, height)))
            && var raw := Served(t, height).value;
               Sendable(EncodeResponse(ValueResponse(height, Some(raw)))) && Sendable(raw.valueBytes) ==>
                 && DecodeResponse(EncodeResponse(ValueResponse(height, Some(raw)))) == Some(ValueResponse(height, Some(raw)))
                 && DecodeValue(raw.valueBytes) == Some(t.decided[height]) && raw.certificate == t.certificates[height]
  {
    RoundsForever(cfg, n, steps);
    ConsistentForever(cfg, n, steps);
    var t := Run(cfg, n, steps).tables;
    var raw := RawDecided(DecidedValue(t.decided[height], t.certificates[height]));
    if Sendable(EncodeResponse(ValueResponse(height, Some(raw)))) && Sendable(raw.valueBytes) {
      ValueResponseTravels(height, Some(raw));
      ValueTravels(t.decided[height]);
    }
  }
}
