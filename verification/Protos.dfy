/**
  The messages of types/proto/consensus.proto and types/proto/sync.proto as prost generates them: how each is
  written as records, default values omitted, and how records are merged into it, the last one winning.
*/
module Protos {
  import opened Bytes
  import opened Types
  import opened Wire

  datatype PAddress = PAddress(value: Bytes)
  datatype PValue = PValue(value: u64, extensions: Bytes)
  datatype PValueId = PValueId(value: u64)
  datatype PSignature = PSignature(bytes: Bytes)
  datatype PProposalInit = PProposalInit(height: u64, round: u32, proposer: Option<PAddress>)
  datatype PProposalData = PProposalData(bytes: Bytes)
  datatype PProposalFin = PProposalFin(signature: Option<PSignature>)
  datatype PPart = PInit(init: PProposalInit) | PData(data: PProposalData) | PFin(fin: PProposalFin)
  datatype PProposalPart = PProposalPart(part: Option<PPart>)
  datatype PContent = PSerialized(data: Bytes) | PEnd(fin: bool)
  datatype PStreamMessage = PStreamMessage(streamId: Bytes, sequence: u64, content: Option<PContent>)
  datatype PProposedValue = PProposedValue(
    height: u64, round: u32, validRound: Option<u32>, proposer: Option<PAddress>, value: Option<PValue>, validity: bool)
  datatype PCommitSignature = PCommitSignature(validatorAddress: Option<PAddress>, signature: Option<PSignature>)
  datatype PAggregatedSignature = PAggregatedSignature(signatures: seq<PCommitSignature>)
  datatype PCommitCertificate = PCommitCertificate(
    height: u64, round: u32, valueId: Option<PValueId>, aggregatedSignature: Option<PAggregatedSignature>)
  datatype PSyncedValue = PSyncedValue(valueBytes: Bytes, certificate: Option<PCommitCertificate>)
  datatype PValueResponse = PValueResponse(height: u64, value: Option<PSyncedValue>)

  const NO_ADDRESS := PAddress([])
  const NO_VALUE := PValue(0, [])
  const NO_VALUE_ID := PValueId(0)
  const NO_SIGNATURE := PSignature([])
  const NO_INIT := PProposalInit(0, 0, None)
  const NO_DATA := PProposalData([])
  const NO_FIN := PProposalFin(None)
  const NO_PART := PProposalPart(None)
  const NO_STREAM_MESSAGE := PStreamMessage([], 0, None)
  const NO_PROPOSED_VALUE := PProposedValue(0, 0, None, None, None, false)
  const NO_COMMIT_SIGNATURE := PCommitSignature(None, None)
  const NO_AGGREGATE := PAggregatedSignature([])
  const NO_CERTIFICATE := PCommitCertificate(0, 0, None, None)
  const NO_SYNCED_VALUE := PSyncedValue([], None)
  const NO_VALUE_RESPONSE := PValueResponse(0, None)

  // ---------------------------------------------------------------------------------------------
  // Writing

  /** Numbers and byte strings that have their default value are omitted. */
  function Number(tag: nat, n: u64): seq<Field> {
    if n == 0 then [] else [Varint(tag, n)]
  }

  function String(tag: nat, b: Bytes): seq<Field> {
    if b == [] then [] else [Len(tag, b)]
  }

  /** Submessages are written whenever they are present, even empty. */
  function Sub(tag: nat, fields: seq<Field>): seq<Field> {
    [Len(tag, EncodeFields(fields))]
  }

  /** The elements of a repeated field are written one after the other. */
  function Repeated<T>(tag: nat, write: T -> seq<Field>, items: seq<T>): seq<Field>
    decreases items
  {
    if items == [] then [] else Sub(tag, write(items[0])) + Repeated(tag, write, items[1..])
  }

  function FromBool(b: bool): u64 {
    if b then 1 else 0
  }

  function AddressFields(m: PAddress): seq<Field> {
    String(1, m.value)
  }

  function OptionalAddress(tag: nat, m: Option<PAddress>): seq<Field> {
    if m.Some? then Sub(tag, AddressFields(m.value)) else []
  }

  function ValueFields(m: PValue): seq<Field> {
    Number(1, m.value) + String(2, m.extensions)
  }

  function OptionalValue(tag: nat, m: Option<PValue>): seq<Field> {
    if m.Some? then Sub(tag, ValueFields(m.value)) else []
  }

  function ValueIdFields(m: PValueId): seq<Field> {
    Number(1, m.value)
  }

  function OptionalValueId(tag: nat, m: Option<PValueId>): seq<Field> {
    if m.Some? then Sub(tag, ValueIdFields(m.value)) else []
  }

  function SignatureFields(m: PSignature): seq<Field> {
    String(1, m.bytes)
  }

  function OptionalSignature(tag: nat, m: Option<PSignature>): seq<Field> {
    if m.Some? then Sub(tag, SignatureFields(m.value)) else []
  }

  function InitFields(m: PProposalInit): seq<Field> {
    Number(1, m.height) + Number(2, m.round) + OptionalAddress(4, m.proposer)
  }

  function DataFields(m: PProposalData): seq<Field> {
    String(1, m.bytes)
  }

  function FinFields(m: PProposalFin): seq<Field> {
    OptionalSignature(1, m.signature)
  }

  function PartFields(m: PProposalPart): seq<Field> {
    match m.part
    case None => []
    case Some(PInit(init)) => Sub(1, InitFields(init))
    case Some(PData(data)) => Sub(2, DataFields(data))
    case Some(PFin(fin)) => Sub(3, FinFields(fin))
  }

  /** The members of a oneof are written even with a default value. */
  function ContentFields(content: Option<PContent>): seq<Field> {
    match content
    case None => []
    case Some(PSerialized(data)) => [Len(3, data)]
    case Some(PEnd(fin)) => [Varint(4, FromBool(fin))]
  }

  function StreamMessageFields(m: PStreamMessage): seq<Field> {
    String(1, m.streamId) + Number(2, m.sequence) + ContentFields(m.content)
  }

  /** An explicitly optional number is written even when it is 0. */
  function OptionalNumber(tag: nat, n: Option<u32>): seq<Field> {
    if n.Some? then [Varint(tag, n.value)] else []
  }

  function ProposedValueHeadFields(m: PProposedValue): seq<Field> {
    Number(1, m.height) + Number(2, m.round) + OptionalNumber(3, m.validRound) + OptionalAddress(4, m.proposer)
  }

  function ProposedValueFields(m: PProposedValue): seq<Field> {
    ProposedValueHeadFields(m) + OptionalValue(5, m.value) + Number(6, FromBool(m.validity))
  }

  function CommitSignatureFields(m: PCommitSignature): seq<Field> {
    OptionalAddress(1, m.validatorAddress) + OptionalSignature(2, m.signature)
  }

  function AggregateFields(m: PAggregatedSignature): seq<Field> {
    Repeated(1, CommitSignatureFields, m.signatures)
  }

  function OptionalAggregate(tag: nat, m: Option<PAggregatedSignature>): seq<Field> {
    if m.Some? then Sub(tag, AggregateFields(m.value)) else []
  }

  function CertificateFields(m: PCommitCertificate): seq<Field> {
    Number(1, m.height) + Number(2, m.round) + OptionalValueId(3, m.valueId) + OptionalAggregate(4, m.aggregatedSignature)
  }

  function OptionalCertificate(tag: nat, m: Option<PCommitCertificate>): seq<Field> {
    if m.Some? then Sub(tag, CertificateFields(m.value)) else []
  }

  function SyncedValueFields(m: PSyncedValue): seq<Field> {
    String(1, m.valueBytes) + OptionalCertificate(2, m.certificate)
  }

  function OptionalSyncedValue(tag: nat, m: Option<PSyncedValue>): seq<Field> {
    if m.Some? then Sub(tag, SyncedValueFields(m.value)) else []
  }

  function ValueResponseFields(m: PValueResponse): seq<Field> {
    Number(1, m.height) + OptionalSyncedValue(2, m.value)
  }

  // ---------------------------------------------------------------------------------------------
  // Reading. A record of a known field with another wire type is an error; unknown fields are skipped.

  function OrDefault<M>(m: Option<M>, default: M): M {
    if m.Some? then m.value else default
  }

  function MergeAddress(m: PAddress, f: Field): Option<PAddress> {
    if f.tag == 1 then if f.Len? then Some(PAddress(f.bytes)) else None
    else Some(m)
  }

  function MergeValue(m: PValue, f: Field): Option<PValue> {
    if f.tag == 1 then if f.Varint? then Some(m.(value := f.number)) else None
    else if f.tag == 2 then if f.Len? then Some(m.(extensions := f.bytes)) else None
    else Some(m)
  }

  function MergeValueId(m: PValueId, f: Field): Option<PValueId> {
    if f.tag == 1 then if f.Varint? then Some(PValueId(f.number)) else None
    else Some(m)
  }

  function MergeSignature(m: PSignature, f: Field): Option<PSignature> {
    if f.tag == 1 then if f.Len? then Some(PSignature(f.bytes)) else None
    else Some(m)
  }

  function MergeInit(m: PProposalInit, f: Field): Option<PProposalInit> {
    if f.tag == 1 then if f.Varint? then Some(m.(height := f.number)) else None
    else if f.tag == 2 then if f.Varint? then Some(m.(round := f.number % 0x1_0000_0000)) else None
    else if f.tag == 4 then
      if !f.Len? then None
      else
        var sub := MergeBytes(MergeAddress, OrDefault(m.proposer, NO_ADDRESS), f.bytes);
        if sub.Some? then Some(m.(proposer := sub)) else None
    else Some(m)
  }

  function MergeData(m: PProposalData, f: Field): Option<PProposalData> {
    if f.tag == 1 then if f.Len? then Some(PProposalData(f.bytes)) else None
    else Some(m)
  }

  function MergeFin(m: PProposalFin, f: Field): Option<PProposalFin> {
    if f.tag == 1 then
      if !f.Len? then None
      else
        var sub := MergeBytes(MergeSignature, OrDefault(m.signature, NO_SIGNATURE), f.bytes);
        if sub.Some? then Some(PProposalFin(sub)) else None
    else Some(m)
  }

  /** A oneof takes the last member; the same member again is merged into the one that is there. */
  function MergePart(m: PProposalPart, f: Field): Option<PProposalPart> {
    if f.tag == 1 then
      if !f.Len? then None
      else
        var start := if m.part.Some? && m.part.value.PInit? then m.part.value.init else NO_INIT;
        var sub := MergeBytes(MergeInit, start, f.bytes);
        if sub.Some? then Some(PProposalPart(Some(PInit(sub.value)))) else None
    else if f.tag == 2 then
      if !f.Len? then None
      else
        var start := if m.part.Some? && m.part.value.PData? then m.part.value.data else NO_DATA;
        var sub := MergeBytes(MergeData, start, f.bytes);
        if sub.Some? then Some(PProposalPart(Some(PData(sub.value)))) else None
    else if f.tag == 3 then
      if !f.Len? then None
      else
        var start := if m.part.Some? && m.part.value.PFin? then m.part.value.fin else NO_FIN;
        var sub := MergeBytes(MergeFin, start, f.bytes);
        if sub.Some? then Some(PProposalPart(Some(PFin(sub.value)))) else None
    else Some(m)
  }

  function MergeStreamMessage(m: PStreamMessage, f: Field): Option<PStreamMessage> {
    if f.tag == 1 then if f.Len? then Some(m.(streamId := f.bytes)) else None
    else if f.tag == 2 then if f.Varint? then Some(m.(sequence := f.number)) else None
    else if f.tag == 3 then if f.Len? then Some(m.(content := Some(PSerialized(f.bytes)))) else None
    else if f.tag == 4 then if f.Varint? then Some(m.(content := Some(PEnd(f.number != 0)))) else None
    else Some(m)
  }

  function MergeProposedValue(m: PProposedValue, f: Field): Option<PProposedValue> {
    if f.tag == 1 then if f.Varint? then Some(m.(height := f.number)) else None
    else if f.tag == 2 then if f.Varint? then Some(m.(round := f.number % 0x1_0000_0000)) else None
    else if f.tag == 3 then if f.Varint? then Some(m.(validRound := Some(f.number % 0x1_0000_0000))) else None
    else if f.tag == 4 then
      if !f.Len? then None
      else
        var sub := MergeBytes(MergeAddress, OrDefault(m.proposer, NO_ADDRESS), f.bytes);
        if sub.Some? then Some(m.(proposer := sub)) else None
    else if f.tag == 5 then
      if !f.Len? then None
      else
        var sub := MergeBytes(MergeValue, OrDefault(m.value, NO_VALUE), f.bytes);
        if sub.Some? then Some(m.(value := sub)) else None
    else if f.tag == 6 then if f.Varint? then Some(m.(validity := f.number != 0)) else None
    else Some(m)
  }

  function MergeCommitSignature(m: PCommitSignature, f: Field): Option<PCommitSignature> {
    if f.tag == 1 then
      if !f.Len? then None
      else
        var sub := MergeBytes(MergeAddress, OrDefault(m.validatorAddress, NO_ADDRESS), f.bytes);
        if sub.Some? then Some(m.(validatorAddress := sub)) else None
    else if f.tag == 2 then
      if !f.Len? then None
      else
        var sub := MergeBytes(MergeSignature, OrDefault(m.signature, NO_SIGNATURE), f.bytes);
        if sub.Some? then Some(m.(signature := sub)) else None
    else Some(m)
  }

  /** The records of a repeated field are collected in order. */
  function MergeAggregate(m: PAggregatedSignature, f: Field): Option<PAggregatedSignature> {
    if f.tag == 1 then
      if !f.Len? then None
      else
        var sub := MergeBytes(MergeCommitSignature, NO_COMMIT_SIGNATURE, f.bytes);
        if sub.Some? then Some(PAggregatedSignature(m.signatures + [sub.value])) else None
    else Some(m)
  }

  function MergeCertificate(m: PCommitCertificate, f: Field): Option<PCommitCertificate> {
    if f.tag == 1 then if f.Varint? then Some(m.(height := f.number)) else None
    else if f.tag == 2 then if f.Varint? then Some(m.(round := f.number % 0x1_0000_0000)) else None
    else if f.tag == 3 then
      if !f.Len? then None
      else
        var sub := MergeBytes(MergeValueId, OrDefault(m.valueId, NO_VALUE_ID), f.bytes);
        if sub.Some? then Some(m.(valueId := sub)) else None
    else if f.tag == 4 then
      if !f.Len? then None
      else
        var sub := MergeBytes(MergeAggregate, OrDefault(m.aggregatedSignature, NO_AGGREGATE), f.bytes);
        if sub.Some? then Some(m.(aggregatedSignature := sub)) else None
    else Some(m)
  }

  function MergeSyncedValue(m: PSyncedValue, f: Field): Option<PSyncedValue> {
    if f.tag == 1 then if f.Len? then Some(m.(valueBytes := f.bytes)) else None
    else if f.tag == 2 then
      if !f.Len? then None
      else
        var sub := MergeBytes(MergeCertificate, OrDefault(m.certificate, NO_CERTIFICATE), f.bytes);
        if sub.Some? then Some(m.(certificate := sub)) else None
    else Some(m)
  }

  function MergeValueResponse(m: PValueResponse, f: Field): Option<PValueResponse> {
    if f.tag == 1 then if f.Varint? then Some(m.(height := f.number)) else None
    else if f.tag == 2 then
      if !f.Len? then None
      else
        var sub := MergeBytes(MergeSyncedValue, OrDefault(m.value, NO_SYNCED_VALUE), f.bytes);
        if sub.Some? then Some(m.(value := sub)) else None
    else Some(m)
  }

  // ---------------------------------------------------------------------------------------------
  // Reading what was written

  /** Merging a chunk of at most one record turns `m` into `m'`. */
  ghost predicate Steps<M>(merge: (M, Field) -> Option<M>, m: M, chunk: seq<Field>, m': M) {
    || (chunk == [] && m' == m)
    || (|chunk| == 1 && merge(m, chunk[0]) == Some(m'))
  }

  lemma OneStep<M>(merge: (M, Field) -> Option<M>, m: M, chunk: seq<Field>, m': M)
    requires Steps(merge, m, chunk, m')
    ensures Merge(merge, m, chunk) == Some(m')
  {
    if |chunk| == 1 {
      assert chunk[1..] == [];
    }
  }

  lemma TwoSteps<M>(merge: (M, Field) -> Option<M>, m: M, a: seq<Field>, m1: M, b: seq<Field>, m2: M)
    requires Merge(merge, m, a) == Some(m1) && Steps(merge, m1, b, m2)
    ensures Merge(merge, m, a + b) == Some(m2)
  {
    MergeAppend(merge, m, a, b);
    OneStep(merge, m1, b, m2);
  }

  lemma StepThen<M>(merge: (M, Field) -> Option<M>, m: M, a: seq<Field>, m1: M, b: seq<Field>, m2: M)
    requires Steps(merge, m, a, m1) && Merge(merge, m1, b) == Some(m2)
    ensures Merge(merge, m, a + b) == Some(m2)
  {
    OneStep(merge, m, a, m1);
    MergeAppend(merge, m, a, b);
  }

  lemma ThreeSteps<M>(merge: (M, Field) -> Option<M>, m: M, a: seq<Field>, m1: M, b: seq<Field>, m2: M,
                      c: seq<Field>, m3: M)
    requires Steps(merge, m, a, m1) && Steps(merge, m1, b, m2) && Steps(merge, m2, c, m3)
    ensures Merge(merge, m, a + b + c) == Some(m3)
  {
    OneStep(merge, m, a, m1);
    TwoSteps(merge, m, a, m1, b, m2);
    TwoSteps(merge, m, a + b, m2, c, m3);
  }

  lemma PlainFour(a: seq<Field>, b: seq<Field>, c: seq<Field>, d: seq<Field>)
    requires Plain(a) && Plain(b) && Plain(c) && Plain(d)
    ensures Plain(a + b + c + d)
  {
    PlainAppend(a, b);
    PlainAppend(a + b, c);
    PlainAppend(a + b + c, d);
  }

  /** What fits as a whole fits in its parts. */
  lemma FitsSplit(a: seq<Field>, b: seq<Field>)
    requires Fits(a + b)
    ensures Fits(a) && Fits(b)
  {
    EncodeAppend(a, b);
  }

  lemma SubFits(tag: nat, fields: seq<Field>)
    requires Fits(Sub(tag, fields))
    ensures Fits(fields)
  {
    PayloadFits(Sub(tag, fields), 0);
  }

  lemma AddressRoundTrip(m: PAddress)
    requires Fits(AddressFields(m))
    ensures MergeBytes(MergeAddress, NO_ADDRESS, EncodeFields(AddressFields(m))) == Some(m)
  {
    OneStep(MergeAddress, NO_ADDRESS, AddressFields(m), m);
    MessageRoundTrip(MergeAddress, NO_ADDRESS, AddressFields(m), m);
  }

  lemma ValueRoundTrip(m: PValue)
    requires Fits(ValueFields(m))
    ensures MergeBytes(MergeValue, NO_VALUE, EncodeFields(ValueFields(m))) == Some(m)
  {
    OneStep(MergeValue, NO_VALUE, Number(1, m.value), PValue(m.value, []));
    TwoSteps(MergeValue, NO_VALUE, Number(1, m.value), PValue(m.value, []), String(2, m.extensions), m);
    MessageRoundTrip(MergeValue, NO_VALUE, ValueFields(m), m);
  }

  lemma ValueIdRoundTrip(m: PValueId)
    requires Fits(ValueIdFields(m))
    ensures MergeBytes(MergeValueId, NO_VALUE_ID, EncodeFields(ValueIdFields(m))) == Some(m)
  {
    OneStep(MergeValueId, NO_VALUE_ID, ValueIdFields(m), m);
    MessageRoundTrip(MergeValueId, NO_VALUE_ID, ValueIdFields(m), m);
  }

  lemma SignatureRoundTrip(m: PSignature)
    requires Fits(SignatureFields(m))
    ensures MergeBytes(MergeSignature, NO_SIGNATURE, EncodeFields(SignatureFields(m))) == Some(m)
  {
    OneStep(MergeSignature, NO_SIGNATURE, SignatureFields(m), m);
    MessageRoundTrip(MergeSignature, NO_SIGNATURE, SignatureFields(m), m);
  }

  /** A submessage, when there is one, is read back from its record. */
  lemma AddressSub(tag: nat, m: Option<PAddress>)
    requires Fits(OptionalAddress(tag, m))
    ensures m.Some? ==> MergeBytes(MergeAddress, NO_ADDRESS, OptionalAddress(tag, m)[0].bytes) == m
  {
    if m.Some? {
      SubFits(tag, AddressFields(m.value));
      AddressRoundTrip(m.value);
    }
  }

  lemma SignatureSub(tag: nat, m: Option<PSignature>)
    requires Fits(OptionalSignature(tag, m))
    ensures m.Some? ==> MergeBytes(MergeSignature, NO_SIGNATURE, OptionalSignature(tag, m)[0].bytes) == m
  {
    if m.Some? {
      SubFits(tag, SignatureFields(m.value));
      SignatureRoundTrip(m.value);
    }
  }

  lemma InitMerges(m: PProposalInit)
    requires Fits(OptionalAddress(4, m.proposer))
    ensures Merge(MergeInit, NO_INIT, InitFields(m)) == Some(m)
  {
    var m1, m2 := PProposalInit(m.height, 0, None), PProposalInit(m.height, m.round, None);
    AddressSub(4, m.proposer);
    ThreeSteps(MergeInit, NO_INIT, Number(1, m.height), m1, Number(2, m.round), m2, OptionalAddress(4, m.proposer), m);
  }

  lemma InitRoundTrip(m: PProposalInit)
    requires Fits(InitFields(m))
    ensures MergeBytes(MergeInit, NO_INIT, EncodeFields(InitFields(m))) == Some(m)
  {
    FitsSplit(Number(1, m.height) + Number(2, m.round), OptionalAddress(4, m.proposer));
    InitMerges(m);
    PlainAppend(Number(1, m.height), Number(2, m.round));
    PlainAppend(Number(1, m.height) + Number(2, m.round), OptionalAddress(4, m.proposer));
    MessageRoundTrip(MergeInit, NO_INIT, InitFields(m), m);
  }

  lemma DataRoundTrip(m: PProposalData)
    requires Fits(DataFields(m))
    ensures MergeBytes(MergeData, NO_DATA, EncodeFields(DataFields(m))) == Some(m)
  {
    OneStep(MergeData, NO_DATA, DataFields(m), m);
    MessageRoundTrip(MergeData, NO_DATA, DataFields(m), m);
  }

  lemma FinRoundTrip(m: PProposalFin)
    requires Fits(FinFields(m))
    ensures MergeBytes(MergeFin, NO_FIN, EncodeFields(FinFields(m))) == Some(m)
  {
    SignatureSub(1, m.signature);
    OneStep(MergeFin, NO_FIN, FinFields(m), m);
    MessageRoundTrip(MergeFin, NO_FIN, FinFields(m), m);
  }

  lemma PartRoundTrip(m: PProposalPart)
    requires Fits(PartFields(m))
    ensures MergeBytes(MergePart, NO_PART, EncodeFields(PartFields(m))) == Some(m)
  {
    match m.part {
      case None =>
      case Some(PInit(init)) =>
        SubFits(1, InitFields(init));
        InitRoundTrip(init);
      case Some(PData(data)) =>
        SubFits(2, DataFields(data));
        DataRoundTrip(data);
      case Some(PFin(fin)) =>
        SubFits(3, FinFields(fin));
        FinRoundTrip(fin);
    }
    OneStep(MergePart, NO_PART, PartFields(m), m);
    MessageRoundTrip(MergePart, NO_PART, PartFields(m), m);
  }

  lemma StreamMessageMerges(m: PStreamMessage)
    ensures Merge(MergeStreamMessage, NO_STREAM_MESSAGE, StreamMessageFields(m)) == Some(m)
  {
    var f1, f2, f3 := String(1, m.streamId), Number(2, m.sequence), ContentFields(m.content);
    var m1, m2 := PStreamMessage(m.streamId, 0, None), PStreamMessage(m.streamId, m.sequence, None);
    ThreeSteps(MergeStreamMessage, NO_STREAM_MESSAGE, f1, m1, f2, m2, f3, m);
  }

  lemma StreamMessageRoundTrip(m: PStreamMessage)
    requires Fits(StreamMessageFields(m))
    ensures MergeBytes(MergeStreamMessage, NO_STREAM_MESSAGE, EncodeFields(StreamMessageFields(m))) == Some(m)
  {
    StreamMessageMerges(m);
    PlainAppend(String(1, m.streamId), Number(2, m.sequence));
    PlainAppend(String(1, m.streamId) + Number(2, m.sequence), ContentFields(m.content));
    MessageRoundTrip(MergeStreamMessage, NO_STREAM_MESSAGE, StreamMessageFields(m), m);
  }

  lemma ValueSub(tag: nat, m: Option<PValue>)
    requires Fits(OptionalValue(tag, m))
    ensures m.Some? ==> MergeBytes(MergeValue, NO_VALUE, OptionalValue(tag, m)[0].bytes) == m
  {
    if m.Some? {
      SubFits(tag, ValueFields(m.value));
      ValueRoundTrip(m.value);
    }
  }

  lemma ProposerStep(m: PProposedValue, proposer: Option<PAddress>)
    requires Fits(OptionalAddress(4, proposer)) && m.proposer.None?
    ensures Steps(MergeProposedValue, m, OptionalAddress(4, proposer), m.(proposer := proposer))
  {
    AddressSub(4, proposer);
  }

  lemma ProposedValueNumbers(m: PProposedValue)
    ensures Merge(MergeProposedValue, NO_PROPOSED_VALUE,
                  Number(1, m.height) + Number(2, m.round) + OptionalNumber(3, m.validRound))
         == Some(PProposedValue(m.height, m.round, m.validRound, None, None, false))
  {
    var m1 := NO_PROPOSED_VALUE.(height := m.height);
    var m2 := m1.(round := m.round);
    ThreeSteps(MergeProposedValue, NO_PROPOSED_VALUE, Number(1, m.height), m1, Number(2, m.round), m2,
               OptionalNumber(3, m.validRound), m2.(validRound := m.validRound));
  }

  lemma ProposedValueHead(m: PProposedValue)
    requires Fits(ProposedValueHeadFields(m))
    ensures Merge(MergeProposedValue, NO_PROPOSED_VALUE, ProposedValueHeadFields(m))
         == Some(m.(value := None, validity := false))
  {
    var numbers := Number(1, m.height) + Number(2, m.round) + OptionalNumber(3, m.validRound);
    var m3 := PProposedValue(m.height, m.round, m.validRound, None, None, false);
    FitsSplit(numbers, OptionalAddress(4, m.proposer));
    ProposedValueNumbers(m);
    ProposerStep(m3, m.proposer);
    TwoSteps(MergeProposedValue, NO_PROPOSED_VALUE, numbers, m3, OptionalAddress(4, m.proposer), m3.(proposer := m.proposer));
  }

  lemma ProposedValuePlain(m: PProposedValue)
    ensures Plain(ProposedValueFields(m))
  {
    PlainFour(Number(1, m.height), Number(2, m.round), OptionalNumber(3, m.validRound), OptionalAddress(4, m.proposer));
    PlainAppend(ProposedValueHeadFields(m), OptionalValue(5, m.value));
    PlainAppend(ProposedValueHeadFields(m) + OptionalValue(5, m.value), Number(6, FromBool(m.validity)));
  }

  lemma ProposedValueRoundTrip(m: PProposedValue)
    requires Fits(ProposedValueFields(m))
    ensures MergeBytes(MergeProposedValue, NO_PROPOSED_VALUE, EncodeFields(ProposedValueFields(m))) == Some(m)
  {
    var head, f5, f6 := ProposedValueHeadFields(m), OptionalValue(5, m.value), Number(6, FromBool(m.validity));
    var m4, m5 := m.(value := None, validity := false), m.(validity := false);
    FitsSplit(head + f5, f6);
    FitsSplit(head, f5);
    ProposedValueHead(m);
    ValueSub(5, m.value);
    ProposedValuePlain(m);
    TwoSteps(MergeProposedValue, NO_PROPOSED_VALUE, head, m4, f5, m5);
    TwoSteps(MergeProposedValue, NO_PROPOSED_VALUE, head + f5, m5, f6, m);
    MessageRoundTrip(MergeProposedValue, NO_PROPOSED_VALUE, ProposedValueFields(m), m);
  }

  lemma CommitSignatureRoundTrip(m: PCommitSignature)
    requires Fits(CommitSignatureFields(m))
    ensures MergeBytes(MergeCommitSignature, NO_COMMIT_SIGNATURE, EncodeFields(CommitSignatureFields(m))) == Some(m)
  {
    var start, f1, f2 := NO_COMMIT_SIGNATURE, OptionalAddress(1, m.validatorAddress), OptionalSignature(2, m.signature);
    FitsSplit(f1, f2);
    AddressSub(1, m.validatorAddress);
    SignatureSub(2, m.signature);
    OneStep(MergeCommitSignature, start, f1, m.(signature := None));
    TwoSteps(MergeCommitSignature, start, f1, m.(signature := None), f2, m);
    MessageRoundTrip(MergeCommitSignature, start, CommitSignatureFields(m), m);
  }

  lemma {:induction false} RepeatedPlain<T>(tag: nat, write: T -> seq<Field>, items: seq<T>)
    requires 1 <= tag < 16
    ensures Plain(Repeated(tag, write, items))
    decreases items
  {
    if items != [] {
      RepeatedPlain(tag, write, items[1..]);
    }
  }

  lemma MoveFirst<T>(done: seq<T>, rest: seq<T>)
    requires rest != []
    ensures done + rest == (done + [rest[0]]) + rest[1..]
  {
  }

  /** Merging the record of one more element adds it to the end of the list. */
  ghost predicate Collects<M(!new), T(!new)>(merge: (M, Field) -> Option<M>, build: seq<T> -> M, tag: nat,
                                             write: T -> seq<Field>)
  {
    forall done: seq<T>, next: T :: Fits(Sub(tag, write(next))) ==>
      Steps(merge, build(done), Sub(tag, write(next)), build(done + [next]))
  }

  /** So the records of a repeated field give back its elements, all of them and in order. */
  lemma {:induction false} RepeatedMerges<M(!new), T(!new)>(merge: (M, Field) -> Option<M>, build: seq<T> -> M, tag: nat,
                                                            write: T -> seq<Field>, done: seq<T>, rest: seq<T>)
    requires Collects(merge, build, tag, write)
    requires Fits(Repeated(tag, write, rest))
    ensures Merge(merge, build(done), Repeated(tag, write, rest)) == Some(build(done + rest))
    decreases rest
  {
    if rest == [] {
      assert done + rest == done;
    } else {
      var f, fs := Sub(tag, write(rest[0])), Repeated(tag, write, rest[1..]);
      FitsSplit(f, fs);
      RepeatedMerges(merge, build, tag, write, done + [rest[0]], rest[1..]);
      MoveFirst(done, rest);
      assert Steps(merge, build(done), f, build(done + [rest[0]]));
      StepThen(merge, build(done), f, build(done + [rest[0]]), fs, build(done + rest));
    }
  }

  lemma AggregateCollects()
    ensures Collects(MergeAggregate, (s: seq<PCommitSignature>) => PAggregatedSignature(s), 1, CommitSignatureFields)
  {
    forall done: seq<PCommitSignature>, next: PCommitSignature | Fits(Sub(1, CommitSignatureFields(next)))
      ensures Steps(MergeAggregate, PAggregatedSignature(done), Sub(1, CommitSignatureFields(next)),
                    PAggregatedSignature(done + [next]))
    {
      SubFits(1, CommitSignatureFields(next));
      CommitSignatureRoundTrip(next);
    }
  }

  lemma AggregateSub(tag: nat, m: Option<PAggregatedSignature>)
    requires Fits(OptionalAggregate(tag, m))
    ensures m.Some? ==> MergeBytes(MergeAggregate, NO_AGGREGATE, OptionalAggregate(tag, m)[0].bytes) == m
  {
    if m.Some? {
      SubFits(tag, AggregateFields(m.value));
      RepeatedPlain(1, CommitSignatureFields, m.value.signatures);
      AggregateCollects();
      RepeatedMerges(MergeAggregate, (s: seq<PCommitSignature>) => PAggregatedSignature(s), 1, CommitSignatureFields,
                     [], m.value.signatures);
      assert [] + m.value.signatures == m.value.signatures;
      MessageRoundTrip(MergeAggregate, NO_AGGREGATE, AggregateFields(m.value), m.value);
    }
  }

  lemma ValueIdSub(tag: nat, m: Option<PValueId>)
    requires Fits(OptionalValueId(tag, m))
    ensures m.Some? ==> MergeBytes(MergeValueId, NO_VALUE_ID, OptionalValueId(tag, m)[0].bytes) == m
  {
    if m.Some? {
      SubFits(tag, ValueIdFields(m.value));
      ValueIdRoundTrip(m.value);
    }
  }

  lemma CertificateNumbers(m: PCommitCertificate)
    ensures Merge(MergeCertificate, NO_CERTIFICATE, Number(1, m.height) + Number(2, m.round))
         == Some(PCommitCertificate(m.height, m.round, None, None))
  {
    var m1, m2 := PCommitCertificate(m.height, 0, None, None), PCommitCertificate(m.height, m.round, None, None);
    OneStep(MergeCertificate, NO_CERTIFICATE, Number(1, m.height), m1);
    TwoSteps(MergeCertificate, NO_CERTIFICATE, Number(1, m.height), m1, Number(2, m.round), m2);
  }

  lemma ValueIdStep(m: PCommitCertificate, valueId: Option<PValueId>)
    requires Fits(OptionalValueId(3, valueId)) && m.valueId.None?
    ensures Steps(MergeCertificate, m, OptionalValueId(3, valueId), m.(valueId := valueId))
  {
    ValueIdSub(3, valueId);
  }

  lemma SignaturesStep(m: PCommitCertificate, signatures: Option<PAggregatedSignature>)
    requires Fits(OptionalAggregate(4, signatures)) && m.aggregatedSignature.None?
    ensures Steps(MergeCertificate, m, OptionalAggregate(4, signatures), m.(aggregatedSignature := signatures))
  {
    AggregateSub(4, signatures);
  }

  lemma CertificateMerges(m: PCommitCertificate)
    requires Fits(OptionalValueId(3, m.valueId)) && Fits(OptionalAggregate(4, m.aggregatedSignature))
    ensures Merge(MergeCertificate, NO_CERTIFICATE, CertificateFields(m)) == Some(m)
  {
    var numbers, m2 := Number(1, m.height) + Number(2, m.round), PCommitCertificate(m.height, m.round, None, None);
    var m3 := m2.(valueId := m.valueId);
    CertificateNumbers(m);
    ValueIdStep(m2, m.valueId);
    SignaturesStep(m3, m.aggregatedSignature);
    TwoSteps(MergeCertificate, NO_CERTIFICATE, numbers, m2, OptionalValueId(3, m.valueId), m3);
    TwoSteps(MergeCertificate, NO_CERTIFICATE, numbers + OptionalValueId(3, m.valueId), m3,
             OptionalAggregate(4, m.aggregatedSignature), m);
  }

  lemma CertificateRoundTrip(m: PCommitCertificate)
    requires Fits(CertificateFields(m))
    ensures MergeBytes(MergeCertificate, NO_CERTIFICATE, EncodeFields(CertificateFields(m))) == Some(m)
  {
    var f1, f2 := Number(1, m.height), Number(2, m.round);
    var f3, f4 := OptionalValueId(3, m.valueId), OptionalAggregate(4, m.aggregatedSignature);
    FitsSplit(f1 + f2 + f3, f4);
    FitsSplit(f1 + f2, f3);
    CertificateMerges(m);
    PlainFour(f1, f2, f3, f4);
    MessageRoundTrip(MergeCertificate, NO_CERTIFICATE, CertificateFields(m), m);
  }

  lemma CertificateSub(tag: nat, m: Option<PCommitCertificate>)
    requires Fits(OptionalCertificate(tag, m))
    ensures m.Some? ==> MergeBytes(MergeCertificate, NO_CERTIFICATE, OptionalCertificate(tag, m)[0].bytes) == m
  {
    if m.Some? {
      SubFits(tag, CertificateFields(m.value));
      CertificateRoundTrip(m.value);
    }
  }

  lemma SyncedValueRoundTrip(m: PSyncedValue)
    requires Fits(SyncedValueFields(m))
    ensures MergeBytes(MergeSyncedValue, NO_SYNCED_VALUE, EncodeFields(SyncedValueFields(m))) == Some(m)
  {
    var f1, f2 := String(1, m.valueBytes), OptionalCertificate(2, m.certificate);
    FitsSplit(f1, f2);
    CertificateSub(2, m.certificate);
    OneStep(MergeSyncedValue, NO_SYNCED_VALUE, f1, m.(certificate := None));
    TwoSteps(MergeSyncedValue, NO_SYNCED_VALUE, f1, m.(certificate := None), f2, m);
    MessageRoundTrip(MergeSyncedValue, NO_SYNCED_VALUE, SyncedValueFields(m), m);
  }

  lemma SyncedValueSub(tag: nat, m: Option<PSyncedValue>)
    requires Fits(OptionalSyncedValue(tag, m))
    ensures m.Some? ==> MergeBytes(MergeSyncedValue, NO_SYNCED_VALUE, OptionalSyncedValue(tag, m)[0].bytes) == m
  {
    if m.Some? {
      SubFits(tag, SyncedValueFields(m.value));
      SyncedValueRoundTrip(m.value);
    }
  }

  lemma ValueResponseRoundTrip(m: PValueResponse)
    requires Fits(ValueResponseFields(m))
    ensures MergeBytes(MergeValueResponse, NO_VALUE_RESPONSE, EncodeFields(ValueResponseFields(m))) == Some(m)
  {
    var f1, f2 := Number(1, m.height), OptionalSyncedValue(2, m.value);
    FitsSplit(f1, f2);
    SyncedValueSub(2, m.value);
    OneStep(MergeValueResponse, NO_VALUE_RESPONSE, f1, m.(value := None));
    TwoSteps(MergeValueResponse, NO_VALUE_RESPONSE, f1, m.(value := None), f2, m);
    MessageRoundTrip(MergeValueResponse, NO_VALUE_RESPONSE, ValueResponseFields(m), m);
  }
}
