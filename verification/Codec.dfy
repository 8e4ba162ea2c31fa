/**
  The codec (types/src/codec/proto/mod.rs, types/src/proposal_part.rs, types/src/vote.rs): conversions between
  the types of the node and the messages of the wire, and what survives the journey.

  Encoders panic on an absent round where the wire has no place for it; decoders answer `None` for every error.
*/
module Codec {
  import opened Bytes
  import opened Types
  import opened Wire
  import opened Protos
  import opened VoteProtos

  // ---------------------------------------------------------------------------------------------
  // The types that only travel

  datatype VoteType = Prevote | Precommit

  datatype SignedExtension = SignedExtension(message: Bytes, signature: Signature)

  datatype Vote = Vote(
    typ: VoteType, height: Height, round: Round, value: Option<u64>, validatorAddress: Address,
    extension: Option<SignedExtension>)

  datatype SignedVote = SignedVote(vote: Vote, signature: Signature)

  datatype Proposal = Proposal(height: Height, round: Round, value: Value, polRound: Round, validatorAddress: Address)

  datatype SignedProposal = SignedProposal(proposal: Proposal, signature: Signature)

  datatype ConsensusMsg = VoteMsg(vote: SignedVote) | ProposalMsg(proposal: SignedProposal)

  datatype RawDecidedValue = RawDecidedValue(valueBytes: Bytes, certificate: CommitCertificate)

  datatype Response =
    | ValueResponse(height: Height, value: Option<RawDecidedValue>)
    | VoteSetResponse(height: Height, round: Round, votes: seq<SignedVote>)

  // ---------------------------------------------------------------------------------------------
  // Conversions

  function ToAddress(m: PAddress): Option<Address> {
    if |m.value| == ADDRESS_LENGTH then Some(m.value) else None
  }

  function ToSignature(m: PSignature): Option<Signature> {
    if |m.bytes| == SIGNATURE_LENGTH then Some(m.bytes) else None
  }

  function RequiredAddress(m: Option<PAddress>): Option<Address> {
    if m.Some? then ToAddress(m.value) else None
  }

  function RequiredSignature(m: Option<PSignature>): Option<Signature> {
    if m.Some? then ToSignature(m.value) else None
  }

  function FromRound(n: Option<u32>): Round {
    if n.Some? then At(n.value) else Nil
  }

  predicate PartHasRound(part: ProposalPart) {
    part.Init? ==> part.init.round.At?
  }

  function FromPart(part: ProposalPart): PProposalPart
    requires PartHasRound(part)
  {
    match part
    case Init(init) => PProposalPart(Some(PInit(PProposalInit(init.height, init.round.number, Some(PAddress(init.proposer))))))
    case Data(bytes) => PProposalPart(Some(PData(PProposalData(bytes))))
    case Fin(signature) => PProposalPart(Some(PFin(PProposalFin(Some(PSignature(signature))))))
  }

  function ToPart(m: PProposalPart): Option<ProposalPart> {
    match m.part
    case None => None
    case Some(PInit(init)) =>
      var proposer := RequiredAddress(init.proposer);
      if proposer.None? then None else Some(Init(ProposalInit(init.height, At(init.round), proposer.value)))
    case Some(PData(data)) => Some(Data(data.bytes))
    case Some(PFin(fin)) =>
      var signature := RequiredSignature(fin.signature);
      if signature.None? then None else Some(Fin(signature.value))
  }

  function FromProposedValue(p: ProposedValue): PProposedValue
    requires p.round.At?
  {
    PProposedValue(p.height, p.round.number, p.validRound.AsU32(), Some(PAddress(p.proposer)),
                   Some(PValue(p.value.value, p.value.extensions)), p.valid)
  }

  function ToProposedValue(m: PProposedValue): Option<ProposedValue> {
    var proposer := RequiredAddress(m.proposer);
    if m.proposer.None? || m.value.None? || proposer.None? then None
    else Some(ProposedValue(m.height, At(m.round), FromRound(m.validRound), proposer.value,
                            Value(m.value.value.value, m.value.value.extensions), m.validity))
  }

  function FromCommitSignature(s: CommitSignature): PCommitSignature {
    PCommitSignature(Some(PAddress(s.address)), Some(PSignature(s.signature)))
  }

  function ToCommitSignature(m: PCommitSignature): Option<CommitSignature> {
    var signature, address := RequiredSignature(m.signature), RequiredAddress(m.validatorAddress);
    if signature.None? || address.None? then None else Some(CommitSignature(address.value, signature.value))
  }

  function FromSignatures(signatures: seq<CommitSignature>): seq<PCommitSignature> {
    seq(|signatures|, i requires 0 <= i < |signatures| => FromCommitSignature(signatures[i]))
  }

  /** `map` and `collect` into a result: the first malformed signature ends it. */
  function ToSignatures(ms: seq<PCommitSignature>): Option<seq<CommitSignature>> {
    if ms == [] then Some([])
    else
      var first := ToCommitSignature(ms[0]);
      if first.None? then None
      else
        var rest := ToSignatures(ms[1..]);
        if rest.None? then None else Some([first.value] + rest.value)
  }

  function FromCertificate(c: CommitCertificate): PCommitCertificate
    requires c.round.At?
  {
    PCommitCertificate(c.height, c.round.number, Some(PValueId(c.valueId)),
                       Some(PAggregatedSignature(FromSignatures(c.signatures))))
  }

  function ToCertificate(m: PCommitCertificate): Option<CommitCertificate> {
    if m.valueId.None? || m.aggregatedSignature.None? then None
    else
      var signatures := ToSignatures(m.aggregatedSignature.value.signatures);
      if signatures.None? then None
      else Some(CommitCertificate(m.height, At(m.round), m.valueId.value.value, signatures.value))
  }

  function FromVote(v: Vote): PVote
    requires v.round.At?
  {
    PVote(if v.typ.Prevote? then 0 else 1, v.height, v.round.number,
          if v.value.Some? then Some(PValueId(v.value.value)) else None, Some(PAddress(v.validatorAddress)))
  }

  /** Unknown vote types read as the first one. */
  function ToVote(m: PVote): Option<Vote> {
    var validator := RequiredAddress(m.validatorAddress);
    if validator.None? then None
    else Some(Vote(if m.voteType == 1 then Precommit else Prevote, m.height, At(m.round),
                   if m.value.Some? then Some(m.value.value.value) else None, validator.value, None))
  }

  function FromSignedVote(v: SignedVote): PSignedMessage
    requires v.vote.round.At?
  {
    PSignedMessage(Some(PVoteMessage(FromVote(v.vote))), Some(PSignature(v.signature)))
  }

  /** `decode_vote`: a proposal, or anything malformed, is not a vote. */
  function ToSignedVote(m: PSignedMessage): Option<SignedVote> {
    if m.signature.None? || m.message.None? || !m.message.value.PVoteMessage? then None
    else
      var signature, vote := ToSignature(m.signature.value), ToVote(m.message.value.vote);
      if signature.None? || vote.None? then None else Some(SignedVote(vote.value, signature.value))
  }

  function FromProposal(p: Proposal): PProposal
    requires p.round.At?
  {
    PProposal(p.height, p.round.number, Some(PValue(p.value.value, p.value.extensions)), p.polRound.AsU32(),
              Some(PAddress(p.validatorAddress)))
  }

  function ToProposal(m: PProposal): Option<Proposal> {
    var validator := RequiredAddress(m.validatorAddress);
    if m.value.None? || validator.None? then None
    else Some(Proposal(m.height, At(m.round), Value(m.value.value.value, m.value.value.extensions),
                       FromRound(m.polRound), validator.value))
  }

  predicate VotesHaveRounds(votes: seq<SignedVote>) {
    forall i :: 0 <= i < |votes| ==> votes[i].vote.round.At?
  }

  function FromVotes(votes: seq<SignedVote>): seq<PSignedMessage>
    requires VotesHaveRounds(votes)
  {
    seq(|votes|, i requires 0 <= i < |votes| => FromSignedVote(votes[i]))
  }

  function AsList<T>(item: Option<T>): seq<T> {
    if item.Some? then [item.value] else []
  }

  /** `decode_vote_set`: `filter_map`. */
  function ToVotes(ms: seq<PSignedMessage>): seq<SignedVote> {
    if ms == [] then [] else AsList(ToSignedVote(ms[0])) + ToVotes(ms[1..])
  }

  // ---------------------------------------------------------------------------------------------
  // Encoders and decoders

  function EncodeValue(v: Value): Bytes {
    EncodeFields(ValueFields(PValue(v.value, v.extensions)))
  }

  function DecodeValue(b: Bytes): Option<Value> {
    var m := MergeBytes(MergeValue, NO_VALUE, b);
    if m.None? then None else Some(Value(m.value.value, m.value.extensions))
  }

  function EncodePart(part: ProposalPart): Bytes
    requires PartHasRound(part)
  {
    EncodeFields(PartFields(FromPart(part)))
  }

  function DecodePart(b: Bytes): Option<ProposalPart> {
    var m := MergeBytes(MergePart, NO_PART, b);
    if m.None? then None else ToPart(m.value)
  }

  predicate HasRound(msg: StreamMessage) {
    msg.content.Part? ==> PartHasRound(msg.content.part)
  }

  /** A part travels as bytes inside the message. */
  function FromStreamMessage(msg: StreamMessage): PStreamMessage
    requires HasRound(msg)
  {
    PStreamMessage(msg.streamId, msg.sequence,
                   Some(if msg.content.Part? then PSerialized(EncodePart(msg.content.part)) else PEnd(true)))
  }

  function ToStreamMessage(m: PStreamMessage): Option<StreamMessage> {
    match m.content
    case None => None
    case Some(PSerialized(data)) =>
      var part := DecodePart(data);
      if part.None? then None else Some(StreamMessage(m.streamId, m.sequence, Part(part.value)))
    case Some(PEnd(_)) => Some(StreamMessage(m.streamId, m.sequence, EndOfStream))
  }

  function EncodeStreamMessage(msg: StreamMessage): Bytes
    requires HasRound(msg)
  {
    EncodeFields(StreamMessageFields(FromStreamMessage(msg)))
  }

  function DecodeStreamMessage(b: Bytes): Option<StreamMessage> {
    var m := MergeBytes(MergeStreamMessage, NO_STREAM_MESSAGE, b);
    if m.None? then None else ToStreamMessage(m.value)
  }

  function EncodeProposedValue(p: ProposedValue): Bytes
    requires p.round.At?
  {
    EncodeFields(ProposedValueFields(FromProposedValue(p)))
  }

  function DecodeProposedValue(b: Bytes): Option<ProposedValue> {
    var m := MergeBytes(MergeProposedValue, NO_PROPOSED_VALUE, b);
    if m.None? then None else ToProposedValue(m.value)
  }

  function EncodeCertificate(c: CommitCertificate): Bytes
    requires c.round.At?
  {
    EncodeFields(CertificateFields(FromCertificate(c)))
  }

  function DecodeCertificate(b: Bytes): Option<CommitCertificate> {
    var m := MergeBytes(MergeCertificate, NO_CERTIFICATE, b);
    if m.None? then None else ToCertificate(m.value)
  }

  predicate MsgHasRound(msg: ConsensusMsg) {
    match msg
    case VoteMsg(v) => v.vote.round.At?
    case ProposalMsg(p) => p.proposal.round.At?
  }

  function FromConsensusMsg(msg: ConsensusMsg): PSignedMessage
    requires MsgHasRound(msg)
  {
    match msg
    case VoteMsg(v) => FromSignedVote(v)
    case ProposalMsg(p) => PSignedMessage(Some(PProposalMessage(FromProposal(p.proposal))), Some(PSignature(p.signature)))
  }

  function ToConsensusMsg(m: PSignedMessage): Option<ConsensusMsg> {
    var signature := RequiredSignature(m.signature);
    if signature.None? then None
    else
      match m.message
      case None => None
      case Some(PProposalMessage(p)) =>
        var proposal := ToProposal(p);
        if proposal.None? then None else Some(ProposalMsg(SignedProposal(proposal.value, signature.value)))
      case Some(PVoteMessage(v)) =>
        var vote := ToVote(v);
        if vote.None? then None else Some(VoteMsg(SignedVote(vote.value, signature.value)))
  }

  function EncodeConsensusMsg(msg: ConsensusMsg): Bytes
    requires MsgHasRound(msg)
  {
    EncodeFields(SignedMessageFields(FromConsensusMsg(msg)))
  }

  function DecodeConsensusMsg(b: Bytes): Option<ConsensusMsg> {
    var m := MergeBytes(MergeSignedMessage, NO_SIGNED_MESSAGE, b);
    if m.None? then None else ToConsensusMsg(m.value)
  }

  predicate ResponseHasRounds(r: Response) {
    match r
    case ValueResponse(height, value) => value.Some? ==> value.value.certificate.round.At?
    case VoteSetResponse(height, round, votes) => round.At? && VotesHaveRounds(votes)
  }

  function FromRawDecided(v: RawDecidedValue): PSyncedValue
    requires v.certificate.round.At?
  {
    PSyncedValue(v.valueBytes, Some(FromCertificate(v.certificate)))
  }

  function ToRawDecided(m: PSyncedValue): Option<RawDecidedValue> {
    if m.certificate.None? then None
    else
      var certificate := ToCertificate(m.certificate.value);
      if certificate.None? then None else Some(RawDecidedValue(m.valueBytes, certificate.value))
  }

  function FromResponse(r: Response): PSyncResponse
    requires ResponseHasRounds(r)
  {
    match r
    case ValueResponse(height, value) =>
      PSyncResponse(Some(PValueAnswer(PValueResponse(height, if value.Some? then Some(FromRawDecided(value.value)) else None))))
    case VoteSetResponse(height, round, votes) =>
      PSyncResponse(Some(PVoteSetAnswer(PVoteSetResponse(height, round.number, Some(PVoteSet(FromVotes(votes)))))))
  }

  function ToResponse(m: PSyncResponse): Option<Response> {
    match m.response
    case None => None
    case Some(PValueAnswer(answer)) =>
      if answer.value.None? then Some(ValueResponse(answer.height, None))
      else
        var value := ToRawDecided(answer.value.value);
        if value.None? then None else Some(ValueResponse(answer.height, value))
    case Some(PVoteSetAnswer(answer)) =>
      if answer.voteSet.None? then None
      else Some(VoteSetResponse(answer.height, At(answer.round), ToVotes(answer.voteSet.value.signedVotes)))
  }

  function EncodeResponse(r: Response): Bytes
    requires ResponseHasRounds(r)
  {
    EncodeFields(SyncResponseFields(FromResponse(r)))
  }

  function DecodeResponse(b: Bytes): Option<Response> {
    var m := MergeBytes(MergeSyncResponse, NO_SYNC_RESPONSE, b);
    if m.None? then None else ToResponse(m.value)
  }

  // ---------------------------------------------------------------------------------------------
  // Round trips. Lengths on the wire are 64-bit numbers.

  predicate Sendable(b: Bytes) {
    |b| < 0x1_0000_0000_0000_0000
  }

  lemma ValueTravels(v: Value)
    requires Sendable(EncodeValue(v))
    ensures DecodeValue(EncodeValue(v)) == Some(v)
  {
    ValueRoundTrip(PValue(v.value, v.extensions));
  }

  lemma PartTravels(part: ProposalPart)
    requires PartHasRound(part) && Sendable(EncodePart(part))
    ensures DecodePart(EncodePart(part)) == Some(part)
  {
    PartRoundTrip(FromPart(part));
  }

  /** A part inside a message is no longer than the message. */
  lemma PartIsSendable(msg: StreamMessage)
    requires HasRound(msg) && msg.content.Part? && Sendable(EncodeStreamMessage(msg))
    ensures Sendable(EncodePart(msg.content.part))
  {
    var m := FromStreamMessage(msg);
    var head := String(1, m.streamId) + Number(2, m.sequence);
    FitsSplit(head, ContentFields(m.content));
    PayloadFits(ContentFields(m.content), 0);
  }

  /** Every stream message, whatever part it carries or none, is what its receiver decodes. */
  lemma StreamMessageTravels(msg: StreamMessage)
    requires HasRound(msg) && Sendable(EncodeStreamMessage(msg))
    ensures DecodeStreamMessage(EncodeStreamMessage(msg)) == Some(msg)
  {
    StreamMessageRoundTrip(FromStreamMessage(msg));
    if msg.content.Part? {
      PartIsSendable(msg);
      PartTravels(msg.content.part);
    }
  }

  /** Whatever bytes a message was decoded from, it has its round and can be sent on. */
  lemma DecodedTravelsOn(b: Bytes)
    requires DecodeStreamMessage(b).Some?
    ensures var msg := DecodeStreamMessage(b).value;
            && HasRound(msg)
            && (Sendable(EncodeStreamMessage(msg)) ==> DecodeStreamMessage(EncodeStreamMessage(msg)) == Some(msg))
  {
    var msg := DecodeStreamMessage(b).value;
    if Sendable(EncodeStreamMessage(msg)) {
      StreamMessageTravels(msg);
    }
  }

  /** The end of a stream on the wire: a default sequence number is omitted, the member of the oneof is not. */
  lemma EndOnTheWire()
    ensures EncodeStreamMessage(StreamMessage([7], 0, EndOfStream)) == [0x0A, 1, 7, 0x20, 1]
  {
    var msg := FromStreamMessage(StreamMessage([7], 0, EndOfStream));
    var fields := [Len(1, [7]), Varint(4, 1)];
    assert StreamMessageFields(msg) == fields;
    assert fields[1..] == [Varint(4, 1)] && fields[1..][1..] == [];
    assert EncodeField(fields[0]) == [0x0A, 1, 7] && EncodeField(fields[1]) == [0x20, 1];
    assert EncodeFields(fields[1..]) == [0x20, 1] + EncodeFields([]);
  }

  /** A chunk of a block on the wire: one message inside a field of another. */
  lemma ChunkOnTheWire()
    ensures EncodePart(Data([5, 6])) == [0x12, 4, 0x0A, 2, 5, 6]
  {
    var data := DataFields(PProposalData([5, 6]));
    assert data == [Len(1, [5, 6])] && data[1..] == [];
    assert EncodeFields(data) == EncodeField(Len(1, [5, 6])) + [] == [0x0A, 2, 5, 6];
    var part := PartFields(FromPart(Data([5, 6])));
    assert part == [Len(2, [0x0A, 2, 5, 6])] && part[1..] == [];
    assert EncodeFields(part) == EncodeField(part[0]) + [] == [0x12, 4, 0x0A, 2, 5, 6];
  }

  lemma ProposedValueTravels(p: ProposedValue)
    requires p.round.At? && Sendable(EncodeProposedValue(p))
    ensures DecodeProposedValue(EncodeProposedValue(p)) == Some(p)
  {
    ProposedValueRoundTrip(FromProposedValue(p));
  }

  lemma {:induction false} SignaturesConvert(signatures: seq<CommitSignature>)
    ensures ToSignatures(FromSignatures(signatures)) == Some(signatures)
  {
    if signatures != [] {
      assert FromSignatures(signatures)[1..] == FromSignatures(signatures[1..]);
      SignaturesConvert(signatures[1..]);
      assert signatures == [signatures[0]] + signatures[1..];
    }
  }

  lemma CertificateConverts(c: CommitCertificate)
    requires c.round.At?
    ensures ToCertificate(FromCertificate(c)) == Some(c)
  {
    SignaturesConvert(c.signatures);
  }

  lemma CertificateTravels(c: CommitCertificate)
    requires c.round.At? && Sendable(EncodeCertificate(c))
    ensures DecodeCertificate(EncodeCertificate(c)) == Some(c)
  {
    CertificateRoundTrip(FromCertificate(c));
    CertificateConverts(c);
  }

  // ---------------------------------------------------------------------------------------------
  // Lists: signatures all or nothing, votes one by one

  predicate IsAddress(m: Option<PAddress>) {
    m.Some? && |m.value.value| == 20
  }

  predicate IsSignature(m: Option<PSignature>) {
    m.Some? && |m.value.bytes| == 64
  }

  predicate IsVote(m: PVote) {
    IsAddress(m.validatorAddress)
  }

  predicate IsProposal(m: PProposal) {
    m.value.Some? && IsAddress(m.validatorAddress)
  }

  /** A signed vote in a vote set; signed proposals are none. */
  predicate IsSignedVote(m: PSignedMessage) {
    IsSignature(m.signature) && m.message.Some? && m.message.value.PVoteMessage? && IsVote(m.message.value.vote)
  }

  /** A certificate's signatures decode if and only if every one of them is well-formed, each in its place. */
  lemma {:induction false} SignaturesAllOrNothing(ms: seq<PCommitSignature>)
    ensures ToSignatures(ms).Some? <==> forall i :: 0 <= i < |ms| ==> ToCommitSignature(ms[i]).Some?
    ensures ToSignatures(ms).Some? ==>
              && |ToSignatures(ms).value| == |ms|
              && forall i :: 0 <= i < |ms| ==> ToCommitSignature(ms[i]) == Some(ToSignatures(ms).value[i])
  {
    if ms != [] {
      SignaturesAllOrNothing(ms[1..]);
      forall i | 1 <= i < |ms| ensures ms[i] == ms[1..][i - 1] {
      }
      if ToSignatures(ms).Some? {
        forall i | 0 <= i < |ms| ensures ToCommitSignature(ms[i]) == Some(ToSignatures(ms).value[i]) {
          if i > 0 {
            assert ToCommitSignature(ms[1..][i - 1]) == Some(ToSignatures(ms[1..]).value[i - 1]);
          }
        }
      }
    }
  }

  /** The positions of the well-formed votes, in order. */
  function VotePositions(ms: seq<PSignedMessage>): seq<nat> {
    if ms == [] then []
    else VotePositions(ms[..|ms| - 1]) + if ToSignedVote(ms[|ms| - 1]).Some? then [|ms| - 1] else []
  }

  lemma {:induction false} ToVotesAppend(a: seq<PSignedMessage>, b: seq<PSignedMessage>)
    ensures ToVotes(a + b) == ToVotes(a) + ToVotes(b)
  {
    if a == [] {
      assert a + b == b;
    } else {
      assert (a + b)[1..] == a[1..] + b;
      ToVotesAppend(a[1..], b);
      Associate(AsList(ToSignedVote(a[0])), ToVotes(a[1..]), ToVotes(b));
    }
  }

  lemma ToVotesOneMore(front: seq<PSignedMessage>, last: PSignedMessage)
    ensures ToVotes(front + [last]) == ToVotes(front) + AsList(ToSignedVote(last))
  {
    ToVotesAppend(front, [last]);
    assert [last][1..] == [];
    assert ToVotes([last]) == AsList(ToSignedVote(last)) + ToVotes([]);
  }

  /** `votes` are the well-formed ones of `ms`, found at the positions `at`, in order. */
  ghost predicate Filters(ms: seq<PSignedMessage>, at: seq<nat>, votes: seq<SignedVote>) {
    && |votes| == |at|
    && (forall j, k :: 0 <= j < k < |at| ==> at[j] < at[k])
    && (forall j :: 0 <= j < |at| ==> at[j] < |ms| && ToSignedVote(ms[at[j]]) == Some(votes[j]))
    && (forall i :: 0 <= i < |ms| ==> (i in at <==> IsSignedVote(ms[i])))
  }

  lemma FiltersOneMore(front: seq<PSignedMessage>, at: seq<nat>, votes: seq<SignedVote>, last: PSignedMessage)
    requires Filters(front, at, votes)
    ensures Filters(front + [last], at + if ToSignedVote(last).Some? then [|front|] else [],
                    votes + AsList(ToSignedVote(last)))
  {
    var at' := at + if ToSignedVote(last).Some? then [|front|] else [];
    var ms := front + [last];
    forall i | 0 <= i < |ms| ensures i in at' <==> IsSignedVote(ms[i]) {
      if i < |front| {
        assert ms[i] == front[i];
        assert i in at <==> i in at';
      } else {
        assert |front| !in at;
        assert ToSignedVote(last).Some? ==> at'[|at|] == i;
      }
    }
  }

  /** Whatever a vote set holds, exactly its well-formed votes are decoded, in order. */
  lemma {:induction false} VotesAreFiltered(ms: seq<PSignedMessage>)
    ensures Filters(ms, VotePositions(ms), ToVotes(ms))
  {
    if ms != [] {
      var front, last := ms[..|ms| - 1], ms[|ms| - 1];
      VotesAreFiltered(front);
      FiltersOneMore(front, VotePositions(front), ToVotes(front), last);
      ToVotesOneMore(front, last);
      assert ms == front + [last];
    }
  }

  predicate NoExtensions(votes: seq<SignedVote>) {
    forall i :: 0 <= i < |votes| ==> votes[i].vote.extension.None?
  }

  function WithoutExtension(v: SignedVote): SignedVote {
    v.(vote := v.vote.(extension := None))
  }

  lemma {:induction false} VotesConvert(votes: seq<SignedVote>)
    requires VotesHaveRounds(votes)
    ensures ToVotes(FromVotes(votes)) == seq(|votes|, i requires 0 <= i < |votes| => WithoutExtension(votes[i]))
  {
    if votes != [] {
      assert FromVotes(votes)[1..] == FromVotes(votes[1..]);
      VotesConvert(votes[1..]);
      assert ToSignedVote(FromSignedVote(votes[0])) == Some(WithoutExtension(votes[0]));
    }
  }

  // ---------------------------------------------------------------------------------------------
  // What is missing or has the wrong size

  /** The bytes of a part message decode exactly when its proposer has 20 bytes or its signature 64. */
  lemma PartDecodesWhen(m: PProposalPart)
    requires Fits(PartFields(m))
    ensures DecodePart(EncodeFields(PartFields(m))).Some? <==>
              && m.part.Some?
              && (m.part.value.PInit? ==> IsAddress(m.part.value.init.proposer))
              && (m.part.value.PFin? ==> IsSignature(m.part.value.fin.signature))
  {
    PartRoundTrip(m);
  }

  /** The bytes of a proposed value message decode exactly when it has a value and a proposer of 20 bytes. */
  lemma ProposedValueDecodesWhen(m: PProposedValue)
    requires Fits(ProposedValueFields(m))
    ensures var p := DecodeProposedValue(EncodeFields(ProposedValueFields(m)));
            && (p.Some? <==> m.value.Some? && IsAddress(m.proposer))
            && (p.Some? ==> p.value.validRound == if m.validRound.Some? then At(m.validRound.value) else Nil)
  {
    ProposedValueRoundTrip(m);
  }

  /** The bytes of a stream message decode exactly when it ends a stream, whatever the flag says, or has a part in it. */
  lemma StreamMessageDecodesWhen(m: PStreamMessage)
    requires Fits(StreamMessageFields(m))
    ensures var msg := DecodeStreamMessage(EncodeFields(StreamMessageFields(m)));
            && (msg.Some? <==>
                  m.content.Some? && (m.content.value.PSerialized? ==> DecodePart(m.content.value.data).Some?))
            && (msg.Some? ==> (msg.value.content == EndOfStream <==> m.content.value.PEnd?))
  {
    StreamMessageRoundTrip(m);
  }

  /** An answer without a value, with a value that has a complete certificate, or with a vote set. */
  predicate IsResponse(m: PSyncResponse) {
    match m.response
    case None => false
    case Some(PValueAnswer(answer)) =>
      answer.value.Some? ==> answer.value.value.certificate.Some? && IsCertificate(answer.value.value.certificate.value)
    case Some(PVoteSetAnswer(answer)) => answer.voteSet.Some?
  }

  lemma ResponseConvertsWhen(m: PSyncResponse)
    ensures ToResponse(m).Some? <==> IsResponse(m)
  {
    match m.response {
      case Some(PValueAnswer(answer)) =>
        if answer.value.Some? && answer.value.value.certificate.Some? {
          CertificateConvertsWhen(answer.value.value.certificate.value);
        }
      case _ =>
    }
  }

  lemma ResponseDecodesWhen(m: PSyncResponse)
    requires Fits(SyncResponseFields(m))
    ensures DecodeResponse(EncodeFields(SyncResponseFields(m))).Some? <==> IsResponse(m)
  {
    SyncResponseRoundTrip(m);
    ResponseConvertsWhen(m);
  }

  /** A certificate message needs a value id and signatures that are all complete, each with an address. */
  lemma CertificateDecodesWhen(m: PCommitCertificate)
    requires Fits(CertificateFields(m))
    ensures DecodeCertificate(EncodeFields(CertificateFields(m))).Some? <==> IsCertificate(m)
  {
    CertificateRoundTrip(m);
    CertificateConvertsWhen(m);
  }

  predicate IsCertificate(m: PCommitCertificate) {
    && m.valueId.Some? && m.aggregatedSignature.Some?
    && forall s :: s in m.aggregatedSignature.value.signatures ==> IsAddress(s.validatorAddress) && IsSignature(s.signature)
  }

  lemma CertificateConvertsWhen(m: PCommitCertificate)
    ensures ToCertificate(m).Some? <==> IsCertificate(m)
  {
    if m.aggregatedSignature.Some? {
      var ms := m.aggregatedSignature.value.signatures;
      SignaturesAllOrNothing(ms);
      forall i | 0 <= i < |ms|
        ensures ToCommitSignature(ms[i]).Some? <==> IsAddress(ms[i].validatorAddress) && IsSignature(ms[i].signature)
      {
        assert ms[i] in ms;
      }
    }
  }

  /** A signed message needs a complete signature and vote or proposal. A vote is a precommit when its type is 1. */
  lemma SignedMessageDecodesWhen(m: PSignedMessage)
    requires Fits(SignedMessageFields(m))
    ensures var msg := DecodeConsensusMsg(EncodeFields(SignedMessageFields(m)));
            && (msg.Some? <==>
                  && IsSignature(m.signature) && m.message.Some?
                  && match m.message.value
                     case PVoteMessage(vote) => IsVote(vote)
                     case PProposalMessage(proposal) => IsProposal(proposal))
            && (msg.Some? && m.message.value.PVoteMessage? ==>
                  && msg.value.VoteMsg?
                  && (msg.value.vote.vote.typ == Precommit <==> m.message.value.vote.voteType == 1))
  {
    SignedMessageRoundTrip(m);
  }

  // ---------------------------------------------------------------------------------------------
  // Consensus messages and sync responses

  function WithoutExtensionIn(msg: ConsensusMsg): ConsensusMsg {
    match msg
    case VoteMsg(v) => VoteMsg(WithoutExtension(v))
    case ProposalMsg(p) => msg
  }

  lemma ConsensusMsgConverts(msg: ConsensusMsg)
    requires MsgHasRound(msg)
    ensures ToConsensusMsg(FromConsensusMsg(msg)) == Some(WithoutExtensionIn(msg))
  {
  }

  /** A signed proposal travels as it is; a signed vote exactly when it carries no extension. */
  lemma ConsensusMsgTravels(msg: ConsensusMsg)
    requires MsgHasRound(msg) && Sendable(EncodeConsensusMsg(msg))
    ensures DecodeConsensusMsg(EncodeConsensusMsg(msg)) == Some(WithoutExtensionIn(msg))
    ensures (DecodeConsensusMsg(EncodeConsensusMsg(msg)) == Some(msg))
       <==> (msg.VoteMsg? ==> msg.vote.vote.extension.None?)
  {
    SignedMessageRoundTrip(FromConsensusMsg(msg));
    ConsensusMsgConverts(msg);
  }

  lemma ResponseArrives(r: Response)
    requires ResponseHasRounds(r) && Sendable(EncodeResponse(r))
    ensures DecodeResponse(EncodeResponse(r)) == ToResponse(FromResponse(r))
  {
    SyncResponseRoundTrip(FromResponse(r));
  }

  /** A decided value arrives with the same bytes and the same certificate, however many signatures it has. */
  lemma ValueResponseTravels(height: Height, value: Option<RawDecidedValue>)
    requires ResponseHasRounds(ValueResponse(height, value)) && Sendable(EncodeResponse(ValueResponse(height, value)))
    ensures DecodeResponse(EncodeResponse(ValueResponse(height, value))) == Some(ValueResponse(height, value))
  {
    ResponseArrives(ValueResponse(height, value));
    if value.Some? {
      CertificateConverts(value.value.certificate);
    }
  }

  /** A vote set arrives without extensions, so it arrives as it was exactly when it has none. */
  lemma VoteSetTravels(height: Height, round: Round, votes: seq<SignedVote>)
    requires round.At? && VotesHaveRounds(votes)
    requires Sendable(EncodeResponse(VoteSetResponse(height, round, votes)))
    ensures DecodeResponse(EncodeResponse(VoteSetResponse(height, round, votes))) ==
            Some(VoteSetResponse(height, round, seq(|votes|, i requires 0 <= i < |votes| => WithoutExtension(votes[i]))))
    ensures (DecodeResponse(EncodeResponse(VoteSetResponse(height, round, votes)))
             == Some(VoteSetResponse(height, round, votes)))
       <==> NoExtensions(votes)
  {
    ResponseArrives(VoteSetResponse(height, round, votes));
    VotesConvert(votes);
    var bare := seq(|votes|, i requires 0 <= i < |votes| => WithoutExtension(votes[i]));
    if NoExtensions(votes) {
      assert bare == votes;
    } else {
      var i :| 0 <= i < |votes| && votes[i].vote.extension.Some?;
      assert bare[i] != votes[i];
    }
  }
}
