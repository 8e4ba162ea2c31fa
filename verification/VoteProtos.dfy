/** The prost messages that carry votes and sync responses: types/proto/consensus.proto and types/proto/sync.proto. */
module VoteProtos {
  import opened Bytes
  import opened Types
  import opened Wire
  import opened Protos

  /** `voteType` holds the 32 bits of an open enumeration. */
  datatype PVote = PVote(
    voteType: u32, height: u64, round: u32, value: Option<PValueId>, validatorAddress: Option<PAddress>)
  datatype PProposal = PProposal(
    height: u64, round: u32, value: Option<PValue>, polRound: Option<u32>, validatorAddress: Option<PAddress>)
  datatype PConsensusMessage = PProposalMessage(proposal: PProposal) | PVoteMessage(vote: PVote)
  datatype PSignedMessage = PSignedMessage(message: Option<PConsensusMessage>, signature: Option<PSignature>)
  datatype PVoteSet = PVoteSet(signedVotes: seq<PSignedMessage>)
  datatype PVoteSetResponse = PVoteSetResponse(height: u64, round: u32, voteSet: Option<PVoteSet>)
  datatype PResponse = PValueAnswer(value: PValueResponse) | PVoteSetAnswer(votes: PVoteSetResponse)
  datatype PSyncResponse = PSyncResponse(response: Option<PResponse>)

  const NO_VOTE := PVote(0, 0, 0, None, None)
  const NO_PROPOSAL := PProposal(0, 0, None, None, None)
  const NO_SIGNED_MESSAGE := PSignedMessage(None, None)
  const NO_VOTE_SET := PVoteSet([])
  const NO_VOTE_SET_RESPONSE := PVoteSetResponse(0, 0, None)
  const NO_SYNC_RESPONSE := PSyncResponse(None)

  // ---------------------------------------------------------------------------------------------
  // Writing

  /** A negative `int32` is written as the 64-bit integer of the same value. */
  function SignExtend(bits: u32): u64 {
    if bits >= 0x8000_0000 then bits + 0xFFFF_FFFF_0000_0000 else bits
  }

  function VoteNumbers(m: PVote): seq<Field> {
    Number(1, SignExtend(m.voteType)) + Number(2, m.height) + Number(3, m.round)
  }

  function VoteFields(m: PVote): seq<Field> {
    VoteNumbers(m) + OptionalValueId(4, m.value) + OptionalAddress(5, m.validatorAddress)
  }

  function ProposalFields(m: PProposal): seq<Field> {
    Number(1, m.height) + Number(2, m.round) + OptionalValue(3, m.value) + OptionalNumber(4, m.polRound)
    + OptionalAddress(5, m.validatorAddress)
  }

  function ConsensusFields(m: Option<PConsensusMessage>): seq<Field> {
    match m
    case None => []
    case Some(PProposalMessage(proposal)) => Sub(1, ProposalFields(proposal))
    case Some(PVoteMessage(vote)) => Sub(2, VoteFields(vote))
  }

  function SignedMessageFields(m: PSignedMessage): seq<Field> {
    ConsensusFields(m.message) + OptionalSignature(3, m.signature)
  }

  function VoteSetFields(m: PVoteSet): seq<Field> {
    Repeated(1, SignedMessageFields, m.signedVotes)
  }

  function OptionalVoteSet(tag: nat, m: Option<PVoteSet>): seq<Field> {
    if m.Some? then Sub(tag, VoteSetFields(m.value)) else []
  }

  function VoteSetResponseFields(m: PVoteSetResponse): seq<Field> {
    Number(1, m.height) + Number(2, m.round) + OptionalVoteSet(3, m.voteSet)
  }

  function SyncResponseFields(m: PSyncResponse): seq<Field> {
    match m.response
    case None => []
    case Some(PValueAnswer(value)) => Sub(1, ValueResponseFields(value))
    case Some(PVoteSetAnswer(votes)) => Sub(2, VoteSetResponseFields(votes))
  }

  // ---------------------------------------------------------------------------------------------
  // Reading

  function MergeVote(m: PVote, f: Field): Option<PVote> {
    if f.tag == 1 then if f.Varint? then Some(m.(voteType := f.number % 0x1_0000_0000)) else None
    else if f.tag == 2 then if f.Varint? then Some(m.(height := f.number)) else None
    else if f.tag == 3 then if f.Varint? then Some(m.(round := f.number % 0x1_0000_0000)) else None
    else if f.tag == 4 then
      if !f.Len? then None
      else
        var sub := MergeBytes(MergeValueId, OrDefault(m.value, NO_VALUE_ID), f.bytes);
        if sub.Some? then Some(m.(value := sub)) else None
    else if f.tag == 5 then
      if !f.Len? then None
      else
        var sub := MergeBytes(MergeAddress, OrDefault(m.validatorAddress, NO_ADDRESS), f.bytes);
        if sub.Some? then Some(m.(validatorAddress := sub)) else None
    else Some(m)
  }

  function MergeProposal(m: PProposal, f: Field): Option<PProposal> {
    if f.tag == 1 then if f.Varint? then Some(m.(height := f.number)) else None
    else if f.tag == 2 then if f.Varint? then Some(m.(round := f.number % 0x1_0000_0000)) else None
    else if f.tag == 3 then
      if !f.Len? then None
      else
        var sub := MergeBytes(MergeValue, OrDefault(m.value, NO_VALUE), f.bytes);
        if sub.Some? then Some(m.(value := sub)) else None
    else if f.tag == 4 then if f.Varint? then Some(m.(polRound := Some(f.number % 0x1_0000_0000))) else None
    else if f.tag == 5 then
      if !f.Len? then None
      else
        var sub := MergeBytes(MergeAddress, OrDefault(m.validatorAddress, NO_ADDRESS), f.bytes);
        if sub.Some? then Some(m.(validatorAddress := sub)) else None
    else Some(m)
  }

  function MergeSignedMessage(m: PSignedMessage, f: Field): Option<PSignedMessage> {
    if f.tag == 1 then
      if !f.Len? then None
      else
        var start := if m.message.Some? && m.message.value.PProposalMessage? then m.message.value.proposal else NO_PROPOSAL;
        var sub := MergeBytes(MergeProposal, start, f.bytes);
        if sub.Some? then Some(m.(message := Some(PProposalMessage(sub.value)))) else None
    else if f.tag == 2 then
      if !f.Len? then None
      else
        var start := if m.message.Some? && m.message.value.PVoteMessage? then m.message.value.vote else NO_VOTE;
        var sub := MergeBytes(MergeVote, start, f.bytes);
        if sub.Some? then Some(m.(message := Some(PVoteMessage(sub.value)))) else None
    else if f.tag == 3 then
      if !f.Len? then None
      else
        var sub := MergeBytes(MergeSignature, OrDefault(m.signature, NO_SIGNATURE), f.bytes);
        if sub.Some? then Some(m.(signature := sub)) else None
    else Some(m)
  }

  function MergeVoteSet(m: PVoteSet, f: Field): Option<PVoteSet> {
    if f.tag == 1 then
      if !f.Len? then None
      else
        var sub := MergeBytes(MergeSignedMessage, NO_SIGNED_MESSAGE, f.bytes);
        if sub.Some? then Some(PVoteSet(m.signedVotes + [sub.value])) else None
    else Some(m)
  }

  function MergeVoteSetResponse(m: PVoteSetResponse, f: Field): Option<PVoteSetResponse> {
    if f.tag == 1 then if f.Varint? then Some(m.(height := f.number)) else None
    else if f.tag == 2 then if f.Varint? then Some(m.(round := f.number % 0x1_0000_0000)) else None
    else if f.tag == 3 then
      if !f.Len? then None
      else
        var sub := MergeBytes(MergeVoteSet, OrDefault(m.voteSet, NO_VOTE_SET), f.bytes);
        if sub.Some? then Some(m.(voteSet := sub)) else None
    else Some(m)
  }

  function MergeSyncResponse(m: PSyncResponse, f: Field): Option<PSyncResponse> {
    if f.tag == 1 then
      if !f.Len? then None
      else
        var start := if m.response.Some? && m.response.value.PValueAnswer? then m.response.value.value else NO_VALUE_RESPONSE;
        var sub := MergeBytes(MergeValueResponse, start, f.bytes);
        if sub.Some? then Some(PSyncResponse(Some(PValueAnswer(sub.value)))) else None
    else if f.tag == 2 then
      if !f.Len? then None
      else
        var start := if m.response.Some? && m.response.value.PVoteSetAnswer? then m.response.value.votes else NO_VOTE_SET_RESPONSE;
        var sub := MergeBytes(MergeVoteSetResponse, start, f.bytes);
        if sub.Some? then Some(PSyncResponse(Some(PVoteSetAnswer(sub.value)))) else None
    else Some(m)
  }

  // ---------------------------------------------------------------------------------------------
  // Reading what was written

  lemma VoteNumbersMerge(m: PVote)
    ensures Merge(MergeVote, NO_VOTE, VoteNumbers(m)) == Some(PVote(m.voteType, m.height, m.round, None, None))
  {
    var m1, m2 := NO_VOTE.(voteType := m.voteType), NO_VOTE.(voteType := m.voteType, height := m.height);
    ThreeSteps(MergeVote, NO_VOTE, Number(1, SignExtend(m.voteType)), m1, Number(2, m.height), m2,
               Number(3, m.round), m2.(round := m.round));
  }

  lemma VotedStep(m: PVote, value: Option<PValueId>)
    requires Fits(OptionalValueId(4, value)) && m.value.None?
    ensures Steps(MergeVote, m, OptionalValueId(4, value), m.(value := value))
  {
    ValueIdSub(4, value);
  }

  lemma VoterStep(m: PVote, validator: Option<PAddress>)
    requires Fits(OptionalAddress(5, validator)) && m.validatorAddress.None?
    ensures Steps(MergeVote, m, OptionalAddress(5, validator), m.(validatorAddress := validator))
  {
    AddressSub(5, validator);
  }

  lemma VotePlain(m: PVote)
    ensures Plain(VoteFields(m))
  {
    PlainFour(Number(1, SignExtend(m.voteType)), Number(2, m.height), Number(3, m.round), OptionalValueId(4, m.value));
    PlainAppend(VoteNumbers(m) + OptionalValueId(4, m.value), OptionalAddress(5, m.validatorAddress));
  }

  lemma VoteRoundTrip(m: PVote)
    requires Fits(VoteFields(m))
    ensures MergeBytes(MergeVote, NO_VOTE, EncodeFields(VoteFields(m))) == Some(m)
  {
    var numbers, f4, f5 := VoteNumbers(m), OptionalValueId(4, m.value), OptionalAddress(5, m.validatorAddress);
    var m3 := PVote(m.voteType, m.height, m.round, None, None);
    FitsSplit(numbers + f4, f5);
    FitsSplit(numbers, f4);
    VoteNumbersMerge(m);
    VotedStep(m3, m.value);
    VoterStep(m3.(value := m.value), m.validatorAddress);
    TwoSteps(MergeVote, NO_VOTE, numbers, m3, f4, m3.(value := m.value));
    TwoSteps(MergeVote, NO_VOTE, numbers + f4, m3.(value := m.value), f5, m);
    VotePlain(m);
    MessageRoundTrip(MergeVote, NO_VOTE, VoteFields(m), m);
  }

  lemma ProposalValueStep(m: PProposal, value: Option<PValue>)
    requires Fits(OptionalValue(3, value)) && m.value.None?
    ensures Steps(MergeProposal, m, OptionalValue(3, value), m.(value := value))
  {
    ValueSub(3, value);
  }

  lemma ProposalValidatorStep(m: PProposal, validator: Option<PAddress>)
    requires Fits(OptionalAddress(5, validator)) && m.validatorAddress.None?
    ensures Steps(MergeProposal, m, OptionalAddress(5, validator), m.(validatorAddress := validator))
  {
    AddressSub(5, validator);
  }

  lemma ProposalNumbers(m: PProposal)
    ensures Merge(MergeProposal, NO_PROPOSAL, Number(1, m.height) + Number(2, m.round))
         == Some(PProposal(m.height, m.round, None, None, None))
  {
    var m1 := NO_PROPOSAL.(height := m.height);
    OneStep(MergeProposal, NO_PROPOSAL, Number(1, m.height), m1);
    TwoSteps(MergeProposal, NO_PROPOSAL, Number(1, m.height), m1, Number(2, m.round), m1.(round := m.round));
  }

  lemma ProposalPlain(m: PProposal)
    ensures Plain(ProposalFields(m))
  {
    var f1, f2, f3, f4 := Number(1, m.height), Number(2, m.round), OptionalValue(3, m.value), OptionalNumber(4, m.polRound);
    PlainFour(f1, f2, f3, f4);
    PlainAppend(f1 + f2 + f3 + f4, OptionalAddress(5, m.validatorAddress));
  }

  lemma ProposalHead(m: PProposal)
    requires Fits(OptionalValue(3, m.value))
    ensures Merge(MergeProposal, NO_PROPOSAL,
                  Number(1, m.height) + Number(2, m.round) + OptionalValue(3, m.value) + OptionalNumber(4, m.polRound))
         == Some(m.(validatorAddress := None))
  {
    var numbers, f3, f4 := Number(1, m.height) + Number(2, m.round), OptionalValue(3, m.value), OptionalNumber(4, m.polRound);
    var m2 := PProposal(m.height, m.round, None, None, None);
    var m3 := m2.(value := m.value);
    ProposalNumbers(m);
    ProposalValueStep(m2, m.value);
    TwoSteps(MergeProposal, NO_PROPOSAL, numbers, m2, f3, m3);
    TwoSteps(MergeProposal, NO_PROPOSAL, numbers + f3, m3, f4, m3.(polRound := m.polRound));
  }

  lemma ProposalRoundTrip(m: PProposal)
    requires Fits(ProposalFields(m))
    ensures MergeBytes(MergeProposal, NO_PROPOSAL, EncodeFields(ProposalFields(m))) == Some(m)
  {
    var numbers, f3, f4 := Number(1, m.height) + Number(2, m.round), OptionalValue(3, m.value), OptionalNumber(4, m.polRound);
    var f5 := OptionalAddress(5, m.validatorAddress);
    FitsSplit(numbers + f3 + f4, f5);
    FitsSplit(numbers + f3, f4);
    FitsSplit(numbers, f3);
    ProposalHead(m);
    ProposalValidatorStep(m.(validatorAddress := None), m.validatorAddress);
    TwoSteps(MergeProposal, NO_PROPOSAL, numbers + f3 + f4, m.(validatorAddress := None), f5, m);
    ProposalPlain(m);
    MessageRoundTrip(MergeProposal, NO_PROPOSAL, ProposalFields(m), m);
  }

  lemma ConsensusStep(m: Option<PConsensusMessage>)
    requires Fits(ConsensusFields(m))
    ensures Steps(MergeSignedMessage, NO_SIGNED_MESSAGE, ConsensusFields(m), PSignedMessage(m, None))
  {
    match m
    case None =>
    case Some(PProposalMessage(proposal)) =>
      SubFits(1, ProposalFields(proposal));
      ProposalRoundTrip(proposal);
    case Some(PVoteMessage(vote)) =>
      SubFits(2, VoteFields(vote));
      VoteRoundTrip(vote);
  }

  lemma SignedMessageRoundTrip(m: PSignedMessage)
    requires Fits(SignedMessageFields(m))
    ensures MergeBytes(MergeSignedMessage, NO_SIGNED_MESSAGE, EncodeFields(SignedMessageFields(m))) == Some(m)
  {
    var f, s, m1 := ConsensusFields(m.message), OptionalSignature(3, m.signature), PSignedMessage(m.message, None);
    FitsSplit(f, s);
    ConsensusStep(m.message);
    SignatureSub(3, m.signature);
    OneStep(MergeSignedMessage, NO_SIGNED_MESSAGE, f, m1);
    TwoSteps(MergeSignedMessage, NO_SIGNED_MESSAGE, f, m1, s, m);
    PlainAppend(f, s);
    MessageRoundTrip(MergeSignedMessage, NO_SIGNED_MESSAGE, SignedMessageFields(m), m);
  }

  lemma VoteSetCollects()
    ensures Collects(MergeVoteSet, (s: seq<PSignedMessage>) => PVoteSet(s), 1, SignedMessageFields)
  {
    forall done: seq<PSignedMessage>, next: PSignedMessage | Fits(Sub(1, SignedMessageFields(next)))
      ensures Steps(MergeVoteSet, PVoteSet(done), Sub(1, SignedMessageFields(next)), PVoteSet(done + [next]))
    {
      SubFits(1, SignedMessageFields(next));
      SignedMessageRoundTrip(next);
    }
  }

  lemma VoteSetSub(tag: nat, m: Option<PVoteSet>)
    requires Fits(OptionalVoteSet(tag, m))
    ensures m.Some? ==> MergeBytes(MergeVoteSet, NO_VOTE_SET, OptionalVoteSet(tag, m)[0].bytes) == m
  {
    if m.Some? {
      var votes := m.value.signedVotes;
      SubFits(tag, VoteSetFields(m.value));
      RepeatedPlain(1, SignedMessageFields, votes);
      VoteSetCollects();
      RepeatedMerges(MergeVoteSet, (s: seq<PSignedMessage>) => PVoteSet(s), 1, SignedMessageFields, [], votes);
      assert [] + votes == votes;
      MessageRoundTrip(MergeVoteSet, NO_VOTE_SET, VoteSetFields(m.value), m.value);
    }
  }

  lemma VoteSetResponseNumbers(m: PVoteSetResponse)
    ensures Merge(MergeVoteSetResponse, NO_VOTE_SET_RESPONSE, Number(1, m.height) + Number(2, m.round))
         == Some(m.(voteSet := None))
  {
    var m1 := PVoteSetResponse(m.height, 0, None);
    OneStep(MergeVoteSetResponse, NO_VOTE_SET_RESPONSE, Number(1, m.height), m1);
    TwoSteps(MergeVoteSetResponse, NO_VOTE_SET_RESPONSE, Number(1, m.height), m1, Number(2, m.round), m.(voteSet := None));
  }

  lemma VoteSetStep(m: PVoteSetResponse, voteSet: Option<PVoteSet>)
    requires Fits(OptionalVoteSet(3, voteSet)) && m.voteSet.None?
    ensures Steps(MergeVoteSetResponse, m, OptionalVoteSet(3, voteSet), m.(voteSet := voteSet))
  {
    VoteSetSub(3, voteSet);
  }

  lemma VoteSetResponseRoundTrip(m: PVoteSetResponse)
    requires Fits(VoteSetResponseFields(m))
    ensures MergeBytes(MergeVoteSetResponse, NO_VOTE_SET_RESPONSE, EncodeFields(VoteSetResponseFields(m))) == Some(m)
  {
    var numbers, f3 := Number(1, m.height) + Number(2, m.round), OptionalVoteSet(3, m.voteSet);
    FitsSplit(numbers, f3);
    VoteSetResponseNumbers(m);
    VoteSetStep(m.(voteSet := None), m.voteSet);
    TwoSteps(MergeVoteSetResponse, NO_VOTE_SET_RESPONSE, numbers, m.(voteSet := None), f3, m);
    PlainAppend(Number(1, m.height), Number(2, m.round));
    PlainAppend(numbers, f3);
    MessageRoundTrip(MergeVoteSetResponse, NO_VOTE_SET_RESPONSE, VoteSetResponseFields(m), m);
  }

  lemma SyncResponseRoundTrip(m: PSyncResponse)
    requires Fits(SyncResponseFields(m))
    ensures MergeBytes(MergeSyncResponse, NO_SYNC_RESPONSE, EncodeFields(SyncResponseFields(m))) == Some(m)
  {
    match m.response {
      case None =>
      case Some(PValueAnswer(value)) =>
        SubFits(1, ValueResponseFields(value));
        ValueResponseRoundTrip(value);
      case Some(PVoteSetAnswer(votes)) =>
        SubFits(2, VoteSetResponseFields(votes));
        VoteSetResponseRoundTrip(votes);
    }
    OneStep(MergeSyncResponse, NO_SYNC_RESPONSE, SyncResponseFields(m), m);
    MessageRoundTrip(MergeSyncResponse, NO_SYNC_RESPONSE, SyncResponseFields(m), m);
  }
}
