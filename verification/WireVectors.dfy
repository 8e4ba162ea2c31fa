/**
  The messages of the codec byte by byte: field numbers, wire types and enumerations as types/proto/consensus.proto and
  types/proto/sync.proto give them. Every bracket is a record: its key, its length if it has one, and what is in it.
*/
module WireVectors {
  import opened Bytes
  import opened Types
  import opened Wire
  import opened Protos
  import opened VoteProtos
  import opened Codec

  /** A number that is not omitted and takes one byte. */
  type small = x: int | 0 < x < 128 witness 1

  // ---------------------------------------------------------------------------------------------
  // Records

  lemma OneField(f: Field)
    ensures EncodeFields([f]) == EncodeField(f)
  {
    assert [f][1..] == [];
    assert EncodeFields([f]) == EncodeField(f) + [];
  }

  lemma NumberBytes(tag: nat, n: small)
    requires tag < 16
    ensures EncodeFields(Number(tag, n)) == [8 * tag, n]
  {
    OneField(Varint(tag, n));
  }

  lemma LenBytes(tag: nat, b: Bytes)
    requires tag < 15 && |b| < 128
    ensures EncodeFields([Len(tag, b)]) == [8 * tag + 2, |b|] + b
  {
    OneField(Len(tag, b));
    assert [8 * tag + 2] + ([|b|] + b) == [8 * tag + 2, |b|] + b;
  }

  /** A message inside a field of another. */
  lemma SubBytes(tag: nat, fields: seq<Field>, b: Bytes)
    requires tag < 15 && EncodeFields(fields) == b && |b| < 128
    ensures EncodeFields(Sub(tag, fields)) == [8 * tag + 2, |b|] + b
  {
    LenBytes(tag, b);
  }

  lemma TwoRecords(f1: seq<Field>, f2: seq<Field>, b1: Bytes, b2: Bytes)
    requires EncodeFields(f1) == b1 && EncodeFields(f2) == b2
    ensures EncodeFields(f1 + f2) == b1 + b2
  {
    EncodeAppend(f1, f2);
  }

  lemma ThreeRecords(f1: seq<Field>, f2: seq<Field>, f3: seq<Field>, b1: Bytes, b2: Bytes, b3: Bytes)
    requires EncodeFields(f1) == b1 && EncodeFields(f2) == b2 && EncodeFields(f3) == b3
    ensures EncodeFields(f1 + f2 + f3) == b1 + b2 + b3
  {
    TwoRecords(f1, f2, b1, b2);
    TwoRecords(f1 + f2, f3, b1 + b2, b3);
  }

  lemma AddressBytes(tag: nat, a: Address)
    requires tag < 15
    ensures EncodeFields(OptionalAddress(tag, Some(PAddress(a)))) == [8 * tag + 2, 22] + ([10, 20] + a)
  {
    LenBytes(1, a);
    SubBytes(tag, AddressFields(PAddress(a)), [10, 20] + a);
  }

  lemma SignatureBytes(tag: nat, s: Signature)
    requires tag < 15
    ensures EncodeFields(OptionalSignature(tag, Some(PSignature(s)))) == [8 * tag + 2, 66] + ([10, 64] + s)
  {
    LenBytes(1, s);
    SubBytes(tag, SignatureFields(PSignature(s)), [10, 64] + s);
  }

  lemma ValueBytes(v: small, e: byte)
    ensures EncodeFields(ValueFields(PValue(v, [e]))) == [8, v] + [18, 1, e]
  {
    NumberBytes(1, v);
    LenBytes(2, [e]);
    TwoRecords(Number(1, v), String(2, [e]), [8, v], [18, 1, e]);
  }

  lemma ValueFieldBytes(tag: nat, v: small, e: byte)
    requires tag < 15
    ensures EncodeFields(OptionalValue(tag, Some(PValue(v, [e])))) == [8 * tag + 2, 5] + ([8, v] + [18, 1, e])
  {
    ValueBytes(v, e);
    SubBytes(tag, ValueFields(PValue(v, [e])), [8, v] + [18, 1, e]);
  }

  lemma ValueIdBytes(tag: nat, id: small)
    requires tag < 15
    ensures EncodeFields(OptionalValueId(tag, Some(PValueId(id)))) == [8 * tag + 2, 2] + [8, id]
  {
    NumberBytes(1, id);
    SubBytes(tag, ValueIdFields(PValueId(id)), [8, id]);
  }

  /** Records of fixed width, which a decoder steps over. */
  lemma FixedOnTheWire(tag: small, b4: Bytes, b8: Bytes, rest: Bytes)
    requires tag < 15 && |b4| == 4 && |b8| == 8
    ensures DecodeField([8 * tag + 5] + b4 + rest) == Some((Fixed32(tag, b4), rest))
    ensures DecodeField([8 * tag + 1] + b8 + rest) == Some((Fixed64(tag, b8), rest))
  {
    FieldRoundTrip(Fixed32(tag, b4), rest);
    FieldRoundTrip(Fixed64(tag, b8), rest);
  }

  lemma SplitHead(x: byte, b: Bytes)
    requires x < 128
    ensures DecodeVarint([x] + b, 0) == Some((x, b))
  {
    assert ([x] + b)[1..] == b;
  }

  /** No field has number 0, there are no other wire types, and no record is longer than what is left of the input. */
  lemma RefusedOnTheWire(tag: nat, wireType: nat, n: small, b: Bytes)
    requires tag < 16 && wireType < 8
    ensures tag == 0 || wireType in {3, 4, 6, 7} ==> DecodeField([8 * tag + wireType] + b) == None
    ensures wireType == 2 && |b| < n ==> DecodeField([8 * tag + wireType] + ([n] + b)) == None
  {
    SplitHead(8 * tag + wireType, b);
    SplitHead(8 * tag + wireType, [n] + b);
    SplitHead(n, b);
    assert (8 * tag + wireType) / 8 == tag && (8 * tag + wireType) % 8 == wireType;
  }

  // ---------------------------------------------------------------------------------------------
  // Proposal parts

  lemma InitBytes(h: small, r: small, a: Address)
    ensures EncodeFields(InitFields(PProposalInit(h, r, Some(PAddress(a))))) == [8, h] + [16, r] + ([34, 22] + ([10, 20] + a))
  {
    NumberBytes(1, h);
    NumberBytes(2, r);
    AddressBytes(4, a);
    ThreeRecords(Number(1, h), Number(2, r), OptionalAddress(4, Some(PAddress(a))), [8, h], [16, r], [34, 22] + ([10, 20] + a));
  }

  /** Bytes that a part is written as are read back as this part. */
  lemma PartIs(part: ProposalPart, b: Bytes)
    requires PartHasRound(part) && EncodeFields(PartFields(FromPart(part))) == b && |b| < 1000
    ensures EncodePart(part) == b && DecodePart(b) == Some(part)
  {
    PartTravels(part);
  }

  lemma InitOnTheWire(h: small, r: small, a: Address)
    ensures var part, b := Init(ProposalInit(h, At(r), a)), [10, 28] + ([8, h] + [16, r] + ([34, 22] + ([10, 20] + a)));
            EncodePart(part) == b && DecodePart(b) == Some(part)
  {
    var b := [8, h] + [16, r] + ([34, 22] + ([10, 20] + a));
    InitBytes(h, r, a);
    SubBytes(1, InitFields(PProposalInit(h, r, Some(PAddress(a)))), b);
    PartIs(Init(ProposalInit(h, At(r), a)), [10, 28] + b);
  }

  lemma FinOnTheWire(s: Signature)
    ensures var b := [26, 68] + ([10, 66] + ([10, 64] + s));
            EncodePart(Fin(s)) == b && DecodePart(b) == Some(Fin(s))
  {
    SignatureBytes(1, s);
    SubBytes(3, FinFields(PProposalFin(Some(PSignature(s)))), [10, 66] + ([10, 64] + s));
    PartIs(Fin(s), [26, 68] + ([10, 66] + ([10, 64] + s)));
  }

  lemma DataBytes(d: byte)
    ensures EncodeFields(PartFields(PProposalPart(Some(PData(PProposalData([d])))))) == [18, 3] + [10, 1, d]
  {
    LenBytes(1, [d]);
    assert [10, 1] + [d] == [10, 1, d];
    SubBytes(2, DataFields(PProposalData([d])), [10, 1, d]);
  }

  lemma DataOnTheWire(d: byte)
    ensures var b := [18, 3] + [10, 1, d];
            EncodePart(Data([d])) == b && DecodePart(b) == Some(Data([d]))
  {
    DataBytes(d);
    PartIs(Data([d]), [18, 3] + [10, 1, d]);
  }

  /** A part in its stream message: identifier, sequence number and the part as bytes. */
  lemma StreamedPartOnTheWire(id: byte, q: small, d: byte)
    ensures var msg, b := StreamMessage([id], q, Part(Data([d]))), [10, 1, id] + [16, q] + ([26, 5] + ([18, 3] + [10, 1, d]));
            EncodeStreamMessage(msg) == b && DecodeStreamMessage(b) == Some(msg)
  {
    var part := [18, 3] + [10, 1, d];
    LenBytes(1, [id]);
    assert [10, 1] + [id] == [10, 1, id];
    NumberBytes(2, q);
    DataOnTheWire(d);
    LenBytes(3, part);
    ThreeRecords(String(1, [id]), Number(2, q), ContentFields(Some(PSerialized(part))), [10, 1, id], [16, q], [26, 5] + part);
    StreamMessageTravels(StreamMessage([id], q, Part(Data([d]))));
  }

  // ---------------------------------------------------------------------------------------------
  // Values, proposed values and certificates

  lemma ValueOnTheWire(v: small, e: byte)
    ensures var b := [8, v] + [18, 1, e];
            EncodeValue(Value(v, [e])) == b && DecodeValue(b) == Some(Value(v, [e]))
  {
    ValueBytes(v, e);
    ValueTravels(Value(v, [e]));
  }

  lemma OptionalNumberBytes(tag: nat, n: byte)
    requires tag < 16 && n < 128
    ensures EncodeFields(OptionalNumber(tag, Some(n))) == [8 * tag, n]
  {
    OneField(Varint(tag, n));
  }

  function ValidityBytes(valid: bool): Bytes {
    if valid then [48, 1] else []
  }

  lemma ProposedValueBytes(h: small, r: small, vr: byte, a: Address, v: small, e: byte, valid: bool)
    requires vr < 128
    ensures EncodeFields(ProposedValueFields(
                PProposedValue(h, r, Some(vr), Some(PAddress(a)), Some(PValue(v, [e])), valid))) ==
              [8, h] + [16, r] + [24, vr] + ([34, 22] + ([10, 20] + a)) + ([42, 5] + ([8, v] + [18, 1, e]))
              + ValidityBytes(valid)
  {
    var f1, f2, f3, f4 := Number(1, h), Number(2, r), OptionalNumber(3, Some(vr)), OptionalAddress(4, Some(PAddress(a)));
    var b4 := [34, 22] + ([10, 20] + a);
    NumberBytes(1, h);
    NumberBytes(2, r);
    OptionalNumberBytes(3, vr);
    AddressBytes(4, a);
    ValueFieldBytes(5, v, e);
    if valid {
      NumberBytes(6, 1);
    }
    ThreeRecords(f1, f2, f3, [8, h], [16, r], [24, vr]);
    TwoRecords(f1 + f2 + f3, f4, [8, h] + [16, r] + [24, vr], b4);
    ThreeRecords(f1 + f2 + f3 + f4, OptionalValue(5, Some(PValue(v, [e]))), Number(6, FromBool(valid)),
                 [8, h] + [16, r] + [24, vr] + b4, [42, 5] + ([8, v] + [18, 1, e]), ValidityBytes(valid));
  }

  /** A valid round is written even when it is 0, validity only when it is true. */
  lemma ProposedValueOnTheWire(h: small, r: small, vr: byte, a: Address, v: small, e: byte, valid: bool)
    requires vr < 128
    ensures var p := ProposedValue(h, At(r), At(vr), a, Value(v, [e]), valid);
            var b := [8, h] + [16, r] + [24, vr] + ([34, 22] + ([10, 20] + a)) + ([42, 5] + ([8, v] + [18, 1, e]))
                     + if valid then [48, 1] else [];
            EncodeProposedValue(p) == b && DecodeProposedValue(b) == Some(p)
  {
    ProposedValueBytes(h, r, vr, a, v, e, valid);
    ProposedValueTravels(ProposedValue(h, At(r), At(vr), a, Value(v, [e]), valid));
  }

  /** A commit signature: the address and the signature. */
  function CommitSignatureBytes(a: Address, s: Signature): (b: Bytes)
    ensures |b| == 92
  {
    [10, 22] + ([10, 20] + a) + ([18, 66] + ([10, 64] + s))
  }

  lemma RepeatedOnce<T>(tag: nat, write: T -> seq<Field>, item: T)
    ensures Repeated(tag, write, [item]) == Sub(tag, write(item))
  {
    assert [item][1..] == [];
    assert Repeated(tag, write, [item]) == Sub(tag, write(item)) + Repeated(tag, write, []);
  }

  lemma AggregateBytes(tag: nat, a: Address, s: Signature)
    requires tag < 15
    ensures EncodeFields(OptionalAggregate(tag, Some(PAggregatedSignature([FromCommitSignature(CommitSignature(a, s))])))) ==
              [8 * tag + 2, 94] + ([10, 92] + CommitSignatureBytes(a, s))
  {
    var m := FromCommitSignature(CommitSignature(a, s));
    AddressBytes(1, a);
    SignatureBytes(2, s);
    TwoRecords(OptionalAddress(1, m.validatorAddress), OptionalSignature(2, m.signature),
               [10, 22] + ([10, 20] + a), [18, 66] + ([10, 64] + s));
    SubBytes(1, CommitSignatureFields(m), CommitSignatureBytes(a, s));
    RepeatedOnce(1, CommitSignatureFields, m);
    SubBytes(tag, AggregateFields(PAggregatedSignature([m])), [10, 92] + CommitSignatureBytes(a, s));
  }

  function CertificateBytes(h: small, r: small, id: small, a: Address, s: Signature): (b: Bytes)
    ensures |b| == 104
  {
    [8, h] + [16, r] + ([26, 2] + [8, id]) + ([34, 94] + ([10, 92] + CommitSignatureBytes(a, s)))
  }

  lemma CertificateFieldBytes(h: small, r: small, id: small, a: Address, s: Signature)
    ensures EncodeFields(CertificateFields(FromCertificate(CommitCertificate(h, At(r), id, [CommitSignature(a, s)])))) ==
              CertificateBytes(h, r, id, a, s)
  {
    var c := FromCertificate(CommitCertificate(h, At(r), id, [CommitSignature(a, s)]));
    assert FromSignatures([CommitSignature(a, s)]) == [FromCommitSignature(CommitSignature(a, s))];
    NumberBytes(1, h);
    NumberBytes(2, r);
    ValueIdBytes(3, id);
    AggregateBytes(4, a, s);
    ThreeRecords(Number(1, h), Number(2, r), OptionalValueId(3, c.valueId), [8, h], [16, r], [26, 2] + [8, id]);
    TwoRecords(Number(1, h) + Number(2, r) + OptionalValueId(3, c.valueId), OptionalAggregate(4, c.aggregatedSignature),
               [8, h] + [16, r] + ([26, 2] + [8, id]), [34, 94] + ([10, 92] + CommitSignatureBytes(a, s)));
  }

  lemma CertificateOnTheWire(h: small, r: small, id: small, a: Address, s: Signature)
    ensures var c := CommitCertificate(h, At(r), id, [CommitSignature(a, s)]);
            var signature := [10, 22] + ([10, 20] + a) + ([18, 66] + ([10, 64] + s));
            var b := [8, h] + [16, r] + ([26, 2] + [8, id]) + ([34, 94] + ([10, 92] + signature));
            EncodeCertificate(c) == b && DecodeCertificate(b) == Some(c)
  {
    CertificateFieldBytes(h, r, id, a, s);
    CertificateTravels(CommitCertificate(h, At(r), id, [CommitSignature(a, s)]));
  }

  // ---------------------------------------------------------------------------------------------
  // Sync responses

  lemma SyncedValueBytes(h: small, e: byte, c: CommitCertificate, b: Bytes)
    requires c.round.At? && EncodeFields(CertificateFields(FromCertificate(c))) == b && |b| == 104
    ensures EncodeFields(ValueResponseFields(PValueResponse(h, Some(PSyncedValue([e], Some(FromCertificate(c))))))) ==
              [8, h] + ([18, 109] + ([10, 1, e] + ([18, 104] + b)))
  {
    var m := PSyncedValue([e], Some(FromCertificate(c)));
    LenBytes(1, [e]);
    assert [10, 1] + [e] == [10, 1, e];
    SubBytes(2, CertificateFields(FromCertificate(c)), b);
    TwoRecords(String(1, [e]), OptionalCertificate(2, m.certificate), [10, 1, e], [18, 104] + b);
    SubBytes(2, SyncedValueFields(m), [10, 1, e] + ([18, 104] + b));
    NumberBytes(1, h);
    TwoRecords(Number(1, h), OptionalSyncedValue(2, Some(m)), [8, h], [18, 109] + ([10, 1, e] + ([18, 104] + b)));
  }

  lemma ValueResponseOnTheWire(h: small, e: byte, ch: small, r: small, id: small, a: Address, s: Signature)
    ensures var response := ValueResponse(h, Some(RawDecidedValue([e], CommitCertificate(ch, At(r), id, [CommitSignature(a, s)]))));
            var signature := [10, 22] + ([10, 20] + a) + ([18, 66] + ([10, 64] + s));
            var certificate := [8, ch] + [16, r] + ([26, 2] + [8, id]) + ([34, 94] + ([10, 92] + signature));
            var b := [10, 113] + ([8, h] + ([18, 109] + ([10, 1, e] + ([18, 104] + certificate))));
            EncodeResponse(response) == b && DecodeResponse(b) == Some(response)
  {
    var c := CommitCertificate(ch, At(r), id, [CommitSignature(a, s)]);
    var m := PValueResponse(h, Some(PSyncedValue([e], Some(FromCertificate(c)))));
    var certificate := CertificateBytes(ch, r, id, a, s);
    CertificateFieldBytes(ch, r, id, a, s);
    SyncedValueBytes(h, e, c, certificate);
    SubBytes(1, ValueResponseFields(m), [8, h] + ([18, 109] + ([10, 1, e] + ([18, 104] + certificate))));
    ValueResponseTravels(h, Some(RawDecidedValue([e], c)));
  }

  // ---------------------------------------------------------------------------------------------
  // Votes and proposals

  function TypeBytes(t: VoteType): Bytes {
    if t.Precommit? then [8, 1] else []
  }

  lemma VoteTypeBytes(t: VoteType)
    ensures EncodeFields(Number(1, SignExtend(if t.Prevote? then 0 else 1))) == TypeBytes(t)
  {
    if t.Precommit? {
      NumberBytes(1, 1);
    }
  }

  lemma VoteNumberBytes(t: VoteType, h: small, r: small, m: PVote)
    requires m.voteType == (if t.Prevote? then 0 else 1) && m.height == h && m.round == r
    ensures EncodeFields(VoteNumbers(m)) == TypeBytes(t) + [16, h] + [24, r]
  {
    VoteTypeBytes(t);
    NumberBytes(2, h);
    NumberBytes(3, r);
    ThreeRecords(Number(1, SignExtend(m.voteType)), Number(2, h), Number(3, r), TypeBytes(t), [16, h], [24, r]);
  }

  lemma VoteBytes(t: VoteType, h: small, r: small, id: small, a: Address)
    ensures EncodeFields(VoteFields(FromVote(Vote(t, h, At(r), Some(id), a, None)))) ==
              TypeBytes(t) + [16, h] + [24, r] + ([34, 2] + [8, id]) + ([42, 22] + ([10, 20] + a))
  {
    var m := FromVote(Vote(t, h, At(r), Some(id), a, None));
    var head := TypeBytes(t) + [16, h] + [24, r];
    VoteNumberBytes(t, h, r, m);
    ValueIdBytes(4, id);
    AddressBytes(5, a);
    ThreeRecords(VoteNumbers(m), OptionalValueId(4, m.value), OptionalAddress(5, m.validatorAddress),
                 head, [34, 2] + [8, id], [42, 22] + ([10, 20] + a));
  }

  lemma SignedVoteBytes(v: Vote, s: Signature, b: Bytes)
    requires v.round.At? && EncodeFields(VoteFields(FromVote(v))) == b && |b| < 128
    ensures EncodeFields(SignedMessageFields(FromSignedVote(SignedVote(v, s)))) ==
              [18, |b|] + b + ([26, 66] + ([10, 64] + s))
  {
    var m := FromSignedVote(SignedVote(v, s));
    SubBytes(2, VoteFields(FromVote(v)), b);
    SignatureBytes(3, s);
    TwoRecords(ConsensusFields(m.message), OptionalSignature(3, m.signature), [18, |b|] + b, [26, 66] + ([10, 64] + s));
  }

  /** The type of a prevote is the default, so it is omitted. */
  lemma PrevoteOnTheWire(h: small, r: small, id: small, a: Address, s: Signature)
    ensures var msg := VoteMsg(SignedVote(Vote(Prevote, h, At(r), Some(id), a, None), s));
            var vote := [16, h] + [24, r] + ([34, 2] + [8, id]) + ([42, 22] + ([10, 20] + a));
            var b := [18, 32] + vote + ([26, 66] + ([10, 64] + s));
            EncodeConsensusMsg(msg) == b && DecodeConsensusMsg(b) == Some(msg)
  {
    var v := Vote(Prevote, h, At(r), Some(id), a, None);
    VoteBytes(Prevote, h, r, id, a);
    assert [] + [16, h] == [16, h];
    SignedVoteBytes(v, s, [16, h] + [24, r] + ([34, 2] + [8, id]) + ([42, 22] + ([10, 20] + a)));
    ConsensusMsgTravels(VoteMsg(SignedVote(v, s)));
  }

  /** The type of a precommit is 1. */
  lemma PrecommitOnTheWire(h: small, r: small, id: small, a: Address, s: Signature)
    ensures var msg := VoteMsg(SignedVote(Vote(Precommit, h, At(r), Some(id), a, None), s));
            var vote := [8, 1] + [16, h] + [24, r] + ([34, 2] + [8, id]) + ([42, 22] + ([10, 20] + a));
            var b := [18, 34] + vote + ([26, 66] + ([10, 64] + s));
            EncodeConsensusMsg(msg) == b && DecodeConsensusMsg(b) == Some(msg)
  {
    var v := Vote(Precommit, h, At(r), Some(id), a, None);
    VoteBytes(Precommit, h, r, id, a);
    SignedVoteBytes(v, s, [8, 1] + [16, h] + [24, r] + ([34, 2] + [8, id]) + ([42, 22] + ([10, 20] + a)));
    ConsensusMsgTravels(VoteMsg(SignedVote(v, s)));
  }

  lemma ProposedBytes(h: small, r: small, v: small, e: byte)
    ensures EncodeFields(Number(1, h) + Number(2, r) + OptionalValue(3, Some(PValue(v, [e])))) ==
              [8, h] + [16, r] + ([26, 5] + ([8, v] + [18, 1, e]))
  {
    NumberBytes(1, h);
    NumberBytes(2, r);
    ValueFieldBytes(3, v, e);
    ThreeRecords(Number(1, h), Number(2, r), OptionalValue(3, Some(PValue(v, [e]))), [8, h], [16, r],
                 [26, 5] + ([8, v] + [18, 1, e]));
  }

  lemma ProposalBytes(h: small, r: small, v: small, e: byte, pol: byte, a: Address)
    requires pol < 128
    ensures EncodeFields(ProposalFields(PProposal(h, r, Some(PValue(v, [e])), Some(pol), Some(PAddress(a))))) ==
              [8, h] + [16, r] + ([26, 5] + ([8, v] + [18, 1, e])) + [32, pol] + ([42, 22] + ([10, 20] + a))
  {
    var head, b := Number(1, h) + Number(2, r) + OptionalValue(3, Some(PValue(v, [e]))),
                   [8, h] + [16, r] + ([26, 5] + ([8, v] + [18, 1, e]));
    ProposedBytes(h, r, v, e);
    OptionalNumberBytes(4, pol);
    AddressBytes(5, a);
    ThreeRecords(head, OptionalNumber(4, Some(pol)), OptionalAddress(5, Some(PAddress(a))),
                 b, [32, pol], [42, 22] + ([10, 20] + a));
  }

  lemma SignedProposalOnTheWire(h: small, r: small, v: small, e: byte, pol: byte, a: Address, s: Signature)
    requires pol < 128
    ensures var msg := ProposalMsg(SignedProposal(Proposal(h, At(r), Value(v, [e]), At(pol), a), s));
            var proposal := [8, h] + [16, r] + ([26, 5] + ([8, v] + [18, 1, e])) + [32, pol] + ([42, 22] + ([10, 20] + a));
            var b := [10, 37] + proposal + ([26, 66] + ([10, 64] + s));
            EncodeConsensusMsg(msg) == b && DecodeConsensusMsg(b) == Some(msg)
  {
    var proposal := [8, h] + [16, r] + ([26, 5] + ([8, v] + [18, 1, e])) + [32, pol] + ([42, 22] + ([10, 20] + a));
    var msg := ProposalMsg(SignedProposal(Proposal(h, At(r), Value(v, [e]), At(pol), a), s));
    var m := FromConsensusMsg(msg);
    ProposalBytes(h, r, v, e, pol, a);
    SubBytes(1, ProposalFields(FromProposal(msg.proposal.proposal)), proposal);
    SignatureBytes(3, s);
    TwoRecords(ConsensusFields(m.message), OptionalSignature(3, m.signature), [10, 37] + proposal, [26, 66] + ([10, 64] + s));
    ConsensusMsgTravels(msg);
  }

  lemma VoteSetBytes(h: small, r: small, m: PSignedMessage, b: Bytes)
    requires EncodeFields(SignedMessageFields(m)) == b && |b| == 104
    ensures EncodeFields(VoteSetResponseFields(PVoteSetResponse(h, r, Some(PVoteSet([m]))))) ==
              [8, h] + [16, r] + ([26, 106] + ([10, 104] + b))
  {
    SubBytes(1, SignedMessageFields(m), b);
    RepeatedOnce(1, SignedMessageFields, m);
    SubBytes(3, VoteSetFields(PVoteSet([m])), [10, 104] + b);
    NumberBytes(1, h);
    NumberBytes(2, r);
    ThreeRecords(Number(1, h), Number(2, r), OptionalVoteSet(3, Some(PVoteSet([m]))), [8, h], [16, r],
                 [26, 106] + ([10, 104] + b));
  }

  lemma VoteSetResponseOnTheWire(h: small, r: small, vh: small, vr: small, id: small, a: Address, s: Signature)
    ensures var response := VoteSetResponse(h, At(r), [SignedVote(Vote(Precommit, vh, At(vr), Some(id), a, None), s)]);
            var vote := [8, 1] + [16, vh] + [24, vr] + ([34, 2] + [8, id]) + ([42, 22] + ([10, 20] + a));
            var signed := [18, 34] + vote + ([26, 66] + ([10, 64] + s));
            var b := [18, 112] + ([8, h] + [16, r] + ([26, 106] + ([10, 104] + signed)));
            EncodeResponse(response) == b && DecodeResponse(b) == Some(response)
  {
    var v := SignedVote(Vote(Precommit, vh, At(vr), Some(id), a, None), s);
    var vote := [8, 1] + [16, vh] + [24, vr] + ([34, 2] + [8, id]) + ([42, 22] + ([10, 20] + a));
    var signed := [18, 34] + vote + ([26, 66] + ([10, 64] + s));
    VoteBytes(Precommit, vh, vr, id, a);
    SignedVoteBytes(v.vote, s, vote);
    VoteSetBytes(h, r, FromSignedVote(v), signed);
    assert FromVotes([v]) == [FromSignedVote(v)];
    SubBytes(2, VoteSetResponseFields(PVoteSetResponse(h, r, Some(PVoteSet([FromSignedVote(v)])))),
             [8, h] + [16, r] + ([26, 106] + ([10, 104] + signed)));
    VoteSetTravels(h, At(r), [v]);
  }
}
