/** The values exchanged between consensus, the application and its peers. */
module Types {
  import opened Bytes

  datatype Option<+T> = None | Some(value: T)

  type Height = u64
  const DEFAULT_HEIGHT: Height := 1

  /** A consensus round, or no round at all. */
  datatype Round = Nil | At(number: u32) {
    function AsI64(): i64 {
      match this
      case Nil => -1
      case At(n) => n
    }

    function AsU32(): Option<u32> {
      match this
      case Nil => None
      case At(n) => Some(n)
    }

    static function FromI64(i: i64): Round {
      if i < 0 then Nil else At(i % 0x1_0000_0000)
    }
  }

  const ADDRESS_LENGTH := 20
  const SIGNATURE_LENGTH := 64

  type Address = b: Bytes | |b| == ADDRESS_LENGTH witness seq(20, _ => 0)
  type Signature = b: Bytes | |b| == SIGNATURE_LENGTH witness seq(64, _ => 0)
  type PublicKey = Bytes
  type PrivateKey = Bytes
  type PeerId = Bytes
  type StreamId = Bytes

  /** The hash functions and the signature scheme, which the model leaves open. */
  datatype Crypto = Crypto(
    sipHash: Bytes -> u64,
    keccak: Bytes -> Bytes,
    publicKey: PrivateKey -> PublicKey,
    sign: (PrivateKey, Bytes) -> Signature,
    verify: (PublicKey, Bytes, Signature) -> bool)
  {
    /** What a signature scheme promises its honest users. */
    ghost predicate SignaturesVerify() {
      forall key, message :: verify(publicKey(key), message, sign(key, message))
    }
  }

  /** A block together with its 64-bit hash. */
  datatype Value = Value(value: u64, extensions: Bytes) {
    function Id(): u64 { value }

    static function New(crypto: Crypto, data: Bytes): Value {
      Value(crypto.sipHash(data), data)
    }
  }

  datatype ProposalInit = ProposalInit(height: Height, round: Round, proposer: Address)

  datatype ProposalPart =
    | Init(init: ProposalInit)
    | Data(bytes: Bytes)
    | Fin(signature: Signature)

  datatype StreamContent = Part(part: ProposalPart) | EndOfStream

  datatype StreamMessage = StreamMessage(streamId: StreamId, sequence: u64, content: StreamContent) {
    predicate IsFirst() { sequence == 0 }
    predicate IsFin() { content.EndOfStream? }
  }

  datatype ProposedValue = ProposedValue(
    height: Height, round: Round, validRound: Round, proposer: Address, value: Value, valid: bool)

  datatype LocallyProposedValue = LocallyProposedValue(height: Height, round: Round, value: Value)

  datatype CommitSignature = CommitSignature(address: Address, signature: Signature)

  datatype CommitCertificate = CommitCertificate(
    height: Height, round: Round, valueId: u64, signatures: seq<CommitSignature>)

  datatype DecidedValue = DecidedValue(value: Value, certificate: CommitCertificate)

  datatype Validator = Validator(address: Address, publicKey: PublicKey, votingPower: u64)
}
