/** How a block becomes a signed list of proposal parts, and how parts are checked and put back together. */
module Signing {
  import opened Bytes
  import opened Types
  import opened Streaming

  const CHUNK_SIZE: nat := 128 * 1024

  /** `chunks(size)`: pieces of `size` bytes, the last one possibly shorter. */
  function Chunks(data: Bytes, size: nat): (chunks: seq<Bytes>)
    requires size > 0
    ensures |chunks| <= |data|
  {
    if data == [] then []
    else if |data| <= size then [data]
    else [data[..size]] + Chunks(data[size..], size)
  }

  lemma {:induction false} ChunksSplit(data: Bytes, size: nat)
    requires size > 0
    ensures Concat(Chunks(data, size)) == data
    ensures forall i :: 0 <= i < |Chunks(data, size)| ==> 0 < |Chunks(data, size)[i]| <= size
    ensures forall i :: 0 <= i < |Chunks(data, size)| - 1 ==> |Chunks(data, size)[i]| == size
  {
    if data == [] {
    } else if |data| <= size {
      assert [data][1..] == [];
    } else {
      ChunksSplit(data[size..], size);
      assert ([data[..size]] + Chunks(data[size..], size))[1..] == Chunks(data[size..], size);
      assert data == data[..size] + data[size..];
    }
  }

  /** There are no more chunks than the data needs, and none for an empty block. */
  lemma {:induction false} ChunkCount(data: Bytes, size: nat)
    requires size > 0
    ensures |data| <= |Chunks(data, size)| * size < |data| + size
  {
    if |data| > size {
      ChunkCount(data[size..], size);
      OneMoreTimes(|Chunks(data[size..], size)|, size);
    }
  }

  lemma OneMoreTimes(n: nat, size: nat)
    ensures (n + 1) * size == n * size + size
  {
  }

  function Word(n: u64): (b: Bytes)
    ensures |b| == 8
  {
    BigEndian(n, 8)
  }

  function Header(height: Height, round: Round): (b: Bytes)
    ensures |b| == 16
  {
    Word(height) + Word(TwosComplement(round.AsI64()))
  }

  /** What a proposer hashes and signs. */
  function Preimage(height: Height, round: Round, data: Bytes): Bytes {
    Header(height, round) + data
  }

  /** The signed bytes, place by place: the height, the round as a signed integer, the block. */
  lemma PreimageBytes(height: Height, round: Round, data: Bytes)
    ensures var r := match round case Nil => 0xFFFF_FFFF_FFFF_FFFF case At(n) => n;
            Preimage(height, round, data) ==
              [height / 0x100_0000_0000_0000 % 256, height / 0x1_0000_0000_0000 % 256, height / 0x100_0000_0000 % 256,
               height / 0x1_0000_0000 % 256, height / 0x100_0000 % 256, height / 0x1_0000 % 256, height / 0x100 % 256,
               height % 256,
               r / 0x100_0000_0000_0000 % 256, r / 0x1_0000_0000_0000 % 256, r / 0x100_0000_0000 % 256,
               r / 0x1_0000_0000 % 256, r / 0x100_0000 % 256, r / 0x1_0000 % 256, r / 0x100 % 256, r % 256] + data
  {
    EightBytes(height);
    EightBytes(TwosComplement(round.AsI64()));
  }

  lemma WordInjective(m: u64, n: u64)
    requires Word(m) == Word(n)
    ensures m == n
  {
    CapacityOfWords();
    BigEndianInjective(m, n, 8);
  }

  /** The signed bytes determine the height, the round and the block. */
  lemma PreimageInjective(h1: Height, r1: Round, d1: Bytes, h2: Height, r2: Round, d2: Bytes)
    requires Preimage(h1, r1, d1) == Preimage(h2, r2, d2)
    ensures h1 == h2 && r1 == r2 && d1 == d2
  {
    var p1, p2 := Preimage(h1, r1, d1), Preimage(h2, r2, d2);
    assert p1[..8] == Word(h1) && p2[..8] == Word(h2);
    assert p1[8..16] == Word(TwosComplement(r1.AsI64())) && p2[8..16] == Word(TwosComplement(r2.AsI64()));
    assert p1[16..] == d1 && p2[16..] == d2;
    WordInjective(h1, h2);
    WordInjective(TwosComplement(r1.AsI64()), TwosComplement(r2.AsI64()));
  }

  // ---------------------------------------------------------------------------------------------
  // The sender

  function DataParts(chunks: seq<Bytes>): (parts: seq<ProposalPart>)
    ensures |parts| == |chunks|
  {
    if chunks == [] then [] else DataParts(chunks[..|chunks| - 1]) + [Data(chunks[|chunks| - 1])]
  }

  /** An `Init` part, a part for every chunk and the signature. */
  function SignedParts(init: ProposalInit, chunks: seq<Bytes>, signature: Signature): seq<ProposalPart> {
    [Init(init)] + DataParts(chunks) + [Fin(signature)]
  }

  function MakeParts(crypto: Crypto, key: PrivateKey, address: Address, value: LocallyProposedValue, data: Bytes):
    (parts: seq<ProposalPart>)
    ensures |parts| <= |data| + 2
  {
    SignedParts(
      ProposalInit(value.height, value.round, address),
      Chunks(data, CHUNK_SIZE),
      crypto.sign(key, crypto.keccak(Preimage(value.height, value.round, data))))
  }

  /** The identifier of a stream: height, round and a counter in fixed-width big-endian form. */
  function StreamIdBytes(height: Height, round: u32, nonce: u32): StreamId {
    Word(height) + BigEndian(round, 4) + BigEndian(nonce, 4)
  }

  /** Place by place. */
  lemma StreamIdPlaces(height: Height, round: u32, nonce: u32)
    ensures StreamIdBytes(height, round, nonce) ==
              [height / 0x100_0000_0000_0000 % 256, height / 0x1_0000_0000_0000 % 256, height / 0x100_0000_0000 % 256,
               height / 0x1_0000_0000 % 256, height / 0x100_0000 % 256, height / 0x1_0000 % 256, height / 0x100 % 256,
               height % 256,
               round / 0x100_0000 % 256, round / 0x1_0000 % 256, round / 0x100 % 256, round % 256,
               nonce / 0x100_0000 % 256, nonce / 0x1_0000 % 256, nonce / 0x100 % 256, nonce % 256]
  {
    EightBytes(height);
    FourBytes(round);
    FourBytes(nonce);
  }

  lemma StreamIdInjective(h1: Height, r1: u32, n1: u32, h2: Height, r2: u32, n2: u32)
    requires StreamIdBytes(h1, r1, n1) == StreamIdBytes(h2, r2, n2)
    ensures h1 == h2 && r1 == r2 && n1 == n2
  {
    var a, b := StreamIdBytes(h1, r1, n1), StreamIdBytes(h2, r2, n2);
    assert a[..8] == Word(h1) && b[..8] == Word(h2);
    assert a[8..12] == BigEndian(r1, 4) && b[8..12] == BigEndian(r2, 4);
    assert a[12..] == BigEndian(n1, 4) && b[12..] == BigEndian(n2, 4);
    WordInjective(h1, h2);
    CapacityOfWords();
    BigEndianInjective(r1, r2, 4);
    BigEndianInjective(n1, n2, 4);
  }

  // ---------------------------------------------------------------------------------------------
  // The receiver

  datatype SignatureVerificationError = MissingFinPart | ProposerNotFound | InvalidSignature

  function HashInput(part: ProposalPart): Bytes {
    match part
    case Init(init) => Header(init.height, init.round)
    case Data(bytes) => bytes
    case Fin(_) => []
  }

  /** The bytes hashed while traversing the parts. */
  function Hashed(parts: seq<ProposalPart>): Bytes {
    if parts == [] then [] else Hashed(parts[..|parts| - 1]) + HashInput(parts[|parts| - 1])
  }

  /** The signature that the traversal ends up with. */
  function LastSignature(parts: seq<ProposalPart>): Option<Signature> {
    if parts == [] then None
    else if parts[|parts| - 1].Fin? then Some(parts[|parts| - 1].signature)
    else LastSignature(parts[..|parts| - 1])
  }

  /** The bytes of the data parts, concatenated. */
  function DataIn(parts: seq<ProposalPart>): Bytes {
    if parts == [] then []
    else DataIn(parts[..|parts| - 1]) + (if parts[|parts| - 1].Data? then parts[|parts| - 1].bytes else [])
  }

  /** `get_by_address`: the first validator with this address. */
  function GetByAddress(validators: seq<Validator>, address: Address): Option<Validator> {
    if validators == [] then None
    else if validators[0].address == address then Some(validators[0])
    else GetByAddress(validators[1..], address)
  }

  /** `i` is the first position at which a validator with this address is listed. */
  predicate FirstAt(validators: seq<Validator>, i: nat, address: Address) {
    i < |validators| && validators[i].address == address && forall j :: 0 <= j < i ==> validators[j].address != address
  }

  /** The validator that is listed first under this address has this key. */
  ghost predicate HasKey(validators: seq<Validator>, address: Address, key: PublicKey) {
    exists i: nat :: FirstAt(validators, i, address) && validators[i].publicKey == key
  }

  /** Exactly the first validator with the address is found, and none exactly when nobody has the address. */
  lemma {:induction false} LookupFindsFirst(validators: seq<Validator>, address: Address)
    ensures forall v :: GetByAddress(validators, address) == Some(v) <==>
              exists i :: 0 <= i < |validators| && validators[i] == v && v.address == address
                          && forall j :: 0 <= j < i ==> validators[j].address != address
    ensures GetByAddress(validators, address).None? <==>
              forall i :: 0 <= i < |validators| ==> validators[i].address != address
  {
    var found := GetByAddress(validators, address);
    if i: nat :| FirstAt(validators, i, address) {
      FoundAt(validators, i, address);
      forall v | exists k: nat :: FirstAt(validators, k, address) && validators[k] == v ensures found == Some(v) {
        var k: nat :| FirstAt(validators, k, address) && validators[k] == v;
        FoundAt(validators, k, address);
      }
      assert FirstAt(validators, i, address) && validators[i] == found.value;
    } else {
      NotFound(validators, address);
    }
  }

  lemma {:induction false} FoundAt(validators: seq<Validator>, i: nat, address: Address)
    requires FirstAt(validators, i, address)
    ensures GetByAddress(validators, address) == Some(validators[i])
  {
    if i > 0 {
      assert validators[0].address != address;
      assert forall j :: 0 <= j < i - 1 ==> validators[1..][j] == validators[j + 1];
      FoundAt(validators[1..], i - 1, address);
    }
  }

  /** Without a first position there is none, and nothing is found. */
  lemma {:induction false} NotFound(validators: seq<Validator>, address: Address)
    requires forall i: nat :: !FirstAt(validators, i, address)
    ensures GetByAddress(validators, address) == None
    ensures forall i :: 0 <= i < |validators| ==> validators[i].address != address
  {
    if validators != [] {
      assert !FirstAt(validators, 0, address);
      forall i: nat ensures !FirstAt(validators[1..], i, address) {
        if FirstAt(validators[1..], i, address) {
          forall j | 0 <= j < i + 1 ensures validators[j].address != address {
            assert j > 0 ==> validators[j] == validators[1..][j - 1];
          }
          assert FirstAt(validators, i + 1, address);
        }
      }
      NotFound(validators[1..], address);
      forall i | 0 <= i < |validators| ensures validators[i].address != address {
        assert i > 0 ==> validators[i] == validators[1..][i - 1];
      }
    }
  }

  function Verify(crypto: Crypto, validators: seq<Validator>, parts: ProposalParts): Option<SignatureVerificationError> {
    var signature := LastSignature(parts.parts);
    if signature.None? then Some(MissingFinPart)
    else
      var validator := GetByAddress(validators, parts.proposer);
      if validator.None? then Some(ProposerNotFound)
      else if crypto.verify(validator.value.publicKey, crypto.keccak(Hashed(parts.parts)), signature.value) then None
      else Some(InvalidSignature)
  }

  /** The last signature part is at position `j`. */
  predicate LastFinAt(parts: seq<ProposalPart>, j: nat) {
    j < |parts| && parts[j].Fin? && forall k :: j < k < |parts| ==> !parts[k].Fin?
  }

  lemma {:induction false} SignatureIsLast(parts: seq<ProposalPart>)
    ensures forall s :: LastSignature(parts) == Some(s) <==> exists j: nat :: LastFinAt(parts, j) && parts[j].signature == s
    ensures LastSignature(parts).None? <==> forall j :: 0 <= j < |parts| ==> !parts[j].Fin?
  {
    if parts != [] {
      var last := |parts| - 1;
      SignatureIsLast(parts[..last]);
      if parts[last].Fin? {
        assert LastFinAt(parts, last);
      } else {
        forall j: nat ensures LastFinAt(parts, j) <==> LastFinAt(parts[..last], j) {
          assert LastFinAt(parts, j) ==> j < last && parts[j] == parts[..last][j];
        }
        forall j: nat | LastFinAt(parts, j) ensures parts[j] == parts[..last][j] {
        }
      }
    }
  }

  lemma PassesWhen(crypto: Crypto, validators: seq<Validator>, parts: ProposalParts)
    ensures Verify(crypto, validators, parts) == None
       <==> exists i: nat, j: nat ::
              && FirstAt(validators, i, parts.proposer) && LastFinAt(parts.parts, j)
              && crypto.verify(validators[i].publicKey, crypto.keccak(Hashed(parts.parts)), parts.parts[j].signature)
  {
    forall i: nat | FirstAt(validators, i, parts.proposer)
      ensures GetByAddress(validators, parts.proposer) == Some(validators[i])
    {
      FoundAt(validators, i, parts.proposer);
    }
    if forall i: nat :: !FirstAt(validators, i, parts.proposer) {
      NotFound(validators, parts.proposer);
    }
    SignatureIsLast(parts.parts);
  }

  /**
    The verdict on any parts: no signature part; or else nobody with the proposer's address; or else whether the last
    signature verifies under the key of the first validator listed with that address.
  */
  lemma Verdict(crypto: Crypto, validators: seq<Validator>, parts: ProposalParts)
    ensures Verify(crypto, validators, parts) == Some(MissingFinPart)
       <==> forall j :: 0 <= j < |parts.parts| ==> !parts.parts[j].Fin?
    ensures Verify(crypto, validators, parts) == Some(ProposerNotFound)
       <==> (exists j :: 0 <= j < |parts.parts| && parts.parts[j].Fin?)
            && forall i :: 0 <= i < |validators| ==> validators[i].address != parts.proposer
    ensures Verify(crypto, validators, parts) == None
       <==> exists i: nat, j: nat ::
              && FirstAt(validators, i, parts.proposer) && LastFinAt(parts.parts, j)
              && crypto.verify(validators[i].publicKey, crypto.keccak(Hashed(parts.parts)), parts.parts[j].signature)
  {
    PassesWhen(crypto, validators, parts);
    LookupFindsFirst(validators, parts.proposer);
    SignatureIsLast(parts.parts);
  }

  /** What passes is signed with the key of a validator that has the proposer's address. */
  lemma VerifiedBySomeValidator(crypto: Crypto, validators: seq<Validator>, parts: ProposalParts) returns (i: nat, j: nat)
    requires Verify(crypto, validators, parts) == None
    ensures i < |validators| && validators[i].address == parts.proposer
    ensures j < |parts.parts| && parts.parts[j].Fin?
    ensures crypto.verify(validators[i].publicKey, crypto.keccak(Hashed(parts.parts)), parts.parts[j].signature)
  {
    Verdict(crypto, validators, parts);
    i, j :| FirstAt(validators, i, parts.proposer) && LastFinAt(parts.parts, j)
            && crypto.verify(validators[i].publicKey, crypto.keccak(Hashed(parts.parts)), parts.parts[j].signature);
  }

  function ProposedOf(crypto: Crypto, height: Height, round: Round, proposer: Address, data: Bytes): ProposedValue {
    ProposedValue(height, round, Nil, proposer, Value.New(crypto, data), true)
  }

  function Assemble(crypto: Crypto, parts: ProposalParts): (ProposedValue, Bytes) {
    var data := DataIn(parts.parts);
    (ProposedOf(crypto, parts.height, parts.round, parts.proposer, data), data)
  }

  // ---------------------------------------------------------------------------------------------
  // Sender and receiver agree

  lemma AppendPart(parts: seq<ProposalPart>, part: ProposalPart)
    ensures Hashed(parts + [part]) == Hashed(parts) + HashInput(part)
    ensures DataIn(parts + [part]) == DataIn(parts) + (if part.Data? then part.bytes else [])
    ensures LastSignature(parts + [part]) == if part.Fin? then Some(part.signature) else LastSignature(parts)
  {
    assert (parts + [part])[..|parts|] == parts;
  }

  lemma OneMoreChunk(front: seq<Bytes>, last: Bytes)
    ensures Concat(front + [last]) == Concat(front) + last
    ensures DataParts(front + [last]) == DataParts(front) + [Data(last)]
  {
    ConcatAppend(front, [last]);
    assert Concat([last]) == last + Concat([]);
  }

  lemma PreimageAppend(height: Height, round: Round, a: Bytes, b: Bytes)
    ensures Preimage(height, round, a) + b == Preimage(height, round, a + b)
  {
    Associate(Header(height, round), a, b);
  }

  lemma HeaderOnly(init: ProposalInit)
    ensures Hashed([Init(init)]) == Preimage(init.height, init.round, []) && DataIn([Init(init)]) == []
  {
    AppendPart([], Init(init));
    assert [] + [Init(init)] == [Init(init)];
    assert [] + Header(init.height, init.round) == Header(init.height, init.round) + [];
  }

  lemma {:induction false} HeaderAndChunks(init: ProposalInit, chunks: seq<Bytes>)
    ensures var parts := [Init(init)] + DataParts(chunks);
            Hashed(parts) == Preimage(init.height, init.round, Concat(chunks)) && DataIn(parts) == Concat(chunks)
  {
    if chunks == [] {
      HeaderOnly(init);
      assert [Init(init)] + DataParts([]) == [Init(init)];
    } else {
      var front, last := chunks[..|chunks| - 1], chunks[|chunks| - 1];
      HeaderAndChunks(init, front);
      assert chunks == front + [last];
      OneMoreChunk(front, last);
      AppendPart([Init(init)] + DataParts(front), Data(last));
      Associate([Init(init)], DataParts(front), [Data(last)]);
      PreimageAppend(init.height, init.round, Concat(front), last);
    }
  }

  /** However a block is cut, the receiver hashes what the sender hashed, and puts the block back together. */
  lemma PreimageRefined(init: ProposalInit, chunks: seq<Bytes>, signature: Signature)
    ensures var parts := SignedParts(init, chunks, signature);
            && Hashed(parts) == Preimage(init.height, init.round, Concat(chunks))
            && DataIn(parts) == Concat(chunks)
            && LastSignature(parts) == Some(signature)
  {
    HeaderAndChunks(init, chunks);
    AppendPart([Init(init)] + DataParts(chunks), Fin(signature));
    assert SignedParts(init, chunks, signature) == ([Init(init)] + DataParts(chunks)) + [Fin(signature)];
    assert Preimage(init.height, init.round, Concat(chunks)) + [] == Preimage(init.height, init.round, Concat(chunks));
    assert Concat(chunks) + [] == Concat(chunks);
  }

  lemma {:induction false} DataPartAt(chunks: seq<Bytes>, i: nat)
    requires i < |chunks|
    ensures DataParts(chunks)[i] == Data(chunks[i])
  {
    if i < |chunks| - 1 {
      DataPartAt(chunks[..|chunks| - 1], i);
    }
  }

  /** What a proposer makes of a block: its `Init`, the block in pieces of 128 KiB and the signature. */
  lemma MadeParts(crypto: Crypto, key: PrivateKey, address: Address, value: LocallyProposedValue, data: Bytes)
    ensures var parts := MakeParts(crypto, key, address, value, data);
            var last := |parts| - 1;
            && last >= 1
            && parts[0] == Init(ProposalInit(value.height, value.round, address))
            && (forall i :: 0 < i < last ==> parts[i].Data? && 0 < |parts[i].bytes| <= 131072)
            && (forall i :: 0 < i < last - 1 ==> |parts[i].bytes| == 131072)
            && parts[last] == Fin(crypto.sign(key, crypto.keccak(Preimage(value.height, value.round, data))))
            && DataIn(parts) == data
  {
    var parts, chunks := MakeParts(crypto, key, address, value, data), Chunks(data, CHUNK_SIZE);
    ChunksSplit(data, CHUNK_SIZE);
    PreimageRefined(ProposalInit(value.height, value.round, address), chunks,
                    crypto.sign(key, crypto.keccak(Preimage(value.height, value.round, data))));
    forall i | 0 < i < |parts| - 1 ensures parts[i] == Data(chunks[i - 1]) {
      DataPartAt(chunks, i - 1);
    }
  }

  /** Its receiver hashes what it hashed and assembles what it stored. */
  lemma PartsAssemble(crypto: Crypto, key: PrivateKey, address: Address, value: LocallyProposedValue, data: Bytes)
    ensures var parts := ProposalParts(value.height, value.round, address, MakeParts(crypto, key, address, value, data));
            && Assemble(crypto, parts) == (ProposedOf(crypto, value.height, value.round, address, data), data)
            && Hashed(parts.parts) == Preimage(value.height, value.round, data)
  {
    ChunksSplit(data, CHUNK_SIZE);
    PreimageRefined(ProposalInit(value.height, value.round, address), Chunks(data, CHUNK_SIZE),
                    crypto.sign(key, crypto.keccak(Preimage(value.height, value.round, data))));
  }

  /**
    The parts of a proposer yield its block and a valid proposal of it. They pass verification when the first
    validator listed with the proposer's address has the key that signed them.
  */
  lemma HonestProposalAccepted(crypto: Crypto, validators: seq<Validator>, key: PrivateKey, address: Address,
                               value: LocallyProposedValue, data: Bytes)
    ensures var parts := ProposalParts(value.height, value.round, address, MakeParts(crypto, key, address, value, data));
            var (p, block) := Assemble(crypto, parts);
            && block == data && p.height == value.height && p.round == value.round && p.validRound == Nil
            && p.proposer == address && p.value.value == crypto.sipHash(data) && p.value.extensions == data && p.valid
            && (crypto.SignaturesVerify() && HasKey(validators, address, crypto.publicKey(key)) ==>
                  Verify(crypto, validators, parts) == None)
  {
    var parts := ProposalParts(value.height, value.round, address, MakeParts(crypto, key, address, value, data));
    PartsAssemble(crypto, key, address, value, data);
    if crypto.SignaturesVerify() && HasKey(validators, address, crypto.publicKey(key)) {
      var i: nat :| FirstAt(validators, i, address) && validators[i].publicKey == crypto.publicKey(key);
      MadeParts(crypto, key, address, value, data);
      Verdict(crypto, validators, parts);
      assert LastFinAt(parts.parts, |parts.parts| - 1);
    }
  }

  function Inits(parts: seq<ProposalPart>): nat {
    if parts == [] then 0
    else Inits(parts[..|parts| - 1]) + (if parts[|parts| - 1].Init? then 1 else 0)
  }

  lemma {:induction false} HashedSize(parts: seq<ProposalPart>)
    ensures |Hashed(parts)| == 16 * Inits(parts) + |DataIn(parts)|
  {
    if parts != [] {
      HashedSize(parts[..|parts| - 1]);
    }
  }

  lemma {:induction false} SingleInit(parts: seq<ProposalPart>)
    requires parts != [] && parts[0].Init? && Inits(parts) == 1
    ensures Hashed(parts) == Preimage(parts[0].init.height, parts[0].init.round, DataIn(parts))
  {
    var front, last := parts[..|parts| - 1], parts[|parts| - 1];
    assert parts == front + [last];
    if front == [] {
      HeaderOnly(last.init);
      assert parts == [Init(last.init)];
    } else {
      InitsPositive(front);
      SingleInit(front);
      AppendPart(front, last);
      PreimageAppend(parts[0].init.height, parts[0].init.round, DataIn(front), HashInput(last));
    }
  }

  lemma {:induction false} InitsPositive(parts: seq<ProposalPart>)
    requires parts != [] && parts[0].Init?
    ensures Inits(parts) >= 1
  {
    if |parts| > 1 {
      InitsPositive(parts[..|parts| - 1]);
    }
  }

  /**
    For arbitrary parts that start with an `Init`, as every emission does, the verified signature covers exactly
    the reported height and round and the assembled block when there is no second `Init` among them, and only then.
  */
  lemma SignatureCoversBlock(crypto: Crypto, parts: ProposalParts)
    requires parts.parts != [] && parts.parts[0] == Init(ProposalInit(parts.height, parts.round, parts.proposer))
    ensures Hashed(parts.parts) == Preimage(parts.height, parts.round, Assemble(crypto, parts).1)
            <==> Inits(parts.parts) == 1
  {
    HashedSize(parts.parts);
    if Inits(parts.parts) == 1 {
      SingleInit(parts.parts);
    }
  }

  lemma {:induction false} HashedStartsWithInit(parts: seq<ProposalPart>)
    requires parts != [] && parts[0].Init?
    ensures |Hashed(parts)| >= 16 && Hashed(parts)[..16] == Header(parts[0].init.height, parts[0].init.round)
  {
    var front, last := parts[..|parts| - 1], parts[|parts| - 1];
    assert parts == front + [last];
    if front == [] {
      HeaderOnly(last.init);
      assert parts == [Init(last.init)];
    } else {
      HashedStartsWithInit(front);
      AppendPart(front, last);
    }
  }

  /** Different byte strings have different hashes. */
  ghost predicate CollisionFree(crypto: Crypto) {
    forall a, b :: crypto.keccak(a) == crypto.keccak(b) ==> a == b
  }

  /** Under this key only the hashes of these blocks were signed, each for a height and a round. */
  ghost predicate OnlySigned(crypto: Crypto, key: PublicKey, signed: set<(Height, Round, Bytes)>) {
    forall message, signature :: crypto.verify(key, message, signature) ==>
      exists b :: b in signed && message == crypto.keccak(Preimage(b.0, b.1, b.2))
  }

  /**
    With an ideal hash and ideal signatures, arbitrary parts that pass verification report the height and the round for
    which the proposer signed some block. The block they are assembled to is that one if and only if there is no second
    `Init` among them.
  */
  lemma VerifiedBlockWasSigned(crypto: Crypto, validators: seq<Validator>, parts: ProposalParts,
                               signed: set<(Height, Round, Bytes)>) returns (b: (Height, Round, Bytes))
    requires parts.parts != [] && parts.parts[0] == Init(ProposalInit(parts.height, parts.round, parts.proposer))
    requires CollisionFree(crypto) && Verify(crypto, validators, parts) == None
    requires forall i: nat :: FirstAt(validators, i, parts.proposer) ==> OnlySigned(crypto, validators[i].publicKey, signed)
    ensures b in signed && b.0 == parts.height && b.1 == parts.round
    ensures Assemble(crypto, parts).1 == b.2 <==> Inits(parts.parts) == 1
  {
    var hashed := Hashed(parts.parts);
    Verdict(crypto, validators, parts);
    b :| b in signed && crypto.keccak(hashed) == crypto.keccak(Preimage(b.0, b.1, b.2));
    HashedStartsWithInit(parts.parts);
    assert hashed == Preimage(parts.height, parts.round, hashed[16..]);
    PreimageInjective(parts.height, parts.round, hashed[16..], b.0, b.1, b.2);
    HashedSize(parts.parts);
    if Inits(parts.parts) == 1 {
      SingleInit(parts.parts);
      PreimageInjective(parts.height, parts.round, DataIn(parts.parts), b.0, b.1, b.2);
    } else {
      InitsPositive(parts.parts);
    }
  }

  /** Parts with the signature that an honest sender made for another block. */
  function WithSecondInit(init: ProposalInit, second: ProposalInit, rest: Bytes, signature: Signature): ProposalParts {
    ProposalParts(init.height, init.round, init.proposer, [Init(init), Init(second), Data(rest), Fin(signature)])
  }

  lemma TwoInits(init: ProposalInit, second: ProposalInit)
    ensures var parts := [Init(init), Init(second)];
            Hashed(parts) == Preimage(init.height, init.round, Header(second.height, second.round)) && DataIn(parts) == []
  {
    var header := Header(second.height, second.round);
    HeaderOnly(init);
    AppendPart([Init(init)], Init(second));
    PreimageAppend(init.height, init.round, [], header);
    assert [Init(init)] + [Init(second)] == [Init(init), Init(second)] && [] + header == header;
  }

  /** The signature part adds nothing to what is hashed or assembled. */
  lemma SignedHashes(parts: seq<ProposalPart>, signature: Signature)
    ensures var all := parts + [Fin(signature)];
            Hashed(all) == Hashed(parts) && DataIn(all) == DataIn(parts) && LastSignature(all) == Some(signature)
  {
    AppendPart(parts, Fin(signature));
    assert Hashed(parts) + [] == Hashed(parts) && DataIn(parts) + [] == DataIn(parts);
  }

  lemma FourParts<T>(a: T, b: T, c: T, d: T)
    ensures [a, b] + [c] + [d] == [a, b, c, d]
  {
  }

  lemma SecondInitHashes(init: ProposalInit, second: ProposalInit, rest: Bytes, signature: Signature)
    ensures var parts := WithSecondInit(init, second, rest, signature).parts;
            && Hashed(parts) == Preimage(init.height, init.round, Header(second.height, second.round) + rest)
            && DataIn(parts) == rest && LastSignature(parts) == Some(signature)
  {
    var p2, header := [Init(init), Init(second)], Header(second.height, second.round);
    TwoInits(init, second);
    AppendPart(p2, Data(rest));
    PreimageAppend(init.height, init.round, header, rest);
    assert [] + rest == rest;
    SignedHashes(p2 + [Data(rest)], signature);
    FourParts(Init(init), Init(second), Data(rest), Fin(signature));
  }

  /** The parts that the proposer makes of a block. */
  function HonestParts(crypto: Crypto, key: PrivateKey, init: ProposalInit, data: Bytes): seq<ProposalPart> {
    var value := LocallyProposedValue(init.height, init.round, Value.New(crypto, data));
    MakeParts(crypto, key, init.proposer, value, data)
  }

  lemma SecondInitVerifies(crypto: Crypto, validators: seq<Validator>, key: PrivateKey, init: ProposalInit,
                           second: ProposalInit, rest: Bytes)
    requires crypto.SignaturesVerify() && HasKey(validators, init.proposer, crypto.publicKey(key))
    ensures var signed := Header(second.height, second.round) + rest;
            var signature := crypto.sign(key, crypto.keccak(Preimage(init.height, init.round, signed)));
            Verify(crypto, validators, WithSecondInit(init, second, rest, signature)) == None
  {
    var signed := Header(second.height, second.round) + rest;
    var signature := crypto.sign(key, crypto.keccak(Preimage(init.height, init.round, signed)));
    var parts := WithSecondInit(init, second, rest, signature);
    var i: nat :| FirstAt(validators, i, init.proposer) && validators[i].publicKey == crypto.publicKey(key);
    SecondInitHashes(init, second, rest, signature);
    Verdict(crypto, validators, parts);
    assert LastFinAt(parts.parts, 3);
  }

  /**
    An honest sender's signature for a block that begins like a header also passes with that header cut off and given
    as a second `Init`: what is assembled then is another block than the signed one.
  */
  lemma SecondInitChangesBlock(crypto: Crypto, validators: seq<Validator>, key: PrivateKey, init: ProposalInit,
                               second: ProposalInit, rest: Bytes)
    requires crypto.SignaturesVerify() && HasKey(validators, init.proposer, crypto.publicKey(key))
    ensures var signed := Header(second.height, second.round) + rest;
            var signature := crypto.sign(key, crypto.keccak(Preimage(init.height, init.round, signed)));
            var parts := WithSecondInit(init, second, rest, signature);
            && Fin(signature) in HonestParts(crypto, key, init, signed)
            && Verify(crypto, validators, parts) == None
            && Assemble(crypto, parts).1 == rest != signed
  {
    var signed := Header(second.height, second.round) + rest;
    var signature := crypto.sign(key, crypto.keccak(Preimage(init.height, init.round, signed)));
    SecondInitHashes(init, second, rest, signature);
    SecondInitVerifies(crypto, validators, key, init, second, rest);
    var parts := HonestParts(crypto, key, init, signed);
    assert parts[|parts| - 1] == Fin(signature);
    assert |signed| == 16 + |rest|;
  }
}
