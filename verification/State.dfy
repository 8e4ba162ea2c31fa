/** The application state of a node and the message loop that drives it (app/src/state.rs, app/src/app.rs). */
module State {
  import opened Bytes
  import opened Types
  import opened Streaming
  import opened Reassembly
  import opened Signing
  import opened Store
  import opened Node
  import opened Codec
  import opened Rounds

  /** `assemble_value_from_parts`. */
  method AssembleValueFromParts(crypto: Crypto, parts: ProposalParts) returns (value: ProposedValue, data: Bytes)
    ensures (value, data) == Assemble(crypto, parts)
    ensures value.height == parts.height && value.round == parts.round && value.proposer == parts.proposer
    ensures value.validRound == Nil && value.valid && value.value.extensions == data
    ensures value.value.value == crypto.sipHash(data)
  {
    data := [];
    for i := 0 to |parts.parts|
      invariant data == DataIn(parts.parts[..i])
    {
      assert parts.parts[..i + 1][..i] == parts.parts[..i];
      if parts.parts[i].Data? {
        data := data + parts.parts[i].bytes;
      } else {
        assert data + [] == data;
      }
    }
    assert parts.parts[..|parts.parts|] == parts.parts;
    value := ProposedValue(parts.height, parts.round, Nil, parts.proposer, Value.New(crypto, data), true);
  }

  class State {
    const config: Config
    const store: Db
    const streamsMap: PartStreamsMap
    var streamNonce: u32
    var currentHeight: Height
    var currentRound: Round
    var currentProposer: Option<Address>
    var peers: set<PeerId>

    /** The last height handed to consensus. */
    ghost var started: Height

    ghost predicate Valid()
      reads this, store, streamsMap, streamsMap.Repr
    {
      streamsMap.Valid() && store !in streamsMap.Repr && this !in streamsMap.Repr && HasRounds(View())
    }

    ghost function View(): Node
      reads this, streamsMap, store
    {
      Node(currentHeight, currentRound, started, streamNonce, streamsMap.model, store.View())
    }

    constructor (config: Config, height: Height, store: Db)
      requires RoundsStored(store.View())
      ensures Valid() && View() == Boot(height, store.View())
      ensures this.config == config && this.store == store && fresh(streamsMap) && fresh(streamsMap.Repr)
      ensures currentProposer == None && peers == {}
    {
      this.config, this.store := config, store;
      streamsMap := new PartStreamsMap();
      streamNonce, currentHeight, currentRound, currentProposer, peers := 0, height, At(0), None, {};
      started := height;
    }

    // -------------------------------------------------------------------------------------------
    // Queries

    method GetEarliestHeight() returns (height: Height)
      ensures IsEarliest(store.View(), height)
      ensures if store.decidedValues == map[] then height == 1
              else height in store.decidedValues && forall h :: h in store.decidedValues ==> height <= h
    {
      var least := store.MinDecidedValueHeight();
      height := if least.Some? then least.value else DEFAULT_HEIGHT;
    }

    method GetDecidedValue(height: Height) returns (value: Option<DecidedValue>)
      ensures value == DecidedAt(store.View(), height)
    {
      value := store.GetDecidedValue(height);
    }

    // -------------------------------------------------------------------------------------------
    // Receiving

    method VerifyProposalSignature(parts: ProposalParts) returns (error: Option<SignatureVerificationError>)
      ensures error == Verify(config.crypto, config.validators, parts)
    {
      var hashed, signature := [], None;
      for i := 0 to |parts.parts|
        invariant hashed == Hashed(parts.parts[..i]) && signature == LastSignature(parts.parts[..i])
      {
        assert parts.parts[..i + 1][..i] == parts.parts[..i];
        match parts.parts[i] {
          case Init(init) =>
            hashed := hashed + Word(init.height);
            hashed := hashed + Word(TwosComplement(init.round.AsI64()));
            assert hashed == Hashed(parts.parts[..i]) + Header(init.height, init.round);
          case Data(bytes) => hashed := hashed + bytes;
          case Fin(s) => signature := Some(s);
        }
      }
      assert parts.parts[..|parts.parts|] == parts.parts;
      var hash := config.crypto.keccak(hashed);
      if signature.None? {
        return Some(MissingFinPart);
      }
      var validator := GetByAddress(config.validators, parts.proposer);
      if validator.None? {
        return Some(ProposerNotFound);
      }
      if !config.crypto.verify(validator.value.publicKey, hash, signature.value) {
        return Some(InvalidSignature);
      }
      return None;
    }

    method ReceivedProposalPart(from: PeerId, part: StreamMessage) returns (reply: Option<ProposedValue>)
      requires Valid() && Countable(part) && HasRound(part)
      modifies streamsMap.Repr, store
      ensures Valid() && fresh(streamsMap.Repr - old(streamsMap.Repr))
      ensures View() == Handle(config, old(View()), ReceivedPart(from, part))
      ensures store.log == old(store.log) + Txns(config, old(View()), ReceivedPart(from, part))
      ensures reply == ReceiveReply(config, old(View()), from, part)
    {
      RoundsStayPresent(streamsMap.model, from, part);
      HandlerKeepsRounds(config, View(), ReceivedPart(from, part));
      var parts := streamsMap.Insert(from, part);
      if parts.None? {
        return None;
      }
      reply := TakeParts(parts.value);
    }

    /** What follows once all parts are there. */
    method TakeParts(parts: ProposalParts) returns (reply: Option<ProposedValue>)
      requires parts.round.At?
      modifies store
      ensures var (txns, value) := Take(config, currentHeight, parts);
              && reply == value
              && store.View() == ApplyAll(old(store.View()), txns)
              && store.log == old(store.log) + txns
      ensures reply.Some? <==> parts.height >= currentHeight && Verify(config.crypto, config.validators, parts).None?
      ensures reply.None? ==> store.View() == old(store.View()) && store.log == old(store.log)
      ensures reply.Some? ==>
        var p := reply.value;
        && p.height == parts.height && p.round == parts.round && p.validRound == Nil && p.proposer == parts.proposer
        && p.value.value == config.crypto.sipHash(p.value.extensions) && p.value.extensions == DataIn(parts.parts)
        && p.valid
        && store.log == old(store.log) + [StoreProposal(p), StoreBlockData((p.height, p.round), p.value.extensions)]
    {
      if parts.height < currentHeight {
        return None;
      }
      var error := VerifyProposalSignature(parts);
      if error.Some? {
        return None;
      }
      var value, data := AssembleValueFromParts(config.crypto, parts);
      ApplyTwo(store.View(), StoreProposal(value), StoreBlockData((parts.height, parts.round), data));
      store.InsertUndecidedProposal(value);
      store.InsertUndecidedBlockData(parts.height, parts.round, data);
      reply := Some(value);
    }

    // -------------------------------------------------------------------------------------------
    // Proposing

    method ProposeValue(height: Height, round: Round, data: Bytes) returns (value: LocallyProposedValue)
      requires height == currentHeight && round == currentRound && round.At?
      modifies store
      ensures value.height == height && value.round == round
      ensures value.value.value == config.crypto.sipHash(data) && value.value.extensions == data
      ensures (height, round) in store.View().proposals
      ensures (height, round) in old(store.View()).proposals ==>
        store.View().proposals[(height, round)] == old(store.View()).proposals[(height, round)]
      ensures (height, round) !in old(store.View()).proposals ==>
        var p := store.View().proposals[(height, round)];
        && p.height == height && p.round == round && p.validRound == Nil && p.proposer == config.address
        && p.value == value.value && p.valid
      ensures value == ValueFor(config, height, round, data)
      ensures store.View() == ApplyAll(old(store.View()), ProposeTxns(config, height, round, data))
      ensures store.log == old(store.log) + ProposeTxns(config, height, round, data)
    {
      var proposal := ProposedValue(height, round, Nil, config.address, Value.New(config.crypto, data), true);
      ApplyTwo(store.View(), StoreProposal(proposal), StoreBlockData((height, round), data));
      store.InsertUndecidedProposal(proposal);
      store.InsertUndecidedBlockData(height, round, data);
      value := LocallyProposedValue(proposal.height, proposal.round, proposal.value);
    }

    /** `stream_id`: panics without a round and when the counter overflows. */
    method NextStreamId() returns (id: StreamId)
      requires currentRound.At? && streamNonce < 0xFFFF_FFFF
      modifies this`streamNonce
      ensures id == StreamIdBytes(currentHeight, currentRound.number, old(streamNonce))
      ensures streamNonce == old(streamNonce) + 1
    {
      id := BigEndian(currentHeight, 8);
      id := id + BigEndian(currentRound.AsU32().value, 4);
      id := id + BigEndian(streamNonce, 4);
      streamNonce := streamNonce + 1;
    }

    method MakeProposalParts(value: LocallyProposedValue, data: Bytes) returns (parts: seq<ProposalPart>)
      ensures parts == MakeParts(config.crypto, config.key, config.address, value, data)
    {
      var chunks := Chunks(data, CHUNK_SIZE);
      var init := ProposalInit(value.height, value.round, config.address);
      parts := [Init(init)];
      var hashed := Word(value.height) + Word(TwosComplement(value.round.AsI64()));
      for i := 0 to |chunks|
        invariant parts == [Init(init)] + DataParts(chunks[..i])
        invariant hashed == Preimage(value.height, value.round, Concat(chunks[..i]))
      {
        assert chunks[..i + 1][..i] == chunks[..i];
        assert chunks[..i + 1] == chunks[..i] + [chunks[i]];
        ConcatAppend(chunks[..i], [chunks[i]]);
        assert Concat([chunks[i]]) == chunks[i];
        parts := parts + [Data(chunks[i])];
        hashed := hashed + chunks[i];
      }
      assert chunks[..|chunks|] == chunks;
      ChunksSplit(data, CHUNK_SIZE);
      var signature := config.crypto.sign(config.key, config.crypto.keccak(hashed));
      parts := parts + [Fin(signature)];
    }

    method StreamProposal(value: LocallyProposedValue, data: Bytes) returns (msgs: seq<StreamMessage>)
      requires currentRound.At? && streamNonce < 0xFFFF_FFFF && Streamable(data)
      modifies this`streamNonce
      ensures streamNonce == old(streamNonce) + 1
      ensures msgs == Messages(StreamIdBytes(currentHeight, currentRound.number, old(streamNonce)),
                               MakeParts(config.crypto, config.key, config.address, value, data))
    {
      var parts := MakeProposalParts(value, data);
      var streamId := NextStreamId();
      ghost var all := Messages(streamId, parts);
      msgs := [];
      var sequence := 0;
      for i := 0 to |parts|
        invariant sequence == i && msgs == all[..i]
      {
        msgs := msgs + [StreamMessage(streamId, sequence, Part(parts[i]))];
        sequence := sequence + 1;
      }
      msgs := msgs + [StreamMessage(streamId, sequence, EndOfStream)];
      assert msgs == all;
    }

    // -------------------------------------------------------------------------------------------
    // Deciding

    method Commit(certificate: CommitCertificate)
      requires RoundsStored(store.View())
      requires (certificate.height, certificate.round) in store.View().proposals ==> currentHeight < 0xFFFF_FFFF_FFFF_FFFF
      modifies this`currentHeight, this`currentRound, store
      ensures store.View() == ApplyAll(old(store.View()), CommitTxns(old(store.View()), certificate))
      ensures store.log == old(store.log) + CommitTxns(old(store.View()), certificate)
      ensures (currentHeight, currentRound) ==
                if (certificate.height, certificate.round) in old(store.View()).proposals
                then (old(currentHeight) + 1, At(0)) else (old(currentHeight), old(currentRound))
    {
      var proposal := store.GetUndecidedProposal(certificate.height, certificate.round);
      if proposal.None? {
        return;
      }
      ghost var t := store.View();
      StoreDecision(certificate, proposal.value.value);
      var retainHeight := if certificate.height < MAX_HISTORY_LENGTH then 0 else certificate.height - MAX_HISTORY_LENGTH;
      ApplyOneMore(t, DecisionTxns(t, certificate), Prune(retainHeight));
      var pruned := store.Prune(retainHeight);
      currentHeight := currentHeight + 1;
      currentRound := At(0);
    }

    /** The part of `commit` before the prune. */
    method StoreDecision(certificate: CommitCertificate, value: Value)
      requires certificate.round.At? && (certificate.height, certificate.round) in store.View().proposals
      requires value == store.View().proposals[(certificate.height, certificate.round)].value
      modifies store
      ensures store.View() == ApplyAll(old(store.View()), DecisionTxns(old(store.View()), certificate))
      ensures store.log == old(store.log) + DecisionTxns(old(store.View()), certificate)
    {
      ghost var t, decide := store.View(), StoreDecided(value, certificate);
      store.InsertDecidedValue(DecidedValue(value, certificate));
      var blockData := store.GetBlockData(certificate.height, certificate.round);
      if blockData.Some? {
        ApplyTwo(t, decide, StoreDecidedData(certificate.height, blockData.value));
        store.InsertDecidedBlockData(certificate.height, blockData.value);
      } else {
        assert DecisionTxns(t, certificate) == [decide];
        ApplyOneMore(t, [], decide);
        assert [] + [decide] == [decide];
      }
    }
  }
}
