/** What a validator's signature says about the proposals that a node reassembled and stored. */
module Attestation {
  import opened Bytes
  import opened Types
  import opened Streaming
  import opened Reassembly
  import opened Signing
  import opened Store
  import opened Node
  import opened History
  import opened Origin

  // ---------------------------------------------------------------------------------------------
  // Stored proposals were signed

  /** A block that was signed for a height and a round. */
  type SignedBlock = (Height, Round, Bytes)

  ghost function PartsAt(cfg: Config, n: Node, steps: seq<Step>, i: nat): Option<ProposalParts>
    requires i < |steps| && steps[i].event.ReceivedPart? && RunAllowed(cfg, n, steps[..i])
  {
    InsertPart(Run(cfg, n, steps[..i]).streams, steps[i].event.from, steps[i].event.msg).1
  }

  /** The proposal is for the height and the round of a signed block, and of this block unless there is a second `Init`. */
  ghost predicate Matches(p: ProposedValue, parts: ProposalParts, b: SignedBlock) {
    b.0 == p.height && b.1 == p.round && (p.value.extensions == b.2 <==> Inits(parts.parts) == 1)
  }

  ghost predicate ReassembledAndSigned(cfg: Config, n: Node, steps: seq<Step>, i: nat, p: ProposedValue,
                                       signed: set<SignedBlock>)
  {
    Reassembled(cfg, n, steps, i, p) && exists b :: b in signed && Matches(p, PartsAt(cfg, n, steps, i).value, b)
  }

  /** The validators sign what they are said to sign and nothing else. */
  ghost predicate OnlyValidatorsSign(cfg: Config, signed: map<Address, set<SignedBlock>>) {
    forall i: nat, address: Address :: FirstAt(cfg.validators, i, address) ==>
      address in signed && OnlySigned(cfg.crypto, cfg.validators[i].publicKey, signed[address])
  }

  lemma ReassembledWasSigned(cfg: Config, n: Node, steps: seq<Step>, i: nat, p: ProposedValue,
                             signed: map<Address, set<SignedBlock>>)
    requires Reassembled(cfg, n, steps, i, p) && CollisionFree(cfg.crypto) && OnlyValidatorsSign(cfg, signed)
    ensures p.proposer in signed && ReassembledAndSigned(cfg, n, steps, i, p, signed[p.proposer])
  {
    var parts := PartsAt(cfg, n, steps, i).value;
    Verdict(cfg.crypto, cfg.validators, parts);
    var b := VerifiedBlockWasSigned(cfg.crypto, cfg.validators, parts, signed[p.proposer]);
    assert Matches(p, parts, b);
  }

  /**
    Over every run from an empty store, crashes included, with an ideal hash and ideal signatures: a stored proposal
    was asked of this node, or its proposer signed a block for its height and round, and it is that block if and only
    if the parts it was reassembled from have a single `Init`.
  */
  lemma StoredProposalsWereSigned(cfg: Config, first: Height, steps: seq<Step>, signed: map<Address, set<SignedBlock>>)
    requires RunAllowed(cfg, Boot(first, EMPTY_TABLES), steps)
    requires CollisionFree(cfg.crypto) && OnlyValidatorsSign(cfg, signed)
    ensures var n := Boot(first, EMPTY_TABLES);
            forall k :: k in Run(cfg, n, steps).tables.proposals ==>
              var p := Run(cfg, n, steps).tables.proposals[k];
              || (exists i :: AskedFor(cfg, steps, i, p))
              || (p.proposer in signed && exists i :: ReassembledAndSigned(cfg, n, steps, i, p, signed[p.proposer]))
  {
    var n := Boot(first, EMPTY_TABLES);
    StoredProposalsAreVouchedFor(cfg, first, steps);
    var rows := Run(cfg, n, steps).tables.proposals;
    forall k | k in rows && !(exists i :: AskedFor(cfg, steps, i, rows[k]))
      ensures rows[k].proposer in signed
           && exists i :: ReassembledAndSigned(cfg, n, steps, i, rows[k], signed[rows[k].proposer])
    {
      assert HasOrigin(cfg, n, steps, rows[k]);
      var i: nat :| Reassembled(cfg, n, steps, i, rows[k]);
      ReassembledWasSigned(cfg, n, steps, i, rows[k], signed);
    }
  }

  // ---------------------------------------------------------------------------------------------
  // A stream delivered in order

  function Sent(from: PeerId, msgs: seq<StreamMessage>): (arrivals: seq<Arrival>)
    ensures |arrivals| == |msgs|
  {
    if msgs == [] then [] else Sent(from, msgs[..|msgs| - 1]) + [(from, msgs[|msgs| - 1])]
  }

  function Delivering(from: PeerId, msgs: seq<StreamMessage>): (steps: seq<Step>)
    ensures |steps| == |msgs| && CrashFree(steps)
  {
    if msgs == [] then []
    else Delivering(from, msgs[..|msgs| - 1]) + [Done(ReceivedPart(from, msgs[|msgs| - 1]))]
  }

  lemma {:induction false} ProjectSent(from: PeerId, streamId: StreamId, msgs: seq<StreamMessage>)
    requires forall m :: m in msgs ==> m.streamId == streamId
    ensures Project(Sent(from, msgs), (from, streamId)) == msgs
  {
    if msgs != [] {
      var front, last := msgs[..|msgs| - 1], msgs[|msgs| - 1];
      assert msgs == front + [last] && last.streamId == streamId;
      ProjectSent(from, streamId, front);
      assert (Sent(from, front) + [(from, last)])[..|front|] == Sent(from, front);
    }
  }

  lemma {:induction false} ArrivalsOfDelivering(from: PeerId, msgs: seq<StreamMessage>)
    ensures Arrivals(Delivering(from, msgs)) == Sent(from, msgs)
  {
    if msgs != [] {
      var front := msgs[..|msgs| - 1];
      ArrivalsOfDelivering(from, front);
      assert Delivering(from, msgs)[..|msgs| - 1] == Delivering(from, front);
    }
  }

  lemma LastIsMissing(msgs: seq<StreamMessage>, k: nat)
    requires k < |msgs| && forall i :: 0 <= i < |msgs| ==> msgs[i].sequence == i
    ensures !Covers(msgs[..k], msgs)
  {
    assert msgs[|msgs| - 1] in msgs;
    assert forall i :: 0 <= i < k ==> msgs[..k][i].sequence == i;
  }

  lemma EmissionOfPrefix(streamId: StreamId, parts: seq<ProposalPart>, k: nat)
    requires StartsWithInit(parts) && k <= |parts|
    ensures Emission(Messages(streamId, parts)[..k + 1]) == if k == |parts| then Some(ReportOf(parts)) else None
  {
    var msgs := Messages(streamId, parts);
    assert msgs[..k + 1][..k] == msgs[..k];
    ExactlyOnce(msgs[..k + 1], streamId, parts);
    LastIsMissing(msgs, k);
    if k == |parts| {
      assert msgs[..k + 1] == msgs;
    } else {
      LastIsMissing(msgs, k + 1);
    }
  }

  lemma SentOneMore(from: PeerId, msgs: seq<StreamMessage>, k: nat)
    requires k < |msgs|
    ensures Sent(from, msgs[..k + 1]) == Sent(from, msgs[..k]) + [(from, msgs[k])]
  {
    assert msgs[..k + 1][..k] == msgs[..k];
  }

  /** Nothing is emitted before the last message, and the proposal with it. */
  lemma EmissionInOrder(from: PeerId, streamId: StreamId, parts: seq<ProposalPart>, k: nat)
    requires StartsWithInit(parts) && k <= |parts|
    ensures InsertPart(AfterAll(Sent(from, Messages(streamId, parts)[..k])), from, Messages(streamId, parts)[k]).1
         == if k == |parts| then Some(ReportOf(parts)) else None
  {
    var msgs := Messages(streamId, parts);
    SentOneMore(from, msgs, k);
    AfterAllOneMore(Sent(from, msgs[..k]), (from, msgs[k]));
    EmissionOfItsStream(Sent(from, msgs[..k + 1]));
    ProjectSent(from, streamId, msgs[..k + 1]);
    EmissionOfPrefix(streamId, parts, k);
  }

  /** A new node that gets the first messages of a stream in order has stored nothing. */
  lemma {:induction false} QuietDelivery(cfg: Config, height: Height, from: PeerId, streamId: StreamId,
                                         parts: seq<ProposalPart>, k: nat)
    requires StartsWithInit(parts) && k <= |parts|
    ensures var steps := Delivering(from, Messages(streamId, parts)[..k]);
            && RunAllowed(cfg, Boot(height, EMPTY_TABLES), steps)
            && var m := Run(cfg, Boot(height, EMPTY_TABLES), steps);
               && m.height == height && m.tables == EMPTY_TABLES
               && m.streams == AfterAll(Sent(from, Messages(streamId, parts)[..k]))
  {
    var n, msgs := Boot(height, EMPTY_TABLES), Messages(streamId, parts);
    if k > 0 {
      var front := Delivering(from, msgs[..k - 1]);
      QuietDelivery(cfg, height, from, streamId, parts, k - 1);
      assert msgs[..k][..k - 1] == msgs[..k - 1];
      EmissionInOrder(from, streamId, parts, k - 1);
      RunOneMore(cfg, n, front, Done(ReceivedPart(from, msgs[k - 1])));
      AfterAllOneMore(Sent(from, msgs[..k - 1]), (from, msgs[k - 1]));
    }
  }

  /** With the last message it takes what the parts are put together to. */
  lemma DeliveredInOrder(cfg: Config, height: Height, from: PeerId, streamId: StreamId, parts: seq<ProposalPart>)
    requires StartsWithInit(parts)
    ensures var n, steps := Boot(height, EMPTY_TABLES), Delivering(from, Messages(streamId, parts));
            && RunAllowed(cfg, n, steps)
            && Run(cfg, n, steps).tables == ApplyAll(EMPTY_TABLES, Take(cfg, height, ReportOf(parts)).0)
  {
    var n, msgs := Boot(height, EMPTY_TABLES), Messages(streamId, parts);
    QuietDelivery(cfg, height, from, streamId, parts, |parts|);
    EmissionInOrder(from, streamId, parts, |parts|);
    RunOneMore(cfg, n, Delivering(from, msgs[..|parts|]), Done(ReceivedPart(from, msgs[|parts|])));
    assert msgs[..|msgs| - 1] == msgs[..|parts|];
  }

  /**
    A node that gets the parts of `SecondInitChangesBlock` stores another block than the one that was signed. Blocks
    are opaque here; the blocks that the shipped proposer makes are JSON and never begin like a header.
  */
  lemma SecondInitIsStored(cfg: Config, key: PrivateKey, from: PeerId, streamId: StreamId, init: ProposalInit,
                           second: ProposalInit, rest: Bytes)
    requires cfg.crypto.SignaturesVerify() && HasKey(cfg.validators, init.proposer, cfg.crypto.publicKey(key))
    ensures var signed := Header(second.height, second.round) + rest;
            var signature := cfg.crypto.sign(key, cfg.crypto.keccak(Preimage(init.height, init.round, signed)));
            var n := Boot(init.height, EMPTY_TABLES);
            var steps := Delivering(from, Messages(streamId, WithSecondInit(init, second, rest, signature).parts));
            && Fin(signature) in HonestParts(cfg.crypto, key, init, signed)
            && RunAllowed(cfg, n, steps)
            && var t := Run(cfg, n, steps).tables;
               && (init.height, init.round) in t.proposals && (init.height, init.round) in t.blockData
               && t.proposals[(init.height, init.round)].value.value == cfg.crypto.sipHash(rest)
               && t.proposals[(init.height, init.round)].value.extensions == rest
               && t.blockData[(init.height, init.round)] == rest != signed
  {
    var signed := Header(second.height, second.round) + rest;
    var signature := cfg.crypto.sign(key, cfg.crypto.keccak(Preimage(init.height, init.round, signed)));
    var parts := WithSecondInit(init, second, rest, signature);
    SecondInitChangesBlock(cfg.crypto, cfg.validators, key, init, second, rest);
    DeliveredInOrder(cfg, init.height, from, streamId, parts.parts);
    assert ReportOf(parts.parts) == parts;
    StoreEffect(EMPTY_TABLES, Assemble(cfg.crypto, parts).0, (init.height, init.round), rest);
  }
}
