# A model of the application node

This project models the application side of a Tendermint-style node (crates `app` and `types`) and proves what it
keeps. A block is cut into a signed stream of messages, carried by an unreliable network, reassembled, verified,
stored, committed and pruned; the hardest properties cross all of these steps.

`dafny verify dfyconfig.toml` checks everything.

## Structure

| file | what it models |
|---|---|
| Bytes, Types | integers of fixed width and their encodings; the values that nodes exchange; hash functions and the signature scheme as parameters |
| Streaming | `StreamState` and `PartStreamsMap` as classes that update their fields, with the pop loop of the heap, proved against functions on values |
| Reassembly | theorems about these functions: all orders, duplications and interleavings, honest and arbitrary messages |
| Signing | chunking, the signed preimage, stream identifiers, verification and assembly |
| Keys, Store | key encodings and orders; the five tables as a class, each transaction proved to be one atomic step |
| Node | a node as a state machine: events, the transactions each commits one by one, crashes between any two of them |
| Safety, History, Retention, Index, Origin | invariants over all runs of one node |
| Attestation | what signatures say about stored proposals |
| Cluster | nodes, an unreliable network and an abstract consensus as one step system |
| Availability | a publication that reaches a node in time is held, kept and can be decided |
| Replies | consensus is told the same value by the proposer of a block and by everyone who receives it |
| State, App | `State` as a class and the message loop, proved to take exactly the steps of the state machine |
| Wire, Protos, VoteProtos, Codec | the Protocol Buffers wire format, the generated messages and the codec |
| WireVectors | every message of the codec byte by byte |
| Rounds | rounds are present wherever an encoder needs them, so stored rows read back and decisions reach lagging peers |
| Proposers | proposer rotation and validator sets |
| BlockFile, TestBlocks | the length-framed block file and the parallel nonce counter |

## What the environment is assumed to do

The repository does not enforce these; they are preconditions here (`Node.Promised`, `Node.Safe`,
`Cluster.ClusterAllowed`).

- A stream message is the first when its sequence number is 0, and the last when its content is `Fin`.
- A round is absent or a 32-bit number; as a signed integer the absent round is -1, and negative integers read as
  the absent round.
- `StartedRound` carries the last height that was handed to consensus; `Decided` carries a certificate of the current
  height; `GetValue` is for the current height and round. A height may be decided again after a restart.
- There is at most one proposal for a height and a round. Only `Cluster` and the last part of `Index` need this.
- A message that reaches a node in `Cluster` is delivered with its publisher as its origin.
- A synced value that is handed to the application decodes; the code panics on one that does not (`App.MsgSafe`).
- In `Cluster` every node runs this code; `Reassembly` and `Origin` also speak about arbitrary messages.
- A signature made by a key verifies under its public key (`Types.Crypto.SignaturesVerify`), where a theorem says so,
  and a proposer is known when the first validator listed with its address has its key (`Origin.Knows`).
  Only `Signing.VerifiedBlockWasSigned` and `Attestation` assume more: no collisions, and no signatures but those
  that were made.
- Arithmetic that overflows panics, as do encoders that meet an absent round: both are preconditions. Encoded messages
  are shorter than 2^64 bytes.

## What the code does differently from what one might expect

For each of these there is a lemma that says exactly when it matters, and an input at which it does.

- The clean-up test of `PartStreamsMap::insert` never succeeds: by the time it runs, `init_info` has been taken and the
  heap drained (`Reassembly.EntriesStay`, for all inputs). At-most-once emission rests on the entry that stays.
- A stream is complete when enough messages were counted, not when none is missing: an emission is free of gaps exactly
  when no message beyond the end was counted (`Reassembly.GapFreeEmission`, `Reassembly.GapIsEmitted`).
- The receiver hashes every `Init` part. A verified block is the one that the proposer signed if and only if there is a
  single `Init` (`Signing.VerifiedBlockWasSigned`, `Attestation.StoredProposalsWereSigned`). The input is
  `Attestation.SecondInitIsStored`; it needs a signed block that begins like a header, which the JSON that the shipped
  proposer signs never does.
- The stream counter starts at 0 after a restart. Two proposals have the same stream identifier exactly when they are
  for the same height and round and equally many were made before each since the last restart
  (`Origin.StreamIdsEqualWhen`, `Origin.RestartRepeatsStreamId`).
- A node restarts at a configured height, not at the one it had reached. The window of decided heights survives exactly
  those restarts that are in place (`History.SlidingHistory`, `History.RestartBreaksWindow`), and a pruned key comes back
  exactly when a restart is at its height or below (`Retention.ComesBackIff`, `Retention.RestartBringsBack`).
- Block data can part from the value it belongs to: by a crash between the two transactions of a new proposal, and by a
  second decision of a height in another round, which overwrites the value and not the block data. Which steps do this
  is exact (`Index.IndexAgreement`, `Index.DataDespiteCrashes`, `Cluster.DataAlwaysAgrees`); the inputs are
  `Index.CrashBreaksAgreement` and `Index.SecondDecisionKeepsFirstData`.
- `GetHistoryMinHeight` answers 1 on an empty store, whatever height the node started at (`History.EarliestIsServed`).
- `commit` never compares the certificate's value id with the stored value (`History.NamesMatchThroughoutWhen`,
  `History.DecidesAnotherValue`).
- A validator set is documented as sorted by address, but nothing sorts it and only neighbouring duplicates are removed
  (`Proposers.SortedOnlyIfGivenSorted`, `Proposers.UniqueOnlyIfGrouped`, `Proposers.SomeSetIsUnordered`).
- The rotation is fair to the indices of a validator set. It is fair to the validators exactly when none is listed
  twice (`Proposers.FairWhenUnique`, `Proposers.FairWhenGrouped`, `Proposers.SomeSetIsUnfair`).
- Votes lose their extension on the wire (`Codec.VoteSetTravels`).
- A block of 4 GiB or more is written with a truncated length and is not read back (`BlockFile.RoundTripIffFramable`).

## Model

| member | source | states |
|---|---|---|
| Streaming.Pop | app/src/streaming.rs:19-23 | under the reversed order the heap gives up a message that no other exceeds and keeps all others |
| Streaming.StreamState.Drain | app/src/streaming.rs:48-56 | the pop loop ends with an empty heap; messages leave by ascending sequence number, all of them, and their data comes out in that order, `Fin` contributing none; for distinct numbers the result is unique |
| Streaming.DrainedInOrder | app/src/streaming.rs:48-56 | any ascending arrangement of distinct messages has the data of the one listing by sequence number |
| Streaming.StreamState.Seen | app/src/streaming.rs:130-133 | whether the sequence number is new, and that it is seen from then on |
| Streaming.StreamState.Insert | app/src/streaming.rs:73-97 | the whole new state and the emission, both as the value function says |
| Streaming.StreamState.Accept | app/src/streaming.rs:130-135 | duplicates change nothing and emit nothing; new messages are inserted |
| Streaming.StreamState.Complete | app/src/streaming.rs:86-93 | the emission takes height, round and proposer from the `Init` and all parts in order; heap and `init_info` are empty afterwards, the seen numbers are not |
| Streaming.PartStreamsMap.Entry | app/src/streaming.rs:125-128 | an absent entry is created empty, a present one is left alone, and no other entry changes |
| Streaming.PartStreamsMap.Deliver | app/src/streaming.rs:130-135 | only the entry of the key changes |
| Streaming.PartStreamsMap.CleanUp | app/src/streaming.rs:137-139 | an entry that is done at this point is removed, and only then |
| Streaming.PartStreamsMap.Insert | app/src/streaming.rs:118-142 | map and result are those of the value function for every message whatever |
| Reassembly.EntriesStay | app/src/streaming.rs:137-139 | no message ever removes an entry, because the clean-up test cannot succeed |
| Reassembly.AtMostOneEmission | app/src/streaming.rs:69-98 | for any messages whatever, once a stream has emitted it never emits again |
| Reassembly.EmissionStartsWithInit | app/src/streaming.rs:74-92 | for any messages whatever, the first part of an emission is the `Init` whose height, round and proposer are reported |
| Reassembly.EmitsWhenComplete | app/src/streaming.rs:69-98 | for any messages whatever, an emission happens exactly at the first new message that makes the messages not dropped so far look complete, and lists their parts by sequence number |
| Reassembly.GapFreeEmission | app/src/streaming.rs:69-81 | an emission has no gaps if and only if no message beyond the end of the stream was counted |
| Reassembly.GapIsEmitted | app/src/streaming.rs:69-81 | an emission of a stream that ends at 2, with a message numbered 5 in place of the one numbered 1 |
| Reassembly.Pigeonhole | app/src/streaming.rs:69-71 | distinct sequence numbers below n are at most n, and n of them exactly when none is missing |
| Reassembly.AllBuffered | app/src/streaming.rs:69-93 | as many distinct messages as an honest stream has are the whole stream, and drain to its parts |
| Reassembly.HonestDelivery | app/src/streaming.rs:69-98 | until the last missing message arrives the receiver knows exactly what was delivered; from then on the stream is spent |
| Reassembly.ExactlyOnce | app/src/streaming.rs:118-142 | for every order and duplication of an honest stream, a message emits if and only if it is the last missing one, and what is emitted is the sender's proposal |
| Reassembly.DeliveredOnce | app/src/streaming.rs:118-142 | over a whole delivery with every message at least once exactly one arrival emits, the one of the last missing message |
| Reassembly.EveryStreamAlone | app/src/streaming.rs:118-142 | in any interleaving of peers and streams, the entry of a key is what its own messages alone make of it |
| Reassembly.EmissionOfItsStream | app/src/streaming.rs:118-142 | in any interleaving, a message emits what it would emit if only its own stream existed |
| Reassembly.AtMostOncePerStream | app/src/streaming.rs:118-142 | whatever reaches the map and in whatever interleaving, once a stream of a peer has emitted no later message of that stream does |
| Signing.ChunksSplit | app/src/state.rs:390-394 | chunks concatenate to the block; each but the last has full size, and none is empty |
| Signing.ChunkCount | app/src/state.rs:390-394 | there are exactly as many chunks as the block needs, none for an empty block and no extra one for an exact multiple |
| Signing.MadeParts | app/src/state.rs:368-404 | the `Init` of height, round and own address, then only data parts, of 131072 bytes each but for a shorter last one and making up the block, then the signature of the hash of the preimage |
| Signing.PreimageBytes | app/src/state.rs:384-385 | the signed bytes place by place: 8 of the height, 8 of the round in two's complement, most significant first, and the block |
| Signing.PreimageInjective | app/src/state.rs:384-385 | equal signed byte strings come from equal height, round and data, the absent round included |
| Signing.StreamIdInjective | app/src/state.rs:335-342 | equal stream identifiers come from equal height, round and counter |
| Signing.StreamIdPlaces | app/src/state.rs:335-342 | a stream identifier place by place: 8 bytes of the height, 4 of the round, 4 of the counter, most significant first |
| Signing.LookupFindsFirst | types/src/validator_set.rs:78-80 | exactly the validator at the first position with this address is found, and none if and only if nobody has the address |
| Signing.SignatureIsLast | app/src/state.rs:418-434 | the signature is the one of the last `Fin`, and there is none if and only if no part is a `Fin` |
| Signing.Verdict | app/src/state.rs:413-453 | for arbitrary parts: `MissingFinPart` if and only if no part is a `Fin`; `ProposerNotFound` if and only if one is but nobody has the address; accepted if and only if the last signature verifies under the key of the first validator with the address; so `InvalidSignature` in all other cases |
| Signing.VerifiedBySomeValidator | app/src/state.rs:436-450 | accepted parts carry a signature that verifies under the key of a validator with the proposer's address |
| Signing.PreimageRefined | app/src/state.rs:413-434 | however a block is cut, the receiver hashes from the parts what the sender hashed, finds the signature and puts the block back together |
| Signing.HonestProposalAccepted | app/src/state.rs:368-404 | the parts that a sender makes of any block assemble to that block and to a valid proposal for its height and round with no valid round, its address and the hash of the block; they pass verification when the first validator listed with that address has the key |
| Signing.SignatureCoversBlock | app/src/state.rs:421-436 | for arbitrary parts the verified byte string is the reported height, the reported round and the assembled block if and only if there is exactly one `Init` among them |
| Signing.VerifiedBlockWasSigned | app/src/state.rs:413-453 | with an ideal hash and ideal signatures, arbitrary verified parts report a height and a round for which the first validator with the proposer's address signed a block, and assemble to that block if and only if there is a single `Init` |
| Signing.SecondInitChangesBlock | app/src/state.rs:421-426 | an honest signature for one block with which other parts pass verification and assemble to another block |
| Keys.KeyRoundTrip | app/src/store/keys.rs:23-34 | table keys read back as they were stored, the absent round as -1 included |
| Keys.RoundRoundTrip | app/src/store/keys.rs:62-72 | rounds go through two's complement and back |
| Keys.KeyPlaces | app/src/store/keys.rs:23-34 | a key place by place: height and round as 64-bit integers, least significant byte first, the absent round as eight bytes of 255 |
| Keys.AnyIntegerReads | app/src/store/keys.rs:62-68 | whatever integer is stored: a negative one reads as no round, any other by its low 32 bits |
| Keys.KeyOrder | app/src/store/keys.rs:41-83 | the order of stored keys is lexicographic on height and round number |
| Keys.NilIsLeast | app/src/store/keys.rs:79-83 | a bound without a round cuts between heights: every key of a smaller height is below it and no other |
| Store.Db.GetDecidedValue | app/src/store.rs:96-131 | value and certificate of the height when both are there, and nothing otherwise |
| Store.Db.InsertDecidedValue | app/src/store.rs:133-160 | value and certificate are written in one transaction, overwriting |
| Store.Db.GetUndecidedProposal | app/src/store.rs:163-193 | the proposal stored under the key, or none |
| Store.Db.InsertUndecidedProposal | app/src/store.rs:195-218 | one transaction that writes only if the key is absent |
| Store.Db.InsertUndecidedBlockData | app/src/store.rs:373-397 | one transaction that writes only if the key is absent |
| Store.Db.InsertDecidedBlockData | app/src/store.rs:399-417 | one transaction that writes only if the height is absent |
| Store.Db.GetBlockData | app/src/store.rs:341-371 | undecided data of the height and round, or else decided data of the height, or else nothing |
| Store.Db.UndecidedRange | app/src/store.rs:235-248 | the range over encoded keys below (height, no round) is exactly the keys of smaller heights |
| Store.Db.HeightRange | app/src/store.rs:220-233 | the range over encoded heights is exactly the smaller heights |
| Store.Db.RemoveBelow | app/src/store.rs:271-282 | collecting and removing keys is a filter on heights, for every round |
| Store.Db.Prune | app/src/store.rs:265-303 | one transaction on all five tables; the answer is the pruned decided heights |
| Store.Db.MinDecidedValueHeight | app/src/store.rs:305-317 | the least decided height, or none on an empty table |
| Safety.TxnsKeepConsistent | app/src/state.rs:206-209 | after every prefix of a handler's transactions the tables still fit together |
| Safety.ConsistentForever | app/src/state.rs:250-286 | over every run, with crashes between any two transactions, decided values and certificates have the same heights, decided block data only those, and undecided block data only keys of undecided proposals |
| Safety.PruneIsAHeightFilter | app/src/store.rs:265-303 | hence a completed prune leaves in each of the five tables exactly the rows from the retained height on, unchanged |
| History.CommitEffect | app/src/state.rs:221-293 | a commit amounts to deciding the stored proposal with its block data and then pruning by height |
| History.CommitKeepsLast | app/src/state.rs:279-286 | a completed commit of a height leaves, in each of the five tables, exactly the rows at heights from 25 below it on, the new decision included |
| History.CommitKeepsRows | app/src/state.rs:231-286 | these rows are what they were; only the decision is new, and its block data is what the height already had or else that of the decided round |
| History.DecidesTheStoredProposal | app/src/state.rs:231-252 | the stored proposal of the certificate's round is decided, on that certificate |
| History.NamesMatchWhen | app/src/state.rs:231-252 | a step, crashed anywhere or not, keeps the ids of decided values equal to those in their certificates if and only if it writes no decision on a certificate that names another value than the stored one |
| History.NamesMatchThroughoutWhen | app/src/state.rs:231-252 | over every run, crashes included, these ids are equal at all times if and only if every decision is written on a certificate that names the stored proposal of its round |
| History.DecidesAnotherValue | app/src/state.rs:231-252 | a run that decides a value on a certificate for another one |
| History.SlidingHistory | app/src/state.rs:279-290 | over every run, crashes included, the node holds at all times exactly the decisions of the last 26 heights below its own, or all since its first, and no older proposal, if and only if every restart is in place |
| History.WindowStep | app/src/state.rs:250-290 | one step, crashed anywhere or not, keeps the window exactly when it is in place: restarted at its height, or at the next one if the decision was written and the missing prune had nothing to do |
| History.CrashFreeIsInPlace | app/src/app.rs:16-162 | runs without crashes are always in place |
| History.RestartBreaksWindow | app/src/node.rs:147-153 | a restart at the configured height after one decision breaks the window |
| History.HeightAdvancesWithDecisions | app/src/state.rs:288-290 | the height advances, by one and to round 0, exactly when a decision is written, which is at the old height |
| History.EarliestIsServed | app/src/app.rs:219-225 | every height from the answer to `GetHistoryMinHeight` up to the current one is served, if and only if something was decided or the node started at height 1 or below |
| History.WindowSize | app/src/state.rs:36-37 | then it holds 26 decisions once it is 26 heights past its first, and one for every height before that |
| Retention.RowsAfterStep | app/src/store.rs:195-218 | no step, crashed anywhere or not, changes a proposal or its block data; it removes one exactly when it commits a prune above it; and it adds none below its height |
| Retention.HeldUntilPruned | app/src/store.rs:265-282 | over any run from any node, crashes included, a proposal and its block data stay unchanged at all times if and only if no prune covers their height |
| Retention.HeldWithoutLaterDecision | app/src/state.rs:279-286 | so they survive every run without a decision more than 25 heights above them, and are there when their own height is decided |
| Retention.WriteOnceUntilPruned | app/src/state.rs:279-290 | over every run whose restarts are in place, from any moment to any later one, they are unchanged while their height is within 26, and gone for good afterwards |
| Retention.StaysAway | app/src/state.rs:165-176 | a key that the node has passed and does not hold stays away while no restart is at or below its height |
| Retention.RestartBringsBack | app/src/node.rs:147-153 | a restart at the height of a pruned key and a proposal for it bring it back |
| Retention.ComesBackIff | app/src/state.rs:303-304 | a pruned key can come back if and only if the node may be restarted at its height or below |
| Index.RootedForever | app/src/state.rs:231-252 | over every run, crashes and repeated decisions included: every stored proposal is a valid one for its key, without valid round, with the hash of its bytes; every decided value is the proposal held for its height and the round of its certificate |
| Index.IndexAgreement | app/src/state.rs:250-263 | over every run, crashes included, block data and values go together at all times in both pairs of tables, if and only if every step settles: no crash between a new proposal and its data, no decision over the data of another block, no crash between a decision and its data |
| Index.PairedCommit | app/src/state.rs:250-286 | the exact condition for one commit, cut off after any of its transactions |
| Index.OrderlyRunsSettle | app/src/app.rs:132-162 | runs without a crash inside a handler, restarts allowed, in which no height is decided while it has a decision, always settle |
| Index.LookupFindsDecidedBlock | app/src/store.rs:341-371 | then looking up the data of the decided round gives the decided block |
| Index.StoringAgreesWhen | app/src/state.rs:205-209 | exactly when storing a proposal ends with block data that matches the value under its key |
| Index.CrashBreaksAgreement | app/src/state.rs:205-209 | a run with a crash between the two transactions and a second block for the key that ends in disagreement |
| Index.SecondDecisionKeepsFirstData | app/src/store.rs:399-417 | a run with one block for each key and a clean restart that ends with the value of one block and the decided data of another |
| Index.TxnsKeepAgreement | app/src/state.rs:250-263 | with one block for a key, every prefix of a handler's transactions keeps proposals, their data and decided values to what was proposed |
| Index.AgreementDespiteCrashes | app/src/state.rs:195-209 | so does every run, with crashes anywhere and heights decided any number of times |
| Index.DataDespiteCrashes | app/src/store.rs:399-417 | decided block data is at all times that of the block decided on, if and only if no decision is written over the data of another block |
| Index.AgreementIsIndexAgreement | app/src/store.rs:341-371 | tables that hold what was proposed and decided agree with each other |
| Origin.StoredProposalsAreVouchedFor | app/src/state.rs:152-209 | over every run, crashes included, a stored proposal was asked of this node, or some arrival of the run completed a stream in this node's memory whose parts were not outdated, passed verification and assemble to it |
| Origin.NonceCounts | app/src/state.rs:340 | over every run the stream counter is the number of proposals since the last restart |
| Origin.StreamIdsEqualWhen | app/src/state.rs:335-342 | over every run, crashes included, two proposals have the same stream identifier if and only if they have the same height and round and equally many proposals preceded each since the restart before it |
| Origin.StreamIdsDistinct | app/src/state.rs:335-342 | hence the streams that a node publishes between restarts have pairwise different identifiers |
| Origin.RestartRepeatsStreamId | app/src/state.rs:128 | a restart and a second proposal for the same height and round repeat the identifier |
| Origin.StreamsFromArrivals | app/src/state.rs:160-162 | whatever else a node does between restarts, its streams are made by the messages that reached it and nothing else |
| Origin.BlockArrivesOnce | app/src/state.rs:346-485 | for every block and every delivery of its stream, one arrival emits and what it emits assembles to the block and its proposal |
| Origin.CompletedStreamEmits | app/src/streaming.rs:118-142 | among arbitrary other arrivals, the message that completes an honest stream emits the sender's parts |
| Origin.HonestProposalIsStored | app/src/state.rs:152-212 | while a node runs, and whatever else reaches it, the message that completes the stream of a known proposer is answered with a valid proposal of that height and round, that address and that block with its hash; exactly this proposal and the block are committed, and held unless the node had stored something else for that height and round |
| Attestation.ReassembledWasSigned | app/src/state.rs:178-209 | with an ideal hash and ideal signatures, the proposer of a reassembled proposal signed a block for its height and round, and it is that block if and only if the parts have a single `Init` |
| Attestation.StoredProposalsWereSigned | app/src/state.rs:152-209 | so over every run, crashes included, every stored proposal was asked of this node or is attested in this way |
| Attestation.DeliveredInOrder | app/src/state.rs:152-212 | a new node that gets any stream in order stores nothing before its last message, and then what its parts are put together to |
| Attestation.SecondInitIsStored | app/src/state.rs:421-426 | a run that stores another block than the one that was signed |
| Cluster.Delivery | app/src/state.rs:152-162 | a genuine message emits nothing or exactly what its publisher proposed, in every state of a cluster |
| Cluster.TakesPublication | app/src/state.rs:164-212 | what any node takes from a reassembled publication is the proposal as its publisher stored it |
| Cluster.ClusterStepSafe | app/src/app.rs:55-162 | every step of every node, crashed or not, keeps all nodes to what was published |
| Cluster.AlwaysSafe | app/src/app.rs:16-162 | so does every run of the cluster from empty stores, over a network that drops, delays, reorders and duplicates, with heights decided any number of times |
| Cluster.Agreement | app/src/state.rs:221-333 | what one node holds at one time and another at any later time agree: same decided value for a height decided on certificates of the same round, same proposal and block data for the same height and round, the proposer's own included |
| Cluster.DataAlwaysAgrees | app/src/store.rs:399-417 | in every run all decided block data is at all times that of the block decided on, if and only if no node writes a decision over the data of another block |
| Cluster.OneRoundKeepsBlocks | app/src/app.rs:132-162 | no node does when consensus decides a height in one round only |
| Cluster.DataAgreement | app/src/state.rs:250-263 | in such runs decided block data agrees too, between any two nodes at any two times |
| Availability.NodeRun | app/src/app.rs:16-162 | in a run of the cluster each node makes a run of its own, so every theorem about runs applies to it |
| Availability.Available | app/src/state.rs:152-212 | in every run of the cluster, crashes included, a node that got a whole publication of a proposer it knows since its last restart, before passing its height, holds that proposal and its block |
| Availability.StaysAvailable | app/src/store.rs:265-282 | it keeps them, crashes included, as long as it commits no prune above their height |
| Availability.DecisionCommits | app/src/state.rs:231-263 | a decision on that round commits that value, and its block unless the height already had other decided data |
| Availability.PublicationIsDecided | app/src/state.rs:152-263 | the three together, from a publication that reached a node in time to the decision on it |
| Replies.ProposerStoresItsAnswer | app/src/state.rs:297-333 | the value that a proposer tells its consensus is the one it stores, unless it had stored something for that height and round |
| Replies.ReceiversAnswerTheSame | app/src/app.rs:55-130 | every node that knows the proposer and gets the last missing message of what was published tells its consensus the same height, round and value, as valid |
| State.State.GetEarliestHeight | app/src/state.rs:143-148 | the least decided height, or 1 on an empty store |
| State.State.GetDecidedValue | app/src/state.rs:215-217 | what the store holds of the decision |
| State.State.VerifyProposalSignature | app/src/state.rs:413-453 | the loop over the parts computes the verdict of the specification, in the order of its errors |
| State.AssembleValueFromParts | app/src/state.rs:457-485 | the loop over the parts puts the data together; the proposal has the height, round and proposer of the parts, no valid round, the data and its hash, and is valid |
| State.State.ReceivedProposalPart | app/src/state.rs:152-212 | memory, tables, committed transactions and reply are those of the state machine, for every message from the decoder |
| State.State.TakeParts | app/src/state.rs:164-212 | parts are answered if and only if they are not outdated and pass verification; then with a valid proposal of what they report and of their data with its hash, stored with the data in two transactions; otherwise nothing changes |
| State.State.ProposeValue | app/src/state.rs:297-333 | the value answered has the requested height and round, the block and its hash; in two transactions it is stored as a valid proposal of this node unless the height and round already had one |
| State.State.NextStreamId | app/src/state.rs:335-342 | the identifier of height, round and counter, and the counter one further |
| State.State.MakeProposalParts | app/src/state.rs:368-404 | the loop over the chunks makes the parts of the specification, signed over the whole block |
| State.State.StreamProposal | app/src/state.rs:346-366 | the parts numbered from 0, then the end of the stream, under one fresh identifier |
| State.State.Commit | app/src/state.rs:221-293 | without the proposal nothing changes; with it the transactions of the decision, then the prune, then the next height at round 0 |
| State.State.StoreDecision | app/src/state.rs:250-263 | the decision, and its block data if there is any |
| App.HandleMsg | app/src/app.rs:17-256 | for every message: the new state, the committed transactions, the reply and the published messages are those of the state machine |
| App.HandleQuery | app/src/app.rs:172-255 | queries change nothing but the peer set and are answered from the store |
| App.OnStart | app/src/app.rs:20-53 | the height to start with is answered; a started round sets height, round and proposer and nothing else |
| App.OnValueRequest | app/src/app.rs:55-90 | the proposal is stored, answered with the requested height and round, the block and its hash, and published as one stream |
| App.OnDecided | app/src/app.rs:132-162 | the commit, and then the height to start next |
| App.RunLoop | app/src/app.rs:15-257 | after any inbox the state is that of the corresponding crash-free run, so every theorem about runs applies to the loop; each message was answered from the state that those before it led to |
| App.InboxIsRun | app/src/app.rs:16-257 | a loop over messages takes exactly the steps of a run |
| Rounds.TxnsHaveRounds | types/src/codec/proto/mod.rs:183 | no handler hands the store a proposal or a certificate whose encoding would panic |
| Rounds.RoundsForever | types/src/proposal_part.rs:137 | over every run, crashes included, all rounds in the streams, the proposals and the certificates are present |
| Rounds.StoredRowsReadBack | app/src/store.rs:34-42 | after any run every row of the store decodes from its bytes to what was stored |
| Rounds.SyncDeliversDecisions | app/src/app.rs:204-217 | for every height that any run has decided and kept, a lagging peer gets exactly that value and certificate through a sync response |
| Wire.VarintRoundTrip | types/src/codec/proto/mod.rs:152 | every 64-bit number is read back from its varint, with what follows it untouched |
| Wire.DecodedIsWord | types/src/codec/proto/mod.rs:120 | whatever the bytes, an accepted varint fits into 64 bits |
| Wire.VarintExamples | types/src/codec/proto/mod.rs:152 | the examples of the Encoding guide, byte for byte |
| Wire.FieldsRoundTrip | types/src/codec/proto/mod.rs:152 | any list of records is read back from its bytes |
| Wire.MessageRoundTrip | types/src/codec/proto/mod.rs:120 | a message whose records merge to it is read back from its bytes |
| Protos.PartRoundTrip | types/proto/consensus.proto:51-73 | every proposal part message, absent or default members included, is read back |
| Protos.StreamMessageRoundTrip | types/proto/consensus.proto:78-87 | every stream message is read back, the oneof also with a default value |
| Protos.ProposedValueRoundTrip | types/proto/sync.proto:48-55 | every proposed value message is read back, an optional round of 0 kept apart from none |
| Protos.RepeatedMerges | types/proto/sync.proto:37-39 | the records of a repeated field give back its elements, all of them and in order |
| Protos.CertificateRoundTrip | types/proto/sync.proto:41-46 | every certificate message is read back, with any number of signatures |
| Protos.ValueResponseRoundTrip | types/proto/sync.proto:21-29 | every value response message is read back, with a value or without |
| VoteProtos.SignedMessageRoundTrip | types/proto/consensus.proto:22-45 | every signed vote or proposal message is read back |
| VoteProtos.SyncResponseRoundTrip | types/proto/sync.proto:79-84 | every sync response message is read back |
| Codec.PartTravels | types/src/proposal_part.rs:127-177 | every proposal part that can be encoded decodes to itself |
| Codec.StreamMessageTravels | types/src/codec/proto/mod.rs:116-154 | every stream message, its part serialised inside a field of its own, decodes to itself |
| Codec.EndOnTheWire | types/src/codec/proto/mod.rs:141-152 | the bytes of an end of stream: the default number omitted, the member of the oneof written |
| Codec.ChunkOnTheWire | types/src/proposal_part.rs:166-170 | the bytes of a chunk: one message inside a field of another |
| Codec.DecodedTravelsOn | types/src/codec/proto/mod.rs:119-153 | whatever bytes it came from, a decoded stream message has its round and travels on unchanged |
| Codec.ProposedValueTravels | types/src/codec/proto/mod.rs:156-192 | every proposed value with a round decodes to itself, with or without a valid round |
| Codec.ValueTravels | types/src/value.rs:86-104 | every value decodes to itself |
| Codec.CertificateTravels | types/src/codec/proto/mod.rs:364-400 | every certificate with a round decodes to itself, with any number of signatures |
| Codec.SignaturesAllOrNothing | types/src/codec/proto/mod.rs:402-426 | aggregated signatures decode if and only if every one is well-formed, each in its place |
| Codec.VotesAreFiltered | types/src/codec/proto/mod.rs:483-503 | on arbitrary input exactly the well-formed votes of a set are decoded, in order |
| Codec.PartDecodesWhen | types/src/proposal_part.rs:127-150 | the bytes of a part message decode if and only if it has a member, an `Init` its proposer of 20 bytes, a `Fin` its signature of 64 |
| Codec.ProposedValueDecodesWhen | types/src/codec/proto/mod.rs:159-178 | the bytes of a proposed value message decode if and only if it has a value and a proposer of 20 bytes; an absent valid round reads as none |
| Codec.StreamMessageDecodesWhen | types/src/codec/proto/mod.rs:119-138 | the bytes of a stream message decode if and only if it has content, and data in it decodes as a part; `Fin` ends the stream whatever its flag says |
| Codec.ResponseDecodesWhen | types/src/codec/proto/mod.rs:278-307 | the bytes of a sync response decode if and only if it is an answer without a value, a value with a complete certificate, or a vote set |
| Codec.CertificateDecodesWhen | types/src/codec/proto/mod.rs:364-426 | the bytes of a certificate message decode if and only if it has a value id and signatures each with an address of 20 and a signature of 64 bytes |
| Codec.SignedMessageDecodesWhen | types/src/codec/proto/mod.rs:66-90 | the bytes of a signed message decode if and only if its signature and its vote or proposal are complete; a vote is a precommit if and only if its type is 1 |
| Codec.ValueResponseTravels | types/src/codec/proto/mod.rs:278-362 | a sync response arrives with the same value bytes and certificate |
| Codec.VoteSetTravels | types/src/codec/proto/mod.rs:464-491 | a vote set arrives without extensions, and as it was if and only if no vote had one |
| Codec.ConsensusMsgTravels | types/src/codec/proto/mod.rs:63-114 | a signed proposal arrives as it was, a signed vote if and only if it has no extension |
| WireVectors.InitOnTheWire | types/proto/consensus.proto:51-63 | the bytes of an `Init` of any address, both ways: height in field 1, round in 2, proposer in 4 |
| WireVectors.DataOnTheWire | types/proto/consensus.proto:65-67 | the bytes of a data part, both ways |
| WireVectors.FinOnTheWire | types/proto/consensus.proto:69-71 | the bytes of a `Fin` of any signature, both ways |
| WireVectors.StreamedPartOnTheWire | types/proto/consensus.proto:78-87 | the bytes of a numbered stream message with a part in it, both ways |
| WireVectors.ValueOnTheWire | types/proto/consensus.proto:9-12 | the bytes of a value, both ways |
| WireVectors.ProposedValueOnTheWire | types/proto/sync.proto:48-55 | the bytes of a proposed value, both ways: its valid round written even when it is 0, its validity only when it is true |
| WireVectors.CertificateOnTheWire | types/proto/sync.proto:31-46 | the bytes of a certificate with a signature, both ways |
| WireVectors.ValueResponseOnTheWire | types/proto/sync.proto:21-29 | the bytes of a sync response with a decided value and its certificate, both ways |
| WireVectors.PrevoteOnTheWire | types/src/vote.rs:138-152 | the bytes of a signed prevote, both ways: its type is the default and is omitted |
| WireVectors.PrecommitOnTheWire | types/src/vote.rs:138-152 | the bytes of a signed precommit, both ways: its type is written as 1 |
| WireVectors.SignedProposalOnTheWire | types/proto/consensus.proto:31-45 | the bytes of a signed proposal, both ways |
| WireVectors.VoteSetResponseOnTheWire | types/proto/sync.proto:62-70 | the bytes of a sync response with a vote, both ways |
| WireVectors.FixedOnTheWire | types/src/codec/proto/mod.rs:120 | records of 4 and of 8 bytes are stepped over as such |
| WireVectors.RefusedOnTheWire | types/src/codec/proto/mod.rs:120 | field number 0, unknown wire types and a length beyond the input are errors |
| Proposers.SelectorsAgree | types/src/context.rs:34-53 | both selectors choose the same validator of the set |
| Proposers.ProposerIs | types/src/context.rs:34-53 | whose turn it is, in terms of passes through the list counted from round 0 of height 1 |
| Proposers.RoundsAreFair | types/src/proposer_selector.rs:31-44 | over any consecutive rounds of a height, for every list of validators, each index gets its share rounded down or up and exactly one turn in as many rounds as there are indices, and the validators at these indices are chosen |
| Proposers.HeightsAreFair | types/src/context.rs:34-53 | the same over consecutive heights at any one round |
| Proposers.IndexCount | types/src/context.rs:43-48 | the exact number of turns that each index gets out of any number of consecutive ones |
| Proposers.RotationCount | types/src/context.rs:43-48 | how often a validator is chosen, for every list: the turns of all the indices at which it is listed |
| Proposers.FairWhenUnique | types/src/proposer_selector.rs:31-44 | any number of rounds, and any number of heights, are shared fairly between the validators if and only if none is listed twice |
| Proposers.FairWhenGrouped | types/src/validator_set.rs:60-70 | so a new set is fair to its validators if and only if equal ones were given next to each other |
| Proposers.SomeSetIsUnfair | types/src/validator_set.rs:60-70 | a set of which one validator is chosen twice in three rounds |
| Proposers.SortedOnlyIfGivenSorted | types/src/validator_set.rs:54-99 | a validator set is sorted by address if and only if it was given sorted |
| Proposers.UniqueOnlyIfGrouped | types/src/validator_set.rs:86-100 | a validator set has no duplicates if and only if equal validators were given next to each other |
| Proposers.AddressOrder | types/src/address.rs:9 | addresses are ordered by the first byte in which they differ |
| Proposers.SomeSetIsUnordered | types/src/validator_set.rs:60-70 | a set that is neither sorted nor without duplicates |
| BlockFile.BlockProposer.ReadExact | app/src/eth.rs:63-67 | the next bytes, or none with the input consumed |
| BlockFile.BlockProposer.ReadBlock | app/src/eth.rs:61-74 | the result and the rest of the input are those of one read of the specification |
| BlockFile.BlocksRoundTrip | app/src/eth.rs:61-74 | a file of blocks below 4 GiB reads back as those blocks in order, and then as the end for ever |
| BlockFile.FramePlaces | app/src/bin/utils.rs:204-206 | a frame byte by byte: four of the length, most significant first, and the block |
| BlockFile.RoundTripIffFramable | app/src/bin/utils.rs:204-206 | the blocks are read back if and only if each length fits into its 32-bit prefix |
| BlockFile.CutFile | app/src/eth.rs:61-74 | a file cut in a length gives the complete blocks and then the end; one cut in a block gives them, an error, and then the end |
| TestBlocks.AtomicCounter.FetchAdd | app/src/bin/utils.rs:179 | the old value is returned and the counter is one further, wrapping around |
| TestBlocks.CreateTransactions | app/src/bin/utils.rs:176-188 | jobs get consecutive draws in the order in which they reach the counter |
| TestBlocks.SortedWhateverTheSchedule | app/src/bin/utils.rs:190-197 | every order of the jobs ends in the same sorted block |
| TestBlocks.IntervalWhenNoWrap | app/src/bin/utils.rs:179-197 | a sorted block is an interval of nonces if and only if the counter does not wrap around in it |
| TestBlocks.GenerateTestBlocks | app/src/bin/utils.rs:174-217 | whatever the schedules and however many transactions, each block is written with the draws that follow those of the blocks before it, sorted |
| TestBlocks.BlockNonces | app/src/bin/utils.rs:174-197 | block b holds the nonces b * k to b * k + k - 1 in order, unless the counter wraps around in it |
| TestBlocks.NoncesAreGapFree | app/src/bin/utils.rs:174-197 | there are as many nonces as transactions, and nonce i is i for each, if and only if there are at most 2^64 transactions |
| TestBlocks.GeneratedFileReadsBack | app/src/bin/utils.rs:204-206 | a block proposer reading the generated file gets exactly the blocks that were made |

## Left out

- Block execution and the RPC server (app/src/eth.rs:76-299): foreign calls; blocks are executed in the background without an order.
- `propose_block` and everything inside a block (app/src/eth.rs:76-95): JSON and payloads. The block to propose is part of `GetValue` here, and a serialised block is a parameter of `TestBlocks.GenerateTestBlocks`.
- The Tendermint algorithm: it is an environment that obeys the assumptions above. Malachite, redb, prost, tokio and rayon are not part of this model beyond what their callers rely on.
- Keccak, Ed25519 and SipHash: parameters.
- Storing a synced value: the code only answers it (app/src/app.rs:171), so a decision on a value that only came through sync takes the branch of the missing proposal.
- `RestreamProposal` and vote extensions in the message loop: unimplemented or constant answers. The peer set is kept but nothing depends on it.
- The codecs of sync requests and status messages, which are plain records of numbers and identifiers.
- Kinds of errors: decoders answer that they failed, not why. Deprecated groups in the wire format count as failures.
- The memory layout of the binary heap: the heap is the list of what was pushed, and a pop takes any greatest message.
- Stored bytes: the rows of `Store.Db` are typed values; `Rounds.StoredRowsReadBack` shows that encoding them loses nothing. Failing database operations, which end the application, are crashes here.
- Sorting transactions in place: `TestBlocks.SortByNonce` is a function, sorting being a library call.
- Metrics, logging, configuration, the command line and shell scripts.
