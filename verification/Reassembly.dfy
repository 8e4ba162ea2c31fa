/** What streams deliver, over all orders, duplications and interleavings of their messages. */
module Reassembly {
  import opened Bytes
  import opened Types
  import opened Streaming

  /** A stream after the given messages reached it. */
  ghost function After(msgs: seq<StreamMessage>): Stream {
    if msgs == [] then EMPTY_STREAM
    else Streamed(After(msgs[..|msgs| - 1]), msgs[|msgs| - 1]).0
  }

  /** What the arrival of the last of the given messages emits. */
  ghost function Emission(msgs: seq<StreamMessage>): Option<ProposalParts>
    requires msgs != []
  {
    Streamed(After(msgs[..|msgs| - 1]), msgs[|msgs| - 1]).1
  }

  // ---------------------------------------------------------------------------------------------
  // Arbitrary messages

  ghost predicate Buffers(s: Stream, init: ProposalInit) {
    exists i :: 0 <= i < |s.buffer| && s.buffer[i].sequence == 0 && s.buffer[i].content == Part(Init(init))
  }

  /** What holds of a stream whatever reached it. */
  ghost predicate Sound(s: Stream) {
    && Distinct(s.buffer)
    && (forall i :: 0 <= i < |s.buffer| ==> s.buffer[i].sequence in s.seen)
    && (s.init.Some? ==> Buffers(s, s.init.value))
  }

  /** The first sequence number was consumed, so the stream cannot complete any more. */
  ghost predicate Spent(s: Stream) {
    0 in s.seen && s.init == None
  }

  lemma ReceivedIsSound(s: Stream, msg: StreamMessage)
    requires Sound(s) && msg.sequence !in s.seen
    ensures Sound(Received(s, msg))
  {
    var r := Received(s, msg);
    if r.init.Some? {
      if msg.IsFirst() {
        assert r.buffer[|s.buffer|] == msg;
      } else {
        var i :| 0 <= i < |s.buffer| && s.buffer[i].sequence == 0 && s.buffer[i].content == Part(Init(s.init.value));
        assert r.buffer[i] == s.buffer[i];
      }
    }
  }

  lemma AcceptKeepsSound(s: Stream, msg: StreamMessage)
    requires Sound(s)
    ensures Sound(Streamed(s, msg).0)
    ensures Streamed(s, msg).1.Some? ==> Spent(Streamed(s, msg).0)
  {
    if msg.sequence !in s.seen {
      ReceivedIsSound(s, msg);
    }
  }

  lemma {:induction false} AfterIsSound(msgs: seq<StreamMessage>)
    ensures Sound(After(msgs))
  {
    if msgs != [] {
      AfterIsSound(msgs[..|msgs| - 1]);
      AcceptKeepsSound(After(msgs[..|msgs| - 1]), msgs[|msgs| - 1]);
    }
  }

  lemma SpentStaysSilent(s: Stream, msg: StreamMessage)
    requires Spent(s)
    ensures Spent(Streamed(s, msg).0) && Streamed(s, msg).1 == None
  {
  }

  lemma {:induction false} StaysSpent(msgs: seq<StreamMessage>, i: nat)
    requires i < |msgs| && Spent(After(msgs[..i]))
    ensures Spent(After(msgs)) && Emission(msgs) == None
  {
    var front := msgs[..|msgs| - 1];
    if i < |front| {
      assert front[..i] == msgs[..i];
      StaysSpent(front, i);
    }
    SpentStaysSilent(After(front), msgs[|msgs| - 1]);
  }

  /** For any messages whatever, a stream that has emitted stays silent. */
  lemma AtMostOneEmission(msgs: seq<StreamMessage>, i: nat, j: nat)
    requires 0 < i < j <= |msgs|
    requires Emission(msgs[..i]).Some?
    ensures Emission(msgs[..j]) == None
  {
    AfterIsSound(msgs[..i][..i - 1]);
    AcceptKeepsSound(After(msgs[..i][..i - 1]), msgs[..i][i - 1]);
    assert msgs[..j][..i] == msgs[..i];
    StaysSpent(msgs[..j], i);
  }

  lemma {:induction false} FirstPart(buffer: map<u64, StreamContent>, part: ProposalPart, bound: nat)
    requires 0 in buffer && buffer[0] == Part(part) && bound > 0
    ensures PartsBelow(buffer, bound) != [] && PartsBelow(buffer, bound)[0] == part
  {
    if bound > 1 {
      FirstPart(buffer, part, bound - 1);
    } else {
      assert PartsBelow(buffer, 0) == [];
    }
  }

  /** An emission starts with the `Init` part whose height, round and proposer it reports. */
  predicate ReportsItsInit(p: ProposalParts) {
    p.parts != [] && p.parts[0] == Init(ProposalInit(p.height, p.round, p.proposer))
  }

  lemma SoundEmission(s: Stream, msg: StreamMessage)
    requires Sound(s) && Streamed(s, msg).1.Some?
    ensures ReportsItsInit(Streamed(s, msg).1.value)
  {
    ReceivedIsSound(s, msg);
    var r := Received(s, msg);
    var init := r.init.value;
    var i :| 0 <= i < |r.buffer| && r.buffer[i].sequence == 0 && r.buffer[i].content == Part(Init(init));
    ToMapHas(r.buffer, r.buffer[i]);
    FirstPart(ToMap(r.buffer), Init(init), Above(r.buffer));
  }

  lemma EmissionStartsWithInit(msgs: seq<StreamMessage>)
    requires msgs != [] && Emission(msgs).Some?
    ensures ReportsItsInit(Emission(msgs).value)
  {
    AfterIsSound(msgs[..|msgs| - 1]);
    SoundEmission(After(msgs[..|msgs| - 1]), msgs[|msgs| - 1]);
  }

  // ---------------------------------------------------------------------------------------------
  // Counting distinct sequence numbers

  ghost function SequencesOf(items: seq<StreamMessage>): set<nat> {
    set m | m in items :: m.sequence
  }

  ghost function Range(n: nat): (r: set<nat>)
    ensures forall q :: q in r <==> 0 <= q < n
    ensures |r| == n
  {
    if n == 0 then {} else Range(n - 1) + {n - 1}
  }

  lemma {:induction false} DistinctCount(items: seq<StreamMessage>)
    requires Distinct(items)
    ensures |SequencesOf(items)| == |items|
  {
    if items != [] {
      var front, last := items[..|items| - 1], items[|items| - 1];
      assert items == front + [last];
      DistinctFront(front, last);
      DistinctCount(front);
      LastIsNew(front, last);
    }
  }

  lemma DistinctFront(front: seq<StreamMessage>, last: StreamMessage)
    requires Distinct(front + [last])
    ensures Distinct(front)
  {
    forall i, j | 0 <= i < j < |front| ensures front[i].sequence != front[j].sequence {
      assert (front + [last])[i] == front[i] && (front + [last])[j] == front[j];
    }
  }

  lemma LastIsNew(front: seq<StreamMessage>, last: StreamMessage)
    requires Distinct(front + [last])
    ensures SequencesOf(front + [last]) == SequencesOf(front) + {last.sequence}
    ensures last.sequence !in SequencesOf(front)
  {
    SequencesOfAppend(front, last);
    forall m | m in front ensures m.sequence != last.sequence {
      var i :| 0 <= i < |front| && front[i] == m;
      assert (front + [last])[i] == m && (front + [last])[|front|] == last;
    }
  }

  lemma {:induction false} SubsetCount(a: set<nat>, b: set<nat>)
    requires a <= b
    ensures |a| <= |b|
    ensures |a| == |b| ==> a == b
    decreases b
  {
    if b != {} {
      var x :| x in b;
      SubsetCount(a - {x}, b - {x});
      if x in a {
        assert a == (a - {x}) + {x};
      } else {
        assert a - {x} == a;
      }
    }
  }

  /** Distinct numbers below `n` are at most `n` many, and exactly `n` when none is missing. */
  lemma Pigeonhole(items: seq<StreamMessage>, n: nat)
    requires Distinct(items) && forall m :: m in items ==> m.sequence < n
    ensures |items| <= n
    ensures |items| == n <==> SequencesOf(items) == Range(n)
  {
    DistinctCount(items);
    SubsetCount(SequencesOf(items), Range(n));
  }

  // ---------------------------------------------------------------------------------------------
  // What is emitted, and when

  /** The messages that were not dropped: the first one of each sequence number. */
  ghost function Firsts(msgs: seq<StreamMessage>): seq<StreamMessage> {
    if msgs == [] then []
    else
      var front, last := msgs[..|msgs| - 1], msgs[|msgs| - 1];
      Firsts(front) + (if last.sequence in SequencesOf(front) then [] else [last])
  }

  /** The `Init` part that the message numbered 0 carries, if it carries one. */
  ghost function InitIn(items: seq<StreamMessage>): Option<ProposalInit> {
    if items == [] then None
    else if items[|items| - 1].IsFirst() then InitOf(items[|items| - 1].content)
    else InitIn(items[..|items| - 1])
  }

  /** The sequence number of the latest end-of-stream message. */
  ghost function FinIn(items: seq<StreamMessage>): Option<nat> {
    if items == [] then None
    else if items[|items| - 1].IsFin() then Some(items[|items| - 1].sequence)
    else FinIn(items[..|items| - 1])
  }

  /** The messages `items` make a stream done: one is the `Init`, one ends the stream, and their number fits. */
  ghost predicate LooksComplete(items: seq<StreamMessage>) {
    InitIn(items).Some? && FinIn(items).Some? && |items| == FinIn(items).value + 1
  }

  ghost predicate Silent(msgs: seq<StreamMessage>) {
    msgs == [] || (Silent(msgs[..|msgs| - 1]) && Emission(msgs) == None)
  }

  /** `s` has buffered exactly `items`, having seen the sequence numbers `seen`. */
  ghost predicate HasBuffered(s: Stream, items: seq<StreamMessage>, seen: set<nat>) {
    && s.buffer == items && s.seen == seen && s.init == InitIn(items)
    && s.fin == FinIn(items).Some? && (s.fin ==> s.total == FinIn(items).value + 1)
  }

  lemma ReceivedHasBuffered(s: Stream, items: seq<StreamMessage>, seen: set<nat>, msg: StreamMessage)
    requires HasBuffered(s, items, seen)
    ensures HasBuffered(Received(s, msg), items + [msg], seen + {msg.sequence})
  {
    assert (items + [msg])[..|items|] == items;
  }

  lemma BufferedEmission(s: Stream, items: seq<StreamMessage>, seen: set<nat>, msg: StreamMessage)
    requires HasBuffered(s, items, seen)
    ensures var result := Streamed(s, msg).1;
            && (result.Some? <==> msg.sequence !in seen && LooksComplete(items + [msg]))
            && (result.Some? ==>
                  var init := InitIn(items + [msg]).value;
                  result.value == ProposalParts(init.height, init.round, init.proposer, InOrder(items + [msg])))
  {
    ReceivedHasBuffered(s, items, seen, msg);
  }

  lemma {:induction false} SilentState(msgs: seq<StreamMessage>)
    requires Silent(msgs)
    ensures HasBuffered(After(msgs), Firsts(msgs), SequencesOf(msgs))
  {
    if msgs != [] {
      var front, last := msgs[..|msgs| - 1], msgs[|msgs| - 1];
      SilentState(front);
      assert msgs == front + [last];
      SequencesOfAppend(front, last);
      if last.sequence in SequencesOf(front) {
        assert SequencesOf(msgs) == SequencesOf(front);
        assert Firsts(msgs) == Firsts(front);
      } else {
        ReceivedHasBuffered(After(front), Firsts(front), SequencesOf(front), last);
      }
    }
  }

  lemma SequencesOfAppend(items: seq<StreamMessage>, msg: StreamMessage)
    ensures SequencesOf(items + [msg]) == SequencesOf(items) + {msg.sequence}
  {
    assert forall m :: m in items + [msg] <==> m in items || m == msg;
  }

  /** A stream that emits was silent before. */
  lemma {:induction false} SilentBefore(msgs: seq<StreamMessage>, n: nat)
    requires n < |msgs| && Emission(msgs).Some?
    ensures Silent(msgs[..n])
  {
    if n > 0 {
      SilentBefore(msgs, n - 1);
      assert msgs[..n][..n - 1] == msgs[..n - 1];
      assert msgs[..|msgs|] == msgs;
      if Emission(msgs[..n]).Some? {
        AtMostOneEmission(msgs, n, |msgs|);
      }
    }
  }

  /**
    When a stream emits and what, for any messages whatever: at the first new message that makes those not
    dropped so far look complete, their parts by ascending sequence number.
  */
  lemma EmitsWhenComplete(msgs: seq<StreamMessage>)
    requires msgs != []
    ensures var front, last := msgs[..|msgs| - 1], msgs[|msgs| - 1];
            Emission(msgs).Some? <==>
              Silent(front) && last.sequence !in SequencesOf(front) && LooksComplete(Firsts(msgs))
    ensures Emission(msgs).Some? ==>
              var init := InitIn(Firsts(msgs)).value;
              Emission(msgs).value == ProposalParts(init.height, init.round, init.proposer, InOrder(Firsts(msgs)))
  {
    var front, last := msgs[..|msgs| - 1], msgs[|msgs| - 1];
    if Emission(msgs).Some? {
      SilentBefore(msgs, |front|);
    }
    if Silent(front) {
      SilentState(front);
      BufferedEmission(After(front), Firsts(front), SequencesOf(front), last);
      assert Firsts(front) + [] == Firsts(front);
    }
  }

  lemma {:induction false} FirstsAreDistinct(msgs: seq<StreamMessage>)
    ensures Distinct(Firsts(msgs))
    ensures SequencesOf(Firsts(msgs)) == SequencesOf(msgs)
  {
    if msgs != [] {
      var front, last := msgs[..|msgs| - 1], msgs[|msgs| - 1];
      FirstsAreDistinct(front);
      assert msgs == front + [last];
      SequencesOfAppend(front, last);
      if last.sequence !in SequencesOf(front) {
        SequencesOfAppend(Firsts(front), last);
        forall m | m in Firsts(front) ensures m.sequence != last.sequence {
          assert m.sequence in SequencesOf(Firsts(front));
        }
        PushKeepsDistinct(Firsts(front), last);
      }
    }
  }

  ghost predicate Below(items: seq<StreamMessage>, end: nat) {
    forall m :: m in items ==> m.sequence <= end
  }

  lemma BelowToo(a: seq<StreamMessage>, b: seq<StreamMessage>, end: nat)
    requires SequencesOf(a) == SequencesOf(b) && Below(a, end)
    ensures Below(b, end)
  {
    forall m | m in b ensures m.sequence <= end {
      assert m.sequence in SequencesOf(a);
      var x :| x in a && x.sequence == m.sequence;
    }
  }

  lemma BelowAlike(a: seq<StreamMessage>, b: seq<StreamMessage>, end: nat)
    requires SequencesOf(a) == SequencesOf(b)
    ensures Below(a, end) <==> Below(b, end)
  {
    if Below(a, end) {
      BelowToo(a, b, end);
    } else if Below(b, end) {
      BelowToo(b, a, end);
    }
  }

  lemma EmittedCount(msgs: seq<StreamMessage>)
    requires msgs != [] && Emission(msgs).Some?
    ensures FinIn(Firsts(msgs)).Some? && |Firsts(msgs)| == FinIn(Firsts(msgs)).value + 1
  {
    EmitsWhenComplete(msgs);
  }

  /** As many distinct messages as there are numbers up to the end leave none out exactly when none is beyond it. */
  lemma FullWhenBelow(items: seq<StreamMessage>, end: nat)
    requires Distinct(items) && |items| == end + 1
    ensures SequencesOf(items) == Range(end + 1) <==> Below(items, end)
  {
    if Below(items, end) {
      Pigeonhole(items, end + 1);
    } else {
      var m :| m in items && m.sequence > end;
      assert m.sequence in SequencesOf(items);
    }
  }

  /**
    Counting messages is not the same as having them all: an emission has no gaps exactly when no message
    beyond the end of the stream was counted.
  */
  lemma GapFreeEmission(msgs: seq<StreamMessage>)
    requires msgs != [] && Emission(msgs).Some?
    ensures FinIn(Firsts(msgs)).Some?
    ensures var end := FinIn(Firsts(msgs)).value;
            SequencesOf(msgs) == Range(end + 1) <==> Below(msgs, end)
  {
    EmittedCount(msgs);
    FirstsAreDistinct(msgs);
    FullWhenBelow(Firsts(msgs), FinIn(Firsts(msgs)).value);
    BelowAlike(msgs, Firsts(msgs), FinIn(Firsts(msgs)).value);
  }

  lemma EmissionOfThree(a: StreamMessage, b: StreamMessage, c: StreamMessage)
    ensures Emission([a, b, c]) == Streamed(Streamed(Streamed(EMPTY_STREAM, a).0, b).0, c).1
  {
    assert [a, b, c][..2] == [a, b] && [a, b][..1] == [a] && [a][..0] == [];
    assert After([a]) == Streamed(After([]), a).0;
    assert After([a, b]) == Streamed(After([a]), b).0;
  }

  /** Messages that are listed one after the other give their data one after the other. */
  lemma DataOfNext(order: seq<StreamMessage>, msg: StreamMessage, longer: seq<StreamMessage>, data: seq<ProposalPart>,
                   more: seq<ProposalPart>)
    requires longer == order + [msg] && DataOf(order) == data && data + PartsOf(msg.content) == more
    ensures DataOf(longer) == more
  {
    DataOfAppend(order, msg);
  }

  lemma ThreeBuffered(a: StreamMessage, b: StreamMessage, c: StreamMessage)
    requires a.sequence == 0 && InitOf(a.content).Some? && c.IsFin() && c.sequence == 2
    requires b.sequence !in {0, 2} && !b.IsFin()
    ensures Emission([a, b, c]) == Some(ProposalParts(
              InitOf(a.content).value.height, InitOf(a.content).value.round, InitOf(a.content).value.proposer,
              InOrder([a, b, c])))
  {
    EmissionOfThree(a, b, c);
    var s1 := Received(EMPTY_STREAM, a);
    var s2 := Received(s1, b);
    assert Streamed(EMPTY_STREAM, a) == (s1, None);
    assert Streamed(s1, b) == (s2, None);
    assert Received(s2, c).buffer == [a, b, c];
  }

  lemma SwapLast<T>(a: T, b: T, c: T)
    ensures multiset([a, c, b]) == multiset([a, b, c])
  {
    assert [a, b, c] == [a] + [b] + [c] && [a, c, b] == [a] + [c] + [b];
  }

  lemma OrderOfThree(a: StreamMessage, b: StreamMessage, c: StreamMessage)
    requires a.sequence < c.sequence < b.sequence
    ensures InOrder([a, b, c]) == DataOf([a, c, b])
  {
    var start, order := [a, b, c], [a, c, b];
    assert Distinct(start) && Distinct(order) && Ascending(order);
    SwapLast(a, b, c);
    DrainedInOrder(start, order);
  }

  lemma GapData(a: StreamMessage, b: StreamMessage, c: StreamMessage)
    requires a.sequence < c.sequence < b.sequence && a.content.Part? && b.content.Part? && c.IsFin()
    ensures InOrder([a, b, c]) == [a.content.part, b.content.part]
  {
    DataOfNext([], a, [a], [], [a.content.part]);
    DataOfNext([a], c, [a, c], [a.content.part], [a.content.part]);
    DataOfNext([a, c], b, [a, c, b], [a.content.part], [a.content.part, b.content.part]);
    OrderOfThree(a, b, c);
  }

  /** A stream that ends at 2 and has a message at 5 in the place of the one at 1 is emitted all the same. */
  lemma GapIsEmitted(streamId: StreamId, init: ProposalInit, bytes: Bytes)
    ensures var msgs := [StreamMessage(streamId, 0, Part(Init(init))), StreamMessage(streamId, 5, Part(Data(bytes))),
                         StreamMessage(streamId, 2, EndOfStream)];
            && Emission(msgs) == Some(ProposalParts(init.height, init.round, init.proposer, [Init(init), Data(bytes)]))
            && forall m :: m in msgs ==> m.sequence != 1
  {
    var m0, m5 := StreamMessage(streamId, 0, Part(Init(init))), StreamMessage(streamId, 5, Part(Data(bytes)));
    var m2 := StreamMessage(streamId, 2, EndOfStream);
    GapData(m0, m5, m2);
    ThreeBuffered(m0, m5, m2);
  }

  // ---------------------------------------------------------------------------------------------
  // Honest streams

  /** The messages a sender makes out of proposal parts: numbered from 0, then the end of the stream. */
  function Messages(streamId: StreamId, parts: seq<ProposalPart>): (msgs: seq<StreamMessage>)
    requires |parts| < 0xFFFF_FFFF_FFFF_FFFF
    ensures |msgs| == |parts| + 1
    ensures forall i :: 0 <= i < |msgs| ==> msgs[i].sequence == i && msgs[i].streamId == streamId
    ensures forall i :: 0 <= i < |parts| ==> msgs[i].content == Part(parts[i])
    ensures msgs[|parts|].content == EndOfStream
  {
    seq(|parts| + 1, i requires 0 <= i <= |parts| =>
      StreamMessage(streamId, i, if i < |parts| then Part(parts[i]) else EndOfStream))
  }

  predicate StartsWithInit(parts: seq<ProposalPart>) {
    0 < |parts| < 0xFFFF_FFFF_FFFF_FFFF && parts[0].Init?
  }

  /** What a receiver of an honest stream must report. */
  function ReportOf(parts: seq<ProposalPart>): ProposalParts
    requires StartsWithInit(parts)
  {
    ProposalParts(parts[0].init.height, parts[0].init.round, parts[0].init.proposer, parts)
  }

  /** A stream to which only messages of `Messages(streamId, parts)` were passed. */
  ghost predicate Faithful(s: Stream, streamId: StreamId, parts: seq<ProposalPart>)
    requires StartsWithInit(parts)
  {
    var msgs := Messages(streamId, parts);
    && Distinct(s.buffer)
    && (forall i :: 0 <= i < |s.buffer| ==> s.buffer[i] in msgs && s.buffer[i].sequence in s.seen)
    && (s.init.Some? ==> s.init.value == parts[0].init)
    && (s.fin ==> s.total == |msgs|)
  }

  lemma {:induction false} FullBuffer(buffer: map<u64, StreamContent>, parts: seq<ProposalPart>, n: nat)
    requires n <= |parts|
    requires forall i :: 0 <= i < |parts| ==> i in buffer && buffer[i] == Part(parts[i])
    ensures PartsBelow(buffer, n) == parts[..n]
  {
    if n > 0 {
      FullBuffer(buffer, parts, n - 1);
      assert parts[..n] == parts[..n - 1] + [parts[n - 1]];
    }
  }

  /** A heap with as many distinct messages as an honest stream has holds the whole stream. */
  lemma AllBuffered(items: seq<StreamMessage>, streamId: StreamId, parts: seq<ProposalPart>)
    requires StartsWithInit(parts) && Distinct(items)
    requires forall i :: 0 <= i < |items| ==> items[i] in Messages(streamId, parts)
    requires |items| == |parts| + 1
    ensures forall m :: m in Messages(streamId, parts) ==> m in items
    ensures InOrder(items) == parts
  {
    var msgs := Messages(streamId, parts);
    Pigeonhole(items, |msgs|);
    forall m | m in msgs ensures m in items && Holds(ToMap(items), m) {
      assert m.sequence in Range(|msgs|);
      var x :| x in items && x.sequence == m.sequence;
      assert x in msgs;
      ToMapHas(items, x);
    }
    var buffer := ToMap(items);
    forall i | 0 <= i < |msgs| ensures i in buffer && buffer[i] == msgs[i].content {
      assert msgs[i] in msgs;
    }
    FullBuffer(buffer, parts, |parts|);
    forall q | q in buffer ensures q < |msgs| {
      var m := ToMapFrom(items, q);
      assert m in msgs;
    }
    assert msgs[|parts|] in items;
    PartsBelowSkips(buffer, |msgs|, Above(items));
    assert buffer[|parts|] == EndOfStream;
    assert parts[..|parts|] == parts;
  }

  lemma FaithfulReceived(s: Stream, streamId: StreamId, parts: seq<ProposalPart>, msg: StreamMessage)
    requires StartsWithInit(parts) && Faithful(s, streamId, parts) && msg in Messages(streamId, parts)
    requires msg.sequence !in s.seen
    ensures Faithful(Received(s, msg), streamId, parts)
    ensures Received(s, msg).IsDone() ==> InOrder(Received(s, msg).buffer) == parts
  {
    var r := Received(s, msg);
    PushKeepsDistinct(s.buffer, msg);
    if r.IsDone() {
      AllBuffered(r.buffer, streamId, parts);
    }
  }

  /** One message of an honest stream: what it emits, if anything, is the sender's proposal. */
  lemma FaithfulStep(s: Stream, streamId: StreamId, parts: seq<ProposalPart>, msg: StreamMessage)
    requires StartsWithInit(parts) && Faithful(s, streamId, parts) && msg in Messages(streamId, parts)
    ensures Faithful(Streamed(s, msg).0, streamId, parts)
    ensures Streamed(s, msg).1 in {None, Some(ReportOf(parts))}
  {
    if msg.sequence !in s.seen {
      FaithfulReceived(s, streamId, parts, msg);
    }
  }

  ghost predicate Covers(d: seq<StreamMessage>, msgs: seq<StreamMessage>) {
    forall m :: m in msgs ==> m in d
  }

  /** A receiver that still misses a message knows exactly what it was sent. */
  ghost predicate Tracks(s: Stream, d: seq<StreamMessage>, streamId: StreamId, parts: seq<ProposalPart>)
    requires StartsWithInit(parts)
  {
    var msgs := Messages(streamId, parts);
    && Faithful(s, streamId, parts)
    && (forall m :: m in msgs ==> (m in s.buffer <==> m in d))
    && (forall m :: m in msgs ==> (m.sequence in s.seen <==> m in d))
    && (s.init.Some? <==> msgs[0] in d)
    && (s.fin <==> msgs[|parts|] in d)
  }

  /** A heap of honest messages is full exactly when all of them were delivered. */
  lemma FullWhenCovered(items: seq<StreamMessage>, d: seq<StreamMessage>, streamId: StreamId, parts: seq<ProposalPart>)
    requires StartsWithInit(parts) && Distinct(items)
    requires forall i :: 0 <= i < |items| ==> items[i] in Messages(streamId, parts)
    requires forall m :: m in Messages(streamId, parts) ==> (m in items <==> m in d)
    ensures |items| == |parts| + 1 <==> Covers(d, Messages(streamId, parts))
  {
    var msgs := Messages(streamId, parts);
    if |items| == |msgs| {
      AllBuffered(items, streamId, parts);
    }
    if Covers(d, msgs) {
      forall m | m in items ensures m.sequence < |msgs| {}
      Pigeonhole(items, |msgs|);
      forall q | q in Range(|msgs|) ensures q in SequencesOf(items) {
        assert msgs[q] in msgs;
      }
      assert SequencesOf(items) == Range(|msgs|);
    }
  }

  lemma DuplicateStep(s: Stream, d: seq<StreamMessage>, streamId: StreamId, parts: seq<ProposalPart>, msg: StreamMessage)
    requires StartsWithInit(parts) && Tracks(s, d, streamId, parts) && msg in Messages(streamId, parts) && msg in d
    ensures Streamed(s, msg) == (s, None)
    ensures Tracks(s, d + [msg], streamId, parts)
    ensures Covers(d + [msg], Messages(streamId, parts)) <==> Covers(d, Messages(streamId, parts))
  {
    assert forall m :: m in d + [msg] <==> m in d;
  }

  lemma NewStep(s: Stream, d: seq<StreamMessage>, streamId: StreamId, parts: seq<ProposalPart>, msg: StreamMessage)
    requires StartsWithInit(parts) && Tracks(s, d, streamId, parts) && msg in Messages(streamId, parts) && msg !in d
    ensures msg.sequence !in s.seen
    ensures Tracks(Received(s, msg), d + [msg], streamId, parts)
    ensures Received(s, msg).IsDone() <==> Covers(d + [msg], Messages(streamId, parts))
  {
    var msgs := Messages(streamId, parts);
    var d', r := d + [msg], Received(s, msg);
    assert msgs[0] in msgs && msgs[|parts|] in msgs;
    FaithfulReceived(s, streamId, parts, msg);
    assert forall m :: m in d' <==> m in d || m == msg;
    assert forall m :: m in r.buffer <==> m in s.buffer || m == msg;
    FullWhenCovered(r.buffer, d', streamId, parts);
  }

  lemma ArrivalStep(s: Stream, d: seq<StreamMessage>, streamId: StreamId, parts: seq<ProposalPart>, msg: StreamMessage)
    requires StartsWithInit(parts) && Tracks(s, d, streamId, parts) && msg in Messages(streamId, parts)
    requires !Covers(d, Messages(streamId, parts))
    ensures Streamed(s, msg).1.Some? <==> Covers(d + [msg], Messages(streamId, parts))
    ensures Streamed(s, msg).1.Some? ==> Spent(Streamed(s, msg).0)
    ensures Streamed(s, msg).1.None? ==> Tracks(Streamed(s, msg).0, d + [msg], streamId, parts)
  {
    if msg in d {
      DuplicateStep(s, d, streamId, parts, msg);
    } else {
      NewStep(s, d, streamId, parts, msg);
    }
  }

  lemma {:induction false} HonestDelivery(d: seq<StreamMessage>, streamId: StreamId, parts: seq<ProposalPart>)
    requires StartsWithInit(parts) && forall m :: m in d ==> m in Messages(streamId, parts)
    ensures if Covers(d, Messages(streamId, parts)) then Spent(After(d)) else Tracks(After(d), d, streamId, parts)
  {
    var msgs := Messages(streamId, parts);
    if d == [] {
      assert msgs[0] in msgs;
    } else {
      var front, last := d[..|d| - 1], d[|d| - 1];
      assert d == front + [last];
      HonestDelivery(front, streamId, parts);
      if Covers(front, msgs) {
        assert Covers(d, msgs);
        SpentStaysSilent(After(front), last);
      } else {
        ArrivalStep(After(front), front, streamId, parts, last);
      }
    }
  }

  /**
    Exactly once, whatever the order and the duplicates: a delivery of an honest stream emits precisely when
    its last missing message arrives, and what it emits is the sender's proposal.
  */
  lemma ExactlyOnce(d: seq<StreamMessage>, streamId: StreamId, parts: seq<ProposalPart>)
    requires StartsWithInit(parts) && d != [] && forall m :: m in d ==> m in Messages(streamId, parts)
    ensures var msgs := Messages(streamId, parts);
            Emission(d) == if Covers(d, msgs) && !Covers(d[..|d| - 1], msgs) then Some(ReportOf(parts)) else None
  {
    var msgs := Messages(streamId, parts);
    var front, last := d[..|d| - 1], d[|d| - 1];
    assert d == front + [last];
    HonestDelivery(front, streamId, parts);
    if Covers(front, msgs) {
      SpentStaysSilent(After(front), last);
    } else {
      ArrivalStep(After(front), front, streamId, parts, last);
      FaithfulStep(After(front), streamId, parts, last);
    }
  }

  /** A delivery that covers the stream covers it first with one certain arrival. */
  lemma {:induction false} FirstCovered(d: seq<StreamMessage>, msgs: seq<StreamMessage>) returns (i: nat)
    requires msgs != [] && Covers(d, msgs)
    ensures 0 < i <= |d| && Covers(d[..i], msgs) && !Covers(d[..i - 1], msgs)
  {
    assert msgs[0] in msgs && msgs[0] in d;
    var front := d[..|d| - 1];
    if Covers(front, msgs) {
      i := FirstCovered(front, msgs);
      assert front[..i] == d[..i] && front[..i - 1] == d[..i - 1];
    } else {
      i := |d|;
      assert d[..|d|] == d;
    }
  }

  lemma CoversNoLess(d: seq<StreamMessage>, msgs: seq<StreamMessage>, i: nat, j: nat)
    requires i <= j <= |d| && !Covers(d[..j], msgs)
    ensures !Covers(d[..i], msgs)
  {
    var m :| m in msgs && m !in d[..j];
    assert forall k :: 0 <= k < i ==> d[..i][k] == d[..j][k];
  }

  lemma CoversMore(d: seq<StreamMessage>, msgs: seq<StreamMessage>, i: nat, j: nat)
    requires i <= j <= |d| && Covers(d[..i], msgs)
    ensures Covers(d[..j], msgs)
  {
    forall m | m in msgs ensures m in d[..j] {
      var k :| 0 <= k < i && d[..i][k] == m;
      assert d[..j][k] == m;
    }
  }

  /** `i` is the only arrival of `d` that emits, and it emits `p`. */
  ghost predicate EmitsOnlyAt(d: seq<StreamMessage>, i: nat, p: ProposalParts) {
    0 < i <= |d| && forall j :: 0 < j <= |d| ==> Emission(d[..j]) == if j == i then Some(p) else None
  }

  /** So over a whole delivery with every message at least once there is exactly one emission. */
  lemma DeliveredOnce(d: seq<StreamMessage>, streamId: StreamId, parts: seq<ProposalPart>) returns (i: nat)
    requires StartsWithInit(parts) && forall m :: m in d ==> m in Messages(streamId, parts)
    requires Covers(d, Messages(streamId, parts))
    ensures EmitsOnlyAt(d, i, ReportOf(parts)) && !Covers(d[..i - 1], Messages(streamId, parts))
  {
    var msgs := Messages(streamId, parts);
    i := FirstCovered(d, msgs);
    forall j | 0 < j <= |d| ensures Emission(d[..j]) == if j == i then Some(ReportOf(parts)) else None {
      ExactlyOnce(d[..j], streamId, parts);
      assert d[..j][..j - 1] == d[..j - 1];
      if j > i {
        CoversMore(d, msgs, i, j - 1);
      } else if j < i {
        CoversNoLess(d, msgs, j, i - 1);
      }
    }
  }

  // ---------------------------------------------------------------------------------------------
  // Many streams

  type Arrival = (PeerId, StreamMessage)

  function KeyOf(a: Arrival): StreamKey {
    (a.0, a.1.streamId)
  }

  ghost function AfterAll(arrivals: seq<Arrival>): Streams {
    if arrivals == [] then map[]
    else
      var last := arrivals[|arrivals| - 1];
      InsertPart(AfterAll(arrivals[..|arrivals| - 1]), last.0, last.1).0
  }

  /** What the arrival of the last message emits. */
  ghost function EmissionAmongAll(arrivals: seq<Arrival>): Option<ProposalParts>
    requires arrivals != []
  {
    var last := arrivals[|arrivals| - 1];
    InsertPart(AfterAll(arrivals[..|arrivals| - 1]), last.0, last.1).1
  }

  /** The messages of one peer's stream, in order of arrival. */
  function Project(arrivals: seq<Arrival>, key: StreamKey): seq<StreamMessage> {
    if arrivals == [] then []
    else
      var last := arrivals[|arrivals| - 1];
      Project(arrivals[..|arrivals| - 1], key) + (if KeyOf(last) == key then [last.1] else [])
  }

  /** The clean-up test of `insert` never succeeds, so no message removes an entry. */
  lemma EntriesStay(streams: Streams, from: PeerId, msg: StreamMessage)
    ensures var key := (from, msg.streamId);
            InsertPart(streams, from, msg) == (streams[key := Streamed(EntryOf(streams, key), msg).0],
                                               Streamed(EntryOf(streams, key), msg).1)
  {
  }

  lemma {:induction false} EveryStreamAlone(arrivals: seq<Arrival>, key: StreamKey)
    ensures key in AfterAll(arrivals) <==> Project(arrivals, key) != []
    ensures EntryOf(AfterAll(arrivals), key) == After(Project(arrivals, key))
  {
    if arrivals != [] {
      var front, last := arrivals[..|arrivals| - 1], arrivals[|arrivals| - 1];
      EveryStreamAlone(front, key);
      EntriesStay(AfterAll(front), last.0, last.1);
      if KeyOf(last) == key {
        assert (Project(front, key) + [last.1])[..|Project(front, key)|] == Project(front, key);
      } else {
        assert Project(front, key) + [] == Project(front, key);
      }
    }
  }

  /** Interleaving: a message emits what its own stream alone would emit. */
  lemma EmissionOfItsStream(arrivals: seq<Arrival>)
    requires arrivals != []
    ensures var own := Project(arrivals, KeyOf(arrivals[|arrivals| - 1]));
            own != [] && EmissionAmongAll(arrivals) == Emission(own)
  {
    var front, last := arrivals[..|arrivals| - 1], arrivals[|arrivals| - 1];
    EveryStreamAlone(front, KeyOf(last));
    EntriesStay(AfterAll(front), last.0, last.1);
    assert (Project(front, KeyOf(last)) + [last.1])[..|Project(front, KeyOf(last))|] == Project(front, KeyOf(last));
  }

  lemma AfterAllOneMore(arrivals: seq<Arrival>, a: Arrival)
    ensures AfterAll(arrivals + [a]) == InsertPart(AfterAll(arrivals), a.0, a.1).0
    ensures EmissionAmongAll(arrivals + [a]) == InsertPart(AfterAll(arrivals), a.0, a.1).1
  {
    assert (arrivals + [a])[..|arrivals|] == arrivals;
  }

  /** The messages of a stream among the first arrivals come first among all of them. */
  lemma {:induction false} ProjectPrefix(arrivals: seq<Arrival>, i: nat, key: StreamKey)
    requires i <= |arrivals|
    ensures |Project(arrivals[..i], key)| <= |Project(arrivals, key)|
    ensures Project(arrivals[..i], key) == Project(arrivals, key)[..|Project(arrivals[..i], key)|]
  {
    if i < |arrivals| {
      var front := arrivals[..|arrivals| - 1];
      ProjectPrefix(front, i, key);
      assert front[..i] == arrivals[..i];
    } else {
      assert arrivals[..i] == arrivals;
    }
  }

  lemma ProjectGrows(arrivals: seq<Arrival>, i: nat, j: nat, key: StreamKey)
    requires i < j <= |arrivals| && KeyOf(arrivals[j - 1]) == key
    ensures var before, own := Project(arrivals[..i], key), Project(arrivals[..j], key);
            |before| < |own| && own[..|before|] == before
  {
    var front := arrivals[..j - 1];
    assert front[..i] == arrivals[..i] && arrivals[..j][..j - 1] == front;
    ProjectPrefix(front, i, key);
  }

  lemma EmissionAt(arrivals: seq<Arrival>, i: nat, key: StreamKey)
    requires 0 < i <= |arrivals| && KeyOf(arrivals[i - 1]) == key
    ensures Project(arrivals[..i], key) != []
    ensures EmissionAmongAll(arrivals[..i]) == Emission(Project(arrivals[..i], key))
  {
    var first := arrivals[..i];
    assert first[|first| - 1] == arrivals[i - 1];
    EmissionOfItsStream(first);
  }

  lemma SilentAfter(before: seq<StreamMessage>, own: seq<StreamMessage>)
    requires 0 < |before| < |own| && own[..|before|] == before && Emission(before).Some?
    ensures Emission(own) == None
  {
    assert own[..|own|] == own;
    AtMostOneEmission(own, |before|, |own|);
  }

  /**
    At most once among all: whatever reaches the map and in whatever interleaving, once a stream of a peer has emitted
    no later message of that stream emits again.
  */
  lemma AtMostOncePerStream(arrivals: seq<Arrival>, i: nat, j: nat)
    requires 0 < i < j <= |arrivals| && KeyOf(arrivals[i - 1]) == KeyOf(arrivals[j - 1])
    requires EmissionAmongAll(arrivals[..i]).Some?
    ensures EmissionAmongAll(arrivals[..j]) == None
  {
    var key := KeyOf(arrivals[i - 1]);
    EmissionAt(arrivals, i, key);
    EmissionAt(arrivals, j, key);
    ProjectGrows(arrivals, i, j, key);
    SilentAfter(Project(arrivals[..i], key), Project(arrivals[..j], key));
  }
}
