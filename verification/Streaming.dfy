/**
  The receiving side of proposal streams (app/src/streaming.rs).

  `Stream` and `Streams` are the values that the classes below keep up to date; the theorems of module
  Reassembly are about the functions on these values.
*/
module Streaming {
  import opened Bytes
  import opened Types

  datatype ProposalParts = ProposalParts(
    height: Height, round: Round, proposer: Address, parts: seq<ProposalPart>)

  /** The state of one stream. The heap is seen as the list of the messages pushed to it. */
  datatype Stream = Stream(
    buffer: seq<StreamMessage>,
    init: Option<ProposalInit>,
    seen: set<u64>,
    total: nat,
    fin: bool)
  {
    predicate IsDone() {
      init.Some? && fin && |buffer| == total
    }
  }

  const EMPTY_STREAM := Stream([], None, {}, 0, false)

  type StreamKey = (PeerId, StreamId)
  type Streams = map<StreamKey, Stream>

  /** `sequence as usize + 1` panics on overflow; every other sequence number is accepted. */
  predicate Countable(msg: StreamMessage) {
    msg.IsFin() ==> msg.sequence < 0xFFFF_FFFF_FFFF_FFFF
  }

  function InitOf(content: StreamContent): Option<ProposalInit> {
    if content.Part? && content.part.Init? then Some(content.part.init) else None
  }

  function PartsOf(content: StreamContent): seq<ProposalPart> {
    if content.Part? then [content.part] else []
  }

  /** The proposal parts buffered at sequence numbers below `bound`, in ascending order. */
  ghost function PartsBelow(buffer: map<u64, StreamContent>, bound: nat): seq<ProposalPart> {
    if bound == 0 then []
    else PartsBelow(buffer, bound - 1) + (if bound - 1 in buffer then PartsOf(buffer[bound - 1]) else [])
  }

  /** A number above all sequence numbers in the list. */
  ghost function Above(items: seq<StreamMessage>): (bound: nat)
    ensures forall m :: m in items ==> m.sequence < bound
  {
    if items == [] then 0
    else
      var rest, last := Above(items[..|items| - 1]), items[|items| - 1].sequence;
      if rest <= last then last + 1 else rest
  }

  /** What draining the buffer yields when its sequence numbers are distinct. */
  ghost function InOrder(items: seq<StreamMessage>): seq<ProposalPart> {
    PartsBelow(ToMap(items), Above(items))
  }

  /** A stream with one more message buffered. */
  ghost function Received(s: Stream, msg: StreamMessage): Stream {
    Stream(
      s.buffer + [msg],
      if msg.IsFirst() then InitOf(msg.content) else s.init,
      s.seen + {msg.sequence},
      if msg.IsFin() then msg.sequence + 1 else s.total,
      s.fin || msg.IsFin())
  }

  /** The parts are emitted once the stream is done; it then keeps what it has seen but neither parts nor `init`. */
  ghost function Settle(s: Stream): (Stream, Option<ProposalParts>) {
    if s.IsDone() then
      var init := s.init.value;
      (s.(buffer := [], init := None),
       Some(ProposalParts(init.height, init.round, init.proposer, InOrder(s.buffer))))
    else
      (s, None)
  }

  /** A message reaching a stream: sequence numbers already seen are dropped. */
  ghost function Streamed(s: Stream, msg: StreamMessage): (Stream, Option<ProposalParts>) {
    if msg.sequence in s.seen then (s, None) else Settle(Received(s, msg))
  }

  ghost function EntryOf(streams: Streams, key: StreamKey): Stream {
    if key in streams then streams[key] else EMPTY_STREAM
  }

  /** A message reaching the map of streams, with the clean-up test as it is written. */
  ghost function InsertPart(streams: Streams, from: PeerId, msg: StreamMessage): (Streams, Option<ProposalParts>) {
    var key := (from, msg.streamId);
    var s := EntryOf(streams, key);
    if msg.sequence in s.seen then
      (streams[key := s], None)
    else
      var (s', result) := Streamed(s, msg);
      var streams := streams[key := s'];
      (if s'.IsDone() then streams - {key} else streams, result)
  }

  // ---------------------------------------------------------------------------------------------
  // The heap

  datatype Ordering = Less | Equal | Greater

  /** `Ord for MinSeq`: the order of the sequence numbers, reversed. */
  function Cmp(a: StreamMessage, b: StreamMessage): Ordering {
    if b.sequence < a.sequence then Less else if b.sequence == a.sequence then Equal else Greater
  }

  ghost predicate Distinct(items: seq<StreamMessage>) {
    forall i, j :: 0 <= i < j < |items| ==> items[i].sequence != items[j].sequence
  }

  ghost predicate Ascending(items: seq<StreamMessage>) {
    forall i, j :: 0 <= i < j < |items| ==> items[i].sequence <= items[j].sequence
  }

  function DataOf(items: seq<StreamMessage>): seq<ProposalPart> {
    if items == [] then []
    else DataOf(items[..|items| - 1]) + PartsOf(items[|items| - 1].content)
  }

  ghost function ToMap(items: seq<StreamMessage>): map<u64, StreamContent> {
    if items == [] then map[]
    else var last := items[|items| - 1]; ToMap(items[..|items| - 1])[last.sequence := last.content]
  }

  lemma {:induction false} ToMapHas(items: seq<StreamMessage>, m: StreamMessage)
    requires Distinct(items) && m in items
    ensures m.sequence in ToMap(items) && ToMap(items)[m.sequence] == m.content
  {
    var front, last := items[..|items| - 1], items[|items| - 1];
    if m != last {
      var i :| 0 <= i < |front| && front[i] == m;
      assert front[i] == items[i];
      ToMapHas(front, m);
    }
  }

  lemma {:induction false} ToMapFrom(items: seq<StreamMessage>, q: u64) returns (m: StreamMessage)
    requires q in ToMap(items)
    ensures m in items && m.sequence == q
  {
    var front, last := items[..|items| - 1], items[|items| - 1];
    if q == last.sequence {
      m := last;
    } else {
      m := ToMapFrom(front, q);
    }
  }

  /** Sequence numbers with nothing buffered contribute no parts. */
  lemma {:induction false} PartsBelowSkips(buffer: map<u64, StreamContent>, low: nat, high: nat)
    requires low <= high
    requires forall q :: low <= q < high ==> q !in buffer
    ensures PartsBelow(buffer, high) == PartsBelow(buffer, low)
  {
    if low < high {
      PartsBelowSkips(buffer, low, high - 1);
      assert high - 1 !in buffer;
    }
  }

  /** `order` lists by strictly ascending sequence number exactly what the buffer holds below `bound`. */
  ghost predicate Lists(order: seq<StreamMessage>, buffer: map<u64, StreamContent>, bound: nat) {
    && (forall i, j :: 0 <= i < j < |order| ==> order[i].sequence < order[j].sequence)
    && (forall i :: 0 <= i < |order| ==> Holds(buffer, order[i]) && order[i].sequence < bound)
    && (forall q | q in buffer && q < bound :: Listed(order, q))
  }

  lemma ListsFront(order: seq<StreamMessage>, buffer: map<u64, StreamContent>, bound: nat)
    requires Lists(order, buffer, bound) && order != []
    ensures var last := order[|order| - 1];
            && Holds(buffer, last) && last.sequence < bound
            && Lists(order[..|order| - 1], buffer, last.sequence)
            && forall q :: last.sequence < q < bound ==> q !in buffer
  {
    var k := |order| - 1;
    forall q | q in buffer && q < order[k].sequence ensures Listed(order[..k], q) {
      assert Listed(order, q);
      var i :| 0 <= i < |order| && order[i].sequence == q;
      assert order[..k][i].sequence == q;
    }
    forall q | order[k].sequence < q < bound ensures q !in buffer {
      assert !Listed(order, q);
    }
  }

  /** Data listed by strictly ascending sequence number is the data of the map with the same messages. */
  lemma {:induction false} ListedInOrder(order: seq<StreamMessage>, buffer: map<u64, StreamContent>, bound: nat)
    requires Lists(order, buffer, bound)
    ensures DataOf(order) == PartsBelow(buffer, bound)
  {
    if order == [] {
      forall q | 0 <= q < bound ensures q !in buffer {
        assert !Listed(order, q);
      }
      PartsBelowSkips(buffer, 0, bound);
    } else {
      var front, last := order[..|order| - 1], order[|order| - 1];
      ListsFront(order, buffer, bound);
      ListedInOrder(front, buffer, last.sequence);
      PartsBelowSkips(buffer, last.sequence + 1, bound);
    }
  }

  ghost predicate Listed(items: seq<StreamMessage>, q: nat) {
    exists i :: 0 <= i < |items| && items[i].sequence == q
  }

  ghost predicate Holds(buffer: map<u64, StreamContent>, m: StreamMessage) {
    m.sequence in buffer && buffer[m.sequence] == m.content
  }

  /** Every list has an element that none exceeds. */
  lemma {:induction false} GreatestExists(items: seq<StreamMessage>)
    requires items != []
    ensures exists i :: IsGreatest(items, i)
  {
    var last := |items| - 1;
    if last == 0 {
      assert IsGreatest(items, 0);
    } else {
      GreatestExists(items[..last]);
      var k: nat :| IsGreatest(items[..last], k);
      var i := if Cmp(items[last], items[k]) == Greater then last else k;
      forall j | 0 <= j < |items| ensures Cmp(items[j], items[i]) != Greater {
        if j < last { assert items[..last][j] == items[j]; }
      }
      assert IsGreatest(items, i);
    }
  }

  predicate IsGreatest(items: seq<StreamMessage>, i: nat) {
    i < |items| && forall j :: 0 <= j < |items| ==> Cmp(items[j], items[i]) != Greater
  }

  function RemoveAt(items: seq<StreamMessage>, i: nat): seq<StreamMessage>
    requires i < |items|
  {
    items[..i] + items[i + 1..]
  }

  lemma RemoveAtKeepsTheRest(items: seq<StreamMessage>, i: nat)
    requires i < |items|
    ensures multiset(items) == multiset(RemoveAt(items, i)) + multiset{items[i]}
    ensures forall m :: m in RemoveAt(items, i) ==> m in items
  {
    assert items == items[..i] + [items[i]] + items[i + 1..];
  }

  lemma RemoveAtKeepsDistinct(items: seq<StreamMessage>, i: nat)
    requires i < |items| && Distinct(items)
    ensures Distinct(RemoveAt(items, i))
    ensures forall m :: m in RemoveAt(items, i) ==> m.sequence != items[i].sequence
  {
  }

  /** `BinaryHeap::pop`: takes out a message that is greatest in the order `Cmp`. */
  method Pop(heap: seq<StreamMessage>) returns (top: Option<StreamMessage>, rest: seq<StreamMessage>, ghost at: nat)
    ensures top.None? <==> heap == []
    ensures top.None? ==> rest == []
    ensures top.Some? ==> IsGreatest(heap, at) && top.value == heap[at] && rest == RemoveAt(heap, at)
  {
    if heap == [] {
      return None, [], 0;
    }
    GreatestExists(heap);
    var i: nat :| i < |heap| && IsGreatest(heap, i);
    top, rest, at := Some(heap[i]), RemoveAt(heap, i), i;
  }

  ghost predicate NotAbove(order: seq<StreamMessage>, items: seq<StreamMessage>) {
    forall m, n :: m in order && n in items ==> m.sequence <= n.sequence
  }

  ghost predicate Apart(order: seq<StreamMessage>, items: seq<StreamMessage>) {
    forall m, n :: m in order && n in items ==> m.sequence != n.sequence
  }

  /** `order` has left the heap and `items` is still in it. */
  ghost predicate PartlyDrained(start: seq<StreamMessage>, order: seq<StreamMessage>, items: seq<StreamMessage>) {
    && multiset(start) == multiset(order) + multiset(items)
    && Ascending(order) && NotAbove(order, items)
    && (Distinct(start) ==> Distinct(items) && Distinct(order) && Apart(order, items))
  }

  lemma GreatestIsFirst(items: seq<StreamMessage>, at: nat, m: StreamMessage)
    requires IsGreatest(items, at) && m in items
    ensures items[at].sequence <= m.sequence
  {
    var j :| 0 <= j < |items| && items[j] == m;
    assert Cmp(items[j], items[at]) != Greater;
  }

  lemma DrainKeepsOrder(order: seq<StreamMessage>, items: seq<StreamMessage>, at: nat)
    requires Ascending(order) && NotAbove(order, items) && IsGreatest(items, at)
    ensures Ascending(order + [items[at]]) && NotAbove(order + [items[at]], RemoveAt(items, at))
  {
    RemoveAtKeepsTheRest(items, at);
    assert items[at] in items;
    forall m, n | m in order + [items[at]] && n in RemoveAt(items, at) ensures m.sequence <= n.sequence {
      GreatestIsFirst(items, at, n);
      assert m in order || m == items[at];
    }
  }

  lemma DrainKeepsApart(order: seq<StreamMessage>, items: seq<StreamMessage>, at: nat)
    requires at < |items| && Distinct(items) && Distinct(order) && Apart(order, items)
    ensures Distinct(RemoveAt(items, at)) && Distinct(order + [items[at]])
    ensures Apart(order + [items[at]], RemoveAt(items, at))
  {
    RemoveAtKeepsTheRest(items, at);
    RemoveAtKeepsDistinct(items, at);
    assert items[at] in items;
    forall m, n | m in order + [items[at]] && n in RemoveAt(items, at) ensures m.sequence != n.sequence {
      assert m in order || m == items[at];
    }
  }

  lemma DrainStep(start: seq<StreamMessage>, order: seq<StreamMessage>, items: seq<StreamMessage>, at: nat)
    requires PartlyDrained(start, order, items) && IsGreatest(items, at)
    ensures PartlyDrained(start, order + [items[at]], RemoveAt(items, at))
  {
    RemoveAtKeepsTheRest(items, at);
    DrainKeepsOrder(order, items, at);
    if Distinct(start) {
      DrainKeepsApart(order, items, at);
    }
    assert multiset(order + [items[at]]) == multiset(order) + multiset{items[at]};
  }

  lemma DrainedInOrder(start: seq<StreamMessage>, order: seq<StreamMessage>)
    requires Distinct(start) && Distinct(order) && Ascending(order)
    requires multiset(order) == multiset(start)
    ensures DataOf(order) == InOrder(start)
  {
    var buffer := ToMap(start);
    forall i | 0 <= i < |order| ensures Holds(buffer, order[i]) && order[i].sequence < Above(start) {
      assert order[i] in multiset(order);
      assert order[i] in multiset(start);
      ToMapHas(start, order[i]);
    }
    forall q | q in buffer ensures Listed(order, q) {
      var m := ToMapFrom(start, q);
      assert m in multiset(start);
      assert m in multiset(order);
    }
    ListedInOrder(order, buffer, Above(start));
  }

  // ---------------------------------------------------------------------------------------------
  // The streams

  class StreamState {
    var buffer: seq<StreamMessage>
    var initInfo: Option<ProposalInit>
    var seenSequences: set<u64>
    var totalMessages: nat
    var finReceived: bool
    ghost const key: StreamKey

    /** Only messages with distinct sequence numbers, all of them seen, are buffered. */
    ghost predicate Valid()
      reads this
    {
      && Distinct(buffer)
      && (forall m :: m in buffer ==> m.sequence in seenSequences)
    }

    function View(): Stream
      reads this
    {
      Stream(buffer, initInfo, seenSequences, totalMessages, finReceived)
    }

    constructor (ghost key: StreamKey)
      ensures Valid() && View() == EMPTY_STREAM && this.key == key
    {
      this.key := key;
      buffer, initInfo, seenSequences, totalMessages, finReceived := [], None, {}, 0, false;
    }

    predicate IsDone()
      reads this
    {
      initInfo.Some? && finReceived && |buffer| == totalMessages
    }

    /** `HashSet::insert`: whether the sequence number is new. */
    method Seen(sequence: u64) returns (isNew: bool)
      requires Valid()
      modifies this`seenSequences
      ensures Valid()
      ensures isNew == (sequence !in old(seenSequences))
      ensures View() == old(View()).(seen := old(View()).seen + {sequence})
      ensures !isNew ==> View() == old(View())
      ensures isNew ==> forall m :: m in buffer ==> m.sequence != sequence
    {
      isNew := sequence !in seenSequences;
      seenSequences := seenSequences + {sequence};
      assert !isNew ==> seenSequences == old(seenSequences);
    }

    /**
      `MinHeap::drain`, the pop loop. `order` is the order in which the messages leave the heap: all of them, by
      ascending sequence number. The result is their data in that order, which is unique when the numbers are distinct.
    */
    method Drain() returns (parts: seq<ProposalPart>, ghost order: seq<StreamMessage>)
      modifies this`buffer
      ensures buffer == []
      ensures Ascending(order) && multiset(order) == multiset(old(buffer))
      ensures parts == DataOf(order)
      ensures Distinct(old(buffer)) ==> parts == InOrder(old(buffer))
    {
      ghost var start := buffer;
      parts, order := [], [];
      while buffer != []
        invariant parts == DataOf(order)
        invariant PartlyDrained(start, order, buffer)
        decreases |buffer|
      {
        var top, rest, at := Pop(buffer);
        DrainStep(start, order, buffer, at);
        buffer := rest;
        parts := parts + PartsOf(top.value.content);
        DataOfAppend(order, top.value);
        order := order + [top.value];
      }
      if Distinct(start) {
        DrainedInOrder(start, order);
      }
    }

    method Insert(msg: StreamMessage) returns (result: Option<ProposalParts>)
      requires Valid() && Countable(msg) && msg.sequence in seenSequences
      requires forall m :: m in buffer ==> m.sequence != msg.sequence
      modifies this
      ensures Valid()
      ensures (View(), result) == Settle(Received(old(View()), msg))
    {
      if msg.IsFirst() {
        initInfo := InitOf(msg.content);
      }
      if msg.IsFin() {
        finReceived := true;
        totalMessages := msg.sequence + 1;
      }
      buffer := buffer + [msg];
      PushKeepsDistinct(old(buffer), msg);
      assert View() == Received(old(View()), msg) by { assert seenSequences == seenSequences + {msg.sequence}; }
      if IsDone() {
        result := Complete();
      } else {
        result := None;
      }
    }

    /** A message from the network: inserted unless its sequence number was already seen. */
    method Accept(msg: StreamMessage) returns (isNew: bool, result: Option<ProposalParts>)
      requires Valid() && Countable(msg)
      modifies this
      ensures Valid()
      ensures isNew == (msg.sequence !in old(View()).seen)
      ensures (View(), result) == Streamed(old(View()), msg)
    {
      isNew := Seen(msg.sequence);
      if isNew {
        result := Insert(msg);
      } else {
        result := None;
      }
    }

    /** What `insert` does once the stream is done. */
    method Complete() returns (result: Option<ProposalParts>)
      requires Valid() && initInfo.Some?
      modifies this
      ensures Valid()
      ensures View() == old(View()).(buffer := [], init := None)
      ensures result == Some(ProposalParts(old(initInfo).value.height, old(initInfo).value.round,
                                           old(initInfo).value.proposer, InOrder(old(buffer))))
    {
      var init := initInfo.value;
      initInfo := None;
      var parts, order := Drain();
      result := Some(ProposalParts(init.height, init.round, init.proposer, parts));
    }
  }

  lemma PushKeepsDistinct(items: seq<StreamMessage>, msg: StreamMessage)
    requires Distinct(items) && forall m :: m in items ==> m.sequence != msg.sequence
    ensures Distinct(items + [msg])
    ensures forall m :: m in items + [msg] ==> m in items || m == msg
  {
  }

  lemma DataOfAppend(order: seq<StreamMessage>, msg: StreamMessage)
    ensures DataOf(order + [msg]) == DataOf(order) + PartsOf(msg.content)
  {
    assert (order + [msg])[..|order|] == order;
  }

  class PartStreamsMap {
    var streams: map<StreamKey, StreamState>
    ghost var model: Streams
    ghost var Repr: set<object>

    /** Every key has its own state object. */
    ghost predicate Valid()
      reads this, Repr
      ensures Valid() ==> this in Repr
    {
      && this in Repr
      && model.Keys == streams.Keys
      && (forall k :: k in streams ==>
            && streams[k] in Repr
            && streams[k].Valid() && streams[k].key == k && model[k] == streams[k].View())
    }

    constructor ()
      ensures Valid() && model == map[] && fresh(Repr)
    {
      streams, model := map[], map[];
      Repr := {this};
    }

    /** `entry(key).or_default()`. */
    method Entry(key: StreamKey) returns (state: StreamState)
      requires Valid()
      modifies this
      ensures Valid() && fresh(Repr - old(Repr))
      ensures key in streams && streams[key] == state
      ensures model == old(model)[key := EntryOf(old(model), key)]
    {
      if key in streams {
        state := streams[key];
        assert model == model[key := model[key]];
      } else {
        state := new StreamState(key);
        streams := streams[key := state];
        model := model[key := EMPTY_STREAM];
        Repr := Repr + {state};
      }
    }

    /** Passing a message to the stream at `key`, unless its sequence number was already seen there. */
    method Deliver(key: StreamKey, msg: StreamMessage) returns (isNew: bool, result: Option<ProposalParts>)
      requires Valid() && Countable(msg) && key in streams
      modifies streams[key], this`model
      ensures Valid() && streams == old(streams) && Repr == old(Repr)
      ensures isNew <==> msg.sequence !in old(model)[key].seen
      ensures model == old(model)[key := Streamed(old(model)[key], msg).0]
      ensures result == Streamed(old(model)[key], msg).1
    {
      var state := streams[key];
      isNew, result := state.Accept(msg);
      model := model[key := state.View()];
    }

    /** The clean-up test after a message was passed on. */
    method CleanUp(key: StreamKey)
      requires Valid() && key in streams
      modifies this
      ensures Valid() && Repr == old(Repr)
      ensures model == if old(model)[key].IsDone() then old(model) - {key} else old(model)
    {
      if streams[key].IsDone() {
        streams := streams - {key};
        model := model - {key};
      }
    }

    method Insert(peerId: PeerId, msg: StreamMessage) returns (result: Option<ProposalParts>)
      requires Valid() && Countable(msg)
      modifies Repr
      ensures Valid() && fresh(Repr - old(Repr))
      ensures (model, result) == InsertPart(old(model), peerId, msg)
    {
      var key := (peerId, msg.streamId);
      var _ := Entry(key);
      ghost var entry := model[key];
      var isNew;
      isNew, result := Deliver(key, msg);
      assert model == old(model)[key := Streamed(entry, msg).0];
      if !isNew {
        return None;
      }
      CleanUp(key);
    }
  }
}
