/**
  `generate_test_blocks` (app/src/bin/utils.rs): transactions made in parallel draw their nonces from one atomic
  counter, are sorted by nonce and written as blocks. A transaction is its nonce here, everything else in it being
  the same for all.
*/
module TestBlocks {
  import opened Bytes
  import opened Types
  import opened BlockFile

  /** The value of a counter that was drawn from `n` times. */
  function Wrapped(n: nat): (w: nat)
    ensures w < 0x1_0000_0000_0000_0000
  {
    n % 0x1_0000_0000_0000_0000
  }

  lemma NextDraw(lo: nat, i: nat)
    ensures Wrapped(Wrapped(lo) + i) == Wrapped(lo + i)
  {
  }

  /** `AtomicU64`; `fetch_add` wraps around. */
  class AtomicCounter {
    var value: u64
    ghost var draws: nat

    ghost predicate Valid()
      reads this
    {
      value == Wrapped(draws)
    }

    constructor ()
      ensures Valid() && draws == 0
    {
      value, draws := 0, 0;
    }

    method FetchAdd() returns (before: u64)
      requires Valid()
      modifies this
      ensures Valid() && before == old(value) == Wrapped(old(draws)) && draws == old(draws) + 1
    {
      before := value;
      NextDraw(draws, 1);
      value := Wrapped(value + 1);
      draws := draws + 1;
    }
  }

  /** The order in which `k` parallel jobs reach the counter: every job once. */
  predicate IsSchedule(schedule: seq<nat>, k: nat) {
    && |schedule| == k
    && (forall i, j :: 0 <= i < j < k ==> schedule[i] != schedule[j])
    && (forall job: nat :: job < k ==> job in schedule)
    && (forall i :: 0 <= i < k ==> schedule[i] < k)
  }

  /** `lo`, `lo + 1`, ..., `k` of them. */
  function Range(lo: nat, k: nat): (s: seq<nat>)
    ensures |s| == k
  {
    if k == 0 then [] else Range(lo, k - 1) + [lo + k - 1]
  }

  predicate Ascending(s: seq<nat>) {
    forall i, j :: 0 <= i < j < |s| ==> s[i] <= s[j]
  }

  /** What `k` draws give after `lo` earlier ones. */
  function Drawn(lo: nat, k: nat): (s: seq<nat>)
    ensures |s| == k
  {
    if k == 0 then [] else Drawn(lo, k - 1) + [Wrapped(lo + k - 1)]
  }

  lemma {:induction false} DrawnAt(lo: nat, k: nat, i: nat)
    requires i < k
    ensures Drawn(lo, k)[i] == Wrapped(lo + i) && Range(lo, k)[i] == lo + i
  {
    if i < k - 1 {
      DrawnAt(lo, k - 1, i);
    }
  }

  lemma {:induction false} RangeAscends(lo: nat, k: nat)
    ensures Ascending(Range(lo, k)) && (k > 0 ==> Range(lo, k)[k - 1] == lo + k - 1)
  {
    if k > 1 {
      RangeAscends(lo, k - 1);
    }
  }

  // ---------------------------------------------------------------------------------------------
  // Sorting by nonce

  function Insert(x: nat, s: seq<nat>): (r: seq<nat>)
    ensures multiset(r) == multiset(s) + multiset{x}
  {
    if s == [] then [x]
    else if x <= s[0] then [x] + s
    else
      assert s == [s[0]] + s[1..];
      [s[0]] + Insert(x, s[1..])
  }

  function SortByNonce(s: seq<nat>): (r: seq<nat>)
    ensures multiset(r) == multiset(s)
  {
    if s == [] then []
    else
      assert s == [s[0]] + s[1..];
      Insert(s[0], SortByNonce(s[1..]))
  }

  lemma InsertMembers(x: nat, s: seq<nat>)
    ensures forall y :: y in Insert(x, s) ==> y == x || y in s
  {
    forall y | y in Insert(x, s) ensures y == x || y in s {
      assert y in multiset(Insert(x, s));
    }
  }

  lemma PrependLeast(x: nat, s: seq<nat>)
    requires Ascending(s) && forall y :: y in s ==> x <= y
    ensures Ascending([x] + s)
  {
    var all := [x] + s;
    forall i, j | 0 <= i < j < |all| ensures all[i] <= all[j] {
      assert all[j] == s[j - 1] && s[j - 1] in s;
    }
  }

  lemma {:induction false} InsertKeepsAscending(x: nat, s: seq<nat>)
    requires Ascending(s)
    ensures Ascending(Insert(x, s))
  {
    if s != [] && x > s[0] {
      Tail(s);
      InsertKeepsAscending(x, s[1..]);
      InsertMembers(x, s[1..]);
      forall y | y in s[1..] ensures s[0] <= y {
        var i :| 1 <= i < |s| && s[i] == y;
      }
      PrependLeast(s[0], Insert(x, s[1..]));
    } else if s != [] {
      forall y | y in s ensures x <= y {
        var i :| 0 <= i < |s| && s[i] == y;
      }
      PrependLeast(x, s);
    }
  }

  lemma {:induction false} SortAscends(s: seq<nat>)
    ensures Ascending(SortByNonce(s))
  {
    if s != [] {
      SortAscends(s[1..]);
      InsertKeepsAscending(s[0], SortByNonce(s[1..]));
    }
  }

  lemma FirstIsLeast(s: seq<nat>, x: nat)
    requires Ascending(s) && x in multiset(s)
    ensures s[0] <= x
  {
    var i :| 0 <= i < |s| && s[i] == x;
  }

  lemma Tail(s: seq<nat>)
    requires s != [] && Ascending(s)
    ensures multiset(s[1..]) == multiset(s) - multiset{s[0]} && Ascending(s[1..])
  {
    assert s == [s[0]] + s[1..];
    forall i, j | 0 <= i < j < |s[1..]| ensures s[1..][i] <= s[1..][j] {
      assert s[i + 1] <= s[j + 1];
    }
  }

  lemma SameFirst(a: seq<nat>, b: seq<nat>)
    requires Ascending(a) && Ascending(b) && multiset(a) == multiset(b) && a != []
    ensures b != [] && a[0] == b[0]
  {
    assert a[0] in multiset(a);
    assert a[0] in b && b[0] in multiset(b);
    FirstIsLeast(a, b[0]);
    FirstIsLeast(b, a[0]);
  }

  /** There is only one way to arrange numbers in ascending order. */
  lemma {:induction false} AscendingIsUnique(a: seq<nat>, b: seq<nat>)
    requires Ascending(a) && Ascending(b) && multiset(a) == multiset(b)
    ensures a == b
  {
    if a == [] {
      assert |multiset(b)| == |b| == 0;
    } else {
      SameFirst(a, b);
      Tail(a);
      Tail(b);
      AscendingIsUnique(a[1..], b[1..]);
      FirstAndRest(a, b);
    }
  }

  lemma FirstAndRest(a: seq<nat>, b: seq<nat>)
    requires a != [] && b != [] && a[0] == b[0] && a[1..] == b[1..]
    ensures a == b
  {
    assert a == [a[0]] + a[1..] && b == [b[0]] + b[1..];
  }

  lemma SortsAlike(s: seq<nat>, t: seq<nat>)
    requires multiset(s) == multiset(t)
    ensures SortByNonce(s) == SortByNonce(t)
  {
    SortAscends(s);
    SortAscends(t);
    AscendingIsUnique(SortByNonce(s), SortByNonce(t));
  }

  lemma SortedStaysSorted(s: seq<nat>)
    requires Ascending(s)
    ensures SortByNonce(s) == s
  {
    SortAscends(s);
    AscendingIsUnique(SortByNonce(s), s);
  }

  lemma {:induction false} NoWrap(lo: nat, k: nat)
    requires k == 0 || lo + k <= 0x1_0000_0000_0000_0000
    ensures Drawn(lo, k) == Range(lo, k)
  {
    if k > 0 {
      NoWrap(lo, k - 1);
    }
  }

  lemma SortedInterval(lo: nat, k: nat)
    requires k == 0 || lo + k <= 0x1_0000_0000_0000_0000
    ensures SortByNonce(Drawn(lo, k)) == Range(lo, k)
  {
    NoWrap(lo, k);
    RangeAscends(lo, k);
    SortedStaysSorted(Range(lo, k));
  }

  /** Sorted draws are an interval of nonces if and only if the counter does not wrap around among them. */
  lemma IntervalWhenNoWrap(lo: nat, k: nat)
    ensures SortByNonce(Drawn(lo, k)) == Range(lo, k) <==> k == 0 || lo + k <= 0x1_0000_0000_0000_0000
  {
    var s := SortByNonce(Drawn(lo, k));
    if k == 0 || lo + k <= 0x1_0000_0000_0000_0000 {
      SortedInterval(lo, k);
    } else {
      DrawnBelow(lo, k, s);
      RangeAscends(lo, k);
      assert s[k - 1] in s;
    }
  }

  lemma {:induction false} DrawsAreWords(lo: nat, k: nat)
    ensures forall x :: x in Drawn(lo, k) ==> x < 0x1_0000_0000_0000_0000
  {
    if k > 0 {
      DrawsAreWords(lo, k - 1);
    }
  }

  lemma DrawnBelow(lo: nat, k: nat, s: seq<nat>)
    requires multiset(s) == multiset(Drawn(lo, k))
    ensures |s| == k && forall x :: x in s ==> x < 0x1_0000_0000_0000_0000
  {
    assert |s| == |multiset(s)| == |multiset(Drawn(lo, k))|;
    DrawsAreWords(lo, k);
    forall x | x in s ensures x in Drawn(lo, k) {
      assert x in multiset(s);
    }
  }

  lemma RangeIs(s: seq<nat>, lo: nat, k: nat)
    requires |s| == k
    ensures s == Range(lo, k) <==> forall i :: 0 <= i < k ==> s[i] == lo + i
  {
    forall i | 0 <= i < k ensures Range(lo, k)[i] == lo + i {
      DrawnAt(lo, k, i);
    }
  }

  // ---------------------------------------------------------------------------------------------
  // Making blocks

  /** The jobs of one block, in whatever order they reach the counter; results are kept in the order of the jobs. */
  method CreateTransactions(counter: AtomicCounter, k: nat, schedule: seq<nat>) returns (txs: array<nat>)
    requires IsSchedule(schedule, k) && counter.Valid()
    modifies counter
    ensures fresh(txs) && txs.Length == k
    ensures counter.Valid() && counter.draws == old(counter.draws) + k
    ensures forall i :: 0 <= i < k ==> txs[schedule[i]] == Wrapped(old(counter.draws) + i)
  {
    txs := new nat[k];
    ghost var lo := counter.draws;
    for i := 0 to k
      invariant counter.Valid() && counter.draws == lo + i
      invariant forall j :: 0 <= j < i ==> txs[schedule[j]] == Wrapped(lo + j)
    {
      var nonce := counter.FetchAdd();
      txs[schedule[i]] := nonce;
    }
  }

  /** The result slots after the first `i` jobs of the schedule. */
  function Slots(txs: seq<nat>, schedule: seq<nat>, i: nat): (slots: seq<Option<nat>>)
    requires IsSchedule(schedule, |txs|) && i <= |txs|
    ensures |slots| == |txs|
  {
    if i == 0 then Empty(|txs|)
    else Slots(txs, schedule, i - 1)[schedule[i - 1] := Some(txs[schedule[i - 1]])]
  }

  lemma {:induction false} SlotAt(txs: seq<nat>, schedule: seq<nat>, i: nat, t: nat)
    requires IsSchedule(schedule, |txs|) && i <= |txs| && t < |txs|
    ensures Slots(txs, schedule, i)[t] == if t in schedule[..i] then Some(txs[t]) else None
  {
    if i > 0 {
      SlotAt(txs, schedule, i - 1, t);
      assert schedule[..i] == schedule[..i - 1] + [schedule[i - 1]];
    }
  }

  function Somes(s: seq<nat>): (r: seq<Option<nat>>)
    ensures |r| == |s|
  {
    seq(|s|, i requires 0 <= i < |s| => Some(s[i]))
  }

  function Empty(n: nat): (r: seq<Option<nat>>)
    ensures |r| == n
  {
    seq(n, _ => None)
  }

  lemma {:induction false} SomesCount(s: seq<nat>, x: nat)
    ensures multiset(Somes(s))[Some(x)] == multiset(s)[x]
  {
    if s != [] {
      SomesCount(s[1..], x);
      assert s == [s[0]] + s[1..] && Somes(s) == [Some(s[0])] + Somes(s[1..]);
    }
  }

  lemma SlotIsFree(txs: seq<nat>, schedule: seq<nat>, i: nat)
    requires IsSchedule(schedule, |txs|) && i < |txs|
    ensures Slots(txs, schedule, i)[schedule[i]] == None
  {
    SlotAt(txs, schedule, i, schedule[i]);
    assert schedule[i] !in schedule[..i];
  }

  lemma AllSlotsTaken(txs: seq<nat>, schedule: seq<nat>)
    requires IsSchedule(schedule, |txs|)
    ensures Slots(txs, schedule, |txs|) == Somes(txs)
  {
    assert schedule[..|txs|] == schedule;
    forall t: nat | t < |txs| ensures Slots(txs, schedule, |txs|)[t] == Some(txs[t]) {
      SlotAt(txs, schedule, |txs|, t);
      assert t in schedule;
    }
  }

  lemma SlotsMove(drawn: seq<nat>, i: nat, k: nat)
    requires 0 < i <= |drawn| && i <= k
    ensures Somes(drawn[..i]) == Somes(drawn[..i - 1]) + [Some(drawn[i - 1])]
    ensures Empty(k - (i - 1)) == Empty(k - i) + [None]
  {
  }

  /** Filling an empty slot moves it from the empty ones to the filled ones. */
  lemma Exchange(slots: seq<Option<nat>>, at: nat, x: Option<nat>, filled: seq<Option<nat>>, empty: seq<Option<nat>>,
                 filled': seq<Option<nat>>, empty': seq<Option<nat>>)
    requires at < |slots| && slots[at] == None && multiset(slots) == multiset(filled) + multiset(empty)
    requires filled' == filled + [x] && empty == empty' + [None]
    ensures multiset(slots[at := x]) == multiset(filled') + multiset(empty')
  {
  }

  /** The slots are those of `i` results and the empty ones. */
  ghost predicate SlotsHold(slots: seq<Option<nat>>, drawn: seq<nat>, i: nat)
    requires i <= |drawn| == |slots|
  {
    multiset(slots) == multiset(Somes(drawn[..i])) + multiset(Empty(|slots| - i))
  }

  lemma FilledOneMore(slots: seq<Option<nat>>, at: nat, drawn: seq<nat>, i: nat)
    requires 0 < i <= |drawn| == |slots| && at < |slots| && slots[at] == None
    requires SlotsHold(slots, drawn, i - 1)
    ensures SlotsHold(slots[at := Some(drawn[i - 1])], drawn, i)
  {
    SlotsMove(drawn, i, |slots|);
    Exchange(slots, at, Some(drawn[i - 1]),
             Somes(drawn[..i - 1]), Empty(|slots| - (i - 1)), Somes(drawn[..i]), Empty(|slots| - i));
  }

  /** Filled and empty slots together, after `i` jobs with the results `drawn`. */
  lemma {:induction false} SlotsFilled(txs: seq<nat>, schedule: seq<nat>, drawn: seq<nat>, i: nat)
    requires IsSchedule(schedule, |txs|) && i <= |txs| == |drawn|
    requires forall j :: 0 <= j < |txs| ==> txs[schedule[j]] == drawn[j]
    ensures SlotsHold(Slots(txs, schedule, i), drawn, i)
  {
    if i == 0 {
      assert Somes(drawn[..0]) == [];
    } else {
      SlotsFilled(txs, schedule, drawn, i - 1);
      SlotIsFree(txs, schedule, i - 1);
      FilledOneMore(Slots(txs, schedule, i - 1), schedule[i - 1], drawn, i);
    }
  }

  /** Every order of the jobs puts the same nonces into the slots. */
  lemma ScheduleKeepsNonces(txs: seq<nat>, schedule: seq<nat>, drawn: seq<nat>)
    requires IsSchedule(schedule, |txs|) && |drawn| == |txs|
    requires forall j :: 0 <= j < |txs| ==> txs[schedule[j]] == drawn[j]
    ensures multiset(txs) == multiset(drawn)
  {
    SlotsFilled(txs, schedule, drawn, |txs|);
    AllSlotsTaken(txs, schedule);
    assert drawn[..|txs|] == drawn && Empty(0) == [];
    forall x ensures multiset(txs)[x] == multiset(drawn)[x] {
      SomesCount(txs, x);
      SomesCount(drawn, x);
    }
  }

  /** So every order of the jobs ends in the same sorted block. */
  lemma SortedWhateverTheSchedule(txs: seq<nat>, schedule: seq<nat>, drawn: seq<nat>)
    requires IsSchedule(schedule, |txs|) && |drawn| == |txs|
    requires forall j :: 0 <= j < |txs| ==> txs[schedule[j]] == drawn[j]
    ensures SortByNonce(txs) == SortByNonce(drawn)
  {
    ScheduleKeepsNonces(txs, schedule, drawn);
    SortsAlike(txs, drawn);
  }

  lemma CollectedIsDrawn(txs: seq<nat>, schedule: seq<nat>, lo: nat)
    requires IsSchedule(schedule, |txs|) && forall i :: 0 <= i < |txs| ==> txs[schedule[i]] == Wrapped(lo + i)
    ensures SortByNonce(txs) == SortByNonce(Drawn(lo, |txs|))
  {
    forall i | 0 <= i < |txs| ensures txs[schedule[i]] == Drawn(lo, |txs|)[i] {
      DrawnAt(lo, |txs|, i);
    }
    SortedWhateverTheSchedule(txs, schedule, Drawn(lo, |txs|));
  }

  /** One block: its transactions are sorted, so it does not show in which order the jobs ran. */
  method MakeBlock(counter: AtomicCounter, serialize: seq<nat> -> Bytes, k: nat, schedule: seq<nat>)
    returns (bytes: Bytes)
    requires IsSchedule(schedule, k) && counter.Valid()
    modifies counter
    ensures bytes == serialize(SortByNonce(Drawn(old(counter.draws), k)))
    ensures counter.Valid() && counter.draws == old(counter.draws) + k
  {
    var txs := CreateTransactions(counter, k, schedule);
    var collected := txs[..];
    CollectedIsDrawn(collected, schedule, old(counter.draws));
    bytes := serialize(SortByNonce(collected));
  }

  method WriteBlock(file: Bytes, bytes: Bytes) returns (longer: Bytes)
    ensures longer == file + Frame(bytes)
  {
    longer := file + BigEndian(|bytes| % 0x1_0000_0000, PREFIX);
    longer := longer + bytes;
  }

  /** The transactions in `b` blocks of `k` each. */
  function InBlocks(b: nat, k: nat): nat {
    if b == 0 then 0 else InBlocks(b - 1, k) + k
  }

  lemma {:induction false} InBlocksIsProduct(b: nat, k: nat)
    ensures InBlocks(b, k) == b * k
  {
    if b > 0 {
      InBlocksIsProduct(b - 1, k);
    }
  }

  /** The nonces in each block: block `b` holds the draws after those of the blocks before it, sorted. */
  function NonceBlocks(numBlocks: nat, k: nat): (s: seq<seq<nat>>)
    ensures |s| == numBlocks
  {
    seq(numBlocks, b requires 0 <= b < numBlocks => SortByNonce(Drawn(InBlocks(b, k), k)))
  }

  lemma BlockAt(numBlocks: nat, k: nat, b: nat)
    requires b < numBlocks
    ensures NonceBlocks(numBlocks, k)[b] == SortByNonce(Drawn(InBlocks(b, k), k))
  {
  }

  /** The blocks in their serialised form. */
  function SerializedBlocks(serialize: seq<nat> -> Bytes, numBlocks: nat, k: nat): (s: seq<Bytes>)
    ensures |s| == numBlocks
  {
    seq(numBlocks, b requires 0 <= b < numBlocks => serialize(NonceBlocks(numBlocks, k)[b]))
  }

  /** Whatever the schedules, the file is the same. */
  method GenerateTestBlocks(serialize: seq<nat> -> Bytes, numBlocks: nat, k: nat, schedules: seq<seq<nat>>)
    returns (file: Bytes)
    requires |schedules| == numBlocks && forall b :: 0 <= b < numBlocks ==> IsSchedule(schedules[b], k)
    ensures file == Frames(SerializedBlocks(serialize, numBlocks, k))
  {
    var counter := new AtomicCounter();
    file := [];
    ghost var all := SerializedBlocks(serialize, numBlocks, k);
    for b := 0 to numBlocks
      invariant fresh(counter) && counter.Valid() && counter.draws == InBlocks(b, k)
      invariant file == Frames(all[..b])
    {
      var bytes := MakeBlock(counter, serialize, k, schedules[b]);
      BlockAt(numBlocks, k, b);
      assert bytes == all[b];
      file := WriteBlock(file, bytes);
      OneMoreFrame(all, b);
    }
    assert all[..numBlocks] == all;
  }

  lemma OneMoreFrame(blocks: seq<Bytes>, b: nat)
    requires b < |blocks|
    ensures Frames(blocks[..b + 1]) == Frames(blocks[..b]) + Frame(blocks[b])
  {
    assert blocks[..b + 1] == blocks[..b] + [blocks[b]];
    FramesAppend(blocks[..b], [blocks[b]]);
    FramesHead([blocks[b]]);
  }

  function Flatten(blocks: seq<seq<nat>>): seq<nat> {
    if blocks == [] then [] else Flatten(blocks[..|blocks| - 1]) + blocks[|blocks| - 1]
  }

  lemma {:induction false} RangeAppend(lo: nat, k: nat)
    ensures Range(0, lo) + Range(lo, k) == Range(0, lo + k)
  {
    if k > 0 {
      RangeAppend(lo, k - 1);
      Associate(Range(0, lo), Range(lo, k - 1), [lo + k - 1]);
    }
  }

  lemma Join(front: seq<nat>, back: seq<nat>, lo: nat, k: nat)
    requires front == Range(0, lo) && back == Range(lo, k)
    ensures front + back == Range(0, lo + k)
  {
    RangeAppend(lo, k);
  }

  lemma {:induction false} FlattenRanges(blocks: seq<seq<nat>>, k: nat)
    requires forall b :: 0 <= b < |blocks| ==> blocks[b] == Range(InBlocks(b, k), k)
    ensures Flatten(blocks) == Range(0, InBlocks(|blocks|, k))
  {
    if blocks != [] {
      var front := blocks[..|blocks| - 1];
      FlattenRanges(front, k);
      Join(Flatten(front), blocks[|blocks| - 1], InBlocks(|front|, k), k);
    }
  }

  predicate AreWords(nonces: seq<nat>) {
    forall x :: x in nonces ==> x < 0x1_0000_0000_0000_0000
  }

  lemma {:induction false} FlattenWords(blocks: seq<seq<nat>>, k: nat)
    requires forall b :: 0 <= b < |blocks| ==> |blocks[b]| == k && AreWords(blocks[b])
    ensures |Flatten(blocks)| == InBlocks(|blocks|, k) && AreWords(Flatten(blocks))
  {
    if blocks != [] {
      FlattenWords(blocks[..|blocks| - 1], k);
    }
  }

  lemma {:induction false} InBlocksGrows(b: nat, c: nat, k: nat)
    requires b <= c
    ensures InBlocks(b, k) <= InBlocks(c, k)
  {
    if b < c {
      InBlocksGrows(b, c - 1, k);
    }
  }

  lemma BlockInOrder(numBlocks: nat, k: nat, b: nat)
    requires b < numBlocks && InBlocks(numBlocks, k) <= 0x1_0000_0000_0000_0000
    ensures NonceBlocks(numBlocks, k)[b] == Range(InBlocks(b, k), k)
  {
    InBlocksGrows(b + 1, numBlocks, k);
    SortedInterval(InBlocks(b, k), k);
    BlockAt(numBlocks, k, b);
  }

  lemma NoncesInOrder(numBlocks: nat, k: nat)
    requires InBlocks(numBlocks, k) <= 0x1_0000_0000_0000_0000
    ensures Flatten(NonceBlocks(numBlocks, k)) == Range(0, InBlocks(numBlocks, k))
  {
    forall b | 0 <= b < numBlocks ensures NonceBlocks(numBlocks, k)[b] == Range(InBlocks(b, k), k) {
      BlockInOrder(numBlocks, k, b);
    }
    FlattenRanges(NonceBlocks(numBlocks, k), k);
  }

  lemma NoncesAreWords(numBlocks: nat, k: nat)
    ensures var nonces := Flatten(NonceBlocks(numBlocks, k)); |nonces| == InBlocks(numBlocks, k) && AreWords(nonces)
  {
    forall b | 0 <= b < numBlocks
      ensures |NonceBlocks(numBlocks, k)[b]| == k && AreWords(NonceBlocks(numBlocks, k)[b])
    {
      DrawnBelow(InBlocks(b, k), k, SortByNonce(Drawn(InBlocks(b, k), k)));
    }
    FlattenWords(NonceBlocks(numBlocks, k), k);
  }

  /**
    Together the blocks use every nonce from 0 on exactly once and in order, if and only if there are no more than
    2^64 transactions in all.
  */
  lemma NoncesAreGapFree(numBlocks: nat, k: nat)
    ensures var nonces := Flatten(NonceBlocks(numBlocks, k));
            && |nonces| == numBlocks * k
            && ((forall i :: 0 <= i < |nonces| ==> nonces[i] == i) <==> numBlocks * k <= 0x1_0000_0000_0000_0000)
  {
    InBlocksIsProduct(numBlocks, k);
    NoncesAreWords(numBlocks, k);
    var total := InBlocks(numBlocks, k);
    if total <= 0x1_0000_0000_0000_0000 {
      NoncesInOrder(numBlocks, k);
      RangeIs(Range(0, total), 0, total);
    } else {
      assert Flatten(NonceBlocks(numBlocks, k))[total - 1] in Flatten(NonceBlocks(numBlocks, k));
    }
  }

  /** The nonces of one block are those from `b * k` on, in order, unless the counter wraps around among them. */
  lemma BlockNonces(b: nat, k: nat)
    ensures var nonces := NonceBlocks(b + 1, k)[b];
            && |nonces| == k
            && ((forall i :: 0 <= i < k ==> nonces[i] == b * k + i) <==> k == 0 || b * k + k <= 0x1_0000_0000_0000_0000)
  {
    var nonces, lo := NonceBlocks(b + 1, k)[b], InBlocks(b, k);
    InBlocksIsProduct(b, k);
    IntervalWhenNoWrap(lo, k);
    DrawnBelow(lo, k, nonces);
    RangeIs(nonces, lo, k);
  }

  /** A block proposer reading the file gets exactly the blocks that were made, and then the end. */
  lemma GeneratedFileReadsBack(serialize: seq<nat> -> Bytes, numBlocks: nat, k: nat, n: nat)
    requires Framable(SerializedBlocks(serialize, numBlocks, k))
    ensures var blocks := SerializedBlocks(serialize, numBlocks, k);
            Reads(Frames(blocks), numBlocks + n) == Blocks(blocks) + Repeat(End, n)
  {
    BlocksRoundTrip(SerializedBlocks(serialize, numBlocks, k), n);
  }
}
