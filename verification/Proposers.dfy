/**
  Proposer rotation and validator sets (types/src/context.rs, types/src/proposer_selector.rs,
  types/src/validator_set.rs).
*/
module Proposers {
  import opened Bytes
  import opened Types

  // ---------------------------------------------------------------------------------------------
  // The two selectors

  /** Heights start at 1 and the sum must fit into a machine word: the code panics otherwise. */
  predicate Rotatable(height: Height, round: Round) {
    height >= 1 && round.At? && height - 1 + round.number < 0x1_0000_0000_0000_0000
  }

  /** `RotateProposer::select_proposer`: the address at the index. */
  function RotateProposer(height: Height, round: Round, validators: seq<Validator>): Address
    requires Rotatable(height, round) && validators != []
  {
    validators[(height - 1 + round.number) % |validators|].address
  }

  function GetByIndex(validators: seq<Validator>, index: nat): Option<Validator> {
    if index < |validators| then Some(validators[index]) else None
  }

  /** `TestContext::select_proposer`: the lookup by index never fails. */
  function SelectProposer(validators: seq<Validator>, height: Height, round: Round): Validator
    requires Rotatable(height, round) && validators != []
  {
    var index := (height - 1 + round.AsI64()) % |validators|;
    GetByIndex(validators, index).value
  }

  lemma SelectorsAgree(validators: seq<Validator>, height: Height, round: Round)
    requires Rotatable(height, round) && validators != []
    ensures SelectProposer(validators, height, round).address == RotateProposer(height, round, validators)
    ensures SelectProposer(validators, height, round) in validators
  {
  }

  /**
    Whose turn it is, without a remainder: counting from round 0 of height 1, the rounds go through the list again and
    again, and a height begins one place further than the height before it.
  */
  lemma ProposerIs(validators: seq<Validator>, height: Height, round: Round, passes: nat, i: nat)
    requires Rotatable(height, round) && i < |validators|
    requires height + round.number == passes * |validators| + i + 1
    ensures SelectProposer(validators, height, round) == validators[i]
    ensures RotateProposer(height, round, validators) == validators[i].address
  {
    DivModUnique(height - 1 + round.number, |validators|, passes, i);
  }

  // ---------------------------------------------------------------------------------------------
  // Fairness

  /** The validators chosen in `m` consecutive rounds of a height. */
  function OverRounds(validators: seq<Validator>, height: Height, round: u32, m: nat): (s: seq<Validator>)
    requires validators != [] && height >= 1
    requires round + m <= 0x1_0000_0000 && height - 1 + round + m <= 0x1_0000_0000_0000_0000
    ensures |s| == m
  {
    seq(m, k requires 0 <= k < m => SelectProposer(validators, height, At(round + k)))
  }

  /** The validators chosen at one round of `m` consecutive heights. */
  function OverHeights(validators: seq<Validator>, height: Height, round: u32, m: nat): (s: seq<Validator>)
    requires validators != [] && height >= 1
    requires height + m <= 0x1_0000_0000_0000_0000 && height - 1 + round + m <= 0x1_0000_0000_0000_0000
    ensures |s| == m
  {
    seq(m, k requires 0 <= k < m => SelectProposer(validators, height + k, At(round)))
  }

  /** How often `x` occurs. */
  function Times<T(==)>(s: seq<T>, x: T): nat {
    if s == [] then 0 else Times(s[..|s| - 1], x) + if s[|s| - 1] == x then 1 else 0
  }

  /** The turns that index `i` of `n` gets out of `m` consecutive ones of which the first has number `start`. */
  function Turns(n: nat, start: nat, m: nat, i: nat): nat
    requires n > 0
  {
    m / n + if (i - start) % n < m % n then 1 else 0
  }

  lemma MultipleIsFar(d: int, n: nat)
    requires n > 0 && d != 0
    ensures d * n >= n || d * n + n <= 0
  {
  }

  lemma DivModUnique(x: int, n: nat, q: int, r: nat)
    requires n > 0 && x == q * n + r && r < n
    ensures x / n == q && x % n == r
  {
    var d := x / n - q;
    assert x == (x / n) * n + x % n;
    assert d * n == r - x % n;
    if d != 0 {
      MultipleIsFar(d, n);
      assert false;
    }
  }

  lemma OneMoreTurn(n: nat, m: nat)
    requires n > 0
    ensures m % n == n - 1 ==> (m + 1) / n == m / n + 1 && (m + 1) % n == 0
    ensures m % n < n - 1 ==> (m + 1) / n == m / n && (m + 1) % n == m % n + 1
  {
    assert m == (m / n) * n + m % n;
    if m % n == n - 1 {
      assert (m / n + 1) * n == (m / n) * n + n;
      DivModUnique(m + 1, n, m / n + 1, 0);
    } else {
      DivModUnique(m + 1, n, m / n, m % n + 1);
    }
  }

  /** Turn `start + m` is the one of `i` exactly when `m` is as far from `start` as `i` is. */
  lemma WhoseTurn(n: nat, start: nat, m: nat, i: nat)
    requires i < n
    ensures (start + m) % n == i <==> m % n == (i - start) % n
  {
    var q, d := (i - start) / n, (i - start) % n;
    assert i - start == q * n + d;
    assert m == (m / n) * n + m % n;
    if m % n == d {
      assert (m / n - q) * n == (m / n) * n - q * n;
      DivModUnique(start + m, n, m / n - q, i);
    }
    if (start + m) % n == i {
      var p := (start + m) / n;
      assert start + m == p * n + i;
      assert (p + q) * n == p * n + q * n;
      DivModUnique(m, n, p + q, d);
    }
  }

  lemma TurnsStep(n: nat, start: nat, m: nat, i: nat)
    requires i < n
    ensures Turns(n, start, m + 1, i) == Turns(n, start, m, i) + if (start + m) % n == i then 1 else 0
  {
    OneMoreTurn(n, m);
    WhoseTurn(n, start, m, i);
  }

  /** The indices whose turn it is in `m` consecutive turns of which the first has number `start`. */
  function Rotation(n: nat, start: nat, m: nat): (s: seq<nat>)
    requires n > 0
    ensures |s| == m
  {
    if m == 0 then [] else Rotation(n, start, m - 1) + [(start + m - 1) % n]
  }

  lemma {:induction false} RotationAt(n: nat, start: nat, m: nat, k: nat)
    requires n > 0 && k < m
    ensures Rotation(n, start, m)[k] == (start + k) % n
  {
    if k < m - 1 {
      RotationAt(n, start, m - 1, k);
    }
  }

  /** Every index gets exactly its turns. */
  lemma {:induction false} IndexCount(n: nat, start: nat, m: nat, i: nat)
    requires i < n
    ensures Times(Rotation(n, start, m), i) == Turns(n, start, m, i)
  {
    if m > 0 {
      IndexCount(n, start, m - 1, i);
      TurnsStep(n, start, m - 1, i);
    } else {
      DivModUnique(0, n, 0, 0);
    }
  }

  /** Nobody gets less than the rounded down or more than the rounded up share; whole turns are shared equally. */
  lemma TurnsAreFair(n: nat, start: nat, m: nat, i: nat)
    requires n > 0
    ensures m / n <= Turns(n, start, m, i) <= (m + n - 1) / n
    ensures m % n == 0 ==> Turns(n, start, m, i) == m / n
    ensures m == n ==> Turns(n, start, m, i) == 1
  {
    assert m == (m / n) * n + m % n;
    if m % n == 0 {
      DivModUnique(m + n - 1, n, m / n, n - 1);
    } else {
      assert (m / n + 1) * n == (m / n) * n + n;
      DivModUnique(m + n - 1, n, m / n + 1, m % n - 1);
    }
    if m == n {
      DivModUnique(n, n, 1, 0);
    }
  }

  /** Each of `n` indices has its share of the turns, rounded down or up, and one turn of as many as there are indices. */
  ghost predicate FairIndices(n: nat, turns: seq<nat>)
    requires n > 0
  {
    forall i: nat :: i < n ==>
      && |turns| / n <= Times(turns, i) <= (|turns| + n - 1) / n
      && (|turns| == n ==> Times(turns, i) == 1)
  }

  lemma RotationIsFair(n: nat, start: nat, m: nat)
    requires n > 0
    ensures FairIndices(n, Rotation(n, start, m))
  {
    var turns := Rotation(n, start, m);
    forall i: nat | i < n
      ensures m / n <= Times(turns, i) <= (m + n - 1) / n && (m == n ==> Times(turns, i) == 1)
    {
      IndexCount(n, start, m, i);
      TurnsAreFair(n, start, m, i);
    }
  }

  /** The chosen validators are those at these indices. */
  ghost predicate ChosenAt(validators: seq<Validator>, turns: seq<nat>, chosen: seq<Validator>) {
    && |chosen| == |turns|
    && forall k :: 0 <= k < |turns| ==> turns[k] < |validators| && chosen[k] == validators[turns[k]]
  }

  lemma ChosenInTurn(validators: seq<Validator>, height: Height, round: Round, start: nat, m: nat, k: nat)
    requires validators != [] && Rotatable(height, round) && height - 1 + round.number == start + k && k < m
    ensures Rotation(|validators|, start, m)[k] < |validators|
    ensures SelectProposer(validators, height, round) == validators[Rotation(|validators|, start, m)[k]]
  {
    RotationAt(|validators|, start, m, k);
  }

  /** Any number of consecutive rounds of a height go round the indices, with a fair share for each of them. */
  lemma RoundsAreFair(validators: seq<Validator>, height: Height, round: u32, m: nat)
    requires validators != [] && height >= 1
    requires round + m <= 0x1_0000_0000 && height - 1 + round + m <= 0x1_0000_0000_0000_0000
    ensures var turns := Rotation(|validators|, height - 1 + round, m);
            FairIndices(|validators|, turns) && ChosenAt(validators, turns, OverRounds(validators, height, round, m))
  {
    var turns := Rotation(|validators|, height - 1 + round, m);
    RotationIsFair(|validators|, height - 1 + round, m);
    forall k | 0 <= k < m
      ensures turns[k] < |validators| && OverRounds(validators, height, round, m)[k] == validators[turns[k]]
    {
      RotationAt(|validators|, height - 1 + round, m, k);
      ChosenInTurn(validators, height, At(round + k), height - 1 + round, m, k);
    }
  }

  /** And so do consecutive heights at any one round. */
  lemma HeightsAreFair(validators: seq<Validator>, height: Height, round: u32, m: nat)
    requires validators != [] && height >= 1
    requires height + m <= 0x1_0000_0000_0000_0000 && height - 1 + round + m <= 0x1_0000_0000_0000_0000
    ensures var turns := Rotation(|validators|, height - 1 + round, m);
            FairIndices(|validators|, turns) && ChosenAt(validators, turns, OverHeights(validators, height, round, m))
  {
    var turns := Rotation(|validators|, height - 1 + round, m);
    RotationIsFair(|validators|, height - 1 + round, m);
    forall k | 0 <= k < m
      ensures turns[k] < |validators| && OverHeights(validators, height, round, m)[k] == validators[turns[k]]
    {
      RotationAt(|validators|, height - 1 + round, m, k);
      ChosenInTurn(validators, height + k, At(round), height - 1 + round, m, k);
    }
  }

  // ---------------------------------------------------------------------------------------------
  // Fairness to validators

  /** The turns of a validator: those of all the indices at which it is listed. */
  function TurnsOf(validators: seq<Validator>, upTo: nat, start: nat, m: nat, v: Validator): nat
    requires upTo <= |validators|
  {
    if upTo == 0 then 0
    else TurnsOf(validators, upTo - 1, start, m, v)
         + if validators[upTo - 1] == v then Turns(|validators|, start, m, upTo - 1) else 0
  }

  /** One more turn is counted once, for the validator at its index. */
  lemma {:induction false} TurnsOfStep(validators: seq<Validator>, upTo: nat, start: nat, m: nat, v: Validator)
    requires upTo <= |validators| && validators != []
    ensures var i := (start + m) % |validators|;
            TurnsOf(validators, upTo, start, m + 1, v) == TurnsOf(validators, upTo, start, m, v)
              + if i < upTo && validators[i] == v then 1 else 0
  {
    if upTo > 0 {
      TurnsOfStep(validators, upTo - 1, start, m, v);
      TurnsStep(|validators|, start, m, upTo - 1);
    }
  }

  lemma {:induction false} NoTurnsYet(validators: seq<Validator>, upTo: nat, start: nat, v: Validator)
    requires upTo <= |validators|
    ensures TurnsOf(validators, upTo, start, 0, v) == 0
  {
    if upTo > 0 {
      NoTurnsYet(validators, upTo - 1, start, v);
      DivModUnique(0, |validators|, 0, 0);
    }
  }

  /** How often a validator is chosen, for every list of validators. */
  lemma {:induction false} RotationCount(validators: seq<Validator>, start: nat, m: nat, chosen: seq<Validator>, v: Validator)
    requires validators != [] && ChosenAt(validators, Rotation(|validators|, start, m), chosen)
    ensures Times(chosen, v) == TurnsOf(validators, |validators|, start, m, v)
  {
    if m == 0 {
      NoTurnsYet(validators, |validators|, start, v);
    } else {
      ChosenFront(validators, start, m, chosen);
      RotationCount(validators, start, m - 1, chosen[..m - 1], v);
      TurnsOfStep(validators, |validators|, start, m - 1, v);
    }
  }

  lemma ChosenFront(validators: seq<Validator>, start: nat, m: nat, chosen: seq<Validator>)
    requires validators != [] && m > 0 && ChosenAt(validators, Rotation(|validators|, start, m), chosen)
    ensures ChosenAt(validators, Rotation(|validators|, start, m - 1), chosen[..m - 1])
    ensures chosen[m - 1] == validators[(start + m - 1) % |validators|]
  {
    var turns := Rotation(|validators|, start, m);
    assert turns[..m - 1] == Rotation(|validators|, start, m - 1);
    assert forall k :: 0 <= k < m - 1 ==> turns[..m - 1][k] == turns[k] && chosen[..m - 1][k] == chosen[k];
  }

  predicate Unique(validators: seq<Validator>) {
    forall i, j :: 0 <= i < j < |validators| ==> validators[i] != validators[j]
  }

  lemma {:induction false} TurnsOfAbsent(validators: seq<Validator>, upTo: nat, start: nat, m: nat, v: Validator)
    requires upTo <= |validators| && v !in validators[..upTo]
    ensures TurnsOf(validators, upTo, start, m, v) == 0
  {
    if upTo > 0 {
      assert validators[..upTo] == validators[..upTo - 1] + [validators[upTo - 1]];
      TurnsOfAbsent(validators, upTo - 1, start, m, v);
    }
  }

  /** A validator that is listed once has the turns of its index. */
  lemma {:induction false} TurnsOfOnly(validators: seq<Validator>, upTo: nat, start: nat, m: nat, i: nat)
    requires Unique(validators) && i < upTo <= |validators|
    ensures TurnsOf(validators, upTo, start, m, validators[i]) == Turns(|validators|, start, m, i)
  {
    if i == upTo - 1 {
      TurnsOfAbsent(validators, upTo - 1, start, m, validators[i]);
    } else {
      TurnsOfOnly(validators, upTo - 1, start, m, i);
    }
  }

  /** A validator has at least the turns of each two indices at which it is listed. */
  lemma {:induction false} TurnsOfTwice(validators: seq<Validator>, upTo: nat, start: nat, m: nat, i: nat, j: nat)
    requires i < j < |validators| && upTo <= |validators| && validators[i] == validators[j]
    ensures TurnsOf(validators, upTo, start, m, validators[i])
         >= (if i < upTo then Turns(|validators|, start, m, i) else 0) + (if j < upTo then Turns(|validators|, start, m, j) else 0)
  {
    if upTo > 0 {
      TurnsOfTwice(validators, upTo - 1, start, m, i, j);
    }
  }

  /** Every validator has a single share of the turns. */
  ghost predicate FairShare(validators: seq<Validator>, chosen: seq<Validator>)
    requires validators != []
  {
    forall v :: v in validators ==>
      && |chosen| / |validators| <= Times(chosen, v) <= (|chosen| + |validators| - 1) / |validators|
      && (|chosen| == |validators| ==> Times(chosen, v) == 1)
  }

  lemma UniqueIsFair(validators: seq<Validator>, start: nat, m: nat, chosen: seq<Validator>)
    requires validators != [] && Unique(validators) && ChosenAt(validators, Rotation(|validators|, start, m), chosen)
    ensures FairShare(validators, chosen)
  {
    forall v | v in validators
      ensures m / |validators| <= Times(chosen, v) <= (m + |validators| - 1) / |validators|
      ensures m == |validators| ==> Times(chosen, v) == 1
    {
      var i: nat :| i < |validators| && validators[i] == v;
      RotationCount(validators, start, m, chosen, v);
      TurnsOfOnly(validators, |validators|, start, m, i);
      TurnsAreFair(|validators|, start, m, i);
    }
  }

  /** In one turn for each index, a validator that is listed twice is chosen twice. */
  lemma DuplicateIsUnfair(validators: seq<Validator>, start: nat, chosen: seq<Validator>)
    requires validators != [] && !Unique(validators)
    requires ChosenAt(validators, Rotation(|validators|, start, |validators|), chosen)
    ensures !FairShare(validators, chosen)
  {
    var n := |validators|;
    var i: nat, j: nat :| i < j < n && validators[i] == validators[j];
    RotationCount(validators, start, n, chosen, validators[i]);
    TurnsOfTwice(validators, n, start, n, i, j);
    TurnsAreFair(n, start, n, i);
    TurnsAreFair(n, start, n, j);
    assert validators[i] in validators && Times(chosen, validators[i]) >= 2;
  }

  /** Any number of rounds of a height, from the given one on, are shared fairly between the validators. */
  ghost predicate FairRounds(validators: seq<Validator>, height: Height, round: u32)
    requires validators != [] && height >= 1
  {
    forall m: nat | round + m <= 0x1_0000_0000 && height - 1 + round + m <= 0x1_0000_0000_0000_0000 ::
      FairShare(validators, OverRounds(validators, height, round, m))
  }

  /** And any number of heights at the given round. */
  ghost predicate FairHeights(validators: seq<Validator>, height: Height, round: u32)
    requires validators != [] && height >= 1
  {
    forall m: nat | height + m <= 0x1_0000_0000_0000_0000 && height - 1 + round + m <= 0x1_0000_0000_0000_0000 ::
      FairShare(validators, OverHeights(validators, height, round, m))
  }

  /** Rounds and heights are shared fairly between the validators of a set if and only if none is listed twice. */
  lemma FairWhenUnique(validators: seq<Validator>, height: Height, round: u32)
    requires validators != [] && height >= 1
    requires round + |validators| <= 0x1_0000_0000 && height - 1 + round + |validators| <= 0x1_0000_0000_0000_0000
    requires height + |validators| <= 0x1_0000_0000_0000_0000
    ensures FairRounds(validators, height, round) <==> Unique(validators)
    ensures FairHeights(validators, height, round) <==> Unique(validators)
  {
    var n, start := |validators|, height - 1 + round;
    if Unique(validators) {
      forall m: nat | round + m <= 0x1_0000_0000 && height - 1 + round + m <= 0x1_0000_0000_0000_0000
        ensures FairShare(validators, OverRounds(validators, height, round, m))
      {
        RoundsAreFair(validators, height, round, m);
        UniqueIsFair(validators, start, m, OverRounds(validators, height, round, m));
      }
      forall m: nat | height + m <= 0x1_0000_0000_0000_0000 && height - 1 + round + m <= 0x1_0000_0000_0000_0000
        ensures FairShare(validators, OverHeights(validators, height, round, m))
      {
        HeightsAreFair(validators, height, round, m);
        UniqueIsFair(validators, start, m, OverHeights(validators, height, round, m));
      }
    } else {
      RoundsAreFair(validators, height, round, n);
      DuplicateIsUnfair(validators, start, OverRounds(validators, height, round, n));
      HeightsAreFair(validators, height, round, n);
      DuplicateIsUnfair(validators, start, OverHeights(validators, height, round, n));
    }
  }

  // ---------------------------------------------------------------------------------------------
  // Validator sets

  /** `Vec::dedup`: of neighbours that are equal only the first stays. */
  function Dedup(vs: seq<Validator>): seq<Validator> {
    if |vs| < 2 then vs
    else Dedup(vs[..|vs| - 1]) + if vs[|vs| - 1] == vs[|vs| - 2] then [] else [vs[|vs| - 1]]
  }

  /** `ValidatorSet::new`: panics on an empty list. */
  function NewValidatorSet(vs: seq<Validator>): Option<seq<Validator>> {
    if Dedup(vs) == [] then None else Some(Dedup(vs))
  }

  /** The order of addresses: byte by byte. */
  predicate AtMost(a: Bytes, b: Bytes) {
    a == [] || (b != [] && (a[0] < b[0] || (a[0] == b[0] && AtMost(a[1..], b[1..]))))
  }

  /** Either the first place at which they differ decides, or the first one is a beginning of the second. */
  predicate DecidedAt(a: Bytes, b: Bytes, k: nat) {
    k <= |a| && k <= |b| && a[..k] == b[..k] && (k == |a| || (k < |b| && a[k] < b[k]))
  }

  lemma {:induction false} AddressOrder(a: Bytes, b: Bytes)
    ensures AtMost(a, b) <==> exists k: nat :: DecidedAt(a, b, k)
  {
    if a == [] {
      assert DecidedAt(a, b, 0);
    } else if b != [] && a[0] == b[0] {
      AddressOrder(a[1..], b[1..]);
      forall k: nat ensures DecidedAt(a[1..], b[1..], k) <==> DecidedAt(a, b, k + 1) {
        DecidedOnePlaceOn(a, b, k);
      }
      assert !DecidedAt(a, b, 0);
      forall k: nat | DecidedAt(a, b, k) ensures k > 0 && DecidedAt(a[1..], b[1..], k - 1) {
      }
    } else if b != [] {
      assert a[0] < b[0] ==> DecidedAt(a, b, 0);
      forall k: nat | 0 < k <= |a| && k <= |b| ensures a[..k] != b[..k] {
        assert a[..k][0] == a[0] && b[..k][0] == b[0];
      }
    }
  }

  lemma DecidedOnePlaceOn(a: Bytes, b: Bytes, k: nat)
    requires a != [] && b != [] && a[0] == b[0]
    ensures DecidedAt(a[1..], b[1..], k) <==> DecidedAt(a, b, k + 1)
  {
    if k < |a| && k < |b| {
      assert a[..k + 1] == [a[0]] + a[1..][..k] && b[..k + 1] == [b[0]] + b[1..][..k];
      assert a[1..][..k] == a[..k + 1][1..] && b[1..][..k] == b[..k + 1][1..];
    }
  }

  predicate SortedByAddress(vs: seq<Validator>) {
    forall i :: 0 < i < |vs| ==> AtMost(vs[i - 1].address, vs[i].address)
  }

  lemma {:induction false} AtMostItself(a: Bytes)
    ensures AtMost(a, a)
  {
    if a != [] {
      AtMostItself(a[1..]);
    }
  }

  lemma DedupOneMore(front: seq<Validator>, last: Validator)
    requires front != []
    ensures Dedup(front + [last]) == if last == front[|front| - 1] then Dedup(front) else Dedup(front) + [last]
  {
    assert (front + [last])[..|front|] == front;
  }

  lemma {:induction false} DedupKeepsLast(vs: seq<Validator>)
    ensures Dedup(vs) == [] <==> vs == []
    ensures vs != [] ==> Dedup(vs)[|Dedup(vs)| - 1] == vs[|vs| - 1]
  {
    if |vs| >= 2 {
      DedupKeepsLast(vs[..|vs| - 1]);
    }
  }

  lemma SortedOneMore(vs: seq<Validator>, v: Validator)
    requires vs != []
    ensures SortedByAddress(vs + [v]) <==> SortedByAddress(vs) && AtMost(vs[|vs| - 1].address, v.address)
  {
    var all := vs + [v];
    if SortedByAddress(all) {
      forall i | 0 < i < |vs| ensures AtMost(vs[i - 1].address, vs[i].address) {
        assert AtMost(all[i - 1].address, all[i].address);
      }
      assert AtMost(all[|vs| - 1].address, all[|vs|].address);
    }
  }

  /** A validator set is sorted by address if and only if the list it is made from is: nothing sorts it. */
  lemma {:induction false} SortedOnlyIfGivenSorted(vs: seq<Validator>)
    ensures SortedByAddress(Dedup(vs)) <==> SortedByAddress(vs)
  {
    if |vs| >= 2 {
      var front, last := vs[..|vs| - 1], vs[|vs| - 1];
      SortedOnlyIfGivenSorted(front);
      DedupKeepsLast(front);
      SortedOneMore(front, last);
      DedupOneMore(front, last);
      assert vs == front + [last];
      if last == front[|front| - 1] {
        AtMostItself(last.address);
      } else {
        SortedOneMore(Dedup(front), last);
      }
    }
  }

  /** Equal validators stand next to each other. */
  predicate Grouped(vs: seq<Validator>) {
    forall i, j :: 0 <= i < j < |vs| && vs[i] == vs[j] ==> vs[j - 1] == vs[j]
  }

  lemma {:induction false} DedupSameMembers(vs: seq<Validator>, v: Validator)
    ensures v in Dedup(vs) <==> v in vs
  {
    if |vs| >= 2 {
      DedupSameMembers(vs[..|vs| - 1], v);
      assert vs == vs[..|vs| - 1] + [vs[|vs| - 1]];
    }
  }

  lemma UniqueOneMore(vs: seq<Validator>, v: Validator)
    ensures Unique(vs + [v]) <==> Unique(vs) && v !in vs
  {
    var all := vs + [v];
    if Unique(all) {
      forall i, j | 0 <= i < j < |vs| ensures vs[i] != vs[j] {
        assert all[i] != all[j];
      }
      forall i | 0 <= i < |vs| ensures vs[i] != v {
        assert all[i] != all[|vs|];
      }
    }
  }

  lemma GroupedOneMore(vs: seq<Validator>, v: Validator)
    requires vs != []
    ensures Grouped(vs + [v]) <==> Grouped(vs) && (v in vs ==> vs[|vs| - 1] == v)
  {
    var all := vs + [v];
    if Grouped(all) {
      forall i, j | 0 <= i < j < |vs| && vs[i] == vs[j] ensures vs[j - 1] == vs[j] {
        assert all[i] == all[j] && all[j - 1] == all[j];
      }
      if v in vs {
        var i :| 0 <= i < |vs| && vs[i] == v;
        assert all[i] == all[|vs|] && all[|vs| - 1] == all[|vs|];
      }
    }
  }

  lemma UniqueIfGroupedOneMore(front: seq<Validator>, last: Validator)
    requires front != [] && (Unique(Dedup(front)) <==> Grouped(front))
    ensures Unique(Dedup(front + [last])) <==> Grouped(front + [last])
  {
    DedupSameMembers(front, last);
    GroupedOneMore(front, last);
    DedupOneMore(front, last);
    if last != front[|front| - 1] {
      UniqueOneMore(Dedup(front), last);
    }
  }

  /** The set is without duplicates if and only if equal validators were given next to each other. */
  lemma {:induction false} UniqueOnlyIfGrouped(vs: seq<Validator>)
    ensures Unique(Dedup(vs)) <==> Grouped(vs)
  {
    if |vs| >= 2 {
      var front, last := vs[..|vs| - 1], vs[|vs| - 1];
      UniqueOnlyIfGrouped(front);
      assert vs == front + [last];
      UniqueIfGroupedOneMore(front, last);
    }
  }

  /** So a new set is fair to its validators if and only if equal ones were given next to each other. */
  lemma FairWhenGrouped(given: seq<Validator>, height: Height, round: u32)
    requires NewValidatorSet(given).Some? && height >= 1
    requires var n := |NewValidatorSet(given).value|;
             && round + n <= 0x1_0000_0000 && height - 1 + round + n <= 0x1_0000_0000_0000_0000
             && height + n <= 0x1_0000_0000_0000_0000
    ensures FairRounds(NewValidatorSet(given).value, height, round) <==> Grouped(given)
    ensures FairHeights(NewValidatorSet(given).value, height, round) <==> Grouped(given)
  {
    FairWhenUnique(NewValidatorSet(given).value, height, round);
    UniqueOnlyIfGrouped(given);
  }

  function Someone(b: byte): Validator {
    Validator(seq(ADDRESS_LENGTH, _ => b), [], 1)
  }

  /** A set that is neither sorted nor without duplicates. */
  lemma SomeSetIsUnordered()
    ensures var given := [Someone(1), Someone(0), Someone(1)];
            NewValidatorSet(given) == Some(given) && !SortedByAddress(given) && !Unique(given)
  {
    var given := [Someone(1), Someone(0), Someone(1)];
    assert Someone(1).address[0] == 1 && Someone(0).address[0] == 0;
    DedupOneMore([Someone(1)], Someone(0));
    assert [Someone(1)] + [Someone(0)] == [Someone(1), Someone(0)];
    DedupOneMore([Someone(1), Someone(0)], Someone(1));
    assert [Someone(1), Someone(0)] + [Someone(1)] == given;
    assert !AtMost(given[0].address, given[1].address);
    assert given[0] == given[2];
  }

  /** In three rounds of this set one validator is chosen twice. */
  lemma SomeSetIsUnfair()
    ensures var given := [Someone(1), Someone(0), Someone(1)];
            NewValidatorSet(given) == Some(given) && Times(OverRounds(given, 1, 0, 3), Someone(1)) == 2
  {
    var given := [Someone(1), Someone(0), Someone(1)];
    SomeSetIsUnordered();
    var chosen := OverRounds(given, 1, 0, 3);
    forall k | 0 <= k < 3 ensures chosen[k] == given[k] {
      DivModUnique(k, 3, 0, k);
      assert At(0 + k).AsI64() == k;
      assert chosen[k] == SelectProposer(given, 1, At(0 + k));
    }
    assert chosen == given;
    assert Someone(1).address[0] == 1 && Someone(0).address[0] == 0;
    TimesInThree(Someone(1), Someone(0), Someone(1), Someone(1));
  }

  lemma TimesInThree<T>(a: T, b: T, c: T, x: T)
    ensures Times([a, b, c], x) == (if a == x then 1 else 0) + (if b == x then 1 else 0) + (if c == x then 1 else 0)
  {
    assert [a, b, c][..2] == [a, b] && [a, b][..1] == [a] && [a][..0] == [];
    assert Times([a], x) == if a == x then 1 else 0;
    assert Times([a, b], x) == Times([a], x) + if b == x then 1 else 0;
  }
}
