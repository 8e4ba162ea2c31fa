/** The key encodings of the store's tables (app/src/store/keys.rs) and the order in which the tables keep them. */
module Keys {
  import opened Bytes
  import opened Types

  type Key = (Height, Round)

  /** A height as the database keeps it: 8 bytes, least significant first. */
  function HeightBytes(height: Height): (b: Bytes)
    ensures |b| == 8
  {
    LittleEndian(height, 8)
  }

  /** The bytes of a signed integer, `Round::as_i64` being one. */
  function SignedBytes(i: i64): (b: Bytes)
    ensures |b| == 8
  {
    LittleEndian(TwosComplement(i), 8)
  }

  /** A round as the database keeps it: the 8 bytes of a signed integer, -1 standing for no round. */
  function RoundBytes(round: Round): (b: Bytes)
    ensures |b| == 8
  {
    SignedBytes(round.AsI64())
  }

  function KeyBytes(key: Key): (b: Bytes)
    ensures |b| == 16
  {
    HeightBytes(key.0) + RoundBytes(key.1)
  }

  /** A key as it lies in the database: height and round as a signed integer, each least significant byte first. */
  lemma KeyPlaces(key: Key)
    ensures var h, r := key.0, match key.1 case Nil => 0xFFFF_FFFF_FFFF_FFFF case At(n) => n;
            KeyBytes(key) ==
              [h % 256, h / 0x100 % 256, h / 0x1_0000 % 256, h / 0x100_0000 % 256, h / 0x1_0000_0000 % 256,
               h / 0x100_0000_0000 % 256, h / 0x1_0000_0000_0000 % 256, h / 0x100_0000_0000_0000 % 256,
               r % 256, r / 0x100 % 256, r / 0x1_0000 % 256, r / 0x100_0000 % 256, r / 0x1_0000_0000 % 256,
               r / 0x100_0000_0000 % 256, r / 0x1_0000_0000_0000 % 256, r / 0x100_0000_0000_0000 % 256]
  {
    EightBytes(key.0);
    EightBytes(TwosComplement(key.1.AsI64()));
  }

  function HeightFromBytes(b: Bytes): Height
    requires |b| == 8
  {
    FromLittleEndian(b) % 0x1_0000_0000_0000_0000
  }

  /** Rounds compare as the signed integers that their bytes encode. */
  function RoundOrder(b: Bytes): int
    requires |b| == 8
  {
    FromTwosComplement(FromLittleEndian(b) % 0x1_0000_0000_0000_0000)
  }

  function RoundFromBytes(b: Bytes): Round
    requires |b| == 8
  {
    Round.FromI64(RoundOrder(b))
  }

  function KeyFromBytes(b: Bytes): Key
    requires |b| == 16
  {
    (HeightFromBytes(b[..8]), RoundFromBytes(b[8..]))
  }

  /** Heights compare as the unsigned integers that their bytes encode. */
  predicate HeightLess(a: Bytes, b: Bytes) {
    FromLittleEndian(a) < FromLittleEndian(b)
  }

  /** Pairs compare component by component. */
  predicate KeyLess(a: Bytes, b: Bytes)
    requires |a| == |b| == 16
  {
    || HeightLess(a[..8], b[..8])
    || (!HeightLess(b[..8], a[..8]) && RoundOrder(a[8..]) < RoundOrder(b[8..]))
  }

  lemma WordRoundTrip(n: u64)
    ensures FromLittleEndian(LittleEndian(n, 8)) == n
  {
    CapacityOfWords();
    LittleEndianRoundTrip(n, 8);
  }

  lemma HeightRoundTrip(height: Height)
    ensures FromLittleEndian(HeightBytes(height)) == HeightFromBytes(HeightBytes(height)) == height
  {
    WordRoundTrip(height);
  }

  lemma SignedRoundTrip(i: i64)
    ensures RoundOrder(SignedBytes(i)) == i
  {
    WordRoundTrip(TwosComplement(i));
  }

  lemma RoundRoundTrip(round: Round)
    ensures RoundFromBytes(RoundBytes(round)) == round
    ensures RoundOrder(RoundBytes(round)) == round.AsI64()
  {
    SignedRoundTrip(round.AsI64());
  }

  /** Any other bytes read as a round too: a negative integer as none, a large one by its low 32 bits. */
  lemma AnyIntegerReads(i: i64)
    ensures RoundFromBytes(SignedBytes(i)) == if i < 0 then Nil else At(i % 0x1_0000_0000)
  {
    SignedRoundTrip(i);
  }

  lemma KeyParts(key: Key)
    ensures KeyBytes(key)[..8] == HeightBytes(key.0) && KeyBytes(key)[8..] == RoundBytes(key.1)
  {
  }

  /** Keys come back from the database as they were stored, the absent round included. */
  lemma KeyRoundTrip(key: Key)
    ensures KeyFromBytes(KeyBytes(key)) == key
  {
    KeyParts(key);
    HeightRoundTrip(key.0);
    RoundRoundTrip(key.1);
  }

  /** The order on stored bytes is the lexicographic order on height and round number. */
  lemma KeyOrder(a: Key, b: Key)
    ensures KeyLess(KeyBytes(a), KeyBytes(b)) <==> a.0 < b.0 || (a.0 == b.0 && a.1.AsI64() < b.1.AsI64())
  {
    KeyParts(a);
    KeyParts(b);
    HeightRoundTrip(a.0);
    HeightRoundTrip(b.0);
    RoundRoundTrip(a.1);
    RoundRoundTrip(b.1);
  }

  /** No round is the least round, so a bound without a round cuts between heights. */
  lemma NilIsLeast(a: Key, height: Height)
    ensures KeyLess(KeyBytes(a), KeyBytes((height, Nil))) <==> a.0 < height
  {
    KeyOrder(a, (height, Nil));
  }
}
