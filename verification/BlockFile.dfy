/** The file of length-framed blocks: the reader of app/src/eth.rs and the writer of app/src/bin/utils.rs. */
module BlockFile {
  import opened Bytes
  import opened Types

  const PREFIX := 4

  /** What `read_block` returns: a block, the end of the file, or an error. */
  datatype Reading = Block(bytes: Bytes) | End | Failed

  /** A block as it is written. The cast of its length keeps 32 bits. */
  function Frame(block: Bytes): (f: Bytes)
    ensures |f| == PREFIX + |block|
  {
    BigEndian(|block| % 0x1_0000_0000, PREFIX) + block
  }

  /** A frame byte by byte: the length, most significant byte first and cut to 32 bits, and the block. */
  lemma FramePlaces(block: Bytes)
    ensures var n := |block| % 0x1_0000_0000;
            Frame(block) == [n / 0x100_0000 % 256, n / 0x1_0000 % 256, n / 0x100 % 256, n % 256] + block
  {
    FourBytes(|block| % 0x1_0000_0000);
  }

  function Frames(blocks: seq<Bytes>): Bytes {
    if blocks == [] then [] else Frame(blocks[0]) + Frames(blocks[1..])
  }

  /**
    One read, and what is left of the input. A read that runs out of input has consumed all of it: inside the
    length it is the end of the file, inside the block it is an error.
  */
  function Read(input: Bytes): (r: (Reading, Bytes))
    ensures |r.1| <= |input|
  {
    if |input| < PREFIX then (End, [])
    else
      var length, body := FromBigEndian(input[..PREFIX]), input[PREFIX..];
      if |body| < length then (Failed, []) else (Block(body[..length]), body[length..])
  }

  /** The results of `n` reads. */
  function Reads(input: Bytes, n: nat): (results: seq<Reading>)
    ensures |results| == n
    decreases n
  {
    if n == 0 then [] else [Read(input).0] + Reads(Read(input).1, n - 1)
  }

  class BlockProposer {
    const input: Bytes
    var pos: nat

    ghost predicate Valid()
      reads this
    {
      pos <= |input|
    }

    constructor (input: Bytes)
      ensures Valid() && this.input == input && pos == 0
    {
      this.input, pos := input, 0;
    }

    /** `read_exact`: the next `n` bytes, or else nothing, with all of the input consumed. */
    method ReadExact(n: nat) returns (bytes: Option<Bytes>)
      requires Valid()
      modifies this
      ensures Valid()
      ensures bytes == if n <= |input| - old(pos) then Some(input[old(pos)..][..n]) else None
      ensures pos == if n <= |input| - old(pos) then old(pos) + n else |input|
    {
      if n <= |input| - pos {
        bytes := Some(input[pos..pos + n]);
        assert input[pos..][..n] == input[pos..pos + n];
        pos := pos + n;
      } else {
        bytes := None;
        pos := |input|;
      }
    }

    method ReadBlock() returns (result: Reading)
      requires Valid()
      modifies this
      ensures Valid() && (result, input[pos..]) == Read(old(input[pos..]))
    {
      var start := pos;
      var prefix := ReadExact(PREFIX);
      if prefix.None? {
        assert input[pos..] == [];
        return End;
      }
      assert input[start..][PREFIX..] == input[pos..];
      var length := FromBigEndian(prefix.value);
      ghost var body := pos;
      var bytes := ReadExact(length);
      if bytes.None? {
        assert input[pos..] == [];
        return Failed;
      }
      assert input[body..][length..] == input[pos..];
      result := Block(bytes.value);
    }
  }

  lemma {:induction false} FramesAppend(a: seq<Bytes>, b: seq<Bytes>)
    ensures Frames(a + b) == Frames(a) + Frames(b)
  {
    if a == [] {
      assert a + b == b;
    } else {
      assert (a + b)[1..] == a[1..] + b;
      FramesAppend(a[1..], b);
      Associate(Frame(a[0]), Frames(a[1..]), Frames(b));
    }
  }

  // ---------------------------------------------------------------------------------------------
  // Reading what was written

  function Repeat<T>(x: T, n: nat): (s: seq<T>)
    ensures |s| == n
  {
    seq(n, _ => x)
  }

  function Blocks(blocks: seq<Bytes>): (s: seq<Reading>)
    ensures |s| == |blocks|
  {
    seq(|blocks|, i requires 0 <= i < |blocks| => Block(blocks[i]))
  }

  predicate Framable(blocks: seq<Bytes>) {
    forall i :: 0 <= i < |blocks| ==> |blocks[i]| < 0x1_0000_0000
  }

  lemma LengthRoundTrip(length: u32)
    ensures FromBigEndian(BigEndian(length, PREFIX)) == length
  {
    CapacityOfWords();
    BigEndianRoundTrip(length, PREFIX);
  }

  lemma SplitFrame(prefix: Bytes, block: Bytes, rest: Bytes)
    ensures ((prefix + block) + rest)[..|prefix|] == prefix && ((prefix + block) + rest)[|prefix|..] == block + rest
  {
  }

  /** The length that is read is the one that was written, up to the cast. */
  lemma PrefixOf(block: Bytes, rest: Bytes)
    ensures var input := Frame(block) + rest;
            input[PREFIX..] == block + rest && FromBigEndian(input[..PREFIX]) == |block| % 0x1_0000_0000
  {
    var length := |block| % 0x1_0000_0000;
    LengthRoundTrip(length);
    SplitFrame(BigEndian(length, PREFIX), block, rest);
  }

  lemma ReadFrame(block: Bytes, rest: Bytes)
    requires |block| < 0x1_0000_0000
    ensures Read(Frame(block) + rest) == (Block(block), rest)
  {
    PrefixOf(block, rest);
    assert (block + rest)[..|block|] == block && (block + rest)[|block|..] == rest;
  }

  lemma ReadsStep(input: Bytes, reading: Reading, rest: Bytes, n: nat)
    requires Read(input) == (reading, rest)
    ensures Reads(input, n + 1) == [reading] + Reads(rest, n)
  {
  }

  lemma BlocksStep(blocks: seq<Bytes>, more: seq<Reading>)
    requires blocks != []
    ensures Blocks(blocks) + more == [Block(blocks[0])] + (Blocks(blocks[1..]) + more)
  {
  }

  lemma {:induction false} ReadFrames(blocks: seq<Bytes>, rest: Bytes, n: nat)
    requires Framable(blocks)
    ensures Reads(Frames(blocks) + rest, |blocks| + n) == Blocks(blocks) + Reads(rest, n)
  {
    if blocks == [] {
      assert Frames(blocks) + rest == rest;
    } else {
      var tail := Frames(blocks[1..]) + rest;
      ReadFrame(blocks[0], tail);
      Associate(Frame(blocks[0]), Frames(blocks[1..]), rest);
      ReadFrames(blocks[1..], rest, n);
      ReadsStep(Frame(blocks[0]) + tail, Block(blocks[0]), tail, |blocks| - 1 + n);
      BlocksStep(blocks, Reads(rest, n));
    }
  }

  lemma {:induction false} EndForever(n: nat)
    ensures Reads([], n) == Repeat(End, n)
  {
    if n > 0 {
      EndForever(n - 1);
      assert Repeat(End, n) == [End] + Repeat(End, n - 1);
    }
  }

  /** A file of blocks of less than 4 GiB reads back as those blocks, in order, and then as the end for ever. */
  lemma BlocksRoundTrip(blocks: seq<Bytes>, n: nat)
    requires Framable(blocks)
    ensures Reads(Frames(blocks), |blocks| + n) == Blocks(blocks) + Repeat(End, n)
  {
    assert Frames(blocks) + [] == Frames(blocks);
    ReadFrames(blocks, [], n);
    EndForever(n);
  }

  /** The first block that is too long is not read back: less is returned in its place. */
  lemma LongBlockIsLost(block: Bytes, rest: Bytes)
    requires |block| >= 0x1_0000_0000
    ensures Read(Frame(block) + rest).0 != Block(block)
  {
    PrefixOf(block, rest);
  }

  lemma {:induction false} FirstLong(blocks: seq<Bytes>, j: nat) returns (i: nat)
    requires j < |blocks| && |blocks[j]| >= 0x1_0000_0000
    ensures i < |blocks| && Framable(blocks[..i]) && |blocks[i]| >= 0x1_0000_0000
  {
    if Framable(blocks[..j]) {
      i := j;
    } else {
      var k: nat :| k < j && |blocks[..j][k]| >= 0x1_0000_0000;
      i := FirstLong(blocks, k);
    }
  }

  lemma PutBetween(results: seq<Reading>, front: seq<Reading>, reading: Reading, back: seq<Reading>)
    requires results == [reading] + back
    ensures front + results == front + [reading] + back
  {
  }

  /** After the blocks in front, reading goes on with what follows them. */
  lemma ReadOn(front: seq<Bytes>, rest: Bytes, reading: Reading, after: Bytes, n: nat)
    requires Framable(front) && Read(rest) == (reading, after)
    ensures Reads(Frames(front) + rest, |front| + (n + 1)) == Blocks(front) + [reading] + Reads(after, n)
  {
    ReadFrames(front, rest, n + 1);
    ReadsStep(rest, reading, after, n);
    PutBetween(Reads(rest, n + 1), Blocks(front), reading, Reads(after, n));
  }

  lemma LongBlockBreaks(front: seq<Bytes>, long: Bytes, rest: Bytes, n: nat)
    requires Framable(front) && Read(rest).0 != Block(long)
    ensures Reads(Frames(front) + rest, |front| + (n + 1))[|front|] != Block(long)
  {
    ReadOn(front, rest, Read(rest).0, Read(rest).1, n);
  }

  lemma FramesHead(blocks: seq<Bytes>)
    requires blocks != []
    ensures Frames(blocks) == Frame(blocks[0]) + Frames(blocks[1..])
  {
  }

  lemma SplitFrames(blocks: seq<Bytes>, i: nat)
    requires i < |blocks|
    ensures Frames(blocks) == Frames(blocks[..i]) + (Frame(blocks[i]) + Frames(blocks[i + 1..]))
  {
    var back := blocks[i..];
    assert blocks == blocks[..i] + back && back[1..] == blocks[i + 1..];
    FramesAppend(blocks[..i], back);
    FramesHead(back);
  }

  lemma OneDiffers(results: seq<Reading>, blocks: seq<Bytes>, i: nat)
    requires i < |blocks| == |results| && results[i] != Block(blocks[i])
    ensures results != Blocks(blocks)
  {
    assert Blocks(blocks)[i] == Block(blocks[i]);
  }

  lemma NotReadBack(blocks: seq<Bytes>, i: nat)
    requires i < |blocks| && Framable(blocks[..i]) && |blocks[i]| >= 0x1_0000_0000
    ensures Reads(Frames(blocks), |blocks|)[i] != Block(blocks[i])
  {
    var rest := Frames(blocks[i + 1..]);
    SplitFrames(blocks, i);
    LongBlockIsLost(blocks[i], rest);
    LongBlockBreaks(blocks[..i], blocks[i], Frame(blocks[i]) + rest, |blocks| - i - 1);
  }

  lemma FramableIsReadBack(blocks: seq<Bytes>)
    requires Framable(blocks)
    ensures Reads(Frames(blocks), |blocks|) == Blocks(blocks)
  {
    BlocksRoundTrip(blocks, 0);
    assert Blocks(blocks) + Repeat(End, 0) == Blocks(blocks);
  }

  lemma UnframableIsLost(blocks: seq<Bytes>)
    requires !Framable(blocks)
    ensures Reads(Frames(blocks), |blocks|) != Blocks(blocks)
  {
    var j: nat :| j < |blocks| && |blocks[j]| >= 0x1_0000_0000;
    var i := FirstLong(blocks, j);
    NotReadBack(blocks, i);
    OneDiffers(Reads(Frames(blocks), |blocks|), blocks, i);
  }

  /** So the blocks are read back if and only if the length of each fits into its prefix. */
  lemma RoundTripIffFramable(blocks: seq<Bytes>)
    ensures Reads(Frames(blocks), |blocks|) == Blocks(blocks) <==> Framable(blocks)
  {
    if Framable(blocks) {
      FramableIsReadBack(blocks);
    } else {
      UnframableIsLost(blocks);
    }
  }

  lemma ReadCutFrame(block: Bytes, cut: nat)
    requires |block| < 0x1_0000_0000 && cut < PREFIX + |block|
    ensures Read(Frame(block)[..cut]) == (if cut < PREFIX then End else Failed, [])
  {
    if cut >= PREFIX {
      PrefixOf(block, []);
      assert Frame(block) + [] == Frame(block);
      assert Frame(block)[..cut][..PREFIX] == Frame(block)[..PREFIX];
    }
  }

  /**
    A file that was cut off after some blocks and `cut` bytes of the next one: the complete blocks, then an error if
    the cut is inside the block, and then the end for ever.
  */
  lemma CutFile(blocks: seq<Bytes>, last: Bytes, cut: nat, n: nat)
    requires Framable(blocks) && |last| < 0x1_0000_0000 && cut < 4 + |last|
    ensures Reads(Frames(blocks) + Frame(last)[..cut], |blocks| + 1 + n)
         == Blocks(blocks) + [if cut < 4 then End else Failed] + Repeat(End, n)
  {
    ReadCutFrame(last, cut);
    EndForever(n);
    ReadOn(blocks, Frame(last)[..cut], if cut < 4 then End else Failed, [], n);
  }
}
