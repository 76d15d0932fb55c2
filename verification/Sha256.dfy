/** Feeding the SHA-256 accelerator (lib/drivers/sha256.c). */
module Sha256 {
  import opened Bytes

  const BLOCK := 64
  const TWO64 := 0x1_0000_0000_0000_0000

  // ----- byte order -----

  function ByteSwap(x: bv32): bv32 {
    (((x >> 8) | (x << 24)) & 0xff00ff00) | (((x << 8) | (x >> 24)) & 0x00ff00ff)
  }

  function High(x: bv64): bv32 { (x >> 32) as bv32 }

  function Low(x: bv64): bv32 { (x & 0xffff_ffff) as bv32 }

  function ByteSwap64(x: bv64): bv64 { ((ByteSwap(Low(x)) as bv64) << 32) | (ByteSwap(High(x)) as bv64) }

  /** A 64-bit number as it lies in memory on this little-endian machine. */
  function LittleEndian64(x: bv64): seq<byte> { BytesOf(Low(x)) + BytesOf(High(x)) }

  /** A 64-bit number most significant byte first. */
  function BigEndian64(x: bv64): (s: seq<byte>)
    ensures |s| == 8
  {
    [(x >> 56) as bv8, ((x >> 48) & 0xff) as bv8, ((x >> 40) & 0xff) as bv8, ((x >> 32) & 0xff) as bv8,
     ((x >> 24) & 0xff) as bv8, ((x >> 16) & 0xff) as bv8, ((x >> 8) & 0xff) as bv8, (x & 0xff) as bv8]
  }

  lemma SwapOuter(x: bv32, y: bv32)
    requires y == (((x >> 8) | (x << 24)) & 0xff00ff00) | (((x << 8) | (x >> 24)) & 0x00ff00ff)
    ensures y & 0xff == x >> 24 && y >> 24 == x & 0xff
  {
  }

  lemma SwapInner(x: bv32, y: bv32)
    requires y == (((x >> 8) | (x << 24)) & 0xff00ff00) | (((x << 8) | (x >> 24)) & 0x00ff00ff)
    ensures (y >> 8) & 0xff == (x >> 16) & 0xff && (y >> 16) & 0xff == (x >> 8) & 0xff
  {
  }

  lemma ByteSwapReverses(x: bv32)
    ensures BytesOf(ByteSwap(x)) == [BytesOf(x)[3], BytesOf(x)[2], BytesOf(x)[1], BytesOf(x)[0]]
  {
    var y := ByteSwap(x);
    SwapOuter(x, y);
    SwapInner(x, y);
    hide ByteSwap;
  }

  lemma SwapHalves(x: bv64)
    ensures Low(ByteSwap64(x)) == ByteSwap(High(x)) && High(ByteSwap64(x)) == ByteSwap(Low(x))
  {
    hide ByteSwap;
  }

  lemma HalvesBigEndian(x: bv64)
    ensures var h, l := BytesOf(High(x)), BytesOf(Low(x));
            BigEndian64(x) == [h[3], h[2], h[1], h[0], l[3], l[2], l[1], l[0]]
  {
  }

  /** The swapped number, stored little-endian, is the number in big-endian order. */
  lemma ByteSwap64ReversesBytes(x: bv64)
    ensures LittleEndian64(ByteSwap64(x)) == BigEndian64(x)
  {
    hide ByteSwap64, ByteSwap, High, Low, BytesOf, BigEndian64;
    SwapHalves(x);
    HalvesBigEndian(x);
    ByteSwapReverses(High(x));
    ByteSwapReverses(Low(x));
  }

  // ----- the padded message of FIPS 180-4, section 5.1.1 -----

  /** The number of zero bytes between 0x80 and the length. */
  function ZeroCount(len: nat): nat { (55 - len) % BLOCK }

  /** The length in bits, as far as 64 bits hold it. */
  function BitLength(len: nat): (n: nat)
    ensures n < TWO64
  {
    (8 * len) % TWO64
  }

  lemma BitLengthAdd(len: nat, n: nat)
    ensures (BitLength(len) + n * 8) % TWO64 == BitLength(len + n)
  {
  }

  function LengthBytes(len: nat): (s: seq<byte>)
    ensures |s| == 8
  {
    BigEndian64(BitLength(len) as bv64)
  }

  function Padded(m: seq<byte>): seq<byte> { m + ([0x80] + Zeros(ZeroCount(|m|)) + LengthBytes(|m|)) }

  lemma ZeroCountIsLeast(len: nat, k: nat)
    ensures (len + 1 + ZeroCount(len)) % BLOCK == 56
    ensures k < ZeroCount(len) ==> (len + 1 + k) % BLOCK != 56
  {
    var q, r := len / BLOCK, len % BLOCK;
    assert len == BLOCK * q + r;
    assert ZeroCount(len) == if r <= 55 then 55 - r else 119 - r;
  }

  lemma BlocksOfPadded(len: nat)
    ensures var total := len + 9 + ZeroCount(len); total % BLOCK == 0 && total / BLOCK == (len + 72) / BLOCK
  {
    var q, r := len / BLOCK, len % BLOCK;
    assert len == BLOCK * q + r;
    assert ZeroCount(len) == if r <= 55 then 55 - r else 119 - r;
  }

  /** The padding is the least that leaves room for the length at the end of a block, the message itself is
      untouched, and the number of blocks is the one sha256_init programs. */
  lemma PaddingIsMinimal(m: seq<byte>)
    ensures |Padded(m)| % BLOCK == 0 && |Padded(m)| / BLOCK == (|m| + 72) / BLOCK
    ensures Padded(m)[..|m|] == m && Padded(m)[|m|] == 0x80
    ensures Padded(m)[|Padded(m)| - 8..] == LengthBytes(|m|)
    ensures forall n: nat :: n % BLOCK == 0 && |m| + 9 <= n ==> |Padded(m)| <= n
  {
    hide LengthBytes, ZeroCount;
    BlocksOfPadded(|m|);
    forall n: nat | n % BLOCK == 0 && |m| + 9 <= n
      ensures |Padded(m)| <= n
    {
      var k := n - |m| - 9;
      ZeroCountIsLeast(|m|, k);
      assert (|m| + 1 + k) % BLOCK == (n - 8) % BLOCK == 56;
    }
  }

  /** The number up to eight bytes are worth, most significant first. */
  function ValueOf(s: seq<byte>): bv64 { if s == [] then 0 else Then(ValueOf(s[..|s| - 1]), s[|s| - 1]) }

  function Then(v: bv64, b: byte): bv64 { 256 * v + b as bv64 }

  /** The bits of x from n upwards, and the byte of them that comes last. */
  function From(x: bv64, n: bv7): bv64
    requires n < 64
  {
    x >> n
  }

  function ByteAt(x: bv64, n: bv7): byte
    requires n < 64
  {
    ((x >> n) & 0xff) as bv8
  }

  lemma PushByte(x: bv64, s: seq<byte>, k: nat, n: bv7)
    requires n < 56 && k < |s| && ValueOf(s[..k]) == From(x, n + 8) && s[k] == ByteAt(x, n)
    ensures ValueOf(s[..k + 1]) == From(x, n)
  {
    assert s[..k + 1][..k] == s[..k];
    hide ByteAt, From, Then;
    NextByte(x, n);
  }

  lemma FirstByte(x: bv64, s: seq<byte>)
    requires s != [] && s[0] == ByteAt(x, 56)
    ensures ValueOf(s[..1]) == From(x, 56)
  {
    assert s[..1][..0] == [];
    hide ByteAt, From, Then;
    EndBytes(x);
  }

  lemma NextByte(x: bv64, n: bv7)
    requires n < 56
    ensures Then(From(x, n + 8), ByteAt(x, n)) == From(x, n)
  {
  }

  lemma EndBytes(x: bv64)
    ensures Then(0, ByteAt(x, 56)) == From(x, 56) && From(x, 0) == x
  {
  }

  lemma BigEndianAt(x: bv64)
    ensures BigEndian64(x)
         == [ByteAt(x, 56), ByteAt(x, 48), ByteAt(x, 40), ByteAt(x, 32), ByteAt(x, 24), ByteAt(x, 16), ByteAt(x, 8),
             ByteAt(x, 0)]
  {
  }

  lemma BigEndianValue(x: bv64)
    ensures ValueOf(BigEndian64(x)) == x
  {
    hide *;
    var s := BigEndian64(x);
    BigEndianAt(x);
    FirstByte(x, s);
    PushByte(x, s, 1, 48);
    PushByte(x, s, 2, 40);
    PushByte(x, s, 3, 32);
    PushByte(x, s, 4, 24);
    PushByte(x, s, 5, 16);
    PushByte(x, s, 6, 8);
    PushByte(x, s, 7, 0);
    assert s[..8] == s;
    EndBytes(x);
  }

  /** The last eight bytes of the padded message are worth the length of the message in bits, modulo 2^64. */
  lemma LastBytesAreBits(m: seq<byte>)
    ensures var p := Padded(m); ValueOf(p[|p| - 8..]) == (8 * |m| % 0x1_0000_0000_0000_0000) as bv64
  {
    hide BigEndian64, ValueOf, Padded;
    PaddingIsMinimal(m);
    BigEndianValue(BitLength(|m|) as bv64);
  }

  // ----- the device and the context -----

  /** The accelerator's input side: the words pushed into sha_data_in1 since the last reset, and the 16-bit
      block count. */
  class Device {
    var dataCount: nat
    var sent: seq<word>

    constructor () {
      dataCount, sent := 0, [];
    }

    method Push(w: word)
      modifies this`sent
      ensures sent == old(sent) + [w]
    {
      sent := sent + [w];
    }
  }

  /** The driver's context.  `flushed` is history: the bytes that have left the buffer as words. */
  class Context {
    var totalLen: nat
    var bufferLen: nat
    const buffer: array<byte>
    ghost var flushed: seq<byte>

    constructor ()
      ensures fresh(buffer) && buffer.Length == BLOCK
    {
      buffer := new byte[BLOCK];
      totalLen, bufferLen, flushed := 0, 0, [];
    }

    /** Everything given to sha256_update since sha256_init. */
    ghost function Consumed(): seq<byte>
      reads this, buffer
      requires bufferLen <= buffer.Length
    {
      flushed + buffer[..bufferLen]
    }

    /** The flushed bytes are whole blocks and the device has exactly their words. */
    ghost predicate Fed(dev: Device)
      reads this, dev
    {
      |flushed| % BLOCK == 0 && dev.sent == Words(flushed)
    }

    ghost predicate Valid(dev: Device)
      reads this, buffer, dev
    {
      buffer.Length == BLOCK && bufferLen < BLOCK && Fed(dev) && totalLen == BitLength(|Consumed()|)
    }

    method Init(dev: Device, inputLen: nat)
      requires buffer.Length == BLOCK
      modifies this, dev
      ensures Valid(dev) && Consumed() == []
      ensures dev.dataCount == ((inputLen + 72) / BLOCK) % 0x1_0000
    {
      dev.sent := [];
      dev.dataCount := ((inputLen + BLOCK + 8) / BLOCK) % 0x1_0000;
      totalLen, bufferLen, flushed := 0, 0, [];
    }

    method FlushBlock(dev: Device)
      requires buffer.Length == BLOCK
      modifies dev`sent
      ensures dev.sent == old(dev.sent) + Words(buffer[..])
    {
      hide WordOf, Words;
      ghost var bytes := buffer[..];
      assert bytes[..4 * 0] == [] && Words(bytes[..4 * 0]) == [];
      for i := 0 to 16
        invariant buffer[..] == bytes
        invariant dev.sent == old(dev.sent) + Words(bytes[..4 * i])
      {
        WordsSnoc(bytes, i);
        dev.Push(WordOf(buffer[4 * i], buffer[4 * i + 1], buffer[4 * i + 2], buffer[4 * i + 3]));
      }
      assert bytes[..4 * 16] == bytes;
    }

    /** The copy into the buffer and the two counters. */
    method Copy(part: seq<byte>)
      requires buffer.Length == BLOCK && bufferLen + |part| <= BLOCK
      requires totalLen == BitLength(|Consumed()|)
      modifies this`totalLen, this`bufferLen, buffer
      ensures bufferLen == old(bufferLen) + |part|
      ensures Consumed() == old(Consumed()) + part
      ensures totalLen == BitLength(|Consumed()|)
    {
      hide BitLength;
      ghost var before := buffer[..bufferLen];
      BitLengthAdd(|Consumed()|, |part|);
      forall i | 0 <= i < |part| { buffer[bufferLen + i] := part[i]; }
      assert buffer[..bufferLen + |part|] == before + part;
      Append(flushed, before, part);
      totalLen := (totalLen + |part| * 8) % TWO64;
      bufferLen := bufferLen + |part|;
    }

    /** One pass of the loop: copy, then flush if the buffer is full. */
    method Fill(dev: Device, part: seq<byte>)
      requires Valid(dev) && bufferLen + |part| <= BLOCK
      modifies this, buffer, dev`sent
      ensures Valid(dev) && Consumed() == old(Consumed()) + part
      ensures bufferLen == if old(bufferLen) + |part| == BLOCK then 0 else old(bufferLen) + |part|
    {
      hide Words, BitLength;
      Copy(part);
      if bufferLen == BLOCK {
        Flush(dev);
      }
    }

    method Flush(dev: Device)
      requires buffer.Length == BLOCK && bufferLen == BLOCK && Fed(dev) && totalLen == BitLength(|Consumed()|)
      modifies this`bufferLen, this`flushed, dev`sent
      ensures Valid(dev) && Consumed() == old(Consumed()) && bufferLen == 0
    {
      hide Words, BitLength;
      FlushBlock(dev);
      assert buffer[..BLOCK] == buffer[..];
      WordsConcat(flushed, buffer[..]);
      flushed := flushed + buffer[..];
      bufferLen := 0;
      assert Consumed() == flushed;
    }

    /** sha256_update: whatever the buffer held, the input is appended to what has been consumed. */
    method Update(dev: Device, input: seq<byte>)
      requires Valid(dev)
      modifies this, buffer, dev`sent
      ensures Valid(dev) && Consumed() == old(Consumed()) + input
    {
      hide Fed, BitLength;
      var off: nat, inputLen: nat := 0, |input|;
      while inputLen > 0
        invariant off + inputLen == |input|
        invariant Valid(dev) && Consumed() == old(Consumed()) + input[..off]
      {
        var n := BLOCK - bufferLen;
        if n > inputLen { n := inputLen; }
        Advance(dev, old(Consumed()), input, off, n);
        off := off + n;
        inputLen := inputLen - n;
      }
      assert input[..off] == input;
    }

    method Advance(dev: Device, ghost start: seq<byte>, input: seq<byte>, off: nat, n: nat)
      requires Valid(dev) && off + n <= |input| && bufferLen + n <= BLOCK
      requires Consumed() == start + input[..off]
      modifies this, buffer, dev`sent
      ensures Valid(dev) && Consumed() == start + input[..off + n]
    {
      hide Fed, BitLength;
      Fill(dev, input[off..off + n]);
      Append(start, input[..off], input[off..off + n]);
      assert input[..off] + input[off..off + n] == input[..off + n];
    }

    /** sha256_final.  The device has received exactly the padded message, nothing is left in the buffer, and
        the result registers, which the hardware fills, are stored last register first. */
    method Final(dev: Device, result: seq<word>, output: array?<byte>)
      requires Valid(dev) && |result| == 8
      requires output != null ==> output != buffer && output.Length >= 32
      modifies this, buffer, dev`sent
      modifies if output != null then {output} else {}
      ensures Valid(dev) && Consumed() == Padded(old(Consumed())) && bufferLen == 0
      ensures output != null ==> output[..32] == Stored(result, 8)
    {
      hide Fed, BitLength, Stored, Padded;
      Pad(dev);
      if output != null {
        StoreResult(result, output);
      }
    }

    method Pad(dev: Device)
      requires Valid(dev)
      modifies this, buffer, dev`sent
      ensures Valid(dev) && Consumed() == Padded(old(Consumed())) && bufferLen == 0
    {
      hide Fed, BitLength, ByteSwap64, LittleEndian64, BigEndian64;
      ghost var m := Consumed();
      var bytesToPad := 120 - bufferLen;
      if bytesToPad > 64 { bytesToPad := bytesToPad - 64; }
      PadLength(this, dev, bytesToPad);
      var lengthPad := ByteSwap64(totalLen as bv64);
      ByteSwap64ReversesBytes(totalLen as bv64);
      var padding: seq<byte> := [0x80] + Zeros(63);
      ghost var pad := [0x80 as byte] + Zeros(ZeroCount(|m|));
      assert padding[..bytesToPad] == pad;
      Update(dev, padding[..bytesToPad]);
      Update(dev, LittleEndian64(lengthPad));
      Append(m, pad, LengthBytes(|m|));
      EmptyAtBlockEnd(this, dev, m);
    }
  }

  /** The number of padding bytes sha256_final computes from the buffer's fill level. */
  lemma PadLength(c: Context, dev: Device, bytesToPad: int)
    requires c.Valid(dev)
    requires bytesToPad == if 120 - c.bufferLen > 64 then 56 - c.bufferLen else 120 - c.bufferLen
    ensures 1 <= bytesToPad <= 64 && bytesToPad == 1 + ZeroCount(|c.Consumed()|)
  {
    hide Words, BitLength;
    var q := |c.flushed| / BLOCK;
    assert |c.Consumed()| == BLOCK * q + c.bufferLen;
  }

  lemma EmptyAtBlockEnd(c: Context, dev: Device, m: seq<byte>)
    requires c.Valid(dev) && c.Consumed() == Padded(m)
    ensures c.bufferLen == 0
  {
    hide Words, BitLength, LengthBytes, ZeroCount;
    BlocksOfPadded(|m|);
    assert |c.Consumed()| == |m| + 9 + ZeroCount(|m|);
  }

  /** The first n words of the digest in memory: result register 7 first. */
  function Stored(result: seq<word>, n: nat): (s: seq<byte>)
    requires |result| == 8 && n <= 8
    ensures |s| == 4 * n
  {
    if n == 0 then [] else Stored(result, n - 1) + BytesOf(result[8 - n])
  }

  /** The digest in memory, byte by byte: bytes 4i to 4i + 3 are those of result register 7 - i, least significant
      first. */
  lemma {:induction false} StoredAt(result: seq<word>, n: nat, i: nat)
    requires |result| == 8 && i < n <= 8
    ensures Stored(result, n)[4 * i..4 * i + 4] == BytesOf(result[7 - i])
  {
    hide BytesOf;
    if i < n - 1 {
      StoredAt(result, n - 1, i);
      assert Stored(result, n)[4 * i..4 * i + 4] == Stored(result, n - 1)[4 * i..4 * i + 4];
    }
  }

  method StoreResult(result: seq<word>, output: array<byte>)
    requires |result| == 8 && output.Length >= 32
    modifies output
    ensures output[..32] == Stored(result, 8) && output[32..] == old(output[32..])
  {
    hide BytesOf;
    for i := 0 to 8
      invariant output[..4 * i] == Stored(result, i) && output[4 * i..] == old(output[4 * i..])
    {
      StoreWord(output, 4 * i, result[8 - i - 1]);
    }
  }

  lemma AllSent(c: Context, dev: Device)
    requires c.Valid(dev) && c.bufferLen == 0
    ensures |c.Consumed()| % 4 == 0 && dev.sent == Words(c.Consumed())
    ensures |dev.sent| == 16 * (|c.Consumed()| / BLOCK)
  {
    hide Words, BitLength;
    assert c.Consumed() == c.flushed;
  }

  function Flatten(pieces: seq<seq<byte>>): seq<byte> {
    if pieces == [] then [] else Flatten(pieces[..|pieces| - 1]) + pieces[|pieces| - 1]
  }

  lemma BlockCount(m: seq<byte>)
    ensures |Padded(m)| / BLOCK == (|m| + 72) / BLOCK
    ensures (|m| + 72) / BLOCK < 0x1_0000 ==> ((|m| + 72) / BLOCK) % 0x1_0000 == (|m| + 72) / BLOCK
  {
    hide LengthBytes, ZeroCount;
    BlocksOfPadded(|m|);
  }

  method UpdateAll(context: Context, dev: Device, pieces: seq<seq<byte>>)
    requires context.Valid(dev) && context.Consumed() == []
    modifies context, context.buffer, dev`sent
    ensures context.Valid(dev) && context.Consumed() == Flatten(pieces)
  {
    hide Context.Fed, BitLength;
    for i := 0 to |pieces|
      invariant context.Valid(dev) && context.Consumed() == Flatten(pieces[..i])
    {
      context.Update(dev, pieces[i]);
      assert pieces[..i + 1][..i] == pieces[..i];
    }
    assert pieces[..|pieces|] == pieces;
  }

  /** However a message is cut into update calls, empty pieces included, the accelerator receives the words of
      the padded message, and as many blocks of them as sha256_init announced. */
  method HashPieces(pieces: seq<seq<byte>>, result: seq<word>) returns (dev: Device)
    requires |result| == 8
    ensures fresh(dev) && |Padded(Flatten(pieces))| % 4 == 0 && dev.sent == Words(Padded(Flatten(pieces)))
    ensures (|Flatten(pieces)| + 72) / BLOCK < 0x1_0000 ==> |dev.sent| == 16 * dev.dataCount
  {
    hide Context.Fed, Padded;
    dev := new Device();
    var context := new Context();
    context.Init(dev, |Flatten(pieces)|);
    UpdateAll(context, dev, pieces);
    context.Final(dev, result, null);
    AllSent(context, dev);
    BlockCount(Flatten(pieces));
  }
}
