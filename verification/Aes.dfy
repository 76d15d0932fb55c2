/** Feeding the AES accelerator and draining it (lib/drivers/aes.c). */
module Aes {
  import opened Bytes

  const TWO32 := 0x1_0000_0000

  datatype Mode = Ecb | Cbc | Gcm

  /** The length rounded up to whole 16-byte blocks. */
  function RoundUp(len: nat): (n: nat)
    ensures n % 16 == 0 && len <= n < len + 16
  {
    (len + 15) / 16 * 16
  }

  /** The message length the length register is programmed with: whole blocks except in GCM. */
  function PaddedLen(len: nat, mode: Mode): (n: nat)
    ensures len <= n
  {
    if mode.Gcm? then len else RoundUp(len)
  }

  /** The bytes missing from the last four-byte word. */
  function Slack(len: nat): (n: nat)
    ensures n < 4 && (len + n) % 4 == 0
  {
    if len % 4 == 0 then 0 else 4 - len % 4
  }

  lemma QuotientByFour(s: nat, k: int)
    requires s < 4
    ensures (s + 4 * k) / 4 == k
  {
  }

  lemma SlackThenBlocks(len: nat)
    ensures RoundUp(len) - len == Slack(len) + 4 * ((RoundUp(len) - len) / 4)
  {
    hide RoundUp, Slack;
    var q, p := RoundUp(len) / 16, (len + Slack(len)) / 4;
    QuotientByFour(Slack(len), 4 * q - p);
  }

  lemma QuartersOfBlocks(n: nat)
    requires n % 16 == 0
    ensures n % 4 == 0
  {
    var k := n / 16;
    assert n == 16 * k;
    TimesFour(n, 4 * k);
  }

  lemma TimesFour(n: nat, k: nat)
    requires n == 4 * k
    ensures n % 4 == 0
  {
  }

  /** The zero bytes that complete a message of this length for the FIFO. */
  function FillLen(len: nat, mode: Mode): (n: nat)
    ensures (len + n) % 4 == 0
  {
    if mode.Gcm? then Slack(len)
    else
      QuartersOfBlocks(RoundUp(len));
      RoundUp(len) - len
  }

  /** The length of such a message in FIFO words. */
  function WordCount(len: nat, mode: Mode): nat { (PaddedLen(len, mode) + 3) / 4 }

  /** The specification of feeding: the zero-filled message as words. */
  function Feed(data: seq<byte>, mode: Mode): (ws: seq<word>)
    ensures |ws| == WordCount(|data|, mode)
  {
    Words(data + Zeros(FillLen(|data|, mode)))
  }

  /** The bytes of a word sequence in memory. */
  function BytesAll(ws: seq<word>): (s: seq<byte>)
    ensures |s| == 4 * |ws|
  {
    if ws == [] then [] else BytesAll(ws[..|ws| - 1]) + BytesOf(ws[|ws| - 1])
  }

  // ----- the accelerator -----

  /** How many input words the accelerator must have before it can emit output word j: the end of the
      16-byte block of j, or the end of the message. */
  function Due(total: nat, j: nat): nat {
    var blockEnd, end := 4 * (j / 4 + 1), (total + 3) / 4;
    if blockEnd < end then blockEnd else end
  }

  /** Output word j after `sent` has been written; `cipher` is whatever the hardware computes. */
  ghost predicate Computed(cipher: (seq<word>, nat) -> word, total: nat, sent: seq<word>, received: seq<word>) {
    forall j :: 0 <= j < |received| ==>
      Due(total, j) <= |sent| && received[j] == cipher(sent[..Due(total, j)], j)
  }

  lemma ComputedPush(cipher: (seq<word>, nat) -> word, total: nat, sent: seq<word>, received: seq<word>, w: word)
    requires Computed(cipher, total, sent, received)
    ensures Computed(cipher, total, sent + [w], received)
  {
    hide Due;
    forall j | 0 <= j < |received|
      ensures Due(total, j) <= |sent + [w]| && received[j] == cipher((sent + [w])[..Due(total, j)], j)
    {
      assert (sent + [w])[..Due(total, j)] == sent[..Due(total, j)];
    }
  }

  /** waits[j] is how many input words had been written when output word j was waited for: never too few, so
      that every wait ends. */
  ghost predicate Timely(total: nat, waits: seq<nat>) {
    forall j :: 0 <= j < |waits| ==> Due(total, j) <= waits[j]
  }

  class Device {
    const cipher: (seq<word>, nat) -> word
    var pcNum: nat
    var sent: seq<word>
    var received: seq<word>
    /** History: |sent| at each read. */
    ghost var waits: seq<nat>

    constructor (cipher: (seq<word>, nat) -> word)
      ensures sent == received == []
    {
      this.cipher := cipher;
      pcNum, sent, received, waits := 0, [], [], [];
    }

    function Total(): nat
      reads this
    {
      (pcNum + 1) % TWO32
    }

    ghost predicate Valid()
      reads this
    {
      Computed(cipher, Total(), sent, received) && |waits| == |received| && Timely(Total(), waits)
    }

    /** The length part of aes_init; the reset empties both FIFOs. */
    method Init(mode: Mode, inputLen: nat)
      modifies this
      ensures Valid() && sent == received == []
      ensures PaddedLen(inputLen, mode) < TWO32 ==> Total() == PaddedLen(inputLen, mode)
    {
      pcNum := (PaddedLen(inputLen, mode) - 1) % TWO32;
      sent, received, waits := [], [], [];
    }

    method WriteText(w: word)
      requires Valid()
      modifies this`sent
      ensures Valid() && sent == old(sent) + [w]
    {
      ComputedPush(cipher, Total(), sent, received, w);
      sent := sent + [w];
    }

    /** The precondition is that the wait for data_out_flag ends. */
    method ReadOut() returns (w: word)
      requires Valid() && Due(Total(), |received|) <= |sent|
      modifies this`received, this`waits
      ensures Valid() && received == old(received) + [w] && waits == old(waits) + [|sent|]
    {
      hide Due;
      w := cipher(sent[..Due(Total(), |received|)], |received|);
      received, waits := received + [w], waits + [|sent|];
    }
  }

  // ----- feeding -----

  lemma ZerosConcat(a: nat, b: nat)
    ensures Zeros(a) + Zeros(b) == Zeros(a + b)
  {
  }

  lemma NoBits()
    ensures WordOf(0, 0, 0, 0) == 0
  {
  }

  lemma PushZeros(a: seq<byte>, q: seq<byte>)
    requires Aligned(a) && q == [0, 0, 0, 0]
    ensures Aligned(a + q) && Words(a + q) == Words(a) + [0]
  {
    hide WordOf, Words;
    WordsPush(a, q);
    NoBits();
  }

  lemma ZerosFour(n: nat)
    ensures Zeros(4 * (n + 1)) == Zeros(4 * n) + [0, 0, 0, 0]
  {
  }

  /** Four zero bytes more are one zero word more. */
  lemma ZeroWord(a: seq<byte>, z: seq<byte>, q: seq<byte>)
    requires Aligned(a) && Aligned(z) && Aligned(a + z) && q == [0, 0, 0, 0]
    ensures Aligned(a + (z + q)) && Words(a + (z + q)) == Words(a + z) + [0]
  {
    hide Words, Aligned;
    Append(a, z, q);
    PushZeros(a + z, q);
  }

  method SendWhole(dev: Device, input: array<byte>, at: nat, n: nat)
    requires dev.Valid() && at + 4 * n <= input.Length
    modifies dev`sent
    ensures dev.Valid() && dev.sent == old(dev.sent) + Words(input[at..at + 4 * n])
  {
    hide WordOf, Words, Computed, Timely;
    ghost var data := input[at..at + 4 * n];
    assert data[..4 * 0] == [] && Words(data[..4 * 0]) == [];
    for i := 0 to n
      invariant dev.Valid() && dev.sent == old(dev.sent) + Words(data[..4 * i])
    {
      var k := at + 4 * i;
      WordsSnoc(data, i);
      dev.WriteText(WordOf(input[k], input[k + 1], input[k + 2], input[k + 3]));
    }
    assert data[..4 * n] == data;
  }

  /** The switch on the remainder: the last bytes at the front of a zeroed word. */
  method SendTail(dev: Device, input: array<byte>, at: nat, remainder: nat)
    requires dev.Valid() && at + remainder <= input.Length && 0 < remainder < 4
    modifies dev`sent
    ensures dev.Valid() && dev.sent == old(dev.sent) + Words(input[at..at + remainder] + Zeros(4 - remainder))
  {
    hide WordOf, Words, Computed, Timely;
    var b0: byte, b1: byte, b2: byte := input[at], 0, 0;
    if remainder >= 2 { b1 := input[at + 1]; }
    if remainder == 3 { b2 := input[at + 2]; }
    TailWord(input[at..at + remainder], b0, b1, b2);
    dev.WriteText(WordOf(b0, b1, b2, 0));
  }

  lemma TailWord(tail: seq<byte>, b0: byte, b1: byte, b2: byte)
    requires 0 < |tail| < 4 && b0 == tail[0]
    requires b1 == if |tail| >= 2 then tail[1] else 0
    requires b2 == if |tail| == 3 then tail[2] else 0
    ensures Words(tail + Zeros(4 - |tail|)) == [WordOf(b0, b1, b2, 0)]
  {
    hide WordOf, Words;
    var q := tail + Zeros(4 - |tail|);
    assert |q| == 4 && q[0] == b0 && q[1] == b1 && q[2] == b2 && q[3] == 0;
    hide Aligned, Zeros;
    assert [] + q == q;
    WordsPush([], q);
  }

  lemma AlignedStart(z: seq<byte>, q: seq<byte>)
    requires |z| == 0 && |q| == 4
    ensures Aligned(z) && Aligned(q)
  {
  }

  method SendZeros(dev: Device, ghost quad: seq<byte>, n: nat, ghost start: seq<word>)
    requires dev.Valid() && Aligned(quad) && dev.sent == start + Words(quad)
    modifies dev`sent
    ensures dev.Valid() && Aligned(quad + Zeros(4 * n)) && dev.sent == start + Words(quad + Zeros(4 * n))
  {
    hide WordOf, Words, Computed, Zeros, Aligned;
    ghost var z, q: seq<byte> := Zeros(4 * 0), [0, 0, 0, 0];
    AlignedStart(z, q);
    assert quad + z == quad;
    for i := 0 to n
      invariant Aligned(z) && z == Zeros(4 * i)
      invariant dev.Valid() && Aligned(quad + z) && dev.sent == start + Words(quad + z)
    {
      ZeroWord(quad, z, q);
      AlignedConcat(z, q);
      dev.WriteText(0);
      Append(start, Words(quad + z), [0]);
      ZerosFour(i);
      z := z + q;
    }
  }

  /** Whole words, then the last bytes in a zeroed word. */
  method SendBytes(dev: Device, input: array<byte>, at: nat, len: nat)
    requires dev.Valid() && at + len <= input.Length
    modifies dev`sent
    ensures dev.Valid() && dev.sent == old(dev.sent) + Words(input[at..at + len] + Zeros(Slack(len)))
  {
    hide WordOf, Words, Computed, Timely;
    var n: nat, remainder: nat := len / 4, len % 4;
    SendWhole(dev, input, at, n);
    if remainder > 0 {
      SendTail(dev, input, at + 4 * n, remainder);
      ghost var front := input[at..at + 4 * n];
      ghost var back := input[at + 4 * n..at + len] + Zeros(4 - remainder);
      WordsConcat(front, back);
      Append(old(dev.sent), Words(front), Words(back));
      assert front + back == input[at..at + len] + Zeros(Slack(len));
    } else {
      assert input[at..at + len] + Zeros(Slack(len)) == input[at..at + 4 * n];
    }
  }

  /** aes_input_bytes, and the first half of process_less_80_bytes: the bytes, then zero words up to the
      block in ECB and CBC. */
  method InputBytes(dev: Device, input: array<byte>, at: nat, len: nat, mode: Mode)
    requires dev.Valid() && at + len <= input.Length
    modifies dev`sent
    ensures dev.Valid() && dev.sent == old(dev.sent) + Feed(input[at..at + len], mode)
  {
    hide WordOf, Words, Computed, RoundUp, Slack, Zeros;
    SendBytes(dev, input, at, len);
    if !mode.Gcm? {
      ghost var quad := input[at..at + len] + Zeros(Slack(len));
      SendZeros(dev, quad, (RoundUp(len) - len) / 4, old(dev.sent));
      SlackThenBlocks(len);
      Append(input[at..at + len], Zeros(Slack(len)), Zeros(4 * ((RoundUp(len) - len) / 4)));
      ZerosConcat(Slack(len), 4 * ((RoundUp(len) - len) / 4));
    }
  }

  // ----- chunks -----

  lemma RoundUpShift(q: nat, b: nat)
    ensures RoundUp(16 * q + b) == 16 * q + RoundUp(b)
  {
    assert (16 * q + b + 15) / 16 == q + (b + 15) / 16;
  }

  lemma SlackShift(q: nat, b: nat)
    ensures Slack(16 * q + b) == Slack(b)
  {
    assert (16 * q + b) % 4 == b % 4;
  }

  lemma FillShift(a: nat, b: nat, mode: Mode)
    requires a % 16 == 0
    ensures FillLen(a, mode) == 0 && FillLen(a + b, mode) == FillLen(b, mode)
    ensures PaddedLen(a, mode) == a && PaddedLen(a + b, mode) == a + PaddedLen(b, mode)
  {
    var q := a / 16;
    assert RoundUp(0) == 0 && Slack(0) == 0;
    hide RoundUp, Slack;
    RoundUpShift(q, 0);
    RoundUpShift(q, b);
    SlackShift(q, 0);
    SlackShift(q, b);
  }

  /** Feeding whole blocks and then the rest is feeding the whole: the chunking is invisible. */
  lemma FeedConcat(a: seq<byte>, b: seq<byte>, mode: Mode)
    requires |a| % 16 == 0
    ensures Feed(a + b, mode) == Feed(a, mode) + Feed(b, mode)
  {
    hide Words, FillLen, PaddedLen;
    FillShift(|a|, |b|, mode);
    var z := Zeros(FillLen(|b|, mode));
    assert a + Zeros(0) == a;
    Append(a, b, z);
    WordsConcat(a, b + z);
  }

  // ----- draining -----

  /** Every word that has been sent may be read: whole blocks have been sent, or the whole message. */
  predicate Settled(total: nat, sent: nat) { sent % 4 == 0 || (total + 3) / 4 <= sent }

  /** Once the words of whole blocks, or of the whole message, are in, every one of them can come out. */
  lemma AllDue(total: nat, sent: nat, j: nat)
    requires j < sent && Settled(total, sent)
    ensures Due(total, j) <= sent
  {
  }

  lemma BytesAllPush(ws: seq<word>, w: word)
    ensures BytesAll(ws + [w]) == BytesAll(ws) + BytesOf(w)
  {
    hide BytesOf;
    assert (ws + [w])[..|ws|] == ws;
  }

  /** One more word of a buffer. */
  lemma BytesOfWord(q: seq<byte>)
    requires |q| == 4
    ensures BytesOf(WordOf(q[0], q[1], q[2], q[3])) == q
  {
    StoreAfterLoad(q[0], q[1], q[2], q[3]);
    hide WordOf, BytesOf;
    assert q == [q[0], q[1], q[2], q[3]];
  }

  lemma {:induction false} BytesOfWords(bytes: seq<byte>)
    requires Aligned(bytes)
    ensures BytesAll(Words(bytes)) == bytes
  {
    hide WordOf, BytesOf, BytesAll;
    if bytes == [] {
      assert BytesAll(Words(bytes)) == [];
    } else {
      var n := |bytes| - 4;
      var front, q := bytes[..n], bytes[n..];
      BytesOfWords(front);
      BytesAllPush(Words(front), WordOf(q[0], q[1], q[2], q[3]));
      BytesOfWord(q);
      assert bytes == front + q;
    }
  }

  /** What the FIFO holds in memory order is the message and its zero fill, and in ECB and CBC it is exactly
      as many words as the length register announces bytes. */
  lemma FeedKeepsBytes(data: seq<byte>, mode: Mode)
    ensures BytesAll(Feed(data, mode)) == data + Zeros(FillLen(|data|, mode))
    ensures !mode.Gcm? ==> 4 * |Feed(data, mode)| == PaddedLen(|data|, mode)
    ensures mode.Gcm? ==> 4 * |Feed(data, mode)| < |data| + 4
  {
    hide Words, BytesAll, RoundUp;
    BytesOfWords(data + Zeros(FillLen(|data|, mode)));
    if !mode.Gcm? {
      BlockWords(RoundUp(|data|));
    }
  }

  method ReadWords(dev: Device, output: array<byte>, n: nat)
    requires dev.Valid() && |dev.received| + n <= |dev.sent|
    requires Settled(dev.Total(), |dev.sent|)
    requires 4 * (|dev.received| + n) <= output.Length
    requires output[..4 * |dev.received|] == BytesAll(dev.received)
    modifies dev`received, dev`waits, output
    ensures dev.Valid() && |dev.received| == old(|dev.received|) + n
    ensures output[..4 * |dev.received|] == BytesAll(dev.received)
    ensures output[4 * |dev.received|..] == old(output[4 * (|dev.received| + n)..])
  {
    hide BytesOf, BytesAll, Due, Computed, Timely, Settled;
    ghost var k := |dev.received|;
    for i := 0 to n
      invariant dev.Valid() && |dev.received| == k + i
      invariant output[..4 * (k + i)] == BytesAll(dev.received)
      invariant output[4 * (k + i)..] == old(output[4 * (k + i)..])
    {
      AllDue(dev.Total(), |dev.sent|, |dev.received|);
      var at := 4 * |dev.received|;
      ghost var before := dev.received;
      var w := dev.ReadOut();
      BytesAllPush(before, w);
      StoreWord(output, at, w);
    }
  }

  /** The first one to three bytes of a word. */
  method StoreFew(output: array<byte>, at: nat, uint8Data: seq<byte>, remainder: nat)
    requires |uint8Data| == 4 && 0 < remainder < 4 && at + remainder <= output.Length
    modifies output
    ensures output[..at + remainder] == old(output[..at]) + uint8Data[..remainder]
    ensures output[at + remainder..] == old(output[at + remainder..])
  {
    output[at] := uint8Data[0];
    if remainder >= 2 { output[at + 1] := uint8Data[1]; }
    if remainder == 3 { output[at + 2] := uint8Data[2]; }
    assert output[..at] == old(output[..at]);
    assert output[at..at + remainder] == uint8Data[..remainder];
    assert output[..at + remainder] == output[..at] + output[at..at + remainder];
  }

  /** The last word of a GCM message: only the message's own bytes of it are stored. */
  method ReadTail(dev: Device, output: array<byte>, remainder: nat)
    requires dev.Valid() && |dev.received| < |dev.sent| && (dev.Total() + 3) / 4 <= |dev.sent|
    requires 0 < remainder < 4 && 4 * |dev.received| + remainder <= output.Length
    requires output[..4 * |dev.received|] == BytesAll(dev.received)
    modifies dev`received, dev`waits, output
    ensures dev.Valid() && |dev.received| == old(|dev.received|) + 1
    ensures var end := 4 * old(|dev.received|) + remainder;
            output[..end] == BytesAll(dev.received)[..end] && output[end..] == old(output[end..])
  {
    hide BytesOf, BytesAll, Due, Computed, Timely;
    ghost var before := dev.received;
    var at := 4 * |dev.received|;
    assert Settled(dev.Total(), |dev.sent|);
    hide Settled;
    AllDue(dev.Total(), |dev.sent|, |dev.received|);
    var w := dev.ReadOut();
    BytesAllPush(before, w);
    var uint8Data := BytesOf(w);
    StoreFew(output, at, uint8Data, remainder);
    assert BytesAll(dev.received)[..at + remainder] == BytesAll(before) + uint8Data[..remainder];
  }

  lemma GcmWords(len: nat)
    ensures WordCount(len, Gcm) == if len % 4 == 0 then len / 4 else len / 4 + 1
    ensures len == 4 * (len / 4) + len % 4
  {
  }

  lemma BlockWords(len: nat)
    requires len % 16 == 0
    ensures (len + 3) / 4 == len / 4 && len == 4 * (len / 4) && (len / 4) % 4 == 0
  {
    var q := len / 16;
    assert len / 4 == 4 * q;
  }

  lemma QuadSum(a: nat, b: nat)
    requires a % 4 == 0 && b % 4 == 0
    ensures (a + b) % 4 == 0
  {
  }

  lemma SettledAfter(sent: nat, len: nat, total: nat, mode: Mode)
    requires sent % 4 == 0
    requires len % 16 == 0 || 4 * sent + PaddedLen(len, mode) == total
    ensures Settled(total, sent + WordCount(len, mode))
    ensures len % 4 > 0 && mode.Gcm? ==> (total + 3) / 4 <= sent + WordCount(len, mode)
  {
    hide RoundUp;
    if !mode.Gcm? {
      BlockWords(RoundUp(len));
      QuadSum(sent, RoundUp(len) / 4);
    } else if len % 16 == 0 {
      BlockWords(len);
      QuadSum(sent, len / 4);
    }
  }

  lemma PrefixOfEqual(a: seq<byte>, b: seq<byte>)
    requires a == b
    ensures a == b[..|b|]
  {
  }

  lemma GcmKeepsLength(len: nat)
    ensures PaddedLen(len, Gcm) == len
  {
  }

  /** process_less_80_bytes: all of the chunk goes in before any of it comes out, so that writing the output
      over the input is harmless. */
  method ProcessLess80Bytes(dev: Device, input: array<byte>, output: array<byte>, at: nat, len: nat, mode: Mode)
    requires dev.Valid() && |dev.sent| == |dev.received| && |dev.sent| % 4 == 0 && at == 4 * |dev.sent|
    requires at + len <= input.Length && at + PaddedLen(len, mode) <= output.Length
    requires len % 16 == 0 || at + PaddedLen(len, mode) == dev.Total()
    requires output[..at] == BytesAll(dev.received)
    modifies dev`sent, dev`received, dev`waits, output
    ensures dev.Valid() && dev.sent == old(dev.sent) + Feed(old(input[at..at + len]), mode)
    ensures |dev.received| == |dev.sent| && at + PaddedLen(len, mode) <= 4 * |dev.received|
    ensures var end := at + PaddedLen(len, mode);
            output[..end] == BytesAll(dev.received)[..end] && output[end..] == old(output[end..])
  {
    hide BytesOf, BytesAll, Computed, Timely, PaddedLen, Feed, WordCount, Settled;
    SettledAfter(|dev.sent|, len, dev.Total(), mode);
    InputBytes(dev, input, at, len, mode);
    if mode.Gcm? {
      GcmKeepsLength(len);
      DrainGcm(dev, output, len);
    } else {
      DrainBlocks(dev, output, len, mode);
    }
  }

  method DrainBlocks(dev: Device, output: array<byte>, len: nat, mode: Mode)
    requires !mode.Gcm? && dev.Valid() && |dev.sent| == |dev.received| + WordCount(len, mode)
    requires Settled(dev.Total(), |dev.sent|)
    requires 4 * |dev.received| + PaddedLen(len, mode) <= output.Length
    requires output[..4 * |dev.received|] == BytesAll(dev.received)
    modifies dev`received, dev`waits, output
    ensures dev.Valid() && |dev.received| == |dev.sent|
    ensures 4 * old(|dev.received|) + PaddedLen(len, mode) == 4 * |dev.received|
    ensures var end := 4 * old(|dev.received|) + PaddedLen(len, mode);
            output[..end] == BytesAll(dev.received)[..end] && output[end..] == old(output[end..])
  {
    hide BytesOf, BytesAll, Computed, Timely, RoundUp;
    BlockWords(RoundUp(len));
    hide Settled;
    ReadWords(dev, output, RoundUp(len) / 4);
    PrefixOfEqual(output[..4 * |dev.received|], BytesAll(dev.received));
  }

  method DrainGcm(dev: Device, output: array<byte>, len: nat)
    requires dev.Valid() && |dev.sent| == |dev.received| + WordCount(len, Gcm)
    requires Settled(dev.Total(), |dev.sent|)
    requires len % 4 > 0 ==> (dev.Total() + 3) / 4 <= |dev.sent|
    requires 4 * |dev.received| + len <= output.Length
    requires output[..4 * |dev.received|] == BytesAll(dev.received)
    modifies dev`received, dev`waits, output
    ensures dev.Valid() && |dev.received| == |dev.sent|
    ensures 4 * old(|dev.received|) + len <= 4 * |dev.received|
    ensures var end := 4 * old(|dev.received|) + len;
            output[..end] == BytesAll(dev.received)[..end] && output[end..] == old(output[end..])
  {
    hide BytesOf, BytesAll, Computed, Timely, WordCount, Settled;
    GcmWords(len);
    var n: nat, remainder: nat := len / 4, len % 4;
    ghost var k := |dev.received|;
    ReadWords(dev, output, n);
    if remainder > 0 {
      ghost var bytes := output[..];
      ReadTail(dev, output, remainder);
      assert bytes[4 * (k + n)..][remainder..] == bytes[4 * k + len..];
    } else {
      PrefixOfEqual(output[..4 * |dev.received|], BytesAll(dev.received));
    }
  }

  /** One call of process_less_80_bytes as a step of the whole message `data`. */
  method Chunk(dev: Device, input: array<byte>, output: array<byte>, ghost data: seq<byte>, at: nat, len: nat, mode: Mode)
    requires dev.Valid() && |dev.sent| == |dev.received| && |dev.sent| % 4 == 0 && at == 4 * |dev.sent|
    requires at + len <= input.Length && at + PaddedLen(len, mode) <= output.Length
    requires len % 16 == 0 || at + PaddedLen(len, mode) == dev.Total()
    requires output[..at] == BytesAll(dev.received)
    requires at + len <= |data| && input[at..at + len] == data[at..at + len]
    requires dev.sent == Feed(data[..at], mode)
    modifies dev`sent, dev`received, dev`waits, output
    ensures dev.Valid() && dev.sent == Feed(data[..at + len], mode)
    ensures |dev.received| == |dev.sent| && at + PaddedLen(len, mode) <= 4 * |dev.received|
    ensures var end := at + PaddedLen(len, mode);
            output[..end] == BytesAll(dev.received)[..end] && output[end..] == old(output[end..])
  {
    hide BytesAll, Computed, Timely, PaddedLen, Feed, WordCount;
    ProcessLess80Bytes(dev, input, output, at, len, mode);
    FeedConcat(data[..at], data[at..at + len], mode);
    assert data[..at] + data[at..at + len] == data[..at + len];
  }

  /** i chunks are done: `data` and `free` are what the two buffers held at the start. */
  ghost predicate Done(dev: Device, input: array<byte>, output: array<byte>, data: seq<byte>, free: seq<byte>,
                       i: nat, mode: Mode)
    reads dev, input, output
  {
    && |data| == input.Length && |free| == output.Length && 80 * i <= |data| && 80 * i <= |free|
    && dev.Valid() && |dev.sent| == |dev.received| == 20 * i && dev.sent == Feed(data[..80 * i], mode)
    && output[..80 * i] == BytesAll(dev.received)
    && output[80 * i..] == free[80 * i..] && input[80 * i..] == data[80 * i..]
  }

  lemma NothingDone(dev: Device, input: array<byte>, output: array<byte>, mode: Mode)
    requires dev.Valid() && dev.sent == dev.received == []
    ensures Done(dev, input, output, input[..], output[..], 0, mode)
  {
  }

  lemma Cut(a: seq<byte>, b: seq<byte>, from: nat, to: nat)
    requires from <= to <= |a| && |a| == |b| && a[from..] == b[from..]
    ensures a[from..to] == b[from..to] && a[to..] == b[to..]
  {
    assert a[from..to] == a[from..][..to - from];
    assert b[from..to] == b[from..][..to - from];
    assert a[to..] == a[from..][to - from..];
    assert b[to..] == b[from..][to - from..];
  }

  lemma ChunkIsWhole(mode: Mode)
    ensures PaddedLen(80, mode) == 80 && 80 % 16 == 0
  {
  }

  lemma RoundUpZero()
    ensures RoundUp(0) == 0
  {
  }

  lemma FeedCount(data: seq<byte>, i: nat, mode: Mode)
    requires 80 * i <= |data|
    ensures |Feed(data[..80 * i], mode)| == 20 * i
  {
    hide RoundUp;
    var q := 5 * i;
    assert 80 * i == 16 * q;
    RoundUpShift(q, 0);
    RoundUpZero();
  }

  lemma QuadTimes(k: nat)
    ensures (4 * k) % 4 == 0
  {
  }

  lemma BeforeChunk(dev: Device, input: array<byte>, output: array<byte>, data: seq<byte>, free: seq<byte>,
                    at: nat, i: nat, mode: Mode)
    requires Done(dev, input, output, data, free, i, mode) && at == 80 * i
    requires at + 80 <= input.Length && at + 80 <= output.Length
    ensures |dev.sent| == |dev.received| == 20 * i
    ensures input[at..at + 80] == data[at..at + 80] && output[..at] == BytesAll(dev.received)
    ensures input[at + 80..] == data[at + 80..] && output[at + 80..] == free[at + 80..]
    ensures dev.sent == Feed(data[..at], mode) && |data| == input.Length && |free| == output.Length
  {
    hide BytesAll, Computed, Timely, Feed, WordCount;
    Cut(input[..], data, at, at + 80);
    Cut(output[..], free, at, at + 80);
  }

  lemma AfterChunk(dev: Device, input: array<byte>, output: array<byte>, data: seq<byte>, free: seq<byte>,
                   at: nat, i: nat, mode: Mode)
    requires at == 80 * i && at + 80 <= input.Length == |data| && at + 80 <= output.Length == |free|
    requires dev.Valid() && |dev.sent| == |dev.received| == 20 * (i + 1) && dev.sent == Feed(data[..at + 80], mode)
    requires output[..at + 80] == BytesAll(dev.received)[..at + 80]
    requires output[at + 80..] == free[at + 80..] && input[at + 80..] == data[at + 80..]
    ensures Done(dev, input, output, data, free, i + 1, mode)
  {
    hide BytesAll, Computed, Timely, Feed, WordCount;
    assert BytesAll(dev.received)[..at + 80] == BytesAll(dev.received);
  }

  method WholeChunk(dev: Device, input: array<byte>, output: array<byte>, ghost data: seq<byte>,
                    ghost free: seq<byte>, i: nat, mode: Mode)
    requires Done(dev, input, output, data, free, i, mode) && dev.Valid()
    requires 80 * i + 80 <= input.Length && 80 * i + 80 <= output.Length
    modifies dev`sent, dev`received, dev`waits, output
    ensures Done(dev, input, output, data, free, i + 1, mode) && dev.Valid()
  {
    hide BytesAll, Computed, Timely, Feed, PaddedLen, WordCount, Done;
    var at := 80 * i;
    ChunkIsWhole(mode);
    BeforeChunk(dev, input, output, data, free, at, i, mode);
    QuadTimes(5 * i);
    Chunk(dev, input, output, data, at, 80, mode);
    FeedCount(data, i + 1, mode);
    AfterChunk(dev, input, output, data, free, at, i, mode);
  }

  /** aes_process in chunks of 80 bytes.  The accelerator receives the same words as from one InputBytes pass
      over the whole message, none of its output words is waited for before its block is in, every output word
      is the one computed from the blocks up to its own, and the output bytes are those words in order, cut at
      the message length in GCM.  Nothing behind them is written; output may be the input buffer. */
  method Process(dev: Device, input: array<byte>, output: array<byte>, len: nat, mode: Mode)
    requires dev.Valid() && dev.sent == dev.received == [] && dev.Total() == PaddedLen(len, mode)
    requires len <= input.Length && PaddedLen(len, mode) <= output.Length
    modifies dev`sent, dev`received, dev`waits, output
    ensures dev.Valid() && dev.sent == Feed(old(input[..len]), mode) && |dev.received| == |dev.sent|
    ensures |dev.waits| == |dev.received| && Timely(dev.Total(), dev.waits)
    ensures output[..PaddedLen(len, mode)] == BytesAll(dev.received)[..PaddedLen(len, mode)]
    ensures output[PaddedLen(len, mode)..] == old(output[PaddedLen(len, mode)..])
  {
    hide BytesOf, BytesAll, Computed, Timely, PaddedLen, Feed, WordCount, Done;
    ghost var data, free := input[..], output[..];
    var n: nat, tempLen: nat := len / 80, len % 80;
    NothingDone(dev, input, output, mode);
    for i := 0 to n
      invariant Done(dev, input, output, data, free, i, mode) && dev.Valid()
    {
      WholeChunk(dev, input, output, data, free, i, mode);
    }
    LastChunk(dev, input, output, data, free, n, tempLen, len, mode);
    assert data[..len] == old(input[..len]);
    assert free[PaddedLen(len, mode)..] == old(output[PaddedLen(len, mode)..]);
  }

  method LastChunk(dev: Device, input: array<byte>, output: array<byte>, ghost data: seq<byte>,
                   ghost free: seq<byte>, n: nat, tempLen: nat, ghost len: nat, mode: Mode)
    requires len == 80 * n + tempLen && dev.Total() == PaddedLen(len, mode)
    requires len <= input.Length == |data| && PaddedLen(len, mode) <= output.Length == |free|
    requires Done(dev, input, output, data, free, n, mode)
    modifies dev`sent, dev`received, dev`waits, output
    ensures dev.Valid() && dev.sent == Feed(data[..len], mode) && |dev.received| == |dev.sent|
    ensures PaddedLen(len, mode) <= 4 * |dev.received|
    ensures output[..PaddedLen(len, mode)] == BytesAll(dev.received)[..PaddedLen(len, mode)]
    ensures output[PaddedLen(len, mode)..] == free[PaddedLen(len, mode)..]
  {
    hide BytesAll, Computed, Timely, Feed, PaddedLen, FillLen, WordCount;
    ghost var at := 80 * n;
    LastShift(n, tempLen, len, mode);
    Cut(output[..], free, at, at + PaddedLen(tempLen, mode));
    Cut(input[..], data, at, at + tempLen);
    if tempLen > 0 {
      Chunk(dev, input, output, data, 80 * n, tempLen, mode);
    } else {
      PrefixOfEqual(output[..at], BytesAll(dev.received));
    }
  }

  lemma LastShift(n: nat, tempLen: nat, len: nat, mode: Mode)
    requires len == 80 * n + tempLen
    ensures PaddedLen(len, mode) == 80 * n + PaddedLen(tempLen, mode) && (20 * n) % 4 == 0
    ensures tempLen == 0 ==> PaddedLen(len, mode) == 80 * n
  {
    hide RoundUp;
    RoundUpZero();
    RoundUpShift(5 * n, tempLen);
    QuadTimes(5 * n);
  }

  /** aes_init and aes_process together, for any message the 32-bit length register can hold. */
  method Run(cipher: (seq<word>, nat) -> word, input: array<byte>, output: array<byte>, len: nat, mode: Mode)
      returns (dev: Device)
    requires len <= input.Length && PaddedLen(len, mode) <= output.Length && PaddedLen(len, mode) < TWO32
    modifies output
    ensures fresh(dev) && dev.Valid() && dev.Total() == PaddedLen(len, mode)
    ensures dev.sent == Feed(old(input[..len]), mode) && |dev.received| == |dev.sent|
    ensures |dev.waits| == |dev.received| && Timely(dev.Total(), dev.waits)
    ensures output[..PaddedLen(len, mode)] == BytesAll(dev.received)[..PaddedLen(len, mode)]
    ensures output[PaddedLen(len, mode)..] == old(output[PaddedLen(len, mode)..])
  {
    hide BytesAll, Computed, Timely, PaddedLen, Feed;
    dev := new Device(cipher);
    dev.Init(mode, len);
    Process(dev, input, output, len, mode);
  }
}
