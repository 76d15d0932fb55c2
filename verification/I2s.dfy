/** Playing PCM data through DMA with two alternating buffers (lib/drivers/i2s.c). */
module I2s {
  import opened Bytes
  import opened Pcm
  import opened Playback

  // ----- the DMA channel -----

  /** A transfer as it was started: the words of a conversion buffer, or `count` words of the caller's data
      from byte `from` on. */
  datatype Transfer = Buffered(words: seq<word>) | Input(from: nat, count: nat)

  class Dma {
    var divide16: bool
    /** Started and not yet known to be idle: the channel may still be reading. */
    var busy: bool
    var source: array?<word>
    var base: nat
    var count: nat
    /** Every transfer in the order of starting. */
    var log: seq<Transfer>
    /** History: some transfer was started while the one before was not known to be over. */
    ghost var overlapped: bool

    constructor ()
      ensures Intact() && !busy && !overlapped && log == []
    {
      divide16, busy, source, base, count, log, overlapped := false, false, null, 0, 0, [], false;
    }

    /** A pending transfer may read some of a[lo..hi]. */
    ghost predicate Reads(a: array<word>, lo: nat, hi: nat)
      reads this
    {
      busy && source == a && lo < base + count && base < hi
    }

    /** What a pending transfer reads, whenever it does, is what was there when it was started. */
    ghost predicate Intact()
      reads this, source
    {
      busy && source != null ==>
        && base + count <= source.Length
        && log != [] && log[|log| - 1] == Buffered(source[base..base + count])
    }

    method WaitIdle()
      requires Intact()
      modifies this`busy
      ensures Intact() && !busy
    {
      busy := false;
    }

    /** What dmac_set_single_mode does to the channel, idle or not. */
    method Start(a: array?<word>, from: nat, length: nat, t: Transfer)
      modifies this`busy, this`source, this`base, this`count, this`log, this`overlapped
      ensures busy && source == a && base == from && count == length && log == old(log) + [t]
      ensures overlapped == (old(overlapped) || old(busy))
    {
      overlapped := overlapped || busy;
      busy, source, base, count := true, a, from, length;
      log := log + [t];
    }

    method SendBuffer(a: array<word>, from: nat, length: nat)
      requires Intact() && from + length <= a.Length
      modifies this`busy, this`source, this`base, this`count, this`log, this`overlapped
      ensures Intact() && busy && source == a && base == from && count == length
      ensures log == old(log) + [Buffered(a[from..from + length])] && overlapped == old(overlapped)
    {
      WaitIdle();
      Start(a, from, length, Buffered(a[from..from + length]));
    }

    method SendInput(from: nat, length: nat)
      requires Intact()
      modifies this`busy, this`source, this`base, this`count, this`log, this`overlapped
      ensures Intact() && busy && source == null
      ensures log == old(log) + [Input(from, length)] && overlapped == old(overlapped)
    {
      WaitIdle();
      Start(null, from, length, Input(from, length));
    }
  }

  // ----- conversion -----

  method StorePair(a: array<word>, at: nat, left: word, right: word)
    requires at + 2 <= a.Length
    modifies a
    ensures a[..at + 2] == old(a[..at]) + [left, right] && a[at + 2..] == old(a[at + 2..])
  {
    ghost var before := a[..];
    a[at] := left;
    a[at + 1] := right;
    assert a[..at] == before[..at];
  }

  /** i2s_parse_voice into a[base..base + 2 * length], which no pending transfer may be reading. */
  method ParseVoice(ghost dma: Dma, a: array<word>, base: nat, m: Memory, from: nat, length: nat, f: Format)
      returns (sendLen: nat)
    requires base + 2 * length <= a.Length
    requires dma.Intact() && !dma.Reads(a, base, base + 2 * length)
    modifies a
    ensures sendLen == 2 * length && dma.Intact()
    ensures a[base..base + sendLen] == Convert(m, from, length, f)
    ensures a[..base] == old(a[..base]) && a[base + sendLen..] == old(a[base + sendLen..])
  {
    ghost var before := a[..];
    Fill(a, base, m, from, length, f);
    sendLen := 2 * length;
    hide Convert;
    if dma.busy && dma.source == a {
      SameOutside(before, a[..], base, base + sendLen, dma.base, dma.base + dma.count);
    }
  }

  method Fill(a: array<word>, base: nat, m: Memory, from: nat, length: nat, f: Format)
    requires base + 2 * length <= a.Length
    modifies a
    ensures a[base..base + 2 * length] == Convert(m, from, length, f)
    ensures a[..base] == old(a[..base]) && a[base + 2 * length..] == old(a[base + 2 * length..])
  {
    hide Stereo, Convert;
    ghost var before := a[..];
    ConvertNone(m, from, f);
    for i := 0 to length
      invariant a[..base + 2 * i] == before[..base] + Convert(m, from, i, f)
      invariant a[base + 2 * i..] == before[base + 2 * i..]
    {
      var left, right := Sample(m, from, i, f);
      ConvertOne(m, from, i, f);
      Append(before[..base], Convert(m, from, i, f), [left, right]);
      StorePair(a, base + 2 * i, left, right);
    }
    assert a[..base] == a[..base + 2 * length][..base];
    assert a[base..base + 2 * length] == a[..base + 2 * length][base..];
  }

  lemma SameOutside(x: seq<word>, y: seq<word>, from: nat, to: nat, lo: nat, hi: nat)
    requires from <= to <= |x| == |y| && lo <= hi <= |x| && (hi <= from || to <= lo)
    requires x[..from] == y[..from] && x[to..] == y[to..]
    ensures x[lo..hi] == y[lo..hi]
  {
    if hi <= from {
      assert x[lo..hi] == x[..from][lo..hi];
      assert y[lo..hi] == y[..from][lo..hi];
    } else {
      forall k | lo <= k < hi
        ensures x[k] == y[k]
      {
        assert x[k] == x[to..][k - to] == y[to..][k - to] == y[k];
      }
    }
  }

  lemma ConvertNone(m: Memory, from: nat, f: Format)
    ensures Convert(m, from, 0, f) == []
  {
  }

  lemma ConvertOne(m: Memory, from: nat, i: nat, f: Format)
    ensures Convert(m, from, i + 1, f) == Convert(m, from, i, f) + Stereo(m, from + f.Skip(i), f)
  {
  }

  /** The body of the three loops: element i of a 16- or 32-bit array, or the next three or six bytes. */
  method Sample(m: Memory, from: nat, i: nat, f: Format) returns (left: word, right: word)
    ensures [left, right] == Stereo(m, from + f.Skip(i), f)
    ensures Faithful(f) ==> Values([left, right]) == Tracks(m, from + f.Skip(i), f)
  {
    hide Values, Tracks, WordOf;
    if Faithful(f) { StereoIsTracks(m, from + f.Skip(i), f); }
    hide Faithful;
    right := 0;
    if f.bits == 16 {
      left := Little(m, from + 2 * i, 2);
    } else if f.bits == 24 {
      var j := from + (if f.track == 2 then 6 * i else 3 * i);
      left := Little(m, j, 3);
      if f.track == 2 { right := Little(m, j + 3, 3); }
    } else {
      left := Little(m, from + 4 * i, 4);
    }
  }

  // ----- what a log sends -----

  predicate Inside(t: Transfer, len: nat) { t.Input? ==> t.from + 4 * t.count <= len }

  /** The words of the transfers in order. */
  function Sent(log: seq<Transfer>, m: Memory): seq<word> {
    if log == [] then []
    else
      var t := log[|log| - 1];
      Sent(log[..|log| - 1], m) + match t case Buffered(words) => words case Input(from, count) => Raw(m, from, count)
  }

  lemma SentPush(log: seq<Transfer>, t: Transfer, m: Memory)
    ensures Sent(log + [t], m) == Sent(log, m) + if t.Buffered? then t.words else Raw(m, t.from, t.count)
  {
    hide Raw;
    assert (log + [t])[..|log|] == log;
  }

  // ----- the conversion path -----

  /** buff[flag]. */
  function Half(frame: nat, flag: nat): nat { if flag == 0 then 0 else 2 * frame }

  /** One pass of the loop: convert frame i into a half no transfer is reading, and send it. */
  method PlayFrame(dma: Dma, buff: array<word>, m: Memory, f: Format, frame: nat, i: nat, flag: nat)
    requires buff.Length == 4 * frame && dma.Intact() && Sent(dma.log, m) == Frames(m, i, frame, f)
    requires !dma.Reads(buff, Half(frame, flag), Half(frame, flag) + 2 * frame)
    modifies dma`busy, dma`source, dma`base, dma`count, dma`log, dma`overlapped, buff
    ensures dma.Intact() && |dma.log| == old(|dma.log|) + 1 && dma.overlapped == old(dma.overlapped)
    ensures dma.busy && dma.source == buff && dma.base == Half(frame, flag) && dma.count == 2 * frame
    ensures Sent(dma.log, m) == Frames(m, i + 1, frame, f)
  {
    hide Format.Span, Convert, Sent, FrameStart;
    var sendLen := ParseVoice(dma, buff, Half(frame, flag), m, f.Span(FrameStart(i, frame)), frame, f);
    ghost var log := dma.log;
    dma.SendBuffer(buff, Half(frame, flag), sendLen);
    SentPush(log, dma.log[|log|], m);
  }

  /** The frames, converted, through the two halves of one buffer in turn.  A last partial frame is converted
      too, but the transfer is given the caller's data.  The buffer is released at the end: by then a transfer
      may still be reading it exactly if there was a frame and no partial one after it. */
  method PlayConverted(dma: Dma, m: Memory, f: Format, frame: nat, frameCnt: nat, frameRemain: nat)
      returns (buff: array<word>)
    requires 0 < frame && frameRemain < frame && dma.Intact() && dma.log == []
    modifies dma`busy, dma`source, dma`base, dma`count, dma`log, dma`overlapped
    ensures fresh(buff) && dma.Intact() && dma.overlapped == old(dma.overlapped)
    ensures |dma.log| == frameCnt + if frameRemain > 0 then 1 else 0
    ensures Sent(dma.log[..frameCnt], m) == Frames(m, frameCnt, frame, f)
    ensures frameRemain > 0 ==> dma.log[frameCnt] == Input(f.Span(FrameStart(frameCnt, frame)), 2 * frameRemain)
    ensures Sent(dma.log, m)
         == Frames(m, frameCnt, frame, f) + Raw(m, f.Span(FrameStart(frameCnt, frame)), 2 * frameRemain)
    ensures dma.Reads(buff, 0, 4 * frame) <==> frameCnt >= 1 && frameRemain == 0
  {
    hide Format.Span, Convert, Sent, FrameStart, Frames, Raw;
    buff := new word[4 * frame];
    var flag := 0;
    NothingSent(m, f, frame);
    for i := 0 to frameCnt
      invariant dma.Intact() && |dma.log| == i && 0 <= flag <= 1 && dma.overlapped == old(dma.overlapped)
      invariant Sent(dma.log, m) == Frames(m, i, frame, f)
      invariant if i == 0 then dma.source != buff
                else dma.busy && dma.source == buff && dma.base == Half(frame, 1 - flag) && dma.count == 2 * frame
    {
      PlayFrame(dma, buff, m, f, frame, i, flag);
      flag := 1 - flag;
    }
    assert dma.log[..frameCnt] == dma.log;
    var total := f.Span(FrameStart(frameCnt, frame));
    RawNothing(m, total);
    if frameRemain > 0 {
      var sendLen := ParseVoice(dma, buff, Half(frame, flag), m, total, frameRemain, f);
      ghost var before := dma.log;
      dma.SendInput(total, sendLen);
      assert dma.log[..frameCnt] == before;
      SentPush(before, Input(total, sendLen), m);
    }
  }

  lemma NothingSent(m: Memory, f: Format, frame: nat)
    ensures Sent([], m) == [] == Frames(m, 0, frame, f)
  {
  }

  // ----- the direct path -----

  lemma CountIsSpan(n: nat, f: Format)
    requires f.Direct()
    ensures 4 * DirectCount(n, f) == f.Span(n)
  {
  }

  predicate AllInside(log: seq<Transfer>, len: nat) { forall t :: t in log ==> Inside(t, len) }

  lemma {:induction false} RawConcat(m: Memory, from: nat, a: nat, b: nat)
    ensures Raw(m, from, a) + Raw(m, from + 4 * a, b) == Raw(m, from, a + b)
  {
    hide Little;
    if b == 0 {
      assert Raw(m, from, a) + [] == Raw(m, from, a);
    } else {
      RawConcat(m, from, a, b - 1);
      Append(Raw(m, from, a), Raw(m, from + 4 * a, b - 1), [Little(m, from + 4 * (a + b - 1), 4)]);
    }
  }

  /** The words of memory inside the data are the data's words. */
  lemma {:induction false} RawIsWords(pcm: seq<byte>, beyond: Memory, n: nat)
    requires 4 * n <= |pcm|
    ensures Aligned(pcm[..4 * n]) && Raw(MemoryOf(pcm, beyond), 0, n) == Words(pcm[..4 * n])
  {
    hide WordOf, Words;
    Quads(pcm[..4 * n], n);
    if n > 0 {
      RawIsWords(pcm, beyond, n - 1);
      WordsSnoc(pcm, n - 1);
      WordInside(pcm, beyond, 4 * (n - 1));
      hide Little, MemoryOf;
    } else {
      NoWords(pcm);
    }
  }

  lemma WordInside(pcm: seq<byte>, beyond: Memory, o: nat)
    requires o + 4 <= |pcm|
    ensures Little(MemoryOf(pcm, beyond), o, 4) == WordOf(pcm[o], pcm[o + 1], pcm[o + 2], pcm[o + 3])
  {
    hide WordOf;
  }

  lemma NoWords(pcm: seq<byte>)
    ensures Words(pcm[..0]) == []
  {
  }

  lemma Quads(s: seq<byte>, n: nat)
    requires |s| == 4 * n
    ensures Aligned(s)
  {
  }

  /** Send n samples from sample `start` on, straight from the caller's data. */
  method SendDirect(dma: Dma, ghost m: Memory, ghost len: nat, f: Format, start: nat, n: nat)
    requires f.Direct() && dma.Intact() && f.Span(start) + f.Span(n) <= len
    requires AllInside(dma.log, len) && Sent(dma.log, m) == Raw(m, 0, DirectCount(start, f))
    modifies dma`busy, dma`source, dma`base, dma`count, dma`log, dma`overlapped
    ensures dma.Intact() && AllInside(dma.log, len) && dma.overlapped == old(dma.overlapped)
    ensures Sent(dma.log, m) == Raw(m, 0, DirectCount(start + n, f))
  {
    hide Format.Span, Raw, Sent;
    ghost var log := dma.log;
    var from := f.Span(start);
    CountIsSpan(start, f);
    CountIsSpan(n, f);
    dma.SendInput(from, DirectCount(n, f));
    SentPush(log, dma.log[|log|], m);
    RawConcat(m, 0, DirectCount(start, f), DirectCount(n, f));
  }

  /** The transfers stay inside the data and concatenate to all of it. */
  method PlayDirect(dma: Dma, pcm: seq<byte>, ghost beyond: Memory, f: Format, frame: nat, frameCnt: nat,
                    frameRemain: nat)
    requires f.Direct() && 0 < frame && dma.Intact() && dma.log == []
    requires f.Span(FrameStart(frameCnt, frame) + frameRemain) <= |pcm|
    modifies dma`busy, dma`source, dma`base, dma`count, dma`log, dma`overlapped
    ensures dma.Intact() && AllInside(dma.log, |pcm|) && dma.overlapped == old(dma.overlapped)
    ensures var n := FrameStart(frameCnt, frame) + frameRemain;
            && Sent(dma.log, MemoryOf(pcm, beyond)) == Raw(MemoryOf(pcm, beyond), 0, DirectCount(n, f))
            && Aligned(pcm[..f.Span(n)]) && Sent(dma.log, MemoryOf(pcm, beyond)) == Words(pcm[..f.Span(n)])
  {
    hide Format.Span, Raw, Words, Sent, FrameStart, Aligned, AllInside, DirectCount, MemoryOf;
    ghost var m := MemoryOf(pcm, beyond);
    SilentStart(m, |pcm|, f, frame);
    SpanSum(f, FrameStart(frameCnt, frame), frameRemain);
    for i := 0 to frameCnt
      invariant dma.Intact() && AllInside(dma.log, |pcm|) && dma.overlapped == old(dma.overlapped)
      invariant Sent(dma.log, m) == Raw(m, 0, DirectCount(FrameStart(i, frame), f))
    {
      FrameFits(f, i, frameCnt, frame);
      SendDirect(dma, m, |pcm|, f, FrameStart(i, frame), frame);
    }
    if frameRemain > 0 {
      SendDirect(dma, m, |pcm|, f, FrameStart(frameCnt, frame), frameRemain);
    }
    ghost var n := FrameStart(frameCnt, frame) + frameRemain;
    CountIsSpan(n, f);
    RawIsWords(pcm, beyond, DirectCount(n, f));
  }

  lemma SilentStart(m: Memory, len: nat, f: Format, frame: nat)
    ensures Sent([], m) == Raw(m, 0, DirectCount(FrameStart(0, frame), f)) && AllInside([], len)
  {
  }

  lemma FrameFits(f: Format, i: nat, n: nat, frame: nat)
    requires i < n
    ensures FrameStart(i + 1, frame) == FrameStart(i, frame) + frame
    ensures f.Span(FrameStart(i, frame)) + f.Span(frame) == f.Span(FrameStart(i + 1, frame))
    ensures f.Span(FrameStart(i + 1, frame)) <= f.Span(FrameStart(n, frame))
  {
    FrameStep(i, frame);
    FrameOrder(i + 1, n, frame);
    hide *;
    SpanSum(f, FrameStart(i, frame), frame);
    SpanSum(f, FrameStart(i + 1, frame), FrameStart(n, frame) - FrameStart(i + 1, frame));
  }

  // ----- i2s_play -----

  /** Stereo data of 16 or 32 bits is played word for word up to the last whole sample.  Any other format is played
      frame by frame as its conversion, and a last partial frame goes out as raw data.  Under the condition AllHeard,
      which is exact, the words are the values of all whole samples.  No transfer is started before the one before it
      is over, and each reads what was in its buffer when it was started. */
  method Play(dma: Dma, pcm: seq<byte>, beyond: Memory, f: Format, frame: nat)
    requires f.Valid() && 0 < frame && dma.Intact() && dma.log == []
    modifies dma
    ensures dma.Intact() && dma.overlapped == old(dma.overlapped)
    ensures f.Span(SampleCount(|pcm|, f)) <= |pcm| < f.Span(SampleCount(|pcm|, f)) + f.Span(1)
    ensures dma.divide16 <==> f == Format(16, 2)
    ensures var m, n := MemoryOf(pcm, beyond), SampleCount(|pcm|, f);
            && Sent(dma.log, m) == Output(m, n, frame, f)
            && (AllHeard(n, frame, f) ==> Heard(Sent(dma.log, m), f) == Audio(m, n, f))
    ensures f.Direct() ==>
              var m, played := MemoryOf(pcm, beyond), pcm[..f.Span(SampleCount(|pcm|, f))];
              AllInside(dma.log, |pcm|) && Aligned(played) && Sent(dma.log, m) == Words(played)
    ensures !f.Direct() ==>
              var m, n, rest := MemoryOf(pcm, beyond), SampleCount(|pcm|, f) / frame, SampleCount(|pcm|, f) % frame;
              && |dma.log| == n + (if rest > 0 then 1 else 0)
              && Sent(dma.log[..n], m) == Frames(m, n, frame, f)
              && (InStep(frame, f) ==> Sent(dma.log[..n], m) == Samples(m, FrameStart(n, frame), f))
              && f.Width() > 0
              && (rest > 0 ==>
                    && dma.log[n] == Input(f.Span(FrameStart(n, frame)), 2 * rest)
                    && (Inside(dma.log[n], |pcm|) <==> 8 * rest <= f.Width() * rest + |pcm| % f.Width()))
  {
    hide Format.Span, Words, Sent, FrameStart, Convert, Aligned, AllInside, SampleCount, Frames, Samples, InStep, Raw,
      Audio, Heard, DirectCount, MemoryOf, AllHeard, Format.Width;
    var sampleCnt := SampleCount(|pcm|, f);
    SamplesFit(f, |pcm|);
    TailInsideIff(|pcm|, frame, f);
    var frameCnt: nat, frameRemain: nat := sampleCnt / frame, sampleCnt % frame;
    Division(sampleCnt, frame);
    var m := MemoryOf(pcm, beyond);
    if AllHeard(sampleCnt, frame, f) { HeardIsAudio(m, sampleCnt, frame, f); }
    dma.divide16 := false;
    if f.bits == 16 && f.track == 2 {
      dma.divide16 := true;
      PlayDirect(dma, pcm, beyond, f, frame, frameCnt, frameRemain);
    } else if f.bits == 32 && f.track == 2 {
      PlayDirect(dma, pcm, beyond, f, frame, frameCnt, frameRemain);
    } else {
      var buff := PlayConverted(dma, m, f, frame, frameCnt, frameRemain);
      if InStep(frame, f) {
        FramesAreSamples(m, frameCnt, frame, f);
      }
    }
  }
}
