/** When the words that a call of i2s_play sends are the values of the samples it was given (lib/drivers/i2s.c). */
module Playback {
  import opened Bytes
  import opened Pcm

  // ----- values -----

  /** The number that some bytes are, lowest first. */
  function NumberOf(bytes: seq<byte>): nat {
    if bytes == [] then 0 else bytes[0] as nat + 256 * NumberOf(bytes[1..])
  }

  function Range(m: Memory, o: nat, n: nat): (s: seq<byte>)
    ensures |s| == n && forall i :: 0 <= i < n ==> s[i] == m(o + i)
  {
    seq(n, i requires 0 <= i => m(o + i))
  }

  /** The number in the n bytes at o. */
  function Number(m: Memory, o: nat, n: nat): nat { NumberOf(Range(m, o, n)) }

  function Value(w: word): nat { NumberOf(BytesOf(w)) }

  function Values(ws: seq<word>): (v: seq<nat>)
    ensures |v| == |ws| && forall i :: 0 <= i < |ws| ==> v[i] == Value(ws[i])
  {
    seq(|ws|, i requires 0 <= i < |ws| => Value(ws[i]))
  }

  /** Each word as two numbers: the transmitter splits it when the DMA divides by 16. */
  function Halves(ws: seq<word>): (v: seq<nat>)
    ensures |v| == 2 * |ws|
  {
    if ws == [] then []
    else
      var bytes := BytesOf(ws[|ws| - 1]);
      Halves(ws[..|ws| - 1]) + [NumberOf(bytes[..2]), NumberOf(bytes[2..])]
  }

  function Max(a: nat, b: nat): nat { if a < b then b else a }

  /** The number of bytes of a sample of one track. */
  function SampleBytes(f: Format): nat { f.bits / 8 }

  /** One sample: the number of each track, and silence on the right if there is only one. */
  function Tracks(m: Memory, o: nat, f: Format): (v: seq<nat>)
    ensures |v| == Max(f.track, 2)
  {
    seq(Max(f.track, 2), j requires 0 <= j =>
      if j < f.track then Number(m, o + j * SampleBytes(f), SampleBytes(f)) else 0)
  }

  /** What should be heard: the values of the first n samples, of all tracks, in order. */
  function Audio(m: Memory, n: nat, f: Format): seq<nat> {
    if n == 0 then [] else Audio(m, n - 1, f) + Tracks(m, f.Span(n - 1), f)
  }

  // ----- what is sent -----

  /** The words of n words' length of memory. */
  function Raw(m: Memory, from: nat, n: nat): (ws: seq<word>)
    ensures |ws| == n
  {
    if n == 0 then [] else Raw(m, from, n - 1) + [Little(m, from + 4 * (n - 1), 4)]
  }

  /** The transfer length the driver gives for n samples of a direct format. */
  function DirectCount(n: nat, f: Format): nat { if f.bits == 16 then n else 2 * n }

  /** All words that a call sends for n samples: the data itself, or the converted frames and, for a last partial
      frame, data again. */
  function Output(m: Memory, n: nat, frame: nat, f: Format): seq<word>
    requires frame > 0
  {
    if f.Direct() then Raw(m, 0, DirectCount(n, f))
    else Frames(m, n / frame, frame, f) + Raw(m, f.Span(FrameStart(n / frame, frame)), 2 * (n % frame))
  }

  function Heard(ws: seq<word>, f: Format): seq<nat> { if f == Format(16, 2) then Halves(ws) else Values(ws) }

  // ----- words and numbers -----

  /** Zero bytes behind a number do not change it. */
  lemma {:induction false} ZerosBehind(s: seq<byte>, n: nat)
    ensures NumberOf(s + Zeros(n)) == NumberOf(s)
    decreases |s| + n
  {
    if s != [] {
      ZerosBehind(s[1..], n);
      assert (s + Zeros(n))[1..] == s[1..] + Zeros(n);
    } else if n > 0 {
      ZerosBehind([], n - 1);
      assert ([] + Zeros(n))[1..] == [] + Zeros(n - 1);
    } else {
      assert s + Zeros(n) == [];
    }
  }

  /** The conversion's number of two, three or four bytes is their number. */
  lemma LittleIsNumber(m: Memory, o: nat, n: nat)
    requires 2 <= n <= 4
    ensures Value(Little(m, o, n)) == Number(m, o, n)
  {
    hide WordOf, BytesOf, NumberOf;
    LittleBytes(m, o, n);
    ZerosBehind(Range(m, o, n), 4 - n);
    assert BytesOf(Little(m, o, n)) == Range(m, o, n) + Zeros(4 - n);
  }

  lemma ZeroWord()
    ensures Value(0) == 0
  {
    assert BytesOf(0) == [] + Zeros(4);
    hide BytesOf;
    ZerosBehind([], 4);
  }

  /** A number with one byte marked is zero exactly if the mark is not in it. */
  lemma {:induction false} MarkedNumber(at: nat, o: nat, n: nat)
    ensures Number(Mark(at), o, n) == 0 <==> !(o <= at < o + n)
    decreases n
  {
    if n > 0 {
      MarkedNumber(at, o + 1, n - 1);
      assert Range(Mark(at), o, n)[1..] == Range(Mark(at), o + 1, n - 1);
    }
  }

  // ----- where the words are the values -----

  /** The conversion's number is one track's, and there is no other track that it leaves out. */
  predicate Faithful(f: Format) { SampleBytes(f) == f.Reach() && (f.track == 1 || f.Paired()) }

  lemma FaithfulFits(f: Format, frame: nat)
    requires Faithful(f)
    ensures InStep(frame, f) && f.track <= 2 && 2 <= f.Reach() <= 4
  {
  }

  lemma StereoIsTracks(m: Memory, o: nat, f: Format)
    requires Faithful(f)
    ensures Values(Stereo(m, o, f)) == Tracks(m, o, f)
  {
    hide NumberOf, WordOf, BytesOf, Number, Value, Little;
    FaithfulFits(f, 0);
    LittleIsNumber(m, o, f.Reach());
    LittleIsNumber(m, o + 3, 3);
    ZeroWord();
    assert o + 0 * SampleBytes(f) == o && o + 1 * SampleBytes(f) == o + SampleBytes(f);
  }

  lemma ValuesConcat(a: seq<word>, b: seq<word>)
    ensures Values(a + b) == Values(a) + Values(b)
  {
    hide Value;
  }

  lemma {:induction false} SamplesAreAudio(m: Memory, n: nat, f: Format)
    requires Faithful(f)
    ensures Values(Samples(m, n, f)) == Audio(m, n, f)
  {
    hide Faithful, Value, Stereo, Tracks, Format.Span;
    if n > 0 {
      SamplesAreAudio(m, n - 1, f);
      StereoIsTracks(m, f.Span(n - 1), f);
      ValuesConcat(Samples(m, n - 1, f), Stereo(m, f.Span(n - 1), f));
    }
  }

  lemma TwoRaw(m: Memory, from: nat, n: nat)
    ensures Raw(m, from, 2 * (n + 1))
         == Raw(m, from, 2 * n) + [Little(m, from + 8 * n, 4), Little(m, from + 8 * n + 4, 4)]
  {
    hide Little;
    assert 2 * (n + 1) - 1 == 2 * n + 1;
    assert Raw(m, from, 2 * n + 1) == Raw(m, from, 2 * n) + [Little(m, from + 8 * n, 4)];
  }

  /** Two tracks of four bytes: the data is already words. */
  predicate WordPairs(f: Format) { SampleBytes(f) == 4 && f.track == 2 }

  lemma PairIsTracks(m: Memory, o: nat, f: Format)
    requires WordPairs(f)
    ensures Values([Little(m, o, 4), Little(m, o + 4, 4)]) == Tracks(m, o, f)
  {
    hide Number, Value, Little;
    LittleIsNumber(m, o, 4);
    LittleIsNumber(m, o + 4, 4);
  }

  lemma {:induction false} RawIsAudio(m: Memory, n: nat, f: Format)
    requires WordPairs(f)
    ensures Values(Raw(m, 0, 2 * n)) == Audio(m, n, f)
  {
    hide Tracks, Value, Little;
    if n > 0 {
      var o := 8 * (n - 1);
      assert f.Span(n - 1) == o;
      RawIsAudio(m, n - 1, f);
      TwoRaw(m, 0, n - 1);
      PairIsTracks(m, o, f);
      ValuesConcat(Raw(m, 0, 2 * (n - 1)), [Little(m, o, 4), Little(m, o + 4, 4)]);
    }
  }

  lemma HalvesPush(ws: seq<word>, w: word)
    ensures Halves(ws + [w]) == Halves(ws) + [NumberOf(BytesOf(w)[..2]), NumberOf(BytesOf(w)[2..])]
  {
    hide NumberOf, BytesOf;
    assert (ws + [w])[..|ws|] == ws;
  }

  lemma HalvesAreTracks(m: Memory, o: nat, f: Format)
    requires f == Format(16, 2)
    ensures var s := BytesOf(Little(m, o, 4)); [NumberOf(s[..2]), NumberOf(s[2..])] == Tracks(m, o, f)
  {
    hide NumberOf, BytesOf, WordOf;
    LittleBytes(m, o, 4);
    var s := BytesOf(Little(m, o, 4));
    hide Little;
    assert s[..2] == Range(m, o, 2) && s[2..] == Range(m, o + 2, 2);
  }

  lemma {:induction false} HalvesAreAudio(m: Memory, n: nat, f: Format)
    requires f == Format(16, 2)
    ensures Halves(Raw(m, 0, n)) == Audio(m, n, f)
  {
    hide Tracks, Halves, NumberOf, BytesOf, Little;
    if n > 0 {
      var o := 4 * (n - 1);
      assert f.Span(n - 1) == o;
      HalvesAreAudio(m, n - 1, f);
      HalvesPush(Raw(m, 0, n - 1), Little(m, o, 4));
      HalvesAreTracks(m, o, f);
    } else {
      NoHalves();
    }
  }

  lemma NoHalves()
    ensures Halves([]) == []
  {
  }

  // ----- the exact condition -----

  /** Nothing to play; or data that needs no conversion; or less than a frame of data that are words already; or
      whole frames of a format that is converted faithfully. */
  predicate AllHeard(n: nat, frame: nat, f: Format)
    requires frame > 0
  {
    n == 0 || f.Direct() || (if n < frame then WordPairs(f) else Faithful(f) && n % frame == 0)
  }

  lemma Division(n: nat, frame: nat)
    requires frame > 0
    ensures FrameStart(n / frame, frame) + n % frame == n
    ensures n < frame ==> n / frame == 0 && n % frame == n
    ensures n >= frame ==> n / frame > 0
  {
  }

  lemma NoFrameIsNothing(m: Memory, frame: nat, f: Format)
    ensures Frames(m, 0, frame, f) == [] && Raw(m, 0, 0) == [] && f.Span(FrameStart(0, frame)) == 0
    ensures Audio(m, 0, f) == [] && Values([]) == []
  {
  }

  lemma HeardIsAudio(m: Memory, n: nat, frame: nat, f: Format)
    requires frame > 0 && AllHeard(n, frame, f)
    ensures Heard(Output(m, n, frame, f), f) == Audio(m, n, f)
  {
    hide Audio, Frames, Raw, Values, Halves, FrameStart, Format.Span, Faithful, WordPairs;
    Division(n, frame);
    NoFrameIsNothing(m, frame, f);
    if f == Format(16, 2) {
      HalvesAreAudio(m, n, f);
    } else if f.Direct() {
      assert WordPairs(f) by { DirectPairs(f); }
      RawIsAudio(m, n, f);
    } else if n < frame {
      assert [] + Raw(m, 0, 2 * n) == Raw(m, 0, 2 * n);
      if n > 0 { RawIsAudio(m, n, f); } else { assert Raw(m, 0, 2 * n) == []; }
    } else {
      FaithfulFits(f, frame);
      FramesAreSamples(m, n / frame, frame, f);
      SamplesAreAudio(m, n, f);
      RawNothing(m, f.Span(FrameStart(n / frame, frame)));
      assert Frames(m, n / frame, frame, f) + [] == Frames(m, n / frame, frame, f);
    }
  }

  lemma DirectPairs(f: Format)
    requires f.Direct() && f != Format(16, 2)
    ensures WordPairs(f)
  {
  }

  lemma RawNothing(m: Memory, from: nat)
    ensures Raw(m, from, 0) == []
  {
  }

  // ----- and where they are not -----

  lemma {:induction false} AudioLength(m: Memory, n: nat, f: Format)
    ensures f.track <= 2 ==> |Audio(m, n, f)| == 2 * n
    ensures f.track > 2 ==> |Audio(m, n, f)| >= 3 * n
  {
    hide Format.Span;
    if n > 0 { AudioLength(m, n - 1, f); }
  }

  lemma {:induction false} AudioAt(m: Memory, n: nat, i: nat, f: Format)
    requires i < n && f.track <= 2
    ensures |Audio(m, n, f)| == 2 * n
    ensures Audio(m, n, f)[2 * i..2 * i + 2] == Tracks(m, f.Span(i), f)
  {
    hide Tracks, Format.Span;
    AudioLength(m, n, f);
    AudioLength(m, n - 1, f);
    if i < n - 1 {
      AudioAt(m, n - 1, i, f);
    }
  }

  lemma {:induction false} FramesLength(m: Memory, k: nat, frame: nat, f: Format)
    ensures |Frames(m, k, frame, f)| == 2 * FrameStart(k, frame)
  {
    hide FrameStart, Convert, Format.Span;
    if k == 0 {
      NoFrames(frame);
    } else {
      FramesLength(m, k - 1, frame, f);
      FrameStep(k - 1, frame);
    }
  }

  /** The first two words of memory are not the values of a sample. */
  lemma RawDiffers(o: nat, f: Format) returns (at: nat)
    requires f.Valid() && f.track <= 2 && !WordPairs(f)
    ensures Values([Little(Mark(at), o, 4), Little(Mark(at), o + 4, 4)]) != Tracks(Mark(at), o, f)
  {
    hide Number, Value, Little;
    var b := SampleBytes(f);
    at := o + if b < 4 then b else 4;
    var m := Mark(at);
    LittleIsNumber(m, o, 4);
    LittleIsNumber(m, o + 4, 4);
    MarkedNumber(at, o, 4);
    MarkedNumber(at, o + 4, 4);
    MarkedNumber(at, o, b);
    assert o + 0 * b == o;
    assert Tracks(m, o, f)[0] == Number(m, o, b);
    var ws := [Little(m, o, 4), Little(m, o + 4, 4)];
    assert Values(ws)[0] == Number(m, o, 4) && Values(ws)[1] == Number(m, o + 4, 4);
  }

  /** A sample that is not converted faithfully. */
  lemma StereoDiffers(f: Format) returns (at: nat)
    requires f.Valid() && f.track <= 2 && !Faithful(f)
    ensures Values(Stereo(Mark(at), 0, f)) != Tracks(Mark(at), 0, f)
  {
    hide Number, Value, Little;
    var b, r := SampleBytes(f), f.Reach();
    at := if b < r then b else r;
    var m := Mark(at);
    LittleIsNumber(m, 0, r);
    MarkedNumber(at, 0, r);
    MarkedNumber(at, 0, b);
    MarkedNumber(at, b, b);
    ZeroWord();
    assert 0 + 0 * b == 0 && 0 + 1 * b == b;
    assert Tracks(m, 0, f)[0] == Number(m, 0, b);
    assert f.track == 2 ==> Tracks(m, 0, f)[1] == Number(m, b, b);
    var ws := Stereo(m, 0, f);
    assert Values(ws)[0] == Number(m, 0, r) && Values(ws)[1] == Value(ws[1]);
  }

  lemma ValuesSlice(ws: seq<word>, i: nat)
    requires i + 2 <= |ws|
    ensures Values(ws)[i..i + 2] == Values(ws[i..i + 2])
  {
    hide Value;
  }

  lemma FirstPair(m: Memory, k: nat, frame: nat, f: Format)
    requires k > 0 && frame > 0
    ensures |Frames(m, k, frame, f)| >= 2 && Frames(m, k, frame, f)[..2] == Stereo(m, 0, f)
  {
    hide Stereo, Frames, Convert;
    FirstFrame(m, k, frame, f);
    ConvertAt(m, 0, frame, 0, f);
    SpanZero(f);
    assert Frames(m, k, frame, f)[..2] == Convert(m, 0, frame, f)[0..2];
  }

  lemma {:induction false} RawFirst(m: Memory, from: nat, n: nat)
    requires n > 0
    ensures Raw(m, from, 2 * n)[..2] == [Little(m, from, 4), Little(m, from + 4, 4)]
  {
    hide Little;
    if n > 1 {
      RawFirst(m, from, n - 1);
      TwoRaw(m, from, n - 1);
      hide Raw;
      var ws := Raw(m, from, 2 * (n - 1));
      assert Raw(m, from, 2 * n)[..2] == ws[..2];
    } else {
      TwoRaw(m, from, 0);
    }
  }

  lemma FrameLost(n: nat, frame: nat, f: Format) returns (m: Memory)
    requires f.Converted() && 0 < frame <= n && f.track <= 2 && !Faithful(f)
    ensures Values(Output(m, n, frame, f)) != Audio(m, n, f)
  {
    hide Stereo, Tracks, Frames, Raw, Audio, FrameStart;
    Division(n, frame);
    var at := StereoDiffers(f);
    m := Mark(at);
    FirstPair(m, n / frame, frame, f);
    AudioAt(m, n, 0, f);
    SpanZero(f);
    hide Mark, Faithful, Format.Span, Values;
    var out := Output(m, n, frame, f);
    assert out[0..2] == Stereo(m, 0, f);
    ValuesSlice(out, 0);
  }

  lemma TailLost(n: nat, frame: nat, f: Format) returns (m: Memory)
    requires f.Converted() && frame > 0 && f.track <= 2 && n % frame > 0 && !WordPairs(f)
    ensures Values(Output(m, n, frame, f)) != Audio(m, n, f)
  {
    hide Tracks, Frames, Raw, Audio, FrameStart, Little;
    Division(n, frame);
    var i := FrameStart(n / frame, frame);
    var o := f.Span(i);
    var at := RawDiffers(o, f);
    m := Mark(at);
    AudioAt(m, n, i, f);
    FramesLength(m, n / frame, frame, f);
    RawFirst(m, o, n % frame);
    hide Mark, WordPairs, Format.Span, Values;
    var out, frames, raw := Output(m, n, frame, f), Frames(m, n / frame, frame, f), Raw(m, o, 2 * (n % frame));
    assert out == frames + raw && out[2 * i..2 * i + 2] == raw[..2];
    ValuesSlice(out, 2 * i);
  }

  lemma TrackLost(m: Memory, n: nat, frame: nat, f: Format)
    requires f.Converted() && frame > 0 && n > 0 && f.track > 2
    ensures Values(Output(m, n, frame, f)) != Audio(m, n, f)
  {
    hide Frames, Raw, Audio, FrameStart, Format.Span, Values;
    Division(n, frame);
    FramesLength(m, n / frame, frame, f);
    AudioLength(m, n, f);
    assert |Output(m, n, frame, f)| == 2 * n;
  }

  /** For every format, number of samples and frame size: what a call of i2s_play sends is, for all data, the value
      of every sample of every track in order if and only if the condition holds. */
  lemma AllHeardIff(n: nat, frame: nat, f: Format)
    requires f.Valid() && frame > 0
    ensures (forall m: Memory :: Heard(Output(m, n, frame, f), f) == Audio(m, n, f)) <==> AllHeard(n, frame, f)
  {
    hide Output, Audio, Values, Faithful, WordPairs;
    if AllHeard(n, frame, f) {
      forall m: Memory
        ensures Heard(Output(m, n, frame, f), f) == Audio(m, n, f)
      {
        HeardIsAudio(m, n, frame, f);
      }
    } else {
      var m := Lost(n, frame, f);
      assert Heard(Output(m, n, frame, f), f) != Audio(m, n, f);
    }
  }

  lemma Lost(n: nat, frame: nat, f: Format) returns (m: Memory)
    requires f.Valid() && frame > 0 && !AllHeard(n, frame, f)
    ensures Values(Output(m, n, frame, f)) != Audio(m, n, f)
  {
    hide Output, Audio, Values;
    Division(n, frame);
    if f.track > 2 {
      m := Mark(0);
      TrackLost(m, n, frame, f);
    } else if n < frame {
      m := TailLost(n, frame, f);
    } else if !Faithful(f) {
      m := FrameLost(n, frame, f);
    } else {
      FaithfulIsNotPairs(f);
      m := TailLost(n, frame, f);
    }
  }

  lemma FaithfulIsNotPairs(f: Format)
    requires Faithful(f)
    ensures !WordPairs(f)
  {
  }

  /** A failing input whose places are all right: four tracks of eight bits become one number. */
  lemma PackedTracks(m: Memory)
    requires m(0) == 1 && m(1) == 2 && m(2) == 3 && m(3) == 4
    ensures var f := Format(8, 4);
            && InStep(1, f) && f.Stride() == f.Width()
            && Audio(m, 1, f) == [1, 2, 3, 4] && Output(m, 1, 1, f) == [0x04030201, 0]
  {
    var f := Format(8, 4);
    OneByte(m, 0);
    OneByte(m, 1);
    OneByte(m, 2);
    OneByte(m, 3);
    PackedAudio(m);
    PackedOutput(m);
    hide Number, Audio, Output;
  }

  lemma PackedAudio(m: Memory)
    ensures Audio(m, 1, Format(8, 4)) == [Number(m, 0, 1), Number(m, 1, 1), Number(m, 2, 1), Number(m, 3, 1)]
  {
    hide Number;
    SpanZero(Format(8, 4));
    assert Audio(m, 1, Format(8, 4)) == [] + Tracks(m, 0, Format(8, 4));
  }

  lemma PackedOutput(m: Memory)
    requires m(0) == 1 && m(1) == 2 && m(2) == 3 && m(3) == 4
    ensures Output(m, 1, 1, Format(8, 4)) == [0x04030201, 0]
  {
    var f := Format(8, 4);
    SpanZero(f);
    NoFrames(1);
    assert Convert(m, 0, 1, f) == [] + Stereo(m, 0, f) == Stereo(m, 0, f);
    assert Frames(m, 1, 1, f) == [] + Convert(m, 0, 1, f) == Convert(m, 0, 1, f);
    assert Output(m, 1, 1, f) == Frames(m, 1, 1, f) + [];
  }

  lemma OneByte(m: Memory, o: nat)
    ensures Number(m, o, 1) == m(o) as nat
  {
    var s := Range(m, o, 1);
    assert s[1..] == [] && NumberOf([]) == 0;
    assert NumberOf(s) == s[0] as nat + 256 * NumberOf(s[1..]);
  }

  // ----- the raw tail -----

  /** The transfer of the last partial frame stays inside the data if and only if the eight bytes for each sample are
      no more than the samples have together with the bytes behind the last whole one. */
  lemma TailInsideIff(len: nat, frame: nat, f: Format)
    requires f.Valid() && frame > 0
    ensures f.Width() > 0
    ensures var n := SampleCount(len, f);
            f.Span(FrameStart(n / frame, frame)) + 4 * (2 * (n % frame)) <= len
            <==> 8 * (n % frame) <= f.Width() * (n % frame) + len % f.Width()
  {
    var n := SampleCount(len, f);
    Division(n, frame);
    SamplesFit(f, len);
    SpanZero(f);
    WidthPositive(f);
    var rest := len - f.Span(n);
    Remainder(len, n, f.Width(), rest);
    SpanSum(f, FrameStart(n / frame, frame), n % frame);
    assert f.Span(n % frame) == f.Width() * (n % frame);
  }

  lemma WidthPositive(f: Format)
    requires f.Valid()
    ensures f.Width() > 0
  {
  }

  lemma Remainder(len: nat, n: nat, w: nat, rest: int)
    requires w > 0 && len == n * w + rest && 0 <= rest < w
    ensures len % w == rest
  {
    SameRemainder(n, rest, len / w, len % w, w);
  }

  lemma SameRemainder(n: int, r: int, q: int, s: int, w: int)
    requires n * w + r == q * w + s && 0 <= r < w && 0 <= s < w
    ensures r == s
  {
    if n < q {
      Distributes(n, q - n, w);
      AtLeastOnce(q - n, w);
    } else if q < n {
      Distributes(q, n - q, w);
      AtLeastOnce(n - q, w);
    }
  }

  lemma AtLeastOnce(d: nat, w: nat)
    requires d > 0
    ensures d * w >= w
  {
  }
}
