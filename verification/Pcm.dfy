/** The PCM formats and their conversion into transmitter words, as functions of memory (lib/drivers/i2s.c). */
module Pcm {
  import opened Bytes

  // ----- the sample format -----

  /** Bits of a sample and number of tracks. */
  datatype Format = Format(bits: nat, track: nat) {

    /** The driver divides by both. */
    predicate Valid() { bits >= 8 && track >= 1 }

    /** The formats whose bytes are already the words the transmitter wants. */
    predicate Direct() { (bits == 16 || bits == 32) && track == 2 }

    predicate Converted() { Valid() && !Direct() }

    /** The bytes of one sample of all tracks, as the driver counts them. */
    function Width(): nat { bits / 8 * track }

    /** The bytes of n of them. */
    function Span(n: nat): nat { n * Width() }

    /** The bytes of one number, as the conversion reads them: four but for 16 and 24 bits. */
    function Reach(): nat { if bits == 16 then 2 else if bits == 24 then 3 else 4 }

    predicate Paired() { bits == 24 && track == 2 }

    /** The bytes after which the conversion expects the next sample. */
    function Stride(): nat { if Paired() then 6 else Reach() }

    function Skip(n: nat): nat { n * Stride() }
  }

  lemma SpanIsProduct(f: Format, n: nat)
    ensures f.Span(n) == n * (f.bits / 8) * f.track
  {
  }

  lemma Distributes(m: int, n: int, w: int)
    ensures (m + n) * w == m * w + n * w
  {
  }

  lemma SpanSum(f: Format, m: nat, n: nat)
    ensures f.Span(m + n) == f.Span(m) + f.Span(n)
  {
    Distributes(m, n, f.Width());
  }

  /** The number of whole samples in the caller's buffer. */
  function SampleCount(len: nat, f: Format): nat
    requires f.Valid()
  {
    len / (f.bits / 8) / f.track
  }

  lemma Quotients(len: nat, b: nat, t: nat)
    requires b > 0 && t > 0
    ensures len / b / t * (b * t) <= len < len / b / t * (b * t) + b * t
  {
    var q := len / b;
    var c := q / t;
    var r := q - c * t;
    assert 0 <= r < t;
    assert q * b <= len < q * b + b;
    assert q * b == c * (b * t) + r * b;
    assert 0 <= r * b <= (t - 1) * b == b * t - b;
  }

  /** The counted samples lie in the buffer, and one more would not. */
  lemma SamplesFit(f: Format, len: nat)
    requires f.Valid()
    ensures f.Span(SampleCount(len, f)) <= len < f.Span(SampleCount(len, f)) + f.Span(1)
  {
    Quotients(len, f.bits / 8, f.track);
  }

  // ----- conversion as a function of memory -----

  /** The bytes from the start of the caller's buffer on. */
  type Memory = nat -> byte

  function MemoryOf(pcm: seq<byte>, beyond: Memory): Memory {
    (k: nat) => if k < |pcm| then pcm[k] else beyond(k)
  }

  /** The little-endian number in the n bytes at o. */
  function Little(m: Memory, o: nat, n: nat): word {
    WordOf(m(o), m(o + 1), if n > 2 then m(o + 2) else 0, if n > 3 then m(o + 3) else 0)
  }

  /** The two words of the sample at byte o: all but the 24-bit stereo samples go to the left channel. */
  function Stereo(m: Memory, o: nat, f: Format): (ws: seq<word>)
    ensures |ws| == 2
  {
    [Little(m, o, f.Reach()), if f.Paired() then Little(m, o + 3, 3) else 0]
  }

  /** What the conversion makes of n samples that it expects one behind the other from byte `from` on. */
  function Convert(m: Memory, from: nat, n: nat, f: Format): (ws: seq<word>)
    ensures |ws| == 2 * n
  {
    if n == 0 then [] else Convert(m, from, n - 1, f) + Stereo(m, from + f.Skip(n - 1), f)
  }

  /** Frame k starts at sample k * frame. */
  function FrameStart(k: nat, frame: nat): nat { k * frame }

  /** The converted frames: each is converted from where the driver says that its first sample is. */
  function Frames(m: Memory, k: nat, frame: nat, f: Format): seq<word> {
    if k == 0 then [] else Frames(m, k - 1, frame, f) + Convert(m, f.Span(FrameStart(k - 1, frame)), frame, f)
  }

  /** The first n samples, each converted from its own place. */
  function Samples(m: Memory, n: nat, f: Format): (ws: seq<word>)
    ensures |ws| == 2 * n
  {
    if n == 0 then [] else Samples(m, n - 1, f) + Stereo(m, f.Span(n - 1), f)
  }

  /** The conversion finds the place of every sample: its step is the width of a sample, or it never takes a step. */
  predicate InStep(frame: nat, f: Format) { frame <= 1 || f.Stride() == f.Width() }

  lemma FrameStep(k: nat, frame: nat)
    ensures FrameStart(k + 1, frame) == FrameStart(k, frame) + frame
  {
    Distributes(k, 1, frame);
  }

  lemma FrameOrder(i: nat, n: nat, frame: nat)
    requires i <= n
    ensures FrameStart(i, frame) <= FrameStart(n, frame)
  {
    Distributes(i, n - i, frame);
    assert (n - i) * frame >= 0;
  }

  lemma SkipIsSpan(f: Format, n: nat, frame: nat)
    requires InStep(frame, f) && n < frame
    ensures f.Skip(n) == f.Span(n)
  {
  }

  lemma {:induction false} SamplesThenConvert(m: Memory, s: nat, n: nat, frame: nat, f: Format)
    requires InStep(frame, f) && n <= frame
    ensures Samples(m, s + n, f) == Samples(m, s, f) + Convert(m, f.Span(s), n, f)
  {
    hide Stereo, InStep, Format.Span, Format.Skip;
    if n == 0 {
      assert Samples(m, s, f) + [] == Samples(m, s, f);
    } else {
      SkipIsSpan(f, n - 1, frame);
      SpanSum(f, s, n - 1);
      SamplesThenConvert(m, s, n - 1, frame, f);
      Append(Samples(m, s, f), Convert(m, f.Span(s), n - 1, f), Stereo(m, f.Span(s) + f.Skip(n - 1), f));
    }
  }

  /** In step, the frames are the samples. */
  lemma {:induction false} FramesAreSamples(m: Memory, k: nat, frame: nat, f: Format)
    requires InStep(frame, f)
    ensures Frames(m, k, frame, f) == Samples(m, FrameStart(k, frame), f)
  {
    hide InStep, Format.Span, Convert, FrameStart;
    if k == 0 {
      NoFrames(frame);
    } else {
      FramesAreSamples(m, k - 1, frame, f);
      FrameStep(k - 1, frame);
      SamplesThenConvert(m, FrameStart(k - 1, frame), frame, frame, f);
    }
  }

  lemma NoFrames(frame: nat)
    ensures FrameStart(0, frame) == 0
  {
  }

  lemma {:induction false} ConvertAt(m: Memory, from: nat, n: nat, i: nat, f: Format)
    requires i < n
    ensures Convert(m, from, n, f)[2 * i..2 * i + 2] == Stereo(m, from + f.Skip(i), f)
  {
    hide Stereo, Format.Skip;
    if i < n - 1 {
      ConvertAt(m, from, n - 1, i, f);
    }
  }

  lemma {:induction false} SamplesAt(m: Memory, n: nat, i: nat, f: Format)
    requires i < n
    ensures Samples(m, n, f)[2 * i..2 * i + 2] == Stereo(m, f.Span(i), f)
  {
    hide Stereo, Format.Span;
    if i < n - 1 {
      SamplesAt(m, n - 1, i, f);
    }
  }

  lemma {:induction false} FirstFrame(m: Memory, k: nat, frame: nat, f: Format)
    requires k > 0
    ensures Convert(m, 0, frame, f) <= Frames(m, k, frame, f)
  {
    hide Convert, Format.Span, FrameStart;
    if k == 1 {
      NoFrames(frame);
      SpanZero(f);
      assert [] + Convert(m, 0, frame, f) == Convert(m, 0, frame, f);
    } else {
      FirstFrame(m, k - 1, frame, f);
    }
  }

  lemma SpanZero(f: Format)
    ensures f.Span(0) == 0 == f.Skip(0) && f.Span(1) == f.Width() && f.Skip(1) == f.Stride()
  {
  }

  /** All bytes 0 but one. */
  function Mark(at: nat): Memory { (k: nat) => if k == at then 1 else 0 }

  lemma LittleBytes(m: Memory, o: nat, n: nat)
    ensures BytesOf(Little(m, o, n)) == [m(o), m(o + 1), if n > 2 then m(o + 2) else 0, if n > 3 then m(o + 3) else 0]
  {
    hide WordOf, BytesOf;
    StoreAfterLoad(m(o), m(o + 1), if n > 2 then m(o + 2) else 0, if n > 3 then m(o + 3) else 0);
  }

  lemma LowByte(m: Memory, o: nat, p: nat, f: Format)
    requires m(o) != m(p)
    ensures Stereo(m, o, f) != Stereo(m, p, f)
  {
    hide BytesOf;
    LittleBytes(m, o, f.Reach());
    LittleBytes(m, p, f.Reach());
    hide Little;
    assert Stereo(m, o, f)[0] == Little(m, o, f.Reach()) && Stereo(m, p, f)[0] == Little(m, p, f.Reach());
  }

  /** Out of step, the second sample is already wrong. */
  lemma OutOfStep(k: nat, frame: nat, f: Format)
    requires k > 0 && !InStep(frame, f)
    ensures Frames(Mark(f.Width()), k, frame, f) != Samples(Mark(f.Width()), FrameStart(k, frame), f)
  {
    var m, n := Mark(f.Width()), FrameStart(k, frame);
    SpanZero(f);
    FirstFrame(m, k, frame, f);
    ConvertAt(m, 0, frame, 1, f);
    AtLeastFrame(k, frame);
    SamplesAt(m, n, 1, f);
    LowByte(m, f.Stride(), f.Width(), f);
    hide Frames, Convert, Stereo, Samples;
    var converted := Convert(m, 0, frame, f);
    assert Frames(m, k, frame, f)[2..4] == converted[2..4];
  }

  lemma AtLeastFrame(k: nat, frame: nat)
    requires k > 0
    ensures FrameStart(k, frame) >= frame
  {
    assert (k - 1) * frame >= 0;
    Distributes(k - 1, 1, frame);
  }

  /** Whatever the data, the frames are made of the bytes at the samples' own places exactly if the conversion is in
      step.  Whether that gives the samples' values is another question. */
  lemma FramesAreSamplesIff(k: nat, frame: nat, f: Format)
    ensures (forall m: Memory :: Frames(m, k, frame, f) == Samples(m, FrameStart(k, frame), f))
       <==> k == 0 || InStep(frame, f)
  {
    hide Samples, InStep, FrameStart;
    if k == 0 {
      NoFrames(frame);
      forall m: Memory
        ensures Frames(m, k, frame, f) == Samples(m, FrameStart(k, frame), f)
      {
        NoSamples(m, f);
      }
    } else if InStep(frame, f) {
      hide Frames;
      forall m: Memory
        ensures Frames(m, k, frame, f) == Samples(m, FrameStart(k, frame), f)
      {
        FramesAreSamples(m, k, frame, f);
      }
    } else {
      OutOfStep(k, frame, f);
    }
  }

  lemma NoSamples(m: Memory, f: Format)
    ensures Samples(m, 0, f) == []
  {
  }

  // ----- where the conversion reads -----

  predicate Agree(m: Memory, n: Memory, end: nat) { forall k: nat :: k < end ==> m(k) == n(k) }

  lemma StereoAgree(m: Memory, n: Memory, o: nat, f: Format, end: nat)
    requires Agree(m, n, end) && o + f.Stride() <= end
    ensures Stereo(m, o, f) == Stereo(n, o, f)
  {
    hide WordOf;
  }

  lemma {:induction false} ConvertAgree(m: Memory, n: Memory, from: nat, count: nat, f: Format, end: nat)
    requires Agree(m, n, end) && from + f.Skip(count) <= end
    ensures Convert(m, from, count, f) == Convert(n, from, count, f)
  {
    hide Agree, Stereo, Format.Stride;
    if count > 0 {
      Distributes(count - 1, 1, f.Stride());
      hide Format.Skip;
      ConvertAgree(m, n, from, count - 1, f, end);
      StereoAgree(m, n, from + f.Skip(count - 1), f, end);
    }
  }

  lemma FrameEnds(k: nat, frame: nat, f: Format)
    requires f.Stride() <= f.Width()
    ensures f.Span(FrameStart(k, frame)) + f.Skip(frame) <= f.Span(FrameStart(k + 1, frame))
  {
    FrameStep(k, frame);
    hide FrameStart;
    SpanSum(f, FrameStart(k, frame), frame);
  }

  lemma {:induction false} FramesStayInside(m: Memory, n: Memory, k: nat, frame: nat, f: Format, end: nat)
    requires Agree(m, n, end) && f.Stride() <= f.Width() && f.Span(FrameStart(k, frame)) <= end
    ensures Frames(m, k, frame, f) == Frames(n, k, frame, f)
  {
    hide Agree, Convert, FrameStart, Format.Span, Format.Skip;
    if k > 0 {
      FrameEnds(k - 1, frame, f);
      FramesStayInside(m, n, k - 1, frame, f, end);
      ConvertAgree(m, n, f.Span(FrameStart(k - 1, frame)), frame, f, end);
    }
  }

  lemma LastByte(o: nat, f: Format)
    requires f.Stride() > f.Width()
    requires f.Valid()
    ensures f.Stride() == 4 && Stereo(Mark(o + 3), o, f) != Stereo(Mark(o + 3 + 1), o, f)
  {
    var m, n := Mark(o + 3), Mark(o + 3 + 1);
    NarrowIsFour(f);
    hide BytesOf;
    LittleBytes(m, o, 4);
    LittleBytes(n, o, 4);
    assert BytesOf(Little(m, o, 4))[3] == 1 && BytesOf(Little(n, o, 4))[3] == 0;
    hide Little;
    assert Stereo(m, o, f)[0] == Little(m, o, 4) && Stereo(n, o, f)[0] == Little(n, o, 4);
  }

  lemma NarrowIsFour(f: Format)
    requires f.Stride() > f.Width() && f.Valid()
    ensures f.Stride() == f.Reach() == 4
  {
    if f.bits == 16 || f.bits == 24 {
      assert f.track >= 1;
    }
  }

  lemma Beyond(start: nat, frame: nat, f: Format)
    requires f.Stride() > f.Width() && frame > 0
    ensures f.Span(start + frame) < f.Span(start) + f.Skip(frame - 1) + f.Stride()
  {
    SpanSum(f, start, frame);
    Distributes(frame - 1, 1, f.Stride());
    assert frame * (f.Stride() - f.Width()) >= 1;
  }

  /** The last number of a frame of narrow samples takes in the byte behind the frame. */
  lemma ReadsBeyond(k: nat, frame: nat, f: Format)
    requires k > 0 && frame > 0 && f.Valid() && f.Stride() > f.Width()
    ensures exists m, n ::
      Agree(m, n, f.Span(FrameStart(k, frame))) && Frames(m, k, frame, f) != Frames(n, k, frame, f)
  {
    var start := FrameStart(k - 1, frame);
    var o := f.Span(start) + f.Skip(frame - 1);
    LastByte(o, f);
    Beyond(start, frame, f);
    FrameStep(k - 1, frame);
    hide *;
    MarksAgree(o + 3, f.Span(FrameStart(k, frame)));
    LastPair(Mark(o + 3), k, frame, f);
    LastPair(Mark(o + 3 + 1), k, frame, f);
  }

  lemma MarksAgree(at: nat, end: nat)
    requires end <= at
    ensures Agree(Mark(at), Mark(at + 1), end)
  {
  }

  lemma LastPair(m: Memory, k: nat, frame: nat, f: Format)
    requires k > 0 && frame > 0
    ensures |Frames(m, k, frame, f)| >= 2
    ensures var ws := Frames(m, k, frame, f);
            ws[|ws| - 2..] == Stereo(m, f.Span(FrameStart(k - 1, frame)) + f.Skip(frame - 1), f)
  {
    hide Stereo, FrameStart, Format.Span, Format.Skip;
    var converted := Convert(m, f.Span(FrameStart(k - 1, frame)), frame, f);
    assert converted[2 * frame - 2..] == Stereo(m, f.Span(FrameStart(k - 1, frame)) + f.Skip(frame - 1), f);
    hide Convert;
    assert Frames(m, k, frame, f) == Frames(m, k - 1, frame, f) + converted;
  }

  /** What is heard depends on the frames' own bytes alone exactly if the samples are not narrower than the
      numbers the conversion reads. */
  lemma FramesStayInsideIff(k: nat, frame: nat, f: Format)
    requires frame > 0 && f.Valid()
    ensures (forall m: Memory, n: Memory ::
               Agree(m, n, f.Span(FrameStart(k, frame))) ==> Frames(m, k, frame, f) == Frames(n, k, frame, f))
       <==> k == 0 || f.Stride() <= f.Width()
  {
    hide Agree, FrameStart, Format.Span;
    if k > 0 && f.Stride() <= f.Width() {
      hide Frames;
      forall m: Memory, n: Memory | Agree(m, n, f.Span(FrameStart(k, frame)))
        ensures Frames(m, k, frame, f) == Frames(n, k, frame, f)
      {
        FramesStayInside(m, n, k, frame, f, f.Span(FrameStart(k, frame)));
      }
    } else if k > 0 {
      hide Frames;
      ReadsBeyond(k, frame, f);
    }
  }
}
