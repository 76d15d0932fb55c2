/** The words of the layer FIFO one by one (lib/drivers/kpu.c). */
module KpuWords {
  import opened Kpu
  import opened KpuStream

  /** The twelve words of a layer. */
  function Words(fifo: seq<bv64>, j: nat): (ws: seq<bv64>)
    requires 12 * j + 12 <= |fifo|
    ensures |ws| == 12 && forall k :: 0 <= k < 12 ==> ws[k] == fifo[12 * j + k]
  {
    fifo[12 * j..12 * j + 12]
  }

  /** Ten of them are the caller's registers; the other two carry flags. */
  predicate Between(ws: seq<bv64>, l: Layer)
    requires |ws| == 12
  {
    && ws[1] == l.imageAddr && ws[2] == l.imageChannelNum && ws[3] == l.imageSize && ws[4] == l.kernelPoolTypeCfg
    && ws[5] == l.kernelLoadCfg && ws[6] == l.kernelOffset && ws[7] == l.kernelCalcTypeCfg
    && ws[8] == l.writeBackCfg && ws[9] == l.convValue && ws[10] == l.convValue2
  }

  /** A layer that is passed on: its interrupt and its DMA parameter are the caller's too. */
  predicate IsLayer(ws: seq<bv64>, l: Layer)
    requires |ws| == 12
  {
    Between(ws, l) && ws[0] == l.interruptEnable && ws[11] == l.dmaParameter
  }

  /** The caller's register with the flag in bit 0 set and the other bits as they were. */
  predicate Flagged(w: bv64, register: bv64) { w & 1 == 1 && w >> 1 == register >> 1 }

  /** The last layer: it raises the interrupt and sends its output. */
  predicate IsLastLayer(ws: seq<bv64>, l: Layer)
    requires |ws| == 12
  {
    Between(ws, l) && Flagged(ws[0], l.interruptEnable) && Flagged(ws[11], l.dmaParameter)
  }

  lemma {:induction false} WordsOf(layers: seq<Layer>, j: nat)
    requires j < |layers|
    ensures Words(EncodeAll(layers), j) == Encode(layers[j])
  {
    hide Encode;
    var n := |layers| - 1;
    var before := EncodeAll(layers[..n]);
    assert EncodeAll(layers) == before + Encode(layers[n]);
    if j < n {
      WordsOf(layers[..n], j);
      assert Words(EncodeAll(layers), j) == Words(before, j);
    }
  }

  lemma EncodedIsLayer(l: Layer)
    ensures IsLayer(Encode(l), l)
  {
    hide Flagged;
    var ws := Encode(l);
    assert ws[..4] == [l.interruptEnable, l.imageAddr, l.imageChannelNum, l.imageSize];
    assert ws[4..8] == [l.kernelPoolTypeCfg, l.kernelLoadCfg, l.kernelOffset, l.kernelCalcTypeCfg];
    assert ws[8..] == [l.writeBackCfg, l.convValue, l.convValue2, l.dmaParameter];
    hide Encode;
  }

  lemma MarkedFlags(l: Layer)
    ensures Flagged(Marked(l).interruptEnable, l.interruptEnable)
    ensures Flagged(Marked(l).dmaParameter, l.dmaParameter)
  {
  }

  lemma MarkedOnly(l: Layer)
    ensures var m := Marked(l);
            m == l.(dmaParameter := m.dmaParameter, interruptEnable := m.interruptEnable)
  {
  }

  lemma FlagsOnly(ws: seq<bv64>, l: Layer, interruptEnable: bv64, dmaParameter: bv64)
    requires Flagged(interruptEnable, l.interruptEnable) && Flagged(dmaParameter, l.dmaParameter)
    requires |ws| == 12 && IsLayer(ws, l.(dmaParameter := dmaParameter, interruptEnable := interruptEnable))
    ensures IsLastLayer(ws, l)
  {
    hide Flagged;
  }

  lemma MarkedIsLast(ws: seq<bv64>, l: Layer)
    requires |ws| == 12 && IsLayer(ws, Marked(l))
    ensures IsLastLayer(ws, l)
  {
    hide *;
    MarkedFlags(l);
    MarkedOnly(l);
    FlagsOnly(ws, l, Marked(l).interruptEnable, Marked(l).dmaParameter);
  }

  /** Word 12j + k of a prepared task is register k of its layer j, but for the flags of the last. */
  lemma WordsOfTask(image: seq<Layer>, n: nat, j: nat)
    requires j < n <= |image|
    ensures var ws := Words(EncodeAll(Prepared(image)[..n]), j);
            if j < |image| - 1 then IsLayer(ws, image[j]) else IsLastLayer(ws, image[j])
  {
    hide EncodeAll, Encode, Marked, IsLayer, IsLastLayer, Words;
    var sent := Prepared(image)[..n];
    WordsOf(sent, j);
    EncodedIsLayer(sent[j]);
    if j == |image| - 1 {
      MarkedIsLast(Encode(sent[j]), image[j]);
    }
  }

  /** When no call of kpu_continue is under way in an undisturbed run, the FIFO has received twelve words for every
      call since the remaining layers were set, up to the length of the task: the registers of the caller's layers
      one by one, and on the last the flags for the interrupt and for the output. */
  lemma FifoWords(mem: Memory, events: seq<Event>, j: nat)
    requires Inv(Init(mem)) && Undisturbed(mem, events)
    requires var s := Run(Init(mem), events);
             && s.runs.accepted != [] && !Unarmed(s.stage) && !Calling(s)
             && j < Min(s.stream.calls, |s.stream.image|)
    ensures var stream := Run(Init(mem), events).stream;
            && |stream.fifo| == 12 * Min(stream.calls, |stream.image|) && 12 * j + 12 <= |stream.fifo|
            && var ws := Words(stream.fifo, j);
               if j < |stream.image| - 1 then IsLayer(ws, stream.image[j]) else IsLastLayer(ws, stream.image[j])
  {
    hide *;
    LayersInOrder(mem, events);
    FifoIsEncoded(mem, events);
    var s := Run(Init(mem), events);
    var n := Min(s.stream.calls, |s.stream.image|);
    MinBounds(s.stream.calls, |s.stream.image|);
    WordsOfTask(s.stream.image, n, j);
  }

  lemma MinBounds(a: nat, b: nat)
    ensures Min(a, b) <= a && Min(a, b) <= b
  {
  }

  lemma FifoIsEncoded(mem: Memory, events: seq<Event>)
    requires Inv(Init(mem)) && AlwaysRight(mem, events)
    requires var s := Run(Init(mem), events); s.runs.accepted != [] && !Unarmed(s.stage) && !Calling(s)
    ensures var stream := Run(Init(mem), events).stream;
            && stream.image != []
            && stream.fifo == EncodeAll(Prepared(stream.image)[..Min(stream.calls, |stream.image|)])
  {
    hide Run, Inv, Calling, Unarmed, EncodeAll, Prepared, Init;
  }
}
