/** Little-endian words over byte buffers, as the drivers reinterpret them for the accelerators' FIFOs. */
module Bytes {

  type byte = bv8
  type word = bv32

  function WordOf(b0: byte, b1: byte, b2: byte, b3: byte): word {
    (b0 as bv32) | ((b1 as bv32) << 8) | ((b2 as bv32) << 16) | ((b3 as bv32) << 24)
  }

  /** A word as it lies in memory, least significant byte first. */
  function BytesOf(w: word): (s: seq<byte>)
    ensures |s| == 4
  {
    [(w & 0xff) as bv8, ((w >> 8) & 0xff) as bv8, ((w >> 16) & 0xff) as bv8, (w >> 24) as bv8]
  }

  /** Storing a word and loading it again gives the word. */
  lemma LoadAfterStore(w: word)
    ensures var s := BytesOf(w); WordOf(s[0], s[1], s[2], s[3]) == w
  {
    var s := BytesOf(w);
    assert s[0] as bv32 == w & 0xff;
    assert s[1] as bv32 == (w >> 8) & 0xff;
    assert s[2] as bv32 == (w >> 16) & 0xff;
    assert s[3] as bv32 == w >> 24;
  }

  /** Loading four bytes and storing the word gives the bytes. */
  lemma StoreAfterLoad(b0: byte, b1: byte, b2: byte, b3: byte)
    ensures BytesOf(WordOf(b0, b1, b2, b3)) == [b0, b1, b2, b3]
  {
  }

  predicate Aligned(bytes: seq<byte>) { |bytes| % 4 == 0 }

  lemma AlignedConcat(a: seq<byte>, b: seq<byte>)
    requires Aligned(a) && Aligned(b)
    ensures Aligned(a + b)
  {
  }

  /** The words of a buffer whose length is a multiple of four. */
  function Words(bytes: seq<byte>): (ws: seq<word>)
    requires Aligned(bytes)
    ensures 4 * |ws| == |bytes|
  {
    if bytes == [] then []
    else
      var n := |bytes| - 4;
      Words(bytes[..n]) + [WordOf(bytes[n], bytes[n + 1], bytes[n + 2], bytes[n + 3])]
  }

  lemma Append<T>(a: seq<T>, b: seq<T>, c: seq<T>)
    ensures a + (b + c) == (a + b) + c
  {
  }

  /** The word that four more bytes make. */
  lemma WordsPush(a: seq<byte>, q: seq<byte>)
    requires Aligned(a) && |q| == 4
    ensures Aligned(a + q) && Words(a + q) == Words(a) + [WordOf(q[0], q[1], q[2], q[3])]
  {
    hide WordOf;
    assert (a + q)[..|a|] == a;
  }

  lemma {:induction false} WordsConcat(a: seq<byte>, b: seq<byte>)
    requires Aligned(a) && Aligned(b)
    ensures Aligned(a + b) && Words(a + b) == Words(a) + Words(b)
  {
    hide WordOf, Words;
    if b == [] {
      assert a + b == a && Words(b) == [] && Words(a) + Words(b) == Words(a);
    } else {
      var n := |b| - 4;
      var front, q := b[..n], b[n..];
      WordsConcat(a, front);
      WordsPush(front, q);
      WordsPush(a + front, q);
      assert b == front + q;
      Append(a, front, q);
      Append(Words(a), Words(front), [WordOf(q[0], q[1], q[2], q[3])]);
    }
  }

  /** One more word at the end. */
  lemma WordsSnoc(bytes: seq<byte>, i: nat)
    requires 4 * i + 4 <= |bytes|
    ensures Words(bytes[..4 * (i + 1)])
         == Words(bytes[..4 * i]) + [WordOf(bytes[4 * i], bytes[4 * i + 1], bytes[4 * i + 2], bytes[4 * i + 3])]
  {
    hide WordOf;
    assert bytes[..4 * (i + 1)][..4 * i] == bytes[..4 * i];
  }

  function Zeros(n: nat): (s: seq<byte>)
    ensures |s| == n && forall i :: 0 <= i < n ==> s[i] == 0
  {
    seq(n, _ => 0 as bv8)
  }

  /** A word stored at an aligned or unaligned place of a byte buffer. */
  method StoreWord(a: array<byte>, at: nat, w: word)
    requires at + 4 <= a.Length
    modifies a
    ensures a[..at + 4] == old(a[..at]) + BytesOf(w)
    ensures a[at + 4..] == old(a[at + 4..])
  {
    ghost var before := a[..];
    a[at], a[at + 1], a[at + 2], a[at + 3] :=
      (w & 0xff) as bv8, ((w >> 8) & 0xff) as bv8, ((w >> 16) & 0xff) as bv8, (w >> 24) as bv8;
    assert a[..at] == before[..at];
  }
}
