/** Emulation of misaligned loads and stores in the trap handlers (lib/bsp/syscalls.c). */
module Misaligned {
  import opened Bytes
  import opened Options

  type Reg = bv5
  type Address = bv64
  type Index = i: bv64 | i < 8
  type Memory = Address -> byte

  /** The bytes that a store writes, by their place. */
  type Source = bv64 -> byte

  /** The longest access a size code can ask for. */
  const MAX_LEN: bv64 := 128

  // ----- bytes of a 64-bit value -----

  function ByteAt(x: bv64, i: Index): byte { ((x >> (8 * i)) & 0xff) as bv8 }

  function Lane(b: byte, i: Index): bv64 { (b as bv64) << (8 * i) }

  function At(addr: Address, i: bv64): Address { addr + i }

  lemma AtIsInjective(addr: Address, i: bv64, j: bv64)
    requires i < MAX_LEN && j < MAX_LEN && i != j
    ensures At(addr, i) != At(addr, j)
  {
  }

  lemma OrByte(x: bv64, y: bv64, j: Index)
    ensures ByteAt(x | y, j) == ByteAt(x, j) | ByteAt(y, j)
  {
  }

  lemma LaneByte(b: byte, i: Index, j: Index)
    ensures ByteAt(Lane(b, i), j) == if i == j then b else 0
  {
  }

  /** Or-ing a byte into a lane changes that byte only. */
  lemma OrLane(x: bv64, b: byte, i: Index, j: Index)
    ensures ByteAt(x | Lane(b, i), j) == if i == j then ByteAt(x, j) | b else ByteAt(x, j)
  {
    hide ByteAt, Lane;
    OrByte(x, Lane(b, i), j);
    LaneByte(b, i, j);
  }

  lemma BytesDetermine(x: bv64, y: bv64)
    requires forall j: Index :: ByteAt(x, j) == ByteAt(y, j)
    ensures x == y
  {
    assert ByteAt(x, 0) == ByteAt(y, 0) && ByteAt(x, 1) == ByteAt(y, 1) && ByteAt(x, 2) == ByteAt(y, 2);
    assert ByteAt(x, 3) == ByteAt(y, 3) && ByteAt(x, 4) == ByteAt(y, 4) && ByteAt(x, 5) == ByteAt(y, 5);
    assert ByteAt(x, 6) == ByteAt(y, 6) && ByteAt(x, 7) == ByteAt(y, 7);
  }

  // ----- the load loop -----

  /** The first n bytes of data are those of memory, the others are zero. */
  ghost predicate Gathered(mem: Memory, addr: Address, data: bv64, n: bv64) {
    forall j: Index :: ByteAt(data, j) == if j < n then mem(At(addr, j)) else 0
  }

  lemma NothingGathered(mem: Memory, addr: Address)
    ensures Gathered(mem, addr, 0, 0)
  {
    forall j: Index ensures ByteAt(0, j) == 0 { ZeroByte(j); }
  }

  lemma ZeroByte(j: Index)
    ensures ByteAt(0, j) == 0
  {
  }

  lemma GatherByte(mem: Memory, addr: Address, data: bv64, n: Index, j: Index)
    requires ByteAt(data, j) == if j < n then mem(At(addr, j)) else 0
    ensures ByteAt(data | Lane(mem(At(addr, n)), n), j) == if j < n + 1 then mem(At(addr, j)) else 0
  {
    hide ByteAt, Lane, At;
    OrLane(data, mem(At(addr, n)), n, j);
    Below(j, n);
  }

  lemma GatherOne(mem: Memory, addr: Address, data: bv64, n: Index)
    requires Gathered(mem, addr, data, n)
    ensures Gathered(mem, addr, data | Lane(mem(At(addr, n)), n), n + 1)
  {
    hide ByteAt, Lane, At;
    var next := data | Lane(mem(At(addr, n)), n);
    forall j: Index
      ensures ByteAt(next, j) == if j < n + 1 then mem(At(addr, j)) else 0
    {
      GatherByte(mem, addr, data, n, j);
    }
  }

  lemma Below(j: bv64, n: bv64)
    requires n < MAX_LEN
    ensures j < n + 1 <==> j < n || j == n
  {
  }

  method Gather(mem: Memory, addr: Address, len: bv64) returns (data: bv64)
    requires len <= 8
    ensures Gathered(mem, addr, data, len)
  {
    hide ByteAt, Lane, At, Gathered;
    var i: bv64 := 0;
    data := 0;
    NothingGathered(mem, addr);
    while i < len
      invariant i <= len && Gathered(mem, addr, data, i)
      decreases len - i
    {
      GatherOne(mem, addr, data, i);
      data := data | Lane(mem(At(addr, i)), i);
      i := i + 1;
    }
  }

  // ----- sign extension -----

  function SignExtend(data: bv64, len: bv64): bv64 {
    if len == 1 then
      if data & 0x80 != 0 then data | 0xffff_ffff_ffff_ff00 else data & 0xff
    else if len == 2 then
      if data & 0x8000 != 0 then data | 0xffff_ffff_ffff_0000 else data & 0xffff
    else if len == 4 then
      if data & 0x8000_0000 != 0 then data | 0xffff_ffff_0000_0000 else data & 0xffff_ffff
    else data
  }

  predicate Size(len: bv64) { len == 1 || len == 2 || len == 4 || len == 8 }

  /** The byte that fills a sign extension. */
  function Fill(top: byte): byte { if top & 0x80 != 0 then 0xff else 0 }

  lemma SignExtendBytes(data: bv64, len: bv64, j: Index)
    requires Size(len)
    ensures ByteAt(SignExtend(data, len), j) == if j < len then ByteAt(data, j) else Fill(ByteAt(data, len - 1))
  {
    if len == 1 {
      ExtendByte(data, j);
    } else if len == 2 {
      ExtendHalf(data, j);
    } else if len == 4 {
      ExtendWord(data, j);
    }
    hide ByteAt, Fill;
  }

  lemma ExtendByte(data: bv64, j: Index)
    ensures var v := if data & 0x80 != 0 then data | 0xffff_ffff_ffff_ff00 else data & 0xff;
            ByteAt(v, j) == if j < 1 then ByteAt(data, j) else Fill(ByteAt(data, 0))
  {
  }

  lemma ExtendHalf(data: bv64, j: Index)
    ensures var v := if data & 0x8000 != 0 then data | 0xffff_ffff_ffff_0000 else data & 0xffff;
            ByteAt(v, j) == if j < 2 then ByteAt(data, j) else Fill(ByteAt(data, 1))
  {
  }

  lemma ExtendWord(data: bv64, j: Index)
    ensures var v := if data & 0x8000_0000 != 0 then data | 0xffff_ffff_0000_0000 else data & 0xffff_ffff;
            ByteAt(v, j) == if j < 4 then ByteAt(data, j) else Fill(ByteAt(data, 3))
  {
  }

  /** The value a load of the architecture delivers, byte by byte. */
  ghost predicate Loaded(mem: Memory, addr: Address, len: bv64, signed: bool, v: bv64)
    requires 1 <= len <= 8
  {
    forall j: Index ::
      ByteAt(v, j) == if j < len then mem(At(addr, j)) else if signed then Fill(mem(At(addr, len - 1))) else 0
  }

  lemma GatheredIsLoaded(mem: Memory, addr: Address, data: bv64, len: bv64)
    requires Size(len) && Gathered(mem, addr, data, len)
    ensures Loaded(mem, addr, len, false, data) && Loaded(mem, addr, len, true, SignExtend(data, len))
  {
    hide ByteAt, At, Fill, SignExtend;
    assert ByteAt(data, len - 1) == mem(At(addr, len - 1));
    forall j: Index
      ensures ByteAt(SignExtend(data, len), j) == if j < len then mem(At(addr, j)) else Fill(mem(At(addr, len - 1)))
    {
      SignExtendBytes(data, len, j);
    }
  }

  lemma LoadedIsUnique(mem: Memory, addr: Address, len: bv64, signed: bool, v: bv64, w: bv64)
    requires 1 <= len <= 8 && Loaded(mem, addr, len, signed, v) && Loaded(mem, addr, len, signed, w)
    ensures v == w
  {
    hide ByteAt, At, Fill;
    BytesDetermine(v, w);
  }

  // ----- the store loop -----

  /** The register's bytes; beyond the eighth the C shift is undefined, and `beyond` stands for its result. */
  function ByteSource(data: bv64, beyond: Source): Source { i => if i < 8 then ByteAt(data, i) else beyond(i) }

  function Put(mem: Memory, at: Address, b: byte): Memory { a => if a == at then b else mem(a) }

  /** Memory after n bytes have been written one by one. */
  function Stored(before: Memory, addr: Address, source: Source, n: bv64): Memory
    decreases n
  {
    if n == 0 then before else Put(Stored(before, addr, source, n - 1), At(addr, n - 1), source(n - 1))
  }

  ghost predicate Outside(addr: Address, n: bv64, a: Address) { forall i: bv64 :: i < n ==> a != At(addr, i) }

  /** Byte i of the source is at addr + i for every i below n, and nothing else has changed. */
  ghost predicate Scattered(before: Memory, after: Memory, addr: Address, source: Source, n: bv64) {
    && (forall i: bv64 :: i < n ==> after(At(addr, i)) == source(i))
    && (forall a: Address :: Outside(addr, n, a) ==> after(a) == before(a))
  }

  lemma {:induction false} StoredInside(before: Memory, addr: Address, source: Source, n: bv64, i: bv64)
    requires i < n <= MAX_LEN
    ensures Stored(before, addr, source, n)(At(addr, i)) == source(i)
    decreases n
  {
    hide At;
    LessOrLast(i, n);
    if i != n - 1 {
      AtIsInjective(addr, i, n - 1);
      StoredInside(before, addr, source, n - 1, i);
    }
  }

  lemma LessOrLast(i: bv64, n: bv64)
    requires i < n <= MAX_LEN
    ensures n - 1 < MAX_LEN && (i < n - 1 || i == n - 1) && i < MAX_LEN
  {
  }

  lemma {:induction false} StoredOutside(before: Memory, addr: Address, source: Source, n: bv64, a: Address)
    requires n <= MAX_LEN && forall i: bv64 :: i < n ==> a != At(addr, i)
    ensures Stored(before, addr, source, n)(a) == before(a)
    decreases n
  {
    hide At;
    if n != 0 {
      StoredOutside(before, addr, source, n - 1, a);
    }
  }

  lemma StoredIsScattered(before: Memory, addr: Address, source: Source, n: bv64)
    requires n <= MAX_LEN
    ensures Scattered(before, Stored(before, addr, source, n), addr, source, n)
  {
    hide At, Stored;
    forall i: bv64 | i < n
      ensures Stored(before, addr, source, n)(At(addr, i)) == source(i)
    {
      StoredInside(before, addr, source, n, i);
    }
    forall a: Address | Outside(addr, n, a)
      ensures Stored(before, addr, source, n)(a) == before(a)
    {
      StoredOutside(before, addr, source, n, a);
    }
  }

  method Scatter(mem: Memory, addr: Address, source: Source, len: bv64) returns (after: Memory)
    requires len <= MAX_LEN
    ensures after == Stored(mem, addr, source, len) && Scattered(mem, after, addr, source, len)
  {
    hide At, Put, Scattered, Stored;
    var i: bv64 := 0;
    after := mem;
    StoredNone(mem, addr, source);
    while i < len
      invariant i <= len && after == Stored(mem, addr, source, i)
      decreases 128 - i
    {
      after := Put(after, At(addr, i), source(i));
      StoredNext(mem, addr, source, i);
      i := i + 1;
    }
    StoredIsScattered(mem, addr, source, len);
  }

  lemma StoredNone(before: Memory, addr: Address, source: Source)
    ensures Stored(before, addr, source, 0) == before
  {
  }

  lemma StoredNext(before: Memory, addr: Address, source: Source, i: bv64)
    requires i < MAX_LEN
    ensures Stored(before, addr, source, i + 1) == Put(Stored(before, addr, source, i), At(addr, i), source(i))
  {
    hide At, Put;
    assert i + 1 != 0 && i + 1 - 1 == i;
  }

  function LowBytes(data: bv64, len: bv64): bv64 {
    if len == 1 then data & 0xff
    else if len == 2 then data & 0xffff
    else if len == 4 then data & 0xffff_ffff
    else data
  }

  lemma LowBytesBytes(data: bv64, len: bv64, j: Index)
    requires Size(len)
    ensures ByteAt(LowBytes(data, len), j) == if j < len then ByteAt(data, j) else 0
  {
    if len == 1 {
      LowByte(data, j);
    } else if len == 2 {
      LowHalf(data, j);
    } else if len == 4 {
      LowWord(data, j);
    }
    hide ByteAt;
  }

  lemma LowByte(data: bv64, j: Index)
    ensures ByteAt(data & 0xff, j) == if j < 1 then ByteAt(data, j) else 0
  {
  }

  lemma LowHalf(data: bv64, j: Index)
    ensures ByteAt(data & 0xffff, j) == if j < 2 then ByteAt(data, j) else 0
  {
  }

  lemma LowWord(data: bv64, j: Index)
    ensures ByteAt(data & 0xffff_ffff, j) == if j < 4 then ByteAt(data, j) else 0
  {
  }

  lemma StoredByte(before: Memory, after: Memory, addr: Address, data: bv64, beyond: Source, len: bv64, j: Index)
    requires j < len && Scattered(before, after, addr, ByteSource(data, beyond), len)
    ensures after(At(addr, j)) == ByteAt(data, j)
  {
    hide At, ByteAt;
  }

  /** A load of what was stored delivers the low bytes of the stored value, extended. */
  lemma StoredIsLoaded(before: Memory, after: Memory, addr: Address, data: bv64, beyond: Source, len: bv64,
                       signed: bool, v: bv64)
    requires Size(len) && Scattered(before, after, addr, ByteSource(data, beyond), len)
    requires Loaded(after, addr, len, signed, v)
    ensures v == if signed then SignExtend(data, len) else LowBytes(data, len)
  {
    hide ByteAt, At, Fill, Scattered, SignExtend, LowBytes;
    var w := if signed then SignExtend(data, len) else LowBytes(data, len);
    forall j: Index
      ensures ByteAt(v, j) == ByteAt(w, j)
    {
      SignExtendBytes(data, len, j);
      LowBytesBytes(data, len, j);
      StoredByte(before, after, addr, data, beyond, len, len - 1);
      if j < len {
        StoredByte(before, after, addr, data, beyond, len, j);
      }
    }
    BytesDetermine(v, w);
  }

  // ----- instructions -----

  const LOAD: bv32 := 0x03
  const LOAD_FP: bv32 := 0x07
  const STORE: bv32 := 0x23
  const STORE_FP: bv32 := 0x27

  /** What the handlers take from an instruction: the register moved, the base register, the size and the
      offset as the driver computes it. */
  datatype Access = Access(fpu: bool, data: Reg, base: Reg, len: bv64, unsigned: bool, offset: bv64)

  function RegAt(inst: bv32, shift: bv32): Reg
    requires shift <= 27
  {
    ((inst >> shift) & 0x1f) as bv5
  }

  /** 1 << code */
  function LenOf(code: bv32): (len: bv64)
    requires code <= 7
    ensures 1 <= len <= MAX_LEN && (code <= 3 ==> Size(len))
  {
    if code == 0 then 1 else if code == 1 then 2 else if code == 2 then 4 else if code == 3 then 8
    else if code == 4 then 16 else if code == 5 then 32 else if code == 6 then 64 else 128
  }

  /** The driver's idea of a 12-bit immediate. */
  function CodeOffset(imm: bv32): bv64 {
    if imm >> 11 != 0 then 0 - (((imm & 0x3ff) + 1) as bv64) else imm as bv64
  }

  /** The architecture's: two's complement. */
  function SignExtend12(imm: bv32): bv64 {
    if imm & 0x800 != 0 then (imm as bv64) | 0xffff_ffff_ffff_f000 else imm as bv64
  }

  /** The driver's offset is the architecture's exactly for the non-negative immediates; for the others it is the
      complement of the low ten bits. */
  lemma OffsetIsSignExtension(imm: bv32)
    requires imm < 0x1000
    ensures CodeOffset(imm) == SignExtend12(imm) <==> imm < 0x800
    ensures imm >= 0x800 ==> CodeOffset(imm) == !((imm & 0x3ff) as bv64)
  {
  }

  function LoadImm(inst: bv32): bv32 { inst >> 20 }

  function StoreImm(inst: bv32): bv32 { ((inst >> 7) & 0x1f) | ((inst >> 20) & 0xfe0) }

  function DecodeLoad(inst: bv32): (r: Option<Access>)
    ensures r.Some? ==> Size(r.value.len)
  {
    var opcode := inst & 0x7f;
    if inst & 3 != 3 || (opcode != LOAD && opcode != LOAD_FP) then None
    else
      Some(Access(opcode == LOAD_FP, RegAt(inst, 7), RegAt(inst, 15), LenOf((inst >> 12) & 3),
                  (inst >> 14) & 1 != 0, CodeOffset(LoadImm(inst))))
  }

  function DecodeStore(inst: bv32): (r: Option<Access>)
    ensures r.Some? ==> r.value.len <= MAX_LEN
  {
    var opcode := inst & 0x7f;
    if inst & 3 != 3 || (opcode != STORE && opcode != STORE_FP) then None
    else
      Some(Access(opcode == STORE_FP, RegAt(inst, 20), RegAt(inst, 15), LenOf((inst >> 12) & 7), false,
                  CodeOffset(StoreImm(inst))))
  }

  // ----- the encodings of section 2.6 of the RISC-V unprivileged architecture, 20191213 -----

  function EncodeI(opcode: bv32, rd: Reg, funct3: bv32, rs1: Reg, imm: bv32): bv32 {
    (imm << 20) | ((rs1 as bv32) << 15) | (funct3 << 12) | ((rd as bv32) << 7) | opcode
  }

  function EncodeS(opcode: bv32, funct3: bv32, rs1: Reg, rs2: Reg, imm: bv32): bv32 {
    ((imm >> 5) << 25) | ((rs2 as bv32) << 20) | ((rs1 as bv32) << 15) | (funct3 << 12) | ((imm & 0x1f) << 7) | opcode
  }

  lemma DecodeInvertsLoad(opcode: bv32, rd: Reg, funct3: bv32, rs1: Reg, imm: bv32)
    requires (opcode == LOAD || opcode == LOAD_FP) && funct3 < 8 && imm < 0x1000
    ensures DecodeLoad(EncodeI(opcode, rd, funct3, rs1, imm))
         == Some(Access(opcode == LOAD_FP, rd, rs1, LenOf(funct3 & 3), funct3 & 4 != 0, CodeOffset(imm)))
  {
  }

  lemma LowBits(inst: bv32, opcode: bv32)
    requires inst & 0x7f == opcode && opcode & 3 == 3
    ensures inst & 3 == 3
  {
  }

  lemma StoreFields(opcode: bv32, funct3: bv32, rs1: Reg, rs2: Reg, imm: bv32)
    requires opcode <= 0x7f && funct3 < 8 && imm < 0x1000
    ensures var inst := EncodeS(opcode, funct3, rs1, rs2, imm);
            && inst & 0x7f == opcode && (inst >> 12) & 7 == funct3
            && RegAt(inst, 15) == rs1 && RegAt(inst, 20) == rs2
  {
  }

  lemma StoreImmediate(opcode: bv32, funct3: bv32, rs1: Reg, rs2: Reg, imm: bv32)
    requires opcode <= 0x7f && funct3 < 8 && imm < 0x1000
    ensures StoreImm(EncodeS(opcode, funct3, rs1, rs2, imm)) == imm
  {
  }

  lemma DecodeInvertsStore(opcode: bv32, funct3: bv32, rs1: Reg, rs2: Reg, imm: bv32)
    requires (opcode == STORE || opcode == STORE_FP) && funct3 <= 7 && imm < 0x1000
    ensures DecodeStore(EncodeS(opcode, funct3, rs1, rs2, imm))
         == Some(Access(opcode == STORE_FP, rs2, rs1, LenOf(funct3), false, CodeOffset(imm)))
  {
    var inst := EncodeS(opcode, funct3, rs1, rs2, imm);
    StoreFields(opcode, funct3, rs1, rs2, imm);
    StoreImmediate(opcode, funct3, rs1, rs2, imm);
    assert inst & 3 == 3 by { LowBits(inst, opcode); }
    hide EncodeS, RegAt, StoreImm, CodeOffset, LenOf;
  }

  /** How many bytes an access of Table 24.2 of the same document moves, and to what it extends them. */
  predicate Moves(a: Option<Access>, bytes: bv64, unsigned: bool, fpu: bool) {
    a.Some? && a.value.len == bytes && a.value.unsigned == unsigned && a.value.fpu == fpu
  }

  /** lb, lh, lw and ld, their unsigned forms, flw and fld, by their funct3 and opcode. */
  lemma LoadSizes(rd: Reg, rs1: Reg, imm: bv32)
    requires imm < 0x1000
    ensures Moves(DecodeLoad(EncodeI(0x03, rd, 0, rs1, imm)), 1, false, false)
    ensures Moves(DecodeLoad(EncodeI(0x03, rd, 1, rs1, imm)), 2, false, false)
    ensures Moves(DecodeLoad(EncodeI(0x03, rd, 2, rs1, imm)), 4, false, false)
    ensures Moves(DecodeLoad(EncodeI(0x03, rd, 3, rs1, imm)), 8, false, false)
    ensures Moves(DecodeLoad(EncodeI(0x03, rd, 4, rs1, imm)), 1, true, false)
    ensures Moves(DecodeLoad(EncodeI(0x03, rd, 5, rs1, imm)), 2, true, false)
    ensures Moves(DecodeLoad(EncodeI(0x03, rd, 6, rs1, imm)), 4, true, false)
    ensures Moves(DecodeLoad(EncodeI(0x07, rd, 2, rs1, imm)), 4, false, true)
    ensures Moves(DecodeLoad(EncodeI(0x07, rd, 3, rs1, imm)), 8, false, true)
  {
    hide DecodeLoad, EncodeI, CodeOffset;
    DecodeInvertsLoad(LOAD, rd, 0, rs1, imm);
    DecodeInvertsLoad(LOAD, rd, 1, rs1, imm);
    DecodeInvertsLoad(LOAD, rd, 2, rs1, imm);
    DecodeInvertsLoad(LOAD, rd, 3, rs1, imm);
    DecodeInvertsLoad(LOAD, rd, 4, rs1, imm);
    DecodeInvertsLoad(LOAD, rd, 5, rs1, imm);
    DecodeInvertsLoad(LOAD, rd, 6, rs1, imm);
    DecodeInvertsLoad(LOAD_FP, rd, 2, rs1, imm);
    DecodeInvertsLoad(LOAD_FP, rd, 3, rs1, imm);
  }

  /** sb, sh, sw and sd, fsw and fsd; and the four codes that no store has. */
  lemma StoreSizes(rs1: Reg, rs2: Reg, imm: bv32)
    requires imm < 0x1000
    ensures Moves(DecodeStore(EncodeS(0x23, 0, rs1, rs2, imm)), 1, false, false)
    ensures Moves(DecodeStore(EncodeS(0x23, 1, rs1, rs2, imm)), 2, false, false)
    ensures Moves(DecodeStore(EncodeS(0x23, 2, rs1, rs2, imm)), 4, false, false)
    ensures Moves(DecodeStore(EncodeS(0x23, 3, rs1, rs2, imm)), 8, false, false)
    ensures Moves(DecodeStore(EncodeS(0x27, 2, rs1, rs2, imm)), 4, false, true)
    ensures Moves(DecodeStore(EncodeS(0x27, 3, rs1, rs2, imm)), 8, false, true)
    ensures Moves(DecodeStore(EncodeS(0x23, 4, rs1, rs2, imm)), 16, false, false)
    ensures Moves(DecodeStore(EncodeS(0x23, 5, rs1, rs2, imm)), 32, false, false)
    ensures Moves(DecodeStore(EncodeS(0x23, 6, rs1, rs2, imm)), 64, false, false)
    ensures Moves(DecodeStore(EncodeS(0x23, 7, rs1, rs2, imm)), 128, false, false)
  {
    hide DecodeStore, EncodeS, CodeOffset;
    DecodeInvertsStore(STORE, 0, rs1, rs2, imm);
    DecodeInvertsStore(STORE, 1, rs1, rs2, imm);
    DecodeInvertsStore(STORE, 2, rs1, rs2, imm);
    DecodeInvertsStore(STORE, 3, rs1, rs2, imm);
    DecodeInvertsStore(STORE, 4, rs1, rs2, imm);
    DecodeInvertsStore(STORE, 5, rs1, rs2, imm);
    DecodeInvertsStore(STORE, 6, rs1, rs2, imm);
    DecodeInvertsStore(STORE, 7, rs1, rs2, imm);
    DecodeInvertsStore(STORE_FP, 2, rs1, rs2, imm);
    DecodeInvertsStore(STORE_FP, 3, rs1, rs2, imm);
  }

  /** Every other instruction ends in sys_exit: the handlers know exactly the two load and the two store opcodes. */
  lemma OthersExit(inst: bv32)
    ensures DecodeLoad(inst).None? <==> inst & 0x7f != 0x03 && inst & 0x7f != 0x07
    ensures DecodeStore(inst).None? <==> inst & 0x7f != 0x23 && inst & 0x7f != 0x27
  {
    var opcode := inst & 0x7f;
    if opcode == 0x03 || opcode == 0x07 || opcode == 0x23 || opcode == 0x27 {
      LowBits(inst, opcode);
    }
  }

  function Fetch(mem: Memory, pc: Address): bv32 {
    WordOf(mem(At(pc, 0)), mem(At(pc, 1)), mem(At(pc, 2)), mem(At(pc, 3)))
  }

  // ----- the handlers -----

  /** The handler returns to an address, or ends in sys_exit and never returns. */
  datatype Outcome = Resume(pc: Address) | Exit

  function Add(base: bv64, offset: bv64): Address { base + offset }

  function Target(file: Reg -> bv64, a: Access): Address { Add(file(a.base), a.offset) }

  function After(pc: Address): Address { pc + 4 }

  /** The instruction the handler returns to is made of the four bytes behind those it has emulated. */
  lemma NextInstruction(mem: Memory, pc: Address)
    ensures Fetch(mem, pc) == WordOf(mem(At(pc, 0)), mem(At(pc, 1)), mem(At(pc, 2)), mem(At(pc, 3)))
    ensures Fetch(mem, After(pc)) == WordOf(mem(At(pc, 4)), mem(At(pc, 5)), mem(At(pc, 6)), mem(At(pc, 7)))
  {
    hide WordOf, At, After;
    Further(pc, 0, 4);
    Further(pc, 1, 5);
    Further(pc, 2, 6);
    Further(pc, 3, 7);
  }

  lemma Further(pc: Address, i: bv64, j: bv64)
    requires j == 4 + i
    ensures At(After(pc), i) == At(pc, j)
  {
    hide *;
    AfterIs(pc);
    Regroup(pc, After(pc), i, j);
  }

  lemma AfterIs(pc: Address)
    ensures After(pc) == pc + 4
  {
  }

  lemma Regroup(pc: Address, after: Address, i: bv64, j: bv64)
    requires after == pc + 4 && j == 4 + i
    ensures At(after, i) == At(pc, j)
  {
  }

  class Hart {
    var regs: Reg -> bv64
    var fregs: Reg -> bv64
    var mem: Memory

    constructor (regs: Reg -> bv64, fregs: Reg -> bv64, mem: Memory)
      ensures this.regs == regs && this.fregs == fregs && this.mem == mem
    {
      this.regs, this.fregs, this.mem := regs, fregs, mem;
    }

    /** handle_misaligned_load: the destination gets the value the architecture's load delivers at the driver's
        address, no other register changes, and memory is not written. */
    method HandleLoad(epc: Address) returns (out: Outcome)
      modifies this`regs, this`fregs
      ensures match DecodeLoad(Fetch(mem, epc))
              case None => out == Exit && regs == old(regs) && fregs == old(fregs)
              case Some(a) =>
                && out == Resume(After(epc)) && Size(a.len)
                && Loaded(mem, Target(old(regs), a), a.len, !a.unsigned && !a.fpu,
                          if a.fpu then fregs(a.data) else regs(a.data))
                && (forall r: Reg :: r != a.data || a.fpu ==> regs(r) == old(regs)(r))
                && (forall r: Reg :: r != a.data || !a.fpu ==> fregs(r) == old(fregs)(r))
    {
      hide Fetch, After, Target, DecodeLoad, Loaded, Gathered, SignExtend;
      var inst := Fetch(mem, epc);
      var decoded := DecodeLoad(inst);
      if decoded.None? { return Exit; }
      var a := decoded.value;
      var addr := Target(regs, a);
      var data := Gather(mem, addr, a.len);
      GatheredIsLoaded(mem, addr, data, a.len);
      if !a.unsigned && !a.fpu { data := SignExtend(data, a.len); }
      if a.fpu {
        fregs := Write(fregs, a.data, data);
      } else {
        regs := Write(regs, a.data, data);
      }
      return Resume(After(epc));
    }

    /** handle_misaligned_store: exactly the addressed bytes change. */
    method HandleStore(epc: Address, beyond: Source) returns (out: Outcome)
      modifies this`mem
      ensures match DecodeStore(Fetch(old(mem), epc))
              case None => out == Exit && mem == old(mem)
              case Some(a) =>
                && out == Resume(After(epc))
                && Scattered(old(mem), mem, Target(regs, a),
                             ByteSource(if a.fpu then fregs(a.data) else regs(a.data), beyond), a.len)
    {
      hide Fetch, After, Target, DecodeStore, Scattered, ByteSource;
      var inst := Fetch(mem, epc);
      var decoded := DecodeStore(inst);
      if decoded.None? { return Exit; }
      var a := decoded.value;
      var data := if a.fpu then fregs(a.data) else regs(a.data);
      mem := Scatter(mem, Target(regs, a), ByteSource(data, beyond), a.len);
      return Resume(After(epc));
    }
  }

  function Write(file: Reg -> bv64, at: Reg, v: bv64): Reg -> bv64 { r => if r == at then v else file(r) }

  // ----- both handlers together -----

  /** Memory outside the store is as it was, in particular the next instruction. */
  lemma FetchUnchanged(before: Memory, after: Memory, addr: Address, source: Source, len: bv64, pc: Address)
    requires Scattered(before, after, addr, source, len)
    requires forall k: Index :: k < 4 ==> Outside(addr, len, At(pc, k))
    ensures Fetch(after, pc) == Fetch(before, pc)
  {
    hide WordOf, Outside, At;
    assert after(At(pc, 0)) == before(At(pc, 0)) && after(At(pc, 1)) == before(At(pc, 1));
    assert after(At(pc, 2)) == before(At(pc, 2)) && after(At(pc, 3)) == before(At(pc, 3));
  }

  /** Storing rs2 and loading it back through the same base register and immediate, of either sign, gives its
      low bytes, sign- or zero-extended, provided the store does not overwrite the load instruction. */
  method StoreThenLoad(hart: Hart, store: Address, load: Address, size: bv32, unsigned: bool,
                       rs1: Reg, rs2: Reg, rd: Reg, imm: bv32, beyond: Source)
    requires size <= 3 && imm < 0x1000
    requires Fetch(hart.mem, store) == EncodeS(STORE, size, rs1, rs2, imm)
    requires Fetch(hart.mem, load) == EncodeI(LOAD, rd, if unsigned then size | 4 else size, rs1, imm)
    requires forall k: Index :: k < 4 ==> Outside(Add(hart.regs(rs1), CodeOffset(imm)), LenOf(size), At(load, k))
    modifies hart
    ensures var v := old(hart.regs)(rs2);
            hart.regs(rd) == if unsigned then LowBytes(v, LenOf(size)) else SignExtend(v, LenOf(size))
    ensures forall r: Reg :: r != rd ==> hart.regs(r) == old(hart.regs)(r)
  {
    hide Fetch, EncodeS, EncodeI, After, Add, DecodeStore, DecodeLoad, ByteSource, Scattered, Loaded, CodeOffset, LenOf;
    hide SignExtend, LowBytes, Outside, At;
    var funct3 := if unsigned then size | 4 else size;
    SizeBits(size, unsigned, funct3);
    ghost var before, len, v := hart.mem, LenOf(size), hart.regs(rs2);
    ghost var a := Access(false, rd, rs1, len, unsigned, CodeOffset(imm));
    ghost var addr := Target(hart.regs, a);
    DecodeInvertsStore(STORE, size, rs1, rs2, imm);
    DecodeInvertsLoad(LOAD, rd, funct3, rs1, imm);
    var out := hart.HandleStore(store, beyond);
    FetchUnchanged(before, hart.mem, addr, ByteSource(v, beyond), len, load);
    out := hart.HandleLoad(load);
    StoredIsLoaded(before, hart.mem, addr, v, beyond, len, !unsigned, hart.regs(rd));
  }

  lemma SizeBits(size: bv32, unsigned: bool, funct3: bv32)
    requires size <= 3 && funct3 == if unsigned then size | 4 else size
    ensures funct3 < 8 && funct3 & 3 == size && (funct3 & 4 != 0 <==> unsigned)
  {
  }
}
