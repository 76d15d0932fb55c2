/** What the emulation of misaligned integer accesses means for the program that was interrupted: the saved
    frame (lib/bsp/crt.S), the handlers (lib/bsp/syscalls.c) and the RISC-V unprivileged architecture. */
module TrapFrame {
  import opened Bytes
  import opened Misaligned

  /** The architectural registers of the interrupted program; x0 reads as zero. */
  ghost predicate Architectural(arch: Reg -> bv64) { arch(0) == 0 }

  /** The frame holds 64 words and is pushed before the registers are saved. */
  const FRAME: bv64 := 512

  /** What the saved slot of a register holds: x2, the stack pointer, is saved after it was moved. */
  function Slot(arch: Reg -> bv64, r: Reg): bv64 { if r == 2 then Lowered(arch(2)) else arch(r) }

  function Lowered(sp: bv64): bv64 { sp - FRAME }

  /** A frame as trap_entry leaves it and as the return path expects it.  Slot 0 is neither written nor read
      back, so it may hold anything. */
  ghost predicate Represents(file: Reg -> bv64, arch: Reg -> bv64) {
    Architectural(arch) && forall r: Reg :: r != 0 ==> file(r) == Slot(arch, r)
  }

  // ----- loads -----

  function Collected(mem: Memory, addr: Address, n: bv64): bv64
    requires n <= 8
    decreases n
  {
    if n == 0 then 0 else Collected(mem, addr, n - 1) | Lane(mem(At(addr, n - 1)), n - 1)
  }

  lemma {:induction false} CollectedIsGathered(mem: Memory, addr: Address, n: bv64)
    requires n <= 8
    ensures Gathered(mem, addr, Collected(mem, addr, n), n)
    decreases n
  {
    hide Gathered, Lane, At;
    if n == 0 {
      NothingGathered(mem, addr);
    } else {
      CollectedIsGathered(mem, addr, n - 1);
      GatherOne(mem, addr, Collected(mem, addr, n - 1), n - 1);
    }
  }

  /** The one value a load delivers. */
  function LoadValue(mem: Memory, addr: Address, len: bv64, signed: bool): bv64
    requires Size(len)
  {
    if signed then SignExtend(Collected(mem, addr, len), len) else Collected(mem, addr, len)
  }

  lemma LoadValueIsLoaded(mem: Memory, addr: Address, len: bv64, signed: bool)
    requires Size(len)
    ensures Loaded(mem, addr, len, signed, LoadValue(mem, addr, len, signed))
  {
    hide Gathered, Loaded, SignExtend, Collected;
    CollectedIsGathered(mem, addr, len);
    GatheredIsLoaded(mem, addr, Collected(mem, addr, len), len);
  }

  function IsaAddress(arch: Reg -> bv64, rs1: Reg, imm: bv32): Address { Add(arch(rs1), SignExtend12(imm)) }

  /** The registers after an integer load, as section 2.6 of the architecture (20191213) defines it. */
  function IsaLoad(arch: Reg -> bv64, mem: Memory, rd: Reg, funct3: bv32, rs1: Reg, imm: bv32): Reg -> bv64
    requires funct3 <= 7
  {
    if rd == 0 then arch
    else Write(arch, rd, LoadValue(mem, IsaAddress(arch, rs1, imm), LenOf(funct3 & 3), funct3 & 4 == 0))
  }

  /** The frame after the handler has emulated the same load. */
  function EmulatedLoad(file: Reg -> bv64, mem: Memory, rd: Reg, funct3: bv32, rs1: Reg, imm: bv32): Reg -> bv64
    requires funct3 <= 7
  {
    Write(file, rd, LoadValue(mem, Add(file(rs1), CodeOffset(imm)), LenOf(funct3 & 3), funct3 & 4 == 0))
  }

  // ----- where the two addresses agree -----

  /** The base register is an ordinary one and the offset is not negative; or the base is x0 and the stale
      slot makes up for the difference of the two offsets, which for an offset below 2048 means it is zero. */
  predicate AddressAgrees(slot0: bv64, rs1: Reg, imm: bv32) {
    if rs1 == 0 then Add(slot0, CodeOffset(imm)) == SignExtend12(imm) else rs1 != 2 && imm < 0x800
  }

  lemma ZeroBase(slot0: bv64, imm: bv32)
    requires imm < 0x800
    ensures AddressAgrees(slot0, 0, imm) <==> slot0 == 0
  {
    SmallOffset(imm);
    hide Add, CodeOffset, SignExtend12;
    OffsetIsSignExtension(imm);
    if AddressAgrees(slot0, 0, imm) {
      AddIdentity(slot0, CodeOffset(imm));
    } else {
      AddZero(CodeOffset(imm));
    }
  }

  lemma SmallOffset(imm: bv32)
    requires imm < 0x800
    ensures CodeOffset(imm) < 0x800
  {
  }

  lemma AddIdentity(x: bv64, y: bv64)
    requires y < 0x800 && Add(x, y) == y
    ensures x == 0
  {
  }

  predicate Odd(x: bv64) { x & 1 == 1 }

  lemma AddParity(x: bv64, y: bv64)
    ensures Odd(Add(x, y)) == (Odd(x) != Odd(y))
  {
  }

  /** A negative offset comes out with the wrong parity. */
  lemma NegativeParity(imm: bv32)
    requires 0x800 <= imm < 0x1000
    ensures Odd(CodeOffset(imm)) != Odd(SignExtend12(imm))
  {
  }

  lemma NegativeOffset(x: bv64, imm: bv32)
    requires 0x800 <= imm < 0x1000
    ensures Add(x, CodeOffset(imm)) != Add(x, SignExtend12(imm))
  {
    hide Add, Odd, CodeOffset, SignExtend12;
    NegativeParity(imm);
    AddParity(x, CodeOffset(imm));
    AddParity(x, SignExtend12(imm));
  }

  lemma OrdinaryBase(x: bv64, imm: bv32)
    requires imm < 0x1000
    ensures Add(x, CodeOffset(imm)) == Add(x, SignExtend12(imm)) <==> imm < 0x800
  {
    hide Add, CodeOffset, SignExtend12;
    OffsetIsSignExtension(imm);
    if imm >= 0x800 {
      NegativeOffset(x, imm);
    }
  }

  lemma AddZero(x: bv64)
    ensures Add(0, x) == x
  {
  }

  lemma LoweredDiffers(x: bv64)
    ensures Lowered(x) != x && Odd(Lowered(x)) == Odd(x)
  {
  }

  lemma LoweredBy(x: bv64, offset: bv64)
    ensures Add(Lowered(x), offset) + 512 == Add(x, offset) != Add(Lowered(x), offset)
  {
  }

  lemma LoweredSum(x: bv64, imm: bv32)
    requires imm < 0x800
    ensures Add(Lowered(x), CodeOffset(imm)) + 512 == Add(x, SignExtend12(imm))
    ensures Add(Lowered(x), CodeOffset(imm)) != Add(x, SignExtend12(imm))
  {
    hide *;
    OffsetIsSignExtension(imm);
    LoweredBy(x, CodeOffset(imm));
  }

  /** A stack-pointer base is off by the size of the frame, 64 registers, and no immediate makes up for it. */
  lemma StackPointerBase(sp: bv64, imm: bv32)
    requires imm < 0x1000
    ensures imm < 0x800 ==> Add(Lowered(sp), CodeOffset(imm)) + 512 == Add(sp, SignExtend12(imm))
    ensures Add(Lowered(sp), CodeOffset(imm)) != Add(sp, SignExtend12(imm))
  {
    hide Add, Odd, CodeOffset, SignExtend12, Lowered;
    if imm < 0x800 {
      LoweredSum(sp, imm);
    } else {
      LoweredDiffers(sp);
      NegativeParity(imm);
      AddParity(Lowered(sp), CodeOffset(imm));
      AddParity(sp, SignExtend12(imm));
    }
  }

  lemma AddressAgreesIff(file: Reg -> bv64, arch: Reg -> bv64, rs1: Reg, imm: bv32)
    requires Represents(file, arch) && imm < 0x1000
    ensures Add(file(rs1), CodeOffset(imm)) == IsaAddress(arch, rs1, imm) <==> AddressAgrees(file(0), rs1, imm)
  {
    hide Add, CodeOffset, SignExtend12, Lowered;
    if rs1 == 0 {
      AddZero(SignExtend12(imm));
    } else if rs1 == 2 {
      StackPointerBase(arch(2), imm);
    } else {
      OrdinaryBase(arch(rs1), imm);
    }
  }

  // ----- loads: the exact condition -----

  /** A load into x0 changes nothing that is restored; a load into the stack pointer would have to store the
      lowered value and never does. */
  predicate LoadAgrees(slot0: bv64, rd: Reg, rs1: Reg, imm: bv32) {
    rd == 0 || (rd != 2 && AddressAgrees(slot0, rs1, imm))
  }

  lemma FirstByte(mem: Memory, addr: Address, len: bv64, signed: bool)
    requires Size(len)
    ensures ByteAt(LoadValue(mem, addr, len, signed), 0) == mem(addr)
  {
    hide LoadValue, ByteAt;
    LoadValueIsLoaded(mem, addr, len, signed);
    assert At(addr, 0) == addr;
  }

  function OneAt(a: Address): Memory { x => if x == a then 1 else 0 }

  function Zeroed(): Memory { _ => 0 }

  lemma LoadSeparates(a: Address, b: Address, len: bv64, signed: bool)
    requires Size(len) && a != b
    ensures LoadValue(OneAt(a), a, len, signed) != LoadValue(OneAt(a), b, len, signed)
  {
    hide LoadValue, ByteAt;
    var mem := OneAt(a);
    FirstByte(mem, a, len, signed);
    FirstByte(mem, b, len, signed);
  }

  lemma LoadOfZeros(addr: Address, len: bv64, signed: bool)
    requires Size(len)
    ensures LoadValue(Zeroed(), addr, len, signed) == 0
  {
    hide LoadValue, ByteAt, At;
    var mem := Zeroed();
    LoadValueIsLoaded(mem, addr, len, signed);
    ZeroIsLoaded(addr, len, signed);
    LoadedIsUnique(mem, addr, len, signed, LoadValue(mem, addr, len, signed), 0);
  }

  lemma ZeroIsLoaded(addr: Address, len: bv64, signed: bool)
    requires Size(len)
    ensures Loaded(Zeroed(), addr, len, signed, 0)
  {
    hide ByteAt, At;
    forall j: Index ensures ByteAt(0, j) == 0 { ZeroByte(j); }
  }

  /** A load is emulated faithfully on every memory if and only if it goes to x0, or it goes to a register
      other than the stack pointer and the two addresses agree. */
  lemma LoadAgreesIff(file: Reg -> bv64, arch: Reg -> bv64, rd: Reg, funct3: bv32, rs1: Reg, imm: bv32)
    requires Represents(file, arch) && funct3 < 7 && imm < 0x1000
    ensures (forall mem: Memory ::
               Represents(EmulatedLoad(file, mem, rd, funct3, rs1, imm), IsaLoad(arch, mem, rd, funct3, rs1, imm)))
            <==> LoadAgrees(file(0), rd, rs1, imm)
  {
    hide Add, CodeOffset, SignExtend12, LenOf, LoadValue, AddressAgrees, Lowered;
    AddressAgreesIff(file, arch, rs1, imm);
    if !LoadAgrees(file(0), rd, rs1, imm) {
      LoadDisagrees(file, arch, rd, funct3, rs1, imm);
    }
  }

  lemma NotRepresented(file: Reg -> bv64, arch: Reg -> bv64, r: Reg)
    requires r != 0 && file(r) != Slot(arch, r)
    ensures !Represents(file, arch)
  {
  }

  lemma LoadDisagrees(file: Reg -> bv64, arch: Reg -> bv64, rd: Reg, funct3: bv32, rs1: Reg, imm: bv32)
    requires Represents(file, arch) && funct3 < 7 && imm < 0x1000 && !LoadAgrees(file(0), rd, rs1, imm)
    ensures exists mem: Memory ::
              !Represents(EmulatedLoad(file, mem, rd, funct3, rs1, imm), IsaLoad(arch, mem, rd, funct3, rs1, imm))
  {
    hide Add, CodeOffset, SignExtend12, LenOf, LoadValue, AddressAgrees, Lowered;
    AddressAgreesIff(file, arch, rs1, imm);
    var a, b := Add(file(rs1), CodeOffset(imm)), IsaAddress(arch, rs1, imm);
    var len, signed := LenOf(funct3 & 3), funct3 & 4 == 0;
    if rd == 2 {
      var mem := Zeroed();
      LoadOfZeros(a, len, signed);
      LoadOfZeros(b, len, signed);
      LoweredDiffers(0);
      NotRepresented(EmulatedLoad(file, mem, rd, funct3, rs1, imm), IsaLoad(arch, mem, rd, funct3, rs1, imm), rd);
      assert !Represents(EmulatedLoad(file, mem, rd, funct3, rs1, imm), IsaLoad(arch, mem, rd, funct3, rs1, imm));
    } else {
      var mem := OneAt(a);
      LoadSeparates(a, b, len, signed);
      NotRepresented(EmulatedLoad(file, mem, rd, funct3, rs1, imm), IsaLoad(arch, mem, rd, funct3, rs1, imm), rd);
      assert !Represents(EmulatedLoad(file, mem, rd, funct3, rs1, imm), IsaLoad(arch, mem, rd, funct3, rs1, imm));
    }
  }

  /** The handler itself, on an encoded load that meets the condition. */
  method EmulateLoad(hart: Hart, ghost arch: Reg -> bv64, epc: Address, rd: Reg, funct3: bv32, rs1: Reg, imm: bv32)
      returns (out: Outcome)
    requires Fetch(hart.mem, epc) == EncodeI(LOAD, rd, funct3, rs1, imm)
    requires funct3 < 7 && imm < 0x1000 && Represents(hart.regs, arch) && LoadAgrees(hart.regs(0), rd, rs1, imm)
    modifies hart`regs, hart`fregs
    ensures out == Resume(After(epc)) && Represents(hart.regs, IsaLoad(arch, hart.mem, rd, funct3, rs1, imm))
    ensures forall r: Reg :: hart.fregs(r) == old(hart.fregs)(r)
  {
    hide Fetch, EncodeI, After, Target, DecodeLoad, Loaded, CodeOffset, LenOf, Represents;
    ghost var before := hart.regs;
    DecodeInvertsLoad(LOAD, rd, funct3, rs1, imm);
    ghost var a := Access(false, rd, rs1, LenOf(funct3 & 3), funct3 & 4 != 0, CodeOffset(imm));
    out := hart.HandleLoad(epc);
    FrameAfterLoad(before, hart.regs, hart.mem, rd, funct3, rs1, imm, a);
    LoadAgreesIff(before, arch, rd, funct3, rs1, imm);
    SameFrame(EmulatedLoad(before, hart.mem, rd, funct3, rs1, imm), hart.regs,
              IsaLoad(arch, hart.mem, rd, funct3, rs1, imm));
  }

  lemma SameFrame(file: Reg -> bv64, other: Reg -> bv64, arch: Reg -> bv64)
    requires Represents(file, arch) && forall r: Reg :: other(r) == file(r)
    ensures Represents(other, arch)
  {
  }

  lemma FrameAfterLoad(before: Reg -> bv64, after: Reg -> bv64, mem: Memory, rd: Reg, funct3: bv32, rs1: Reg,
                       imm: bv32, a: Access)
    requires funct3 <= 7
    requires a == Access(false, rd, rs1, LenOf(funct3 & 3), funct3 & 4 != 0, CodeOffset(imm))
    requires Loaded(mem, Target(before, a), a.len, !a.unsigned, after(rd))
    requires forall r: Reg :: r != rd ==> after(r) == before(r)
    ensures forall r: Reg :: after(r) == EmulatedLoad(before, mem, rd, funct3, rs1, imm)(r)
  {
    hide Loaded, LoadValue, LenOf, CodeOffset, Add;
    LoadValueIsLoaded(mem, Target(before, a), a.len, !a.unsigned);
    LoadedIsUnique(mem, Target(before, a), a.len, !a.unsigned, after(rd),
                   LoadValue(mem, Target(before, a), a.len, !a.unsigned));
  }

  // ----- stores: the exact condition -----

  /** Memory after an integer store, in the architecture and as emulated. */
  function IsaStore(arch: Reg -> bv64, mem: Memory, funct3: bv32, rs1: Reg, rs2: Reg, imm: bv32, beyond: Source): Memory
    requires funct3 <= 3
  {
    Stored(mem, IsaAddress(arch, rs1, imm), ByteSource(arch(rs2), beyond), LenOf(funct3))
  }

  function EmulatedStore(file: Reg -> bv64, mem: Memory, funct3: bv32, rs1: Reg, rs2: Reg, imm: bv32, beyond: Source): Memory
    requires funct3 <= 3
  {
    Stored(mem, Add(file(rs1), CodeOffset(imm)), ByteSource(file(rs2), beyond), LenOf(funct3))
  }

  ghost predicate SameMemory(m: Memory, n: Memory) { forall a: Address :: m(a) == n(a) }

  /** The stored register is an ordinary one; or x0 with zeros in the stored bytes of the stale slot; or the
      low byte of the stack pointer, which the frame's size does not change. */
  predicate DataAgrees(slot0: bv64, rs2: Reg, len: bv64) {
    if rs2 == 0 then LowBytes(slot0, len) == 0 else rs2 != 2 || len == 1
  }

  lemma LoweredLowBytes(x: bv64, len: bv64)
    requires Size(len)
    ensures LowBytes(Lowered(x), len) == LowBytes(x, len) <==> len == 1
  {
  }

  lemma DataAgreesIff(file: Reg -> bv64, arch: Reg -> bv64, rs2: Reg, len: bv64)
    requires Represents(file, arch) && Size(len)
    ensures LowBytes(file(rs2), len) == LowBytes(arch(rs2), len) <==> DataAgrees(file(0), rs2, len)
  {
    assert LowBytes(0, len) == 0;
    hide LowBytes, Lowered;
    LoweredLowBytes(arch(2), len);
  }

  lemma SameLowBytes(x: bv64, y: bv64, len: bv64, j: Index)
    requires Size(len) && LowBytes(x, len) == LowBytes(y, len) && j < len
    ensures ByteAt(x, j) == ByteAt(y, j)
  {
    hide ByteAt, LowBytes;
    LowBytesBytes(x, len, j);
    LowBytesBytes(y, len, j);
  }

  lemma DifferentLowBytes(x: bv64, y: bv64, len: bv64) returns (j: Index)
    requires Size(len) && LowBytes(x, len) != LowBytes(y, len)
    ensures j < len && ByteAt(x, j) != ByteAt(y, j)
  {
    hide ByteAt, LowBytes;
    if forall j: Index :: j < len ==> ByteAt(x, j) == ByteAt(y, j) {
      forall j: Index
        ensures ByteAt(LowBytes(x, len), j) == ByteAt(LowBytes(y, len), j)
      {
        LowBytesBytes(x, len, j);
        LowBytesBytes(y, len, j);
      }
      BytesDetermine(LowBytes(x, len), LowBytes(y, len));
    }
    j :| j < len && ByteAt(x, j) != ByteAt(y, j);
  }

  /** Two stores of the same size at the same place with the same low bytes do the same. */
  lemma StoresAgree(mem: Memory, addr: Address, x: bv64, y: bv64, beyond: Source, len: bv64, a: Address)
    requires Size(len) && LowBytes(x, len) == LowBytes(y, len)
    ensures Stored(mem, addr, ByteSource(x, beyond), len)(a) == Stored(mem, addr, ByteSource(y, beyond), len)(a)
  {
    hide LowBytes, At, Stored, ByteAt;
    if i: bv64 :| i < len && a == At(addr, i) {
      StoredInside(mem, addr, ByteSource(x, beyond), len, i);
      StoredInside(mem, addr, ByteSource(y, beyond), len, i);
      SameLowBytes(x, y, len, i);
    } else {
      StoredOutside(mem, addr, ByteSource(x, beyond), len, a);
      StoredOutside(mem, addr, ByteSource(y, beyond), len, a);
    }
  }

  lemma NotBack(b: Address, i: Index, j: Index)
    requires i != 0
    ensures At(At(b, i), j) != b
  {
  }

  /** Of two different places, one has a byte that a store to the other does not touch. */
  lemma RangesDiffer(a: Address, b: Address, len: bv64)
    requires Size(len) && a != b
    ensures Outside(b, len, a) || Outside(a, len, b)
  {
    hide At;
    if i: bv64 :| i < len && a == At(b, i) {
      ZeroPlace(b);
      forall j: bv64 | j < len ensures b != At(a, j) { NotBack(b, i, j); }
    }
  }

  lemma ZeroPlace(a: Address)
    ensures At(a, 0) == a
  {
  }

  function Filled(b: byte): Memory { _ => b }

  lemma PlacesSeparate(a: Address, b: Address, x: bv64, y: bv64, beyond: Source, len: bv64) returns (mem: Memory)
    requires Size(len) && a != b
    ensures !SameMemory(Stored(mem, a, ByteSource(x, beyond), len), Stored(mem, b, ByteSource(y, beyond), len))
  {
    hide At, Stored, ByteAt;
    RangesDiffer(a, b, len);
    ZeroPlace(a);
    ZeroPlace(b);
    if Outside(b, len, a) {
      mem := Filled(if ByteAt(x, 0) == 0 then 1 else 0);
      StoredInside(mem, a, ByteSource(x, beyond), len, 0);
      StoredOutside(mem, b, ByteSource(y, beyond), len, a);
    } else {
      mem := Filled(if ByteAt(y, 0) == 0 then 1 else 0);
      StoredInside(mem, b, ByteSource(y, beyond), len, 0);
      StoredOutside(mem, a, ByteSource(x, beyond), len, b);
    }
  }

  lemma BytesSeparate(mem: Memory, a: Address, x: bv64, y: bv64, beyond: Source, len: bv64)
    requires Size(len) && LowBytes(x, len) != LowBytes(y, len)
    ensures !SameMemory(Stored(mem, a, ByteSource(x, beyond), len), Stored(mem, a, ByteSource(y, beyond), len))
  {
    hide At, Stored, ByteAt, LowBytes;
    var j := DifferentLowBytes(x, y, len);
    StoredInside(mem, a, ByteSource(x, beyond), len, j);
    StoredInside(mem, a, ByteSource(y, beyond), len, j);
  }

  /** A store is emulated faithfully on every memory if and only if the two addresses and the stored bytes
      agree. */
  lemma StoreAgreesIff(file: Reg -> bv64, arch: Reg -> bv64, funct3: bv32, rs1: Reg, rs2: Reg, imm: bv32, beyond: Source)
    requires Represents(file, arch) && funct3 <= 3 && imm < 0x1000
    ensures (forall mem: Memory ::
               SameMemory(EmulatedStore(file, mem, funct3, rs1, rs2, imm, beyond),
                          IsaStore(arch, mem, funct3, rs1, rs2, imm, beyond)))
            <==> AddressAgrees(file(0), rs1, imm) && DataAgrees(file(0), rs2, LenOf(funct3))
  {
    hide At, Add, Stored, ByteAt, ByteSource, LowBytes, CodeOffset, SignExtend12, LenOf, AddressAgrees, DataAgrees, Represents;
    var len := LenOf(funct3);
    var a, b := Add(file(rs1), CodeOffset(imm)), IsaAddress(arch, rs1, imm);
    AddressAgreesIff(file, arch, rs1, imm);
    DataAgreesIff(file, arch, rs2, len);
    if a != b {
      var mem := PlacesSeparate(a, b, file(rs2), arch(rs2), beyond, len);
      assert !SameMemory(EmulatedStore(file, mem, funct3, rs1, rs2, imm, beyond),
                         IsaStore(arch, mem, funct3, rs1, rs2, imm, beyond));
    } else if LowBytes(file(rs2), len) != LowBytes(arch(rs2), len) {
      BytesSeparate(Zeroed(), a, file(rs2), arch(rs2), beyond, len);
      assert !SameMemory(EmulatedStore(file, Zeroed(), funct3, rs1, rs2, imm, beyond),
                         IsaStore(arch, Zeroed(), funct3, rs1, rs2, imm, beyond));
    } else {
      forall mem: Memory
        ensures SameMemory(EmulatedStore(file, mem, funct3, rs1, rs2, imm, beyond),
                           IsaStore(arch, mem, funct3, rs1, rs2, imm, beyond))
      {
        forall p: Address
          ensures EmulatedStore(file, mem, funct3, rs1, rs2, imm, beyond)(p)
               == IsaStore(arch, mem, funct3, rs1, rs2, imm, beyond)(p)
        {
          StoresAgree(mem, a, file(rs2), arch(rs2), beyond, len, p);
        }
      }
    }
  }

  /** A store of x0 with a stale slot: the architecture clears the byte, the handler writes what is in the
      slot. */
  lemma StoreOfZeroWritesStaleByte(file: Reg -> bv64, arch: Reg -> bv64, mem: Memory, rs1: Reg, imm: bv32, beyond: Source)
    requires Represents(file, arch) && rs1 != 0 && rs1 != 2 && imm < 0x800 && file(0) == 1
    ensures var a := IsaAddress(arch, rs1, imm);
            && EmulatedStore(file, mem, 0, rs1, 0, imm, beyond)(a) == 1
            && IsaStore(arch, mem, 0, rs1, 0, imm, beyond)(a) == 0
  {
    assert ByteAt(0, 0) == 0 && ByteAt(1, 0) == 1 && LenOf(0) == 1;
    hide At, Add, Stored, ByteAt, CodeOffset, SignExtend12, LenOf;
    var a := IsaAddress(arch, rs1, imm);
    AddressAgreesIff(file, arch, rs1, imm);
    ZeroPlace(a);
    StoredInside(mem, a, ByteSource(1, beyond), 1, 0);
    StoredInside(mem, a, ByteSource(0, beyond), 1, 0);
  }

  /** The handler itself, on an encoded store that meets the condition. */
  method EmulateStore(hart: Hart, ghost arch: Reg -> bv64, epc: Address, funct3: bv32, rs1: Reg, rs2: Reg, imm: bv32,
                      beyond: Source) returns (out: Outcome)
    requires Fetch(hart.mem, epc) == EncodeS(STORE, funct3, rs1, rs2, imm)
    requires funct3 <= 3 && imm < 0x1000 && Represents(hart.regs, arch)
    requires AddressAgrees(hart.regs(0), rs1, imm) && DataAgrees(hart.regs(0), rs2, LenOf(funct3))
    modifies hart`mem
    ensures out == Resume(After(epc))
    ensures SameMemory(hart.mem, IsaStore(arch, old(hart.mem), funct3, rs1, rs2, imm, beyond))
  {
    hide Fetch, EncodeS, After, Target, DecodeStore, Scattered, CodeOffset, LenOf, Represents, ByteSource;
    ghost var before := hart.mem;
    DecodeInvertsStore(STORE, funct3, rs1, rs2, imm);
    StoreAgreesIff(hart.regs, arch, funct3, rs1, rs2, imm, beyond);
    out := hart.HandleStore(epc, beyond);
    MemoryAfterStore(hart.regs, before, hart.mem, funct3, rs1, rs2, imm, beyond);
  }

  lemma IsOutside(addr: Address, len: bv64, a: Address)
    requires forall i: bv64 :: i < len ==> a != At(addr, i)
    ensures Outside(addr, len, a)
  {
  }

  lemma MemoryAfterStore(file: Reg -> bv64, before: Memory, after: Memory, funct3: bv32, rs1: Reg, rs2: Reg, imm: bv32,
                         beyond: Source)
    requires funct3 <= 3
    requires var a := Access(false, rs2, rs1, LenOf(funct3), false, CodeOffset(imm));
             Scattered(before, after, Target(file, a), ByteSource(file(rs2), beyond), a.len)
    ensures SameMemory(after, EmulatedStore(file, before, funct3, rs1, rs2, imm, beyond))
  {
    hide At, Add, Stored, CodeOffset, LenOf, ByteSource, Outside;
    var len, addr := LenOf(funct3), Add(file(rs1), CodeOffset(imm));
    forall a: Address
      ensures after(a) == Stored(before, addr, ByteSource(file(rs2), beyond), len)(a)
    {
      if i: bv64 :| i < len && a == At(addr, i) {
        StoredInside(before, addr, ByteSource(file(rs2), beyond), len, i);
      } else {
        StoredOutside(before, addr, ByteSource(file(rs2), beyond), len, a);
        IsOutside(addr, len, a);
      }
    }
  }
}
