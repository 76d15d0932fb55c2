/** The pin multiplexer's map from pins to functions (lib/drivers/fpioa.c). */
module PinMap {

  const NUM_IO := 48
  const FUNC_MAX := 256
  const FUNC_RESV0 := 120
  const PULL_MAX := 3

  /** A pin's configuration register: the function it carries, its pulls, and every other attribute. */
  datatype Io = Io(chSel: int, pu: bool, pd: bool, rest: int)

  /** The driver's function table: entry f selects function f, with pad attributes of its own. */
  datatype Table = Table(pu: int -> bool, pd: int -> bool, rest: int -> int) {
    function Entry(f: int): Io { Io(f, pu(f), pd(f), rest(f)) }
  }

  predicate IsPin(number: int) { 0 <= number < NUM_IO }

  predicate IsFunction(f: int) { 0 <= f < FUNC_MAX }

  // ----- the operations on the register file -----

  /** fpioa_set_function: every other pin that has the function gives it up, then the pin gets it.  The
      reserved function is nobody's, and is just written. */
  function Assigned(io: seq<Io>, table: Table, number: int, f: int): (r: seq<Io>)
    ensures |r| == |io|
  {
    seq(|io|, p requires 0 <= p < |io| =>
      if p == number then table.Entry(f)
      else if f != FUNC_RESV0 && io[p].chSel == f then table.Entry(FUNC_RESV0)
      else io[p])
  }

  /** fpioa_set_io_pull */
  function Pulled(io: seq<Io>, number: int, pull: int): (r: seq<Io>)
    ensures |r| == |io|
  {
    if 0 <= number < |io| then io[number := io[number].(pu := pull == 2, pd := pull == 1)] else io
  }

  datatype Op = SetFunction(number: int, f: int) | SetPull(number: int, pull: int)

  function Apply(io: seq<Io>, table: Table, op: Op): (r: seq<Io>)
    ensures |r| == |io|
  {
    match op
    case SetFunction(number, f) => if IsPin(number) && IsFunction(f) then Assigned(io, table, number, f) else io
    case SetPull(number, pull) => if IsPin(number) && 0 <= pull < PULL_MAX then Pulled(io, number, pull) else io
  }

  function ApplyAll(io: seq<Io>, table: Table, ops: seq<Op>): (r: seq<Io>)
    ensures |r| == |io|
  {
    if ops == [] then io else Apply(ApplyAll(io, table, ops[..|ops| - 1]), table, ops[|ops| - 1])
  }

  /** On pins 0 to 47 functions 0 to 255 and pulls 0 to 2 are set; any other call changes nothing. */
  lemma Effect(io: seq<Io>, table: Table, number: int, f: int, pull: int)
    requires |io| == 48
    ensures var r := Apply(io, table, SetFunction(number, f));
            if 0 <= number < 48 && 0 <= f < 256
            then r[number] == Io(f, table.pu(f), table.pd(f), table.rest(f)) else r == io
    ensures var r := Apply(io, table, SetPull(number, pull));
            if 0 <= number < 48 && 0 <= pull < 3
            then r[number] == Io(io[number].chSel, pull == 2, pull == 1, io[number].rest) else r == io
  {
    if IsPin(number) {
      assert Assigned(io, table, number, f)[number] == table.Entry(f);
    }
  }

  // ----- uniqueness -----

  /** No function but the reserved one is on two pins. */
  predicate Unique(io: seq<Io>) {
    forall p, q :: 0 <= p < q < |io| && io[p].chSel == io[q].chSel ==> io[p].chSel == FUNC_RESV0
  }

  lemma ApplyKeepsUnique(io: seq<Io>, table: Table, op: Op)
    requires Unique(io)
    ensures Unique(Apply(io, table, op))
  {
    var r := Apply(io, table, op);
    forall p, q | 0 <= p < q < |r| && r[p].chSel == r[q].chSel
      ensures r[p].chSel == FUNC_RESV0
    {
    }
  }

  /** No sequence of calls, with whatever arguments, puts a function on two pins. */
  lemma {:induction false} EveryRunKeepsUnique(io: seq<Io>, table: Table, ops: seq<Op>)
    requires Unique(io)
    ensures Unique(ApplyAll(io, table, ops))
  {
    if ops != [] {
      EveryRunKeepsUnique(io, table, ops[..|ops| - 1]);
      ApplyKeepsUnique(ApplyAll(io, table, ops[..|ops| - 1]), table, ops[|ops| - 1]);
    }
  }

  // ----- looking a function up -----

  /** The lowest pin with the function, or -1. */
  function Lookup(io: seq<Io>, f: int, from: nat): (r: int)
    requires from <= |io|
    ensures r == -1 || (from <= r < |io| && io[r].chSel == f)
    ensures forall p :: from <= p < (if r == -1 then |io| else r) ==> io[p].chSel != f
    decreases |io| - from
  {
    if from == |io| then -1 else if io[from].chSel == f then from else Lookup(io, f, from + 1)
  }

  /** After a function has been set on a pin, that pin is found for it, whatever the map was before, even if
      the function was on several pins.  For the reserved function, exactly if no lower pin is reserved. */
  lemma FoundWhereSet(io: seq<Io>, table: Table, number: int, f: int)
    requires |io| == NUM_IO && IsPin(number) && IsFunction(f)
    ensures Lookup(Apply(io, table, SetFunction(number, f)), f, 0) == number <==>
              f != FUNC_RESV0 || forall p :: 0 <= p < number ==> io[p].chSel != FUNC_RESV0
  {
    var r := Apply(io, table, SetFunction(number, f));
    assert r == Assigned(io, table, number, f) && r[number] == table.Entry(f);
    var found := Lookup(r, f, 0);
    if f == FUNC_RESV0 {
      assert forall p :: 0 <= p < number ==> r[p] == io[p];
    }
  }

  /** Only the pin itself and the pins that lose the function change. */
  lemma OthersKeepTheirs(io: seq<Io>, table: Table, number: int, f: int, p: nat)
    requires |io| == NUM_IO && IsPin(number) && IsFunction(f) && p < NUM_IO && p != number
    ensures var r := Apply(io, table, SetFunction(number, f));
            if io[p].chSel == f then r[p].chSel == FUNC_RESV0 else r[p] == io[p]
  {
  }

  /** Pulls do not move functions. */
  lemma PullsMoveNothing(io: seq<Io>, table: Table, number: int, pull: int, f: int)
    ensures Lookup(Apply(io, table, SetPull(number, pull)), f, 0) == Lookup(io, f, 0)
  {
    var r := Apply(io, table, SetPull(number, pull));
    assert forall p :: 0 <= p < |io| ==> r[p].chSel == io[p].chSel;
    var a, b := Lookup(r, f, 0), Lookup(io, f, 0);
  }

  /** The pull setting a register shows; both pulls at once count as none. */
  function PullOf(io: Io): int { if io.pu == io.pd then 0 else if io.pd then 1 else 2 }

  /** A pull that has been set is read back until the pin's pull or function is next set, whatever is done to
      the other pins, unless one of those calls takes the pin's function away. */
  lemma {:induction false} PullStays(io: seq<Io>, table: Table, number: int, pull: int, ops: seq<Op>)
    requires |io| == NUM_IO && IsPin(number) && 0 <= pull < PULL_MAX
    requires forall op :: op in ops ==> op.number != number && (op.SetFunction? ==> op.f != io[number].chSel)
    ensures var r := ApplyAll(Apply(io, table, SetPull(number, pull)), table, ops)[number];
            PullOf(r) == pull && (r.pd <==> pull == 1) && (r.pu <==> pull == 2) && r.chSel == io[number].chSel
  {
    if ops != [] {
      PullStays(io, table, number, pull, ops[..|ops| - 1]);
    }
  }

  // ----- the driver -----

  class Fpioa {
    const table: Table
    const io: array<Io>

    constructor (table: Table)
      ensures Valid() && this.table == table && fresh(io)
    {
      this.table := table;
      io := new Io[NUM_IO](_ => Io(0, false, false, 0));
    }

    predicate Valid() { io.Length == NUM_IO }

    method SetFunctionRaw(number: int, f: int) returns (r: int)
      requires Valid()
      modifies io
      ensures r == if IsPin(number) && IsFunction(f) then 0 else -1
      ensures io[..] == if r == 0 then old(io[..])[number := table.Entry(f)] else old(io[..])
    {
      if number < 0 || number >= NUM_IO || f < 0 || f >= FUNC_MAX { return -1; }
      io[number] := table.Entry(f);
      return 0;
    }

    method SetFunction(number: int, f: int) returns (r: int)
      requires Valid()
      modifies io
      ensures r == if IsPin(number) && IsFunction(f) then 0 else -1
      ensures io[..] == Apply(old(io[..]), table, Op.SetFunction(number, f))
    {
      if number < 0 || number >= NUM_IO || f < 0 || f >= FUNC_MAX { return -1; }
      if f == FUNC_RESV0 {
        var _ := SetFunctionRaw(number, FUNC_RESV0);
        return 0;
      }
      for index := 0 to NUM_IO
        invariant forall p :: 0 <= p < NUM_IO ==>
          io[p] == if p < index && p != number && old(io[p]).chSel == f then table.Entry(FUNC_RESV0) else old(io[p])
      {
        if io[index].chSel == f && index != number {
          var _ := SetFunctionRaw(index, FUNC_RESV0);
        }
      }
      var _ := SetFunctionRaw(number, f);
      return 0;
    }

    method SetIoPull(number: int, pull: int) returns (r: int)
      requires Valid()
      modifies io
      ensures r == if IsPin(number) && 0 <= pull < PULL_MAX then 0 else -1
      ensures io[..] == Apply(old(io[..]), table, SetPull(number, pull))
    {
      if number < 0 || number >= NUM_IO || pull < 0 || pull >= PULL_MAX { return -1; }
      var cfg := io[number];
      match pull {
        case 0 => cfg := cfg.(pu := false, pd := false);
        case 1 => cfg := cfg.(pu := false, pd := true);
        case _ => cfg := cfg.(pu := true, pd := false);
      }
      io[number] := cfg;
      return 0;
    }

    method GetIoPull(number: int) returns (pull: int)
      requires Valid()
      ensures pull == if IsPin(number) then PullOf(io[number]) else -1
    {
      if number < 0 || number >= NUM_IO { return -1; }
      var cfg := io[number];
      if !cfg.pu && cfg.pd {
        pull := 1;
      } else if cfg.pu && !cfg.pd {
        pull := 2;
      } else {
        pull := 0;
      }
    }

    method GetIoByFunction(f: int) returns (r: int)
      requires Valid()
      ensures r == Lookup(io[..], f, 0)
    {
      for index := 0 to NUM_IO
        invariant Lookup(io[..], f, 0) == Lookup(io[..], f, index)
      {
        if io[index].chSel == f { return index; }
      }
      return -1;
    }

    /** Any sequence of calls. */
    method Execute(ops: seq<Op>)
      requires Valid()
      modifies io
      ensures io[..] == ApplyAll(old(io[..]), table, ops)
      ensures old(Unique(io[..])) ==> Unique(io[..])
    {
      for i := 0 to |ops|
        invariant io[..] == ApplyAll(old(io[..]), table, ops[..i])
      {
        match ops[i] {
          case SetFunction(number, f) => var _ := SetFunction(number, f);
          case SetPull(number, pull) => var _ := SetIoPull(number, pull);
        }
        assert ops[..i + 1][..i] == ops[..i];
      }
      assert ops[..|ops|] == ops;
      if old(Unique(io[..])) {
        EveryRunKeepsUnique(old(io[..]), table, ops);
      }
    }
  }
}
