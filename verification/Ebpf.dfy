/** The fragment of the eBPF machine (RFC 9669) that the endpoint programs use. */
module Ebpf {
  import opened Common

  /** `struct bpf_insn`. */
  datatype Insn = Insn(code: int, dst: nat, src: nat, off: int, imm: int)

  const MOV64_REG := 0xBF
  const MOV64_IMM := 0xB7
  const ADD64_IMM := 0x07
  const LDX_W := 0x61
  const STX_W := 0x63
  const LD_IMM_DW := 0x18
  const JEQ_IMM := 0x15
  const JNE_IMM := 0x55
  const CALL := 0x85
  const EXIT := 0x95
  const PSEUDO_MAP_FD := 1
  const MAP_LOOKUP_ELEM := 1
  const STACK_BYTES := 512

  const TWO32 := 0x1_0000_0000
  const TWO64 := 0x1_0000_0000_0000_0000

  type U32 = n: int | 0 <= n < TWO32

  /** The connect context, `struct bpf_sock_addr`: the fields the programs read. */
  datatype SockAddr = SockAddr(userIp4: U32, userIp6: seq<U32>, userPort: U32)

  const USER_IP4 := 4
  const USER_IP6 := 8
  const USER_PORT := 24

  /** A hash map with one-byte values: which keys are present. */
  datatype EndpointMap = EndpointMap(keySize: nat, keys: set<Bytes>)

  type Maps = map<int, EndpointMap>

  /** A register holds a 64-bit number, a typed address, or nothing yet. */
  datatype Value =
    | Scalar(n: int)
    | ContextPtr
    | StackPtr(at: int)
    | MapPtr(fd: int)
    | MapValuePtr
    | Unset

  /** Stack octets are addressed by their (negative) distance from the frame register. */
  datatype Machine = Machine(pc: nat, regs: seq<Value>, stack: map<int, Byte>)

  datatype Outcome = Next(m: Machine) | Done(verdict: int) | Fault

  /** A 32-bit immediate in a 64-bit operation (section 4.3 of RFC 9669): sign extension. */
  function SignExtend(imm: int): int {
    if imm < 0 then imm + TWO64 else imm
  }

  /** A 32-bit word in memory order, little endian. */
  function LittleEndian(n: U32): (r: Bytes)
    ensures |r| == 4
  {
    [n % 256, n / 256 % 256, n / 0x1_0000 % 256, n / 0x100_0000]
  }

  /** The number four octets in memory order stand for. */
  function FromLittleEndian(r: Bytes): int
    requires |r| == 4
  {
    var b0: int, b1: int, b2: int, b3: int := r[0], r[1], r[2], r[3];
    b0 + 256 * b1 + 0x1_0000 * b2 + 0x100_0000 * b3
  }

  lemma {:induction false} LittleEndianInverse(n: U32)
    ensures FromLittleEndian(LittleEndian(n)) == n
  {
    assert n / 256 / 256 == n / 0x1_0000 && n / 0x1_0000 / 256 == n / 0x100_0000;
  }

  /** Words are equal exactly when their octets are. */
  lemma {:induction false} LittleEndianInjective(a: U32, b: U32)
    ensures LittleEndian(a) == LittleEndian(b) <==> a == b
  {
    hide LittleEndian, FromLittleEndian;
    LittleEndianInverse(a);
    LittleEndianInverse(b);
  }

  function LoadContext(ctx: SockAddr, off: int): (r: Option<U32>) {
    if off == USER_IP4 then Some(ctx.userIp4)
    else if off == USER_PORT then Some(ctx.userPort)
    else if USER_IP6 <= off < USER_IP6 + 16 && (off - USER_IP6) % 4 == 0 && (off - USER_IP6) / 4 < |ctx.userIp6| then
      Some(ctx.userIp6[(off - USER_IP6) / 4])
    else None
  }

  function StoreWord(stack: map<int, Byte>, at: int, n: U32): map<int, Byte> {
    var w := LittleEndian(n);
    stack[at := w[0]][at + 1 := w[1]][at + 2 := w[2]][at + 3 := w[3]]
  }

  predicate Written(stack: map<int, Byte>, at: int, size: nat) {
    forall k :: at <= k < at + size ==> k in stack
  }

  function ReadBytes(stack: map<int, Byte>, at: int, size: nat): (r: Bytes)
    requires Written(stack, at, size)
    ensures |r| == size
  {
    seq(size, i requires 0 <= i < size => stack[at + i])
  }

  /** Equality with an immediate; a looked-up value is never the null pointer. */
  function EqualsImm(v: Value, imm: int): (r: Option<bool>) {
    match v
    case Scalar(n) => Some(n == SignExtend(imm))
    case MapValuePtr => if imm == 0 then Some(false) else None
    case _ => None
  }

  predicate Valid(m: Machine) {
    |m.regs| == 11
  }

  function Jump(prog: seq<Insn>, m: Machine, off: int): (r: Outcome)
    ensures r.Next? ==> r.m.regs == m.regs
  {
    var target := m.pc + 1 + off;
    if 0 <= target < |prog| then Next(m.(pc := target)) else Fault
  }

  function SetReg(m: Machine, dst: nat, v: Value): (r: Outcome)
    requires Valid(m)
    ensures r.Next? ==> Valid(r.m)
  {
    if dst < 10 then Next(m.(pc := m.pc + 1, regs := m.regs[dst := v])) else Fault
  }

  /** `bpf_map_lookup_elem(r1, r2)`; the argument registers are lost. */
  function Lookup(maps: Maps, m: Machine): (r: Outcome)
    requires Valid(m)
    ensures r.Next? ==> Valid(r.m)
  {
    match (m.regs[1], m.regs[2])
    case (MapPtr(fd), StackPtr(at)) =>
      if fd in maps && Written(m.stack, at, maps[fd].keySize) then
        var found := ReadBytes(m.stack, at, maps[fd].keySize) in maps[fd].keys;
        Next(m.(pc := m.pc + 1,
                regs := m.regs[0 := if found then MapValuePtr else Scalar(0)]
                        [1 := Unset][2 := Unset][3 := Unset][4 := Unset][5 := Unset]))
      else Fault
    case _ => Fault
  }

  function Step(prog: seq<Insn>, ctx: SockAddr, maps: Maps, m: Machine): (r: Outcome)
    requires Valid(m)
    ensures r.Next? ==> Valid(r.m)
  {
    if m.pc >= |prog| then Fault
    else
      var i := prog[m.pc];
      if i.dst > 10 || i.src > 10 then Fault
      else if i.code == MOV64_REG then SetReg(m, i.dst, m.regs[i.src])
      else if i.code == MOV64_IMM then SetReg(m, i.dst, Scalar(SignExtend(i.imm)))
      else if i.code == ADD64_IMM then
        (match m.regs[i.dst]
         case StackPtr(at) => SetReg(m, i.dst, StackPtr(at + i.imm))
         case Scalar(n) => SetReg(m, i.dst, Scalar((n + SignExtend(i.imm)) % TWO64))
         case _ => Fault)
      else if i.code == LDX_W then
        var word := LoadContext(ctx, i.off);
        if m.regs[i.src] == ContextPtr && word.Some? then SetReg(m, i.dst, Scalar(word.value)) else Fault
      else if i.code == STX_W then
        (match (m.regs[i.dst], m.regs[i.src])
         case (StackPtr(at), Scalar(n)) =>
           if -STACK_BYTES <= at + i.off && at + i.off + 4 <= 0 then
             Next(m.(pc := m.pc + 1, stack := StoreWord(m.stack, at + i.off, n % TWO32)))
           else Fault
         case _ => Fault)
      else if i.code == LD_IMM_DW then
        // two slots; only map references occur in these programs
        if i.src == PSEUDO_MAP_FD && i.dst < 10 && m.pc + 1 < |prog| then
          Next(m.(pc := m.pc + 2, regs := m.regs[i.dst := MapPtr(i.imm)]))
        else Fault
      else if i.code == JEQ_IMM then
        var equal := EqualsImm(m.regs[i.dst], i.imm);
        if equal.None? then Fault else Jump(prog, m, if equal.value then i.off else 0)
      else if i.code == JNE_IMM then
        var equal := EqualsImm(m.regs[i.dst], i.imm);
        if equal.None? then Fault else Jump(prog, m, if equal.value then 0 else i.off)
      else if i.code == CALL then (if i.imm == MAP_LOOKUP_ELEM then Lookup(maps, m) else Fault)
      else if i.code == EXIT then (if m.regs[0].Scalar? then Done(m.regs[0].n) else Fault)
      else Fault
  }

  /** Execute at most `budget` instructions. */
  function Run(prog: seq<Insn>, ctx: SockAddr, maps: Maps, m: Machine, budget: nat): (r: Option<int>)
    requires Valid(m)
    decreases budget
  {
    if budget == 0 then None
    else
      match Step(prog, ctx, maps, m)
      case Next(next) => Run(prog, ctx, maps, next, budget - 1)
      case Done(verdict) => Some(verdict)
      case Fault => None
  }

  /** Entry state: context in r1, frame in r10. */
  const ENTRY := Machine(0, [Unset, ContextPtr, Unset, Unset, Unset, Unset, Unset, Unset, Unset, Unset, StackPtr(0)], map[])

  /** The verdict within as many instructions as the program has. */
  function Verdict(prog: seq<Insn>, ctx: SockAddr, maps: Maps): Option<int> {
    Run(prog, ctx, maps, ENTRY, |prog|)
  }

  lemma {:induction false} Advance(prog: seq<Insn>, ctx: SockAddr, maps: Maps, m: Machine, next: Machine, budget: nat)
    requires Valid(m) && budget > 0 && Step(prog, ctx, maps, m) == Next(next)
    ensures Run(prog, ctx, maps, m, budget) == Run(prog, ctx, maps, next, budget - 1)
  {
  }

  lemma {:induction false} Stop(prog: seq<Insn>, ctx: SockAddr, maps: Maps, m: Machine, verdict: int, budget: nat)
    requires Valid(m) && budget > 0 && Step(prog, ctx, maps, m) == Done(verdict)
    ensures Run(prog, ctx, maps, m, budget) == Some(verdict)
  {
  }

  lemma {:induction false} StoredWord(stack: map<int, Byte>, at: int, n: U32)
    ensures Written(StoreWord(stack, at, n), at, 4)
    ensures ReadBytes(StoreWord(stack, at, n), at, 4) == LittleEndian(n)
    ensures forall k :: k in stack ==> k in StoreWord(stack, at, n)
    ensures forall k :: k in stack && !(at <= k < at + 4) ==> StoreWord(stack, at, n)[k] == stack[k]
  {
  }

  lemma {:induction false} ReadSplit(stack: map<int, Byte>, at: int, first: nat, second: nat)
    requires Written(stack, at, first) && Written(stack, at + first, second)
    ensures Written(stack, at, first + second)
    ensures ReadBytes(stack, at, first + second) == ReadBytes(stack, at, first) + ReadBytes(stack, at + first, second)
  {
  }
}
