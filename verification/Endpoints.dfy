/** The cgroup endpoint programs: map lookup (routing) and immediate comparison (cgroup control). */
module Endpoints {
  import opened Common
  import opened Ebpf

  // ---- map keys ----

  /** Words laid out one after another in memory order. */
  function KeyBytes(words: seq<U32>): (r: Bytes)
    ensures |r| == 4 * |words|
  {
    if words == [] then [] else LittleEndian(words[0]) + KeyBytes(words[1..])
  }

  /** `struct endpoint4_key` and `struct endpoint6_key`: keys are equal exactly when their words are. */
  lemma {:induction false} KeyBytesInjective(first: seq<U32>, second: seq<U32>)
    requires |first| == |second|
    ensures KeyBytes(first) == KeyBytes(second) <==> first == second
  {
    hide LittleEndian;
    if first != [] {
      var a, b := KeyBytes(first), KeyBytes(second);
      KeyBytesInjective(first[1..], second[1..]);
      LittleEndianInjective(first[0], second[0]);
      assert a[..4] == LittleEndian(first[0]) && a[4..] == KeyBytes(first[1..]);
      assert b[..4] == LittleEndian(second[0]) && b[4..] == KeyBytes(second[1..]);
      assert first == [first[0]] + first[1..] && second == [second[0]] + second[1..];
    }
  }

  function StoreWords(stack: map<int, Byte>, at: int, words: seq<U32>): map<int, Byte>
    decreases |words|
  {
    if words == [] then stack else StoreWords(StoreWord(stack, at, words[0]), at + 4, words[1..])
  }

  /** Octets below the stored words keep their values. */
  lemma {:induction false} StoreWordsBelow(stack: map<int, Byte>, at: int, words: seq<U32>)
    ensures forall k :: k < at && k in stack ==> k in StoreWords(stack, at, words) && StoreWords(stack, at, words)[k] == stack[k]
    decreases |words|
  {
    if words != [] {
      StoreWordsBelow(StoreWord(stack, at, words[0]), at + 4, words[1..]);
    }
  }

  /** Words stored one after another read back as their key. */
  lemma {:induction false} StoredKey(stack: map<int, Byte>, at: int, words: seq<U32>)
    ensures Written(StoreWords(stack, at, words), at, 4 * |words|)
    ensures ReadBytes(StoreWords(stack, at, words), at, 4 * |words|) == KeyBytes(words)
    decreases |words|
  {
    hide LittleEndian, StoreWord;
    if words != [] {
      var once := StoreWord(stack, at, words[0]);
      var full := StoreWords(stack, at, words);
      StoredWord(stack, at, words[0]);
      StoreWordsBelow(once, at + 4, words[1..]);
      StoredKey(once, at + 4, words[1..]);
      assert ReadBytes(full, at, 4) == ReadBytes(once, at, 4);
      ReadSplit(full, at, 4, 4 * |words[1..]|);
    }
  }

  // ---- the map programs ----

  function Prologue(size: int): (r: seq<Insn>)
    ensures |r| == 3
  {
    [ Insn(MOV64_REG, 6, 1, 0, 0),
      Insn(MOV64_REG, 2, 10, 0, 0),
      Insn(ADD64_IMM, 2, 0, 0, -size) ]
  }

  /** Copy context fields to consecutive stack words. */
  function CopyFields(offsets: seq<int>, at: int): (r: seq<Insn>)
    ensures |r| == 2 * |offsets|
    decreases |offsets|
  {
    if offsets == [] then []
    else [Insn(LDX_W, 3, 6, offsets[0], 0), Insn(STX_W, 10, 3, at, 0)] + CopyFields(offsets[1..], at + 4)
  }

  function LookupTail(fd: int): (r: seq<Insn>)
    ensures |r| == 6
  {
    [ Insn(LD_IMM_DW, 1, PSEUDO_MAP_FD, 0, fd),
      Insn(0, 0, 0, 0, 0),
      Insn(CALL, 0, 0, 0, MAP_LOOKUP_ELEM),
      Insn(JEQ_IMM, 0, 0, 1, 0),
      Insn(MOV64_IMM, 0, 0, 0, 1),
      Insn(EXIT, 0, 0, 0, 0) ]
  }

  const FIELDS4: seq<int> := [USER_IP4, USER_PORT]
  const FIELDS6: seq<int> := [USER_IP6, USER_IP6 + 4, USER_IP6 + 8, USER_IP6 + 12, USER_PORT]

  /** `connect4` and `connect6` of the routing control, with map descriptor `fd` in the lookup. */
  function MapConnect4(fd: int): seq<Insn> {
    Prologue(8) + (CopyFields(FIELDS4, -8) + LookupTail(fd))
  }

  function MapConnect6(fd: int): seq<Insn> {
    Prologue(24) + (CopyFields(FIELDS6, -24) + LookupTail(fd))
  }

  /** `part` stands in `prog` at `at`. */
  predicate StandsAt(prog: seq<Insn>, at: nat, part: seq<Insn>) {
    at + |part| <= |prog| && prog[at..at + |part|] == part
  }

  lemma {:induction false} StandsSplit(prog: seq<Insn>, at: nat, first: seq<Insn>, second: seq<Insn>)
    requires StandsAt(prog, at, first + second)
    ensures StandsAt(prog, at, first) && StandsAt(prog, at + |first|, second)
  {
    var whole := prog[at..at + |first| + |second|];
    assert prog[at..at + |first|] == whole[..|first|];
    assert prog[at + |first|..at + |first| + |second|] == whole[|first|..];
  }

  lemma {:induction false} StandsText(prog: seq<Insn>, at: nat, part: seq<Insn>, i: nat)
    requires StandsAt(prog, at, part) && i < |part|
    ensures prog[at + i] == part[i]
  {
    assert prog[at + i] == prog[at..at + |part|][i];
  }

  lemma {:induction false} PrologueRuns(prog: seq<Insn>, ctx: SockAddr, maps: Maps, size: int, budget: nat)
    requires StandsAt(prog, 0, Prologue(size)) && budget >= 3
    ensures Run(prog, ctx, maps, ENTRY, budget)
         == Run(prog, ctx, maps, Machine(3, ENTRY.regs[6 := ContextPtr][2 := StackPtr(-size)], map[]), budget - 3)
  {
    hide Run;
    StandsText(prog, 0, Prologue(size), 0);
    StandsText(prog, 0, Prologue(size), 1);
    StandsText(prog, 0, Prologue(size), 2);
    var regs1 := ENTRY.regs[6 := ContextPtr];
    var regs2 := regs1[2 := StackPtr(0)];
    var regs3 := regs1[2 := StackPtr(-size)];
    assert regs2[2 := StackPtr(-size)] == regs3;
    Advance(prog, ctx, maps, ENTRY, Machine(1, regs1, map[]), budget);
    Advance(prog, ctx, maps, Machine(1, regs1, map[]), Machine(2, regs2, map[]), budget - 1);
    Advance(prog, ctx, maps, Machine(2, regs2, map[]), Machine(3, regs3, map[]), budget - 2);
  }

  /** The registers the copy loop relies on and keeps. */
  predicate Framed(m: Machine) {
    Valid(m) && m.regs[6] == ContextPtr && m.regs[10] == StackPtr(0)
  }

  predicate FieldWords(ctx: SockAddr, offsets: seq<int>, words: seq<U32>) {
    |offsets| == |words| && forall i :: 0 <= i < |offsets| ==> LoadContext(ctx, offsets[i]) == Some(words[i])
  }

  /** State after the copies: only r3, the stack and the counter have changed. */
  function AfterCopies(m: Machine, at: int, words: seq<U32>): (r: Machine)
    requires Framed(m)
    ensures Framed(r) && r.pc == m.pc + 2 * |words| && r.regs[2] == m.regs[2]
    ensures r.stack == StoreWords(m.stack, at, words)
    decreases |words|
  {
    if words == [] then m
    else
      AfterCopies(Machine(m.pc + 2, m.regs[3 := Scalar(words[0])], StoreWord(m.stack, at, words[0])), at + 4, words[1..])
  }

  lemma {:induction false} CopiesRun(prog: seq<Insn>, ctx: SockAddr, maps: Maps, m: Machine, offsets: seq<int>,
      at: int, words: seq<U32>, budget: nat)
    requires Framed(m) && FieldWords(ctx, offsets, words)
    requires StandsAt(prog, m.pc, CopyFields(offsets, at))
    requires -STACK_BYTES <= at && at + 4 * |words| <= 0 && budget >= 2 * |words|
    ensures Run(prog, ctx, maps, m, budget) == Run(prog, ctx, maps, AfterCopies(m, at, words), budget - 2 * |words|)
    decreases |words|
  {
    hide Run, LoadContext, StoreWord, LittleEndian;
    if words != [] {
      var pair := [Insn(LDX_W, 3, 6, offsets[0], 0), Insn(STX_W, 10, 3, at, 0)];
      StandsSplit(prog, m.pc, pair, CopyFields(offsets[1..], at + 4));
      StandsText(prog, m.pc, pair, 0);
      StandsText(prog, m.pc, pair, 1);
      var loaded := Machine(m.pc + 1, m.regs[3 := Scalar(words[0])], m.stack);
      var stored := Machine(m.pc + 2, loaded.regs, StoreWord(m.stack, at, words[0]));
      assert words[0] % TWO32 == words[0];
      Advance(prog, ctx, maps, m, loaded, budget);
      Advance(prog, ctx, maps, loaded, stored, budget - 1);
      CopiesRun(prog, ctx, maps, stored, offsets[1..], at + 4, words[1..], budget - 2);
    }
  }

  /** The lookup, the branch on its result and the exit. */
  lemma {:induction false} LookupRuns(prog: seq<Insn>, ctx: SockAddr, maps: Maps, m: Machine, fd: int, at: int,
      budget: nat)
    requires Valid(m) && StandsAt(prog, m.pc, LookupTail(fd)) && budget >= 5
    requires m.regs[2] == StackPtr(at) && fd in maps && Written(m.stack, at, maps[fd].keySize)
    ensures Run(prog, ctx, maps, m, budget)
         == Some(if ReadBytes(m.stack, at, maps[fd].keySize) in maps[fd].keys then 1 else 0)
  {
    hide Run, ReadBytes, Written;
    var pc, tail := m.pc, LookupTail(fd);
    StandsText(prog, pc, tail, 0);
    StandsText(prog, pc, tail, 2);
    StandsText(prog, pc, tail, 3);
    StandsText(prog, pc, tail, 4);
    StandsText(prog, pc, tail, 5);
    var found := ReadBytes(m.stack, at, maps[fd].keySize) in maps[fd].keys;
    var withMap := m.regs[1 := MapPtr(fd)];
    var looked := withMap[0 := if found then MapValuePtr else Scalar(0)][1 := Unset][2 := Unset][3 := Unset][4 := Unset][5 := Unset];
    Advance(prog, ctx, maps, m, Machine(pc + 2, withMap, m.stack), budget);
    Advance(prog, ctx, maps, Machine(pc + 2, withMap, m.stack), Machine(pc + 3, looked, m.stack), budget - 1);
    if found {
      Advance(prog, ctx, maps, Machine(pc + 3, looked, m.stack), Machine(pc + 4, looked, m.stack), budget - 2);
      Advance(prog, ctx, maps, Machine(pc + 4, looked, m.stack), Machine(pc + 5, looked[0 := Scalar(1)], m.stack), budget - 3);
      Stop(prog, ctx, maps, Machine(pc + 5, looked[0 := Scalar(1)], m.stack), 1, budget - 4);
    } else {
      Advance(prog, ctx, maps, Machine(pc + 3, looked, m.stack), Machine(pc + 5, looked, m.stack), budget - 2);
      Stop(prog, ctx, maps, Machine(pc + 5, looked, m.stack), 0, budget - 3);
    }
  }

  /** Prologue, copies and lookup: the program answers whether the copied key is in the map. */
  lemma {:induction false} MapProgramRuns(prog: seq<Insn>, ctx: SockAddr, maps: Maps, size: int, offsets: seq<int>,
      words: seq<U32>, fd: int)
    requires prog == Prologue(size) + (CopyFields(offsets, -size) + LookupTail(fd))
    requires FieldWords(ctx, offsets, words) && 4 * |words| <= size <= STACK_BYTES
    requires fd in maps && maps[fd].keySize == 4 * |words|
    ensures Verdict(prog, ctx, maps) == Some(if KeyBytes(words) in maps[fd].keys then 1 else 0)
  {
    hide Run, Prologue, CopyFields, LookupTail, AfterCopies, ReadBytes, Written, LoadContext;
    var copies, tail := CopyFields(offsets, -size), LookupTail(fd);
    assert StandsAt(prog, 0, Prologue(size) + (copies + tail));
    StandsSplit(prog, 0, Prologue(size), copies + tail);
    StandsSplit(prog, 3, copies, tail);
    var budget := |prog|;
    PrologueRuns(prog, ctx, maps, size, budget);
    var m := Machine(3, ENTRY.regs[6 := ContextPtr][2 := StackPtr(-size)], map[]);
    CopiesRun(prog, ctx, maps, m, offsets, -size, words, budget - 3);
    var after := AfterCopies(m, -size, words);
    StoredKey(map[], -size, words);
    LookupRuns(prog, ctx, maps, after, fd, -size, budget - 3 - 2 * |words|);
  }

  /** The one-entry map the control creates. */
  function OneKey(words: seq<U32>): EndpointMap {
    EndpointMap(4 * |words|, {KeyBytes(words)})
  }

  /** The routing IPv4 program allows exactly the registered address and port. */
  lemma {:induction false} MapConnect4Exact(ctx: SockAddr, maps: Maps, fd: int, address: U32, port: U32)
    requires fd in maps && maps[fd] == OneKey([address, port])
    ensures Verdict(MapConnect4(fd), ctx, maps)
         == Some(if ctx.userIp4 == address && ctx.userPort == port then 1 else 0)
  {
    hide Verdict, KeyBytes, Prologue, CopyFields, LookupTail;
    var words: seq<U32> := [ctx.userIp4, ctx.userPort];
    MapProgramRuns(MapConnect4(fd), ctx, maps, 8, FIELDS4, words, fd);
    KeyBytesInjective(words, [address, port]);
  }

  /** The routing IPv6 program allows exactly the registered address and port. */
  lemma {:induction false} MapConnect6Exact(ctx: SockAddr, maps: Maps, fd: int, address: seq<U32>, port: U32)
    requires |ctx.userIp6| == 4 && |address| == 4
    requires fd in maps && maps[fd] == OneKey(address + [port])
    ensures Verdict(MapConnect6(fd), ctx, maps)
         == Some(if ctx.userIp6 == address && ctx.userPort == port then 1 else 0)
  {
    hide Verdict, KeyBytes, Prologue, CopyFields, LookupTail;
    var words: seq<U32> := ctx.userIp6 + [ctx.userPort];
    MapProgramRuns(MapConnect6(fd), ctx, maps, 24, FIELDS6, words, fd);
    KeyBytesInjective(words, address + [port]);
    assert words[..4] == ctx.userIp6 && (address + [port])[..4] == address;
  }

  // ---- patch_map_fd ----

  predicate UnpatchedReference(i: Insn) {
    i.code == LD_IMM_DW && i.src == PSEUDO_MAP_FD && i.imm == 0
  }

  function References(prog: seq<Insn>): nat {
    if prog == [] then 0
    else
      var front := prog[..|prog| - 1];
      References(front) + if UnpatchedReference(prog[|prog| - 1]) then 1 else 0
  }

  function Patched(prog: seq<Insn>, fd: int): (r: seq<Insn>)
    ensures |r| == |prog|
  {
    seq(|prog|, k requires 0 <= k < |prog| => if UnpatchedReference(prog[k]) then prog[k].(imm := fd) else prog[k])
  }

  /** `patch_map_fd`: every open reference is filled in place; success means there was exactly one. */
  method PatchMapFd(instructions: array<Insn>, fd: int) returns (r: int)
    modifies instructions
    ensures instructions[..] == Patched(old(instructions[..]), fd)
    ensures r == if References(old(instructions[..])) == 1 then 0 else -1
  {
    var matches := 0;
    ghost var before := instructions[..];
    for index := 0 to instructions.Length
      invariant matches == References(before[..index])
      invariant forall k :: 0 <= k < index ==> instructions[k] == Patched(before, fd)[k]
      invariant forall k :: index <= k < instructions.Length ==> instructions[k] == before[k]
    {
      assert before[..index + 1][..index] == before[..index];
      if instructions[index].code == LD_IMM_DW && instructions[index].src == PSEUDO_MAP_FD && instructions[index].imm == 0 {
        instructions[index] := instructions[index].(imm := fd);
        matches := matches + 1;
      }
    }
    assert before[..instructions.Length] == before;
    r := if matches == 1 then 0 else -1;
  }

  lemma {:induction false} NoReferences(prog: seq<Insn>)
    requires forall i :: 0 <= i < |prog| ==> !UnpatchedReference(prog[i])
    ensures References(prog) == 0
  {
    if prog != [] {
      NoReferences(prog[..|prog| - 1]);
    }
  }

  lemma {:induction false} OneReference(prog: seq<Insn>, k: nat)
    requires k < |prog| && UnpatchedReference(prog[k])
    requires forall i :: 0 <= i < |prog| && i != k ==> !UnpatchedReference(prog[i])
    ensures References(prog) == 1
    decreases |prog|
  {
    var front := prog[..|prog| - 1];
    if k == |prog| - 1 {
      NoReferences(front);
    } else {
      OneReference(front, k);
    }
  }

  lemma {:induction false} CopyFieldsCode(offsets: seq<int>, at: int, k: nat)
    requires k < |CopyFields(offsets, at)|
    ensures CopyFields(offsets, at)[k].code == LDX_W || CopyFields(offsets, at)[k].code == STX_W
    decreases |offsets|
  {
    if k >= 2 {
      CopyFieldsCode(offsets[1..], at + 4, k - 2);
    }
  }

  /** The shipped programs have one open map reference, and patching fills that one. */
  lemma {:induction false} MapProgramPatches(size: int, offsets: seq<int>, fd: int)
    ensures var open := Prologue(size) + (CopyFields(offsets, -size) + LookupTail(0));
            && References(open) == 1
            && Patched(open, fd) == Prologue(size) + (CopyFields(offsets, -size) + LookupTail(fd))
  {
    hide CopyFields;
    var copies := CopyFields(offsets, -size);
    var open := Prologue(size) + (copies + LookupTail(0));
    var at := 3 + |copies|;
    forall i | 0 <= i < |open|
      ensures UnpatchedReference(open[i]) <==> i == at
    {
      if 3 <= i < at {
        CopyFieldsCode(offsets, -size, i - 3);
        assert open[i] == copies[i - 3];
      } else if i >= at {
        assert open[i] == LookupTail(0)[i - at];
      } else {
        assert open[i] == Prologue(size)[i];
      }
    }
    OneReference(open, at);
  }

  /** Text with an open reference, patched in place, then run: the whole path of the routing control. */
  lemma {:induction false} PatchedConnect4Exact(ctx: SockAddr, maps: Maps, fd: int, address: U32, port: U32)
    requires fd in maps && maps[fd] == OneKey([address, port])
    ensures References(MapConnect4(0)) == 1
    ensures Verdict(Patched(MapConnect4(0), fd), ctx, maps)
         == Some(if ctx.userIp4 == address && ctx.userPort == port then 1 else 0)
  {
    hide Verdict, References, Patched, OneKey;
    MapProgramPatches(8, FIELDS4, fd);
    MapConnect4Exact(ctx, maps, fd, address, port);
  }

  lemma {:induction false} PatchedConnect6Exact(ctx: SockAddr, maps: Maps, fd: int, address: seq<U32>, port: U32)
    requires |ctx.userIp6| == 4 && |address| == 4
    requires fd in maps && maps[fd] == OneKey(address + [port])
    ensures References(MapConnect6(0)) == 1
    ensures Verdict(Patched(MapConnect6(0), fd), ctx, maps)
         == Some(if ctx.userIp6 == address && ctx.userPort == port then 1 else 0)
  {
    hide Verdict, References, Patched, OneKey;
    MapProgramPatches(24, FIELDS6, fd);
    MapConnect6Exact(ctx, maps, fd, address, port);
  }

  // ---- the immediate-compare programs ----

  /** `(int32_t)value`. */
  function AsInt32(n: U32): int {
    if n < 0x8000_0000 then n else n - TWO32
  }

  function ImmediateConnect4(address: U32, port: U32): seq<Insn> {
    [ Insn(MOV64_IMM, 0, 0, 0, 0),
      Insn(LDX_W, 2, 1, USER_IP4, 0),
      Insn(JNE_IMM, 2, 0, 3, AsInt32(address)),
      Insn(LDX_W, 2, 1, USER_PORT, 0),
      Insn(JNE_IMM, 2, 0, 1, AsInt32(port)),
      Insn(MOV64_IMM, 0, 0, 0, 1),
      Insn(EXIT, 0, 0, 0, 0) ]
  }

  const IMMEDIATE_CONNECT6: seq<Insn> := [Insn(MOV64_IMM, 0, 0, 0, 0), Insn(EXIT, 0, 0, 0, 0)]

  /** A zero-extended word equals the sign-extended immediate of `n` only if bit 31 of `n` is clear. */
  lemma {:induction false} SignExtensionCompare(word: U32, n: U32)
    ensures word == SignExtend(AsInt32(n)) <==> word == n && n < 0x8000_0000
  {
  }

  /**
   * The immediate-compare program allows the registered tuple only when bit 31 of the address
   * word is clear; otherwise sign extension makes it deny everything.
   */
  lemma {:induction false} ImmediateConnect4Exact(ctx: SockAddr, maps: Maps, address: U32, port: U32)
    requires port < 0x1_0000
    ensures Verdict(ImmediateConnect4(address, port), ctx, maps)
         == Some(if ctx.userIp4 == address && ctx.userPort == port && address < 0x8000_0000 then 1 else 0)
  {
    hide Run, SignExtend, AsInt32;
    var prog := ImmediateConnect4(address, port);
    var zero: map<int, Byte> := map[];
    assert SignExtend(0) == 0 && SignExtend(1) == 1 by { SmallImmediates(); }
    SignExtensionCompare(ctx.userIp4, address);
    SignExtensionCompare(ctx.userPort, port);
    var r0 := ENTRY.regs[0 := Scalar(0)];
    var r1 := r0[2 := Scalar(ctx.userIp4)];
    var r2 := r1[2 := Scalar(ctx.userPort)];
    Advance(prog, ctx, maps, ENTRY, Machine(1, r0, zero), 7);
    Advance(prog, ctx, maps, Machine(1, r0, zero), Machine(2, r1, zero), 6);
    if ctx.userIp4 != SignExtend(AsInt32(address)) {
      Advance(prog, ctx, maps, Machine(2, r1, zero), Machine(6, r1, zero), 5);
      Stop(prog, ctx, maps, Machine(6, r1, zero), 0, 4);
    } else {
      Advance(prog, ctx, maps, Machine(2, r1, zero), Machine(3, r1, zero), 5);
      Advance(prog, ctx, maps, Machine(3, r1, zero), Machine(4, r2, zero), 4);
      if ctx.userPort != SignExtend(AsInt32(port)) {
        Advance(prog, ctx, maps, Machine(4, r2, zero), Machine(6, r2, zero), 3);
        Stop(prog, ctx, maps, Machine(6, r2, zero), 0, 2);
      } else {
        var r3 := r2[0 := Scalar(1)];
        Advance(prog, ctx, maps, Machine(4, r2, zero), Machine(5, r2, zero), 3);
        Advance(prog, ctx, maps, Machine(5, r2, zero), Machine(6, r3, zero), 2);
        Stop(prog, ctx, maps, Machine(6, r3, zero), 1, 1);
      }
    }
  }

  lemma {:induction false} SmallImmediates()
    ensures SignExtend(0) == 0 && SignExtend(1) == 1
  {
  }

  lemma {:induction false} ImmediateConnect6Denies(ctx: SockAddr, maps: Maps)
    ensures Verdict(IMMEDIATE_CONNECT6, ctx, maps) == Some(0)
  {
    hide Run;
    var r0 := ENTRY.regs[0 := Scalar(0)];
    Advance(IMMEDIATE_CONNECT6, ctx, maps, ENTRY, Machine(1, r0, map[]), 2);
    Stop(IMMEDIATE_CONNECT6, ctx, maps, Machine(1, r0, map[]), 0, 1);
  }

  /** The two IPv4 controls agree on every tuple exactly when bit 31 of the allowed address word is clear. */
  lemma {:induction false} ControlsAgreeExactly(maps: Maps, fd: int, address: U32, port: U32)
    requires port < 0x1_0000 && fd in maps && maps[fd] == OneKey([address, port])
    ensures (forall ctx :: Verdict(ImmediateConnect4(address, port), ctx, maps) == Verdict(MapConnect4(fd), ctx, maps))
       <==> address < 0x8000_0000
  {
    hide Verdict, ImmediateConnect4, MapConnect4, OneKey;
    forall ctx
      ensures Verdict(ImmediateConnect4(address, port), ctx, maps)
           == Some(if ctx.userIp4 == address && ctx.userPort == port && address < 0x8000_0000 then 1 else 0)
      ensures Verdict(MapConnect4(fd), ctx, maps) == Some(if ctx.userIp4 == address && ctx.userPort == port then 1 else 0)
    {
      ImmediateConnect4Exact(ctx, maps, address, port);
      MapConnect4Exact(ctx, maps, fd, address, port);
    }
    var registered := SockAddr(address, [], port);
    assert Verdict(MapConnect4(fd), registered, maps) == Some(1);
  }
}
