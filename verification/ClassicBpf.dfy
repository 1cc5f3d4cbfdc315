/** A classic BPF machine as seccomp runs it: forward jumps, one accumulator, 32-bit words. */
module ClassicBpf {
  import opened Common

  type Word = bv32

  /** `struct seccomp_data` as its sixteen little-endian 32-bit words. */
  type SeccompData = d: seq<Word> | |d| == 16 witness seq(16, _ => 0)

  const NR_OFFSET := 0
  const ARCH_OFFSET := 4
  const ARG0_OFFSET := 16
  const ARG1_OFFSET := 24

  datatype Insn =
    | LoadWord(offset: nat)
    | AndK(mask: Word)
    | JumpEq(k: Word, jt: nat, jf: nat)
    | Return(verdict: Word)

  type Program = seq<Insn>

  datatype State = State(pc: nat, acc: Word)

  datatype Outcome = Next(state: State) | Halt(verdict: Word) | Fault

  const START := State(0, 0)

  /** One instruction; leaving the program or loading outside the data is a fault. */
  function Step(prog: Program, data: SeccompData, s: State): (r: Outcome)
    ensures r.Next? ==> r.state.pc > s.pc
  {
    if s.pc >= |prog| then Fault
    else
      match prog[s.pc]
      case LoadWord(offset) =>
        if offset % 4 == 0 && offset / 4 < 16 then Next(State(s.pc + 1, data[offset / 4])) else Fault
      case AndK(mask) => Next(State(s.pc + 1, s.acc & mask))
      case JumpEq(k, jt, jf) => Next(State(s.pc + 1 + if s.acc == k then jt else jf, s.acc))
      case Return(verdict) => Halt(verdict)
  }

  /** Run to the end: the verdict, or none on a fault. */
  function Run(prog: Program, data: SeccompData, s: State): (r: Option<Word>)
    decreases if s.pc < |prog| then |prog| - s.pc else 0
  {
    if s.pc >= |prog| then None
    else
      match Step(prog, data, s)
      case Next(next) => Run(prog, data, next)
      case Halt(verdict) => Some(verdict)
      case Fault => None
  }

  /** One executed instruction of a run. */
  lemma {:induction false} Advance(prog: Program, data: SeccompData, s: State, next: State)
    requires Step(prog, data, s) == Next(next)
    ensures Run(prog, data, s) == Run(prog, data, next)
  {
  }

  lemma {:induction false} Stop(prog: Program, data: SeccompData, s: State, verdict: Word)
    requires Step(prog, data, s) == Halt(verdict)
    ensures Run(prog, data, s) == Some(verdict)
  {
  }

  /** The state after `n` instructions, while the program runs. */
  function After(prog: Program, data: SeccompData, n: nat): (r: Option<State>) {
    if n == 0 then Some(START)
    else
      var before := After(prog, data, n - 1);
      if before.None? then None
      else
        var step := Step(prog, data, before.value);
        if step.Next? then Some(step.state) else None
  }

  /** A program of n instructions executes at most n of them. */
  lemma {:induction false} HaltsWithinLength(prog: Program, data: SeccompData, n: nat)
    ensures After(prog, data, n).Some? ==> After(prog, data, n).value.pc >= n
    ensures n > |prog| ==> After(prog, data, n).None?
  {
    if n > 0 {
      HaltsWithinLength(prog, data, n - 1);
    }
  }

  /**
   * A static check on the program text: `holds(pc)` marks places where the accumulator must be
   * the system call number. Only a load of the number, or a jump from such a place, may lead there.
   */
  predicate TracksAt(insn: Insn, holds: nat -> bool, pc: nat) {
    match insn
    case LoadWord(offset) => holds(pc + 1) ==> offset == NR_OFFSET
    case AndK(_) => !holds(pc + 1)
    case JumpEq(_, jt, jf) => holds(pc + 1 + jt) || holds(pc + 1 + jf) ==> holds(pc)
    case Return(_) => true
  }

  predicate Tracks(prog: Program, holds: nat -> bool) {
    !holds(0) && forall pc :: 0 <= pc < |prog| ==> TracksAt(prog[pc], holds, pc)
  }

  /** The static check is sound: every reachable state at a marked place holds the number. */
  lemma {:induction false} TracksSound(prog: Program, data: SeccompData, holds: nat -> bool, n: nat)
    requires Tracks(prog, holds)
    ensures After(prog, data, n).Some? && holds(After(prog, data, n).value.pc) ==>
              After(prog, data, n).value.acc == data[NR_OFFSET / 4]
  {
    if n > 0 {
      TracksSound(prog, data, holds, n - 1);
    }
  }
}

/** The three child filters, built from their common blocks, against declarative policies. */
module SeccompFilters {
  import opened Common
  import opened ClassicBpf

  const KILL_PROCESS: Word := 0x8000_0000
  const ALLOW: Word := 0x7FFF_0000
  /** `SECCOMP_RET_ERRNO | (EPERM & SECCOMP_RET_DATA)`. */
  const DENY: Word := 0x0005_0001

  const F_DUPFD: Word := 0
  const F_DUPFD_CLOEXEC: Word := 1030
  const AF_INET: Word := 2
  const AF_INET6: Word := 10
  const SOCK_STREAM: Word := 1
  const SOCK_TYPE_MASK: Word := 0xF

  datatype Syscall =
    | Socket | Socketpair | Connect | Bind | Listen | Accept | Accept4
    | Sendto | Recvfrom | Sendmsg | Recvmsg | Sendmmsg | Recvmmsg
    | Setsockopt | Getsockopt | Getpeername | Getsockname
    | Dup | Dup2 | Dup3 | Fcntl | PidfdGetfd
    | IoUringSetup | IoUringEnter | IoUringRegister

  /** System calls a platform may lack (`#ifdef __NR_...`). */
  const OPTIONAL: set<Syscall> :=
    {Accept4, Sendmmsg, Recvmmsg, Dup2, Dup3, PidfdGetfd, IoUringSetup, IoUringEnter, IoUringRegister}

  /** A target platform: its audit architecture and the numbers its headers define. */
  datatype Platform = Platform(arch: Word, numbers: map<Syscall, Word>)

  predicate Compiles(p: Platform) {
    forall s: Syscall :: s in OPTIONAL || s in p.numbers
  }

  // ---- program text ----

  function Header(arch: Word): (r: Program)
    ensures |r| == 4
  {
    [LoadWord(ARCH_OFFSET), JumpEq(arch, 1, 0), Return(KILL_PROCESS), LoadWord(NR_OFFSET)]
  }

  /** A run of `DENY_SYSCALL` blocks. */
  function DenyBlocks(numbers: seq<Word>): (r: Program)
    ensures |r| == 2 * |numbers|
  {
    if numbers == [] then [] else [JumpEq(numbers[0], 0, 1), Return(DENY)] + DenyBlocks(numbers[1..])
  }

  /** The numbers of the listed calls that the platform defines, in list order. */
  function Defined(p: Platform, calls: seq<Syscall>): (r: seq<Word>) {
    if calls == [] then []
    else (if calls[0] in p.numbers then [p.numbers[calls[0]]] else []) + Defined(p, calls[1..])
  }

  function FcntlBlock(fcntl: Word): (r: Program)
    ensures |r| == 7
  {
    [ JumpEq(fcntl, 0, 5),
      LoadWord(ARG1_OFFSET),
      JumpEq(F_DUPFD, 0, 1),
      Return(DENY),
      JumpEq(F_DUPFD_CLOEXEC, 0, 1),
      Return(DENY),
      LoadWord(NR_OFFSET) ]
  }

  function SocketBlock(socket: Word): (r: Program)
    ensures |r| == 10
  {
    [ JumpEq(socket, 0, 8),
      LoadWord(ARG0_OFFSET),
      JumpEq(AF_INET, 1, 0),
      JumpEq(AF_INET6, 0, 3),
      LoadWord(ARG1_OFFSET),
      AndK(SOCK_TYPE_MASK),
      JumpEq(SOCK_STREAM, 1, 0),
      Return(DENY),
      Return(ALLOW),
      LoadWord(NR_OFFSET) ]
  }

  const BROKER_CALLS: seq<Syscall> :=
    [ Socket, Socketpair, Connect, Bind, Listen, Accept, Accept4,
      Sendto, Recvfrom, Sendmsg, Recvmsg, Sendmmsg, Recvmmsg,
      Setsockopt, Getsockopt, Getpeername, Getsockname,
      IoUringSetup, IoUringEnter, IoUringRegister ]

  const PRECONNECTED_CALLS: seq<Syscall> :=
    [ Socket, Socketpair, Connect, Bind, Listen, Accept, Accept4,
      Sendto, Recvfrom, Sendmsg, Recvmsg, Sendmmsg, Recvmmsg,
      Setsockopt, Getsockopt, Getpeername, Getsockname,
      Dup, Dup2, Dup3 ]

  const PRECONNECTED_LATE_CALLS: seq<Syscall> := [PidfdGetfd, IoUringSetup, IoUringEnter, IoUringRegister]

  const ROUTING_CALLS: seq<Syscall> :=
    [ Socketpair, Bind, Listen, Accept, Accept4,
      Sendto, Recvfrom, Sendmsg, Recvmsg, Sendmmsg, Recvmmsg,
      IoUringSetup, IoUringEnter, IoUringRegister ]

  function BrokerFilter(p: Platform): Program {
    Header(p.arch) + (DenyBlocks(Defined(p, BROKER_CALLS)) + [Return(ALLOW)])
  }

  function PreconnectedFilter(p: Platform): Program
    requires Compiles(p)
  {
    Header(p.arch)
    + (DenyBlocks(Defined(p, PRECONNECTED_CALLS))
       + (FcntlBlock(p.numbers[Fcntl])
          + (DenyBlocks(Defined(p, PRECONNECTED_LATE_CALLS)) + [Return(ALLOW)])))
  }

  function RoutingFilter(p: Platform): Program
    requires Compiles(p)
  {
    Header(p.arch)
    + (SocketBlock(p.numbers[Socket])
       + (DenyBlocks(Defined(p, ROUTING_CALLS)) + [Return(ALLOW)]))
  }

  // ---- policies ----

  predicate IsCall(p: Platform, data: SeccompData, s: Syscall) {
    s in p.numbers && p.numbers[s] == data[NR_OFFSET / 4]
  }

  predicate IsAnyOf(p: Platform, data: SeccompData, calls: seq<Syscall>) {
    exists s :: s in calls && IsCall(p, data, s)
  }

  /** The calls that only hand descriptors on. */
  predicate HandsOn(s: Syscall) {
    s.Dup? || s.Dup2? || s.Dup3? || s.Fcntl? || s.PidfdGetfd?
  }

  /** The calls a stream socket needs to connect and be inspected. */
  predicate Connects(s: Syscall) {
    s.Socket? || s.Connect? || s.Setsockopt? || s.Getsockopt? || s.Getpeername? || s.Getsockname?
  }

  /** Words 0, 1, 4 and 6 of the call record: number, architecture, and the low halves of two arguments. */
  function BrokerPolicy(p: Platform, data: SeccompData): Word {
    if data[1] != p.arch then 0x8000_0000
    else if exists s :: IsCall(p, data, s) && !HandsOn(s) then 0x0005_0001
    else 0x7FFF_0000
  }

  /** Everything but `fcntl`, and `fcntl` when it duplicates (commands 0 and 1030). */
  function PreconnectedPolicy(p: Platform, data: SeccompData): Word {
    if data[1] != p.arch then 0x8000_0000
    else if exists s :: IsCall(p, data, s) && s != Fcntl then 0x0005_0001
    else if IsCall(p, data, Fcntl) && (data[6] == 0 || data[6] == 1030) then 0x0005_0001
    else 0x7FFF_0000
  }

  /** `socket` only for families 2 and 10 with stream type; of the rest, what connects or hands on. */
  function RoutingPolicy(p: Platform, data: SeccompData): Word {
    if data[1] != p.arch then 0x8000_0000
    else if IsCall(p, data, Socket) then
      if (data[4] == 2 || data[4] == 10) && data[6] & 0xF == 1 then 0x7FFF_0000 else 0x0005_0001
    else if exists s :: IsCall(p, data, s) && !Connects(s) && !HandsOn(s) then 0x0005_0001
    else 0x7FFF_0000
  }

  predicate InetStream(data: SeccompData) {
    && (data[ARG0_OFFSET / 4] == AF_INET || data[ARG0_OFFSET / 4] == AF_INET6)
    && data[ARG1_OFFSET / 4] & SOCK_TYPE_MASK == SOCK_STREAM
  }

  // ---- the lists are those kinds of calls ----

  lemma {:induction false} BrokerKind(s: Syscall)
    ensures s in BROKER_CALLS <==> !HandsOn(s)
  {
    match s {
      case Socket | Socketpair | Connect | Bind | Listen | Accept | Accept4 =>
      case Sendto | Recvfrom | Sendmsg | Recvmsg | Sendmmsg | Recvmmsg =>
      case Setsockopt | Getsockopt | Getpeername | Getsockname =>
      case Dup | Dup2 | Dup3 | Fcntl | PidfdGetfd =>
      case IoUringSetup | IoUringEnter | IoUringRegister =>
    }
  }

  lemma {:induction false} PreconnectedKind(s: Syscall)
    ensures s in PRECONNECTED_CALLS || s in PRECONNECTED_LATE_CALLS <==> s != Fcntl
  {
    match s {
      case Socket | Socketpair | Connect | Bind | Listen | Accept | Accept4 =>
      case Sendto | Recvfrom | Sendmsg | Recvmsg | Sendmmsg | Recvmmsg =>
      case Setsockopt | Getsockopt | Getpeername | Getsockname =>
      case Dup | Dup2 | Dup3 | Fcntl | PidfdGetfd =>
      case IoUringSetup | IoUringEnter | IoUringRegister =>
    }
  }

  lemma {:induction false} RoutingKind(s: Syscall)
    ensures s in ROUTING_CALLS <==> !Connects(s) && !HandsOn(s)
  {
    match s {
      case Socket | Socketpair | Connect | Bind | Listen | Accept | Accept4 =>
      case Sendto | Recvfrom | Sendmsg | Recvmsg | Sendmmsg | Recvmmsg =>
      case Setsockopt | Getsockopt | Getpeername | Getsockname =>
      case Dup | Dup2 | Dup3 | Fcntl | PidfdGetfd =>
      case IoUringSetup | IoUringEnter | IoUringRegister =>
    }
  }

  lemma {:induction false} BrokerCallsExact(p: Platform, data: SeccompData)
    ensures IsAnyOf(p, data, BROKER_CALLS) <==> exists s :: IsCall(p, data, s) && !HandsOn(s)
  {
    hide BROKER_CALLS, HandsOn;
    forall s ensures s in BROKER_CALLS <==> !HandsOn(s) {
      BrokerKind(s);
    }
  }

  lemma {:induction false} PreconnectedCallsExact(p: Platform, data: SeccompData)
    ensures IsAnyOf(p, data, PRECONNECTED_CALLS) || IsAnyOf(p, data, PRECONNECTED_LATE_CALLS)
       <==> exists s :: IsCall(p, data, s) && s != Fcntl
  {
    hide PRECONNECTED_CALLS, PRECONNECTED_LATE_CALLS;
    forall s ensures s in PRECONNECTED_CALLS || s in PRECONNECTED_LATE_CALLS <==> s != Fcntl {
      PreconnectedKind(s);
    }
  }

  lemma {:induction false} RoutingCallsExact(p: Platform, data: SeccompData)
    ensures IsAnyOf(p, data, ROUTING_CALLS) <==> exists s :: IsCall(p, data, s) && !Connects(s) && !HandsOn(s)
  {
    hide ROUTING_CALLS, HandsOn, Connects;
    forall s ensures s in ROUTING_CALLS <==> !Connects(s) && !HandsOn(s) {
      RoutingKind(s);
    }
  }

  // ---- blocks, wherever they stand ----

  /** `block` stands in `prog` at `at`. */
  predicate StandsAt(prog: Program, at: nat, block: Program) {
    at + |block| <= |prog| && prog[at..at + |block|] == block
  }

  lemma {:induction false} StandsSplit(prog: Program, at: nat, first: Program, second: Program)
    requires StandsAt(prog, at, first + second)
    ensures StandsAt(prog, at, first) && StandsAt(prog, at + |first|, second)
    ensures forall i :: 0 <= i < |first| ==> prog[at + i] == first[i]
  {
    var whole := prog[at..at + |first| + |second|];
    assert prog[at..at + |first|] == whole[..|first|];
    assert prog[at + |first|..at + |first| + |second|] == whole[|first|..];
    forall i | 0 <= i < |first| ensures prog[at + i] == first[i] {
      assert prog[at + i] == whole[i];
    }
  }

  lemma {:induction false} HeaderRuns(prog: Program, data: SeccompData, arch: Word)
    requires 4 <= |prog| && forall i :: 0 <= i < 4 ==> prog[i] == Header(arch)[i]
    ensures Run(prog, data, START)
         == if data[ARCH_OFFSET / 4] == arch then Run(prog, data, State(4, data[NR_OFFSET / 4])) else Some(KILL_PROCESS)
  {
    hide Run;
    var archWord, nr := data[ARCH_OFFSET / 4], data[NR_OFFSET / 4];
    assert prog[0] == LoadWord(ARCH_OFFSET) && prog[1] == JumpEq(arch, 1, 0);
    assert prog[2] == Return(KILL_PROCESS) && prog[3] == LoadWord(NR_OFFSET);
    Advance(prog, data, START, State(1, archWord));
    if archWord == arch {
      Advance(prog, data, State(1, archWord), State(3, archWord));
      Advance(prog, data, State(3, archWord), State(4, nr));
    } else {
      Advance(prog, data, State(1, archWord), State(2, archWord));
      Stop(prog, data, State(2, archWord), KILL_PROCESS);
    }
  }

  /** A run of deny blocks entered with the number in the accumulator. */
  lemma {:induction false} DenyRuns(prog: Program, data: SeccompData, at: nat, numbers: seq<Word>)
    requires StandsAt(prog, at, DenyBlocks(numbers))
    ensures var nr := data[NR_OFFSET / 4];
            Run(prog, data, State(at, nr))
            == if nr in numbers then Some(DENY) else Run(prog, data, State(at + 2 * |numbers|, nr))
    decreases |numbers|
  {
    hide Run;
    var nr := data[NR_OFFSET / 4];
    if numbers != [] {
      var block: Program := [JumpEq(numbers[0], 0, 1), Return(DENY)];
      StandsSplit(prog, at, block, DenyBlocks(numbers[1..]));
      assert prog[at + 0] == block[0] && prog[at + 1] == block[1];
      DenyRuns(prog, data, at + 2, numbers[1..]);
      if nr == numbers[0] {
        Advance(prog, data, State(at, nr), State(at + 1, nr));
        Stop(prog, data, State(at + 1, nr), DENY);
      } else {
        Advance(prog, data, State(at, nr), State(at + 2, nr));
        assert nr in numbers <==> nr in numbers[1..];
      }
    }
  }

  lemma {:induction false} FcntlRuns(prog: Program, data: SeccompData, at: nat, fcntl: Word)
    requires at + 7 <= |prog| && forall i :: 0 <= i < 7 ==> prog[at + i] == FcntlBlock(fcntl)[i]
    ensures var nr, command := data[NR_OFFSET / 4], data[ARG1_OFFSET / 4];
            Run(prog, data, State(at, nr))
            == if nr == fcntl && (command == F_DUPFD || command == F_DUPFD_CLOEXEC) then Some(DENY)
               else Run(prog, data, State(at + 7, nr))
  {
    hide Run;
    var nr, command := data[NR_OFFSET / 4], data[ARG1_OFFSET / 4];
    var b := FcntlBlock(fcntl);
    assert prog[at + 0] == b[0] && prog[at + 1] == b[1] && prog[at + 2] == b[2] && prog[at + 3] == b[3];
    assert prog[at + 4] == b[4] && prog[at + 5] == b[5] && prog[at + 6] == b[6];
    if nr == fcntl {
      Advance(prog, data, State(at, nr), State(at + 1, nr));
      Advance(prog, data, State(at + 1, nr), State(at + 2, command));
      if command == F_DUPFD {
        Advance(prog, data, State(at + 2, command), State(at + 3, command));
        Stop(prog, data, State(at + 3, command), DENY);
      } else {
        Advance(prog, data, State(at + 2, command), State(at + 4, command));
        if command == F_DUPFD_CLOEXEC {
          Advance(prog, data, State(at + 4, command), State(at + 5, command));
          Stop(prog, data, State(at + 5, command), DENY);
        } else {
          Advance(prog, data, State(at + 4, command), State(at + 6, command));
          Advance(prog, data, State(at + 6, command), State(at + 7, nr));
        }
      }
    } else {
      Advance(prog, data, State(at, nr), State(at + 6, nr));
      Advance(prog, data, State(at + 6, nr), State(at + 7, nr));
    }
  }

  lemma {:induction false} SocketRuns(prog: Program, data: SeccompData, at: nat, socket: Word)
    requires at + 10 <= |prog| && forall i :: 0 <= i < 10 ==> prog[at + i] == SocketBlock(socket)[i]
    ensures var nr := data[NR_OFFSET / 4];
            Run(prog, data, State(at, nr))
            == if nr == socket then Some(if InetStream(data) then ALLOW else DENY)
               else Run(prog, data, State(at + 10, nr))
  {
    hide Run;
    var nr, family := data[NR_OFFSET / 4], data[ARG0_OFFSET / 4];
    var b := SocketBlock(socket);
    assert prog[at + 0] == b[0] && prog[at + 1] == b[1] && prog[at + 2] == b[2] && prog[at + 3] == b[3];
    assert prog[at + 7] == b[7] && prog[at + 9] == b[9];
    if nr == socket {
      Advance(prog, data, State(at, nr), State(at + 1, nr));
      Advance(prog, data, State(at + 1, nr), State(at + 2, family));
      if family == AF_INET {
        Advance(prog, data, State(at + 2, family), State(at + 4, family));
        SocketTypeRuns(prog, data, at, socket, family);
      } else {
        Advance(prog, data, State(at + 2, family), State(at + 3, family));
        if family == AF_INET6 {
          Advance(prog, data, State(at + 3, family), State(at + 4, family));
          SocketTypeRuns(prog, data, at, socket, family);
        } else {
          Advance(prog, data, State(at + 3, family), State(at + 7, family));
          Stop(prog, data, State(at + 7, family), DENY);
        }
      }
    } else {
      Advance(prog, data, State(at, nr), State(at + 9, nr));
      Advance(prog, data, State(at + 9, nr), State(at + 10, nr));
    }
  }

  /** The socket type test at the end of the socket block. */
  lemma {:induction false} SocketTypeRuns(prog: Program, data: SeccompData, at: nat, socket: Word, acc: Word)
    requires at + 10 <= |prog| && forall i :: 0 <= i < 10 ==> prog[at + i] == SocketBlock(socket)[i]
    ensures Run(prog, data, State(at + 4, acc))
         == Some(if data[ARG1_OFFSET / 4] & SOCK_TYPE_MASK == SOCK_STREAM then ALLOW else DENY)
  {
    hide Run;
    var kind := data[ARG1_OFFSET / 4];
    var masked := kind & SOCK_TYPE_MASK;
    var b := SocketBlock(socket);
    assert prog[at + 4] == b[4] && prog[at + 5] == b[5] && prog[at + 6] == b[6] && prog[at + 7] == b[7] && prog[at + 8] == b[8];
    Advance(prog, data, State(at + 4, acc), State(at + 5, kind));
    Advance(prog, data, State(at + 5, kind), State(at + 6, masked));
    if masked == SOCK_STREAM {
      Advance(prog, data, State(at + 6, masked), State(at + 8, masked));
      Stop(prog, data, State(at + 8, masked), ALLOW);
    } else {
      Advance(prog, data, State(at + 6, masked), State(at + 7, masked));
      Stop(prog, data, State(at + 7, masked), DENY);
    }
  }

  lemma {:induction false} AllowRuns(prog: Program, data: SeccompData, at: nat, acc: Word)
    requires StandsAt(prog, at, [Return(ALLOW)])
    ensures Run(prog, data, State(at, acc)) == Some(ALLOW)
  {
    assert prog[at] == prog[at..at + 1][0];
  }

  /** Membership in the emitted numbers is membership in the listed calls. */
  lemma {:induction false} DefinedExact(p: Platform, data: SeccompData, calls: seq<Syscall>)
    ensures data[NR_OFFSET / 4] in Defined(p, calls) <==> IsAnyOf(p, data, calls)
  {
    if calls != [] {
      DefinedExact(p, data, calls[1..]);
      if data[NR_OFFSET / 4] in Defined(p, calls) {
        if IsCall(p, data, calls[0]) {
          assert calls[0] in calls;
        }
      }
      if IsAnyOf(p, data, calls) {
        var s :| s in calls && IsCall(p, data, s);
        if s != calls[0] {
          assert s in calls[1..];
        }
      }
    }
  }

  // ---- the filters equal their policies ----

  /** The broker filter, on every call record and every platform. */
  lemma {:induction false} BrokerExact(p: Platform, data: SeccompData)
    ensures Run(BrokerFilter(p), data, START) == Some(BrokerPolicy(p, data))
  {
    hide Run, Header, DenyBlocks, Defined, IsAnyOf, BROKER_CALLS;
    var prog := BrokerFilter(p);
    var numbers := Defined(p, BROKER_CALLS);
    var tail := DenyBlocks(numbers) + [Return(ALLOW)];
    assert StandsAt(prog, 0, Header(p.arch) + tail);
    StandsSplit(prog, 0, Header(p.arch), tail);
    assert forall i :: 0 <= i < 4 ==> prog[0 + i] == Header(p.arch)[i];
    HeaderRuns(prog, data, p.arch);
    StandsSplit(prog, 4, DenyBlocks(numbers), [Return(ALLOW)]);
    DenyRuns(prog, data, 4, numbers);
    DefinedExact(p, data, BROKER_CALLS);
    BrokerCallsExact(p, data);
    AllowRuns(prog, data, 4 + 2 * |numbers|, data[NR_OFFSET / 4]);
  }

  /** The fcntl block and the late denials of the preconnected filter. */
  lemma {:induction false} PreconnectedTail(p: Platform, prog: Program, data: SeccompData, at: nat)
    requires Compiles(p)
    requires StandsAt(prog, at, FcntlBlock(p.numbers[Fcntl]) + (DenyBlocks(Defined(p, PRECONNECTED_LATE_CALLS)) + [Return(ALLOW)]))
    ensures Run(prog, data, State(at, data[0]))
         == Some(if IsCall(p, data, Fcntl) && (data[6] == 0 || data[6] == 1030) then DENY
                 else if IsAnyOf(p, data, PRECONNECTED_LATE_CALLS) then DENY else ALLOW)
  {
    hide Run, DenyBlocks, Defined, FcntlBlock, IsAnyOf, PRECONNECTED_LATE_CALLS;
    var late, fcntl := Defined(p, PRECONNECTED_LATE_CALLS), p.numbers[Fcntl];
    StandsSplit(prog, at, FcntlBlock(fcntl), DenyBlocks(late) + [Return(ALLOW)]);
    FcntlRuns(prog, data, at, fcntl);
    StandsSplit(prog, at + 7, DenyBlocks(late), [Return(ALLOW)]);
    DenyRuns(prog, data, at + 7, late);
    DefinedExact(p, data, PRECONNECTED_LATE_CALLS);
    AllowRuns(prog, data, at + 7 + 2 * |late|, data[NR_OFFSET / 4]);
  }

  lemma {:induction false} PreconnectedExact(p: Platform, data: SeccompData)
    requires Compiles(p)
    ensures Run(PreconnectedFilter(p), data, START) == Some(PreconnectedPolicy(p, data))
  {
    hide Run, Header, DenyBlocks, Defined, FcntlBlock, IsAnyOf, PRECONNECTED_CALLS, PRECONNECTED_LATE_CALLS;
    var prog := PreconnectedFilter(p);
    var early := Defined(p, PRECONNECTED_CALLS);
    var middle := FcntlBlock(p.numbers[Fcntl]) + (DenyBlocks(Defined(p, PRECONNECTED_LATE_CALLS)) + [Return(ALLOW)]);
    var tail := DenyBlocks(early) + middle;
    assert StandsAt(prog, 0, Header(p.arch) + tail);
    StandsSplit(prog, 0, Header(p.arch), tail);
    assert forall i :: 0 <= i < 4 ==> prog[0 + i] == Header(p.arch)[i];
    HeaderRuns(prog, data, p.arch);
    StandsSplit(prog, 4, DenyBlocks(early), middle);
    DenyRuns(prog, data, 4, early);
    DefinedExact(p, data, PRECONNECTED_CALLS);
    PreconnectedTail(p, prog, data, 4 + 2 * |early|);
    PreconnectedCallsExact(p, data);
  }

  lemma {:induction false} InetStreamWords(data: SeccompData)
    ensures InetStream(data) <==> (data[4] == 2 || data[4] == 10) && data[6] & 0xF == 1
  {
  }

  lemma {:induction false} RoutingExact(p: Platform, data: SeccompData)
    requires Compiles(p)
    ensures Run(RoutingFilter(p), data, START) == Some(RoutingPolicy(p, data))
  {
    hide Run, Header, DenyBlocks, Defined, SocketBlock, InetStream, IsAnyOf, ROUTING_CALLS;
    var prog := RoutingFilter(p);
    var numbers := Defined(p, ROUTING_CALLS);
    var socket := p.numbers[Socket];
    var last := DenyBlocks(numbers) + [Return(ALLOW)];
    var tail := SocketBlock(socket) + last;
    assert StandsAt(prog, 0, Header(p.arch) + tail);
    StandsSplit(prog, 0, Header(p.arch), tail);
    assert forall i :: 0 <= i < 4 ==> prog[0 + i] == Header(p.arch)[i];
    HeaderRuns(prog, data, p.arch);
    StandsSplit(prog, 4, SocketBlock(socket), last);
    SocketRuns(prog, data, 4, socket);
    StandsSplit(prog, 14, DenyBlocks(numbers), [Return(ALLOW)]);
    DenyRuns(prog, data, 14, numbers);
    DefinedExact(p, data, ROUTING_CALLS);
    RoutingCallsExact(p, data);
    InetStreamWords(data);
    AllowRuns(prog, data, 14 + 2 * |numbers|, data[NR_OFFSET / 4]);
  }

  // ---- the filters are ordered ----

  predicate Allows(prog: Program, data: SeccompData) {
    Run(prog, data, START) == Some(ALLOW)
  }

  /** On one platform, for any numbering: preconnected allows less than broker, broker less than routing. */
  lemma {:induction false} FiltersOrdered(p: Platform, data: SeccompData)
    requires Compiles(p)
    ensures Allows(PreconnectedFilter(p), data) ==> Allows(BrokerFilter(p), data)
    ensures Allows(BrokerFilter(p), data) ==> Allows(RoutingFilter(p), data)
  {
    hide Run, BrokerFilter, PreconnectedFilter, RoutingFilter, InetStream;
    BrokerExact(p, data);
    PreconnectedExact(p, data);
    RoutingExact(p, data);
    if IsCall(p, data, Socket) {
      assert !HandsOn(Socket);
    }
  }

  // ---- the accumulator at every deny block ----

  lemma {:induction false} DenyBlocksText(numbers: seq<Word>, i: nat)
    requires i < |numbers|
    ensures DenyBlocks(numbers)[2 * i] == JumpEq(numbers[i], 0, 1)
    ensures DenyBlocks(numbers)[2 * i + 1] == Return(DENY)
  {
    if i > 0 {
      DenyBlocksText(numbers[1..], i - 1);
      assert DenyBlocks(numbers)[2 * i] == DenyBlocks(numbers[1..])[2 * (i - 1)];
      assert DenyBlocks(numbers)[2 * i + 1] == DenyBlocks(numbers[1..])[2 * (i - 1) + 1];
    }
  }

  /** Places of a run of deny blocks at which a block starts, with the place just after it. */
  predicate BlockStart(at: nat, count: nat, pc: nat) {
    at <= pc <= at + 2 * count && (pc - at) % 2 == 0
  }

  /** In the preconnected filter every deny block, and the fcntl test, starts with the number loaded. */
  lemma {:induction false} PreconnectedAccumulator(p: Platform, data: SeccompData, n: nat)
    requires Compiles(p) && After(PreconnectedFilter(p), data, n).Some?
    ensures var early, late := |Defined(p, PRECONNECTED_CALLS)|, |Defined(p, PRECONNECTED_LATE_CALLS)|;
            var s := After(PreconnectedFilter(p), data, n).value;
            BlockStart(4, early, s.pc) || BlockStart(4 + 2 * early + 7, late, s.pc) ==> s.acc == data[NR_OFFSET / 4]
  {
    hide After, Defined;
    var prog := PreconnectedFilter(p);
    var early, late := Defined(p, PRECONNECTED_CALLS), Defined(p, PRECONNECTED_LATE_CALLS);
    var at := 4 + 2 * |early|;
    var holds := (pc: nat) => BlockStart(4, |early|, pc) || BlockStart(at + 7, |late|, pc);
    PreconnectedTracks(p, early, late, holds);
    TracksSound(prog, data, holds, n);
  }

  /** The instruction at a place of the preconnected filter. */
  lemma {:induction false} PreconnectedText(p: Platform, early: seq<Word>, late: seq<Word>, pc: nat)
    requires Compiles(p) && pc < |PreconnectedFilter(p)|
    requires early == Defined(p, PRECONNECTED_CALLS) && late == Defined(p, PRECONNECTED_LATE_CALLS)
    ensures var at := 4 + 2 * |early|;
            var end := at + 7 + 2 * |late|;
            && |PreconnectedFilter(p)| == end + 1
            && PreconnectedFilter(p)[pc] ==
                 if pc < 4 then Header(p.arch)[pc]
                 else if pc < at then DenyBlocks(early)[pc - 4]
                 else if pc < at + 7 then FcntlBlock(p.numbers[Fcntl])[pc - at]
                 else if pc < end then DenyBlocks(late)[pc - at - 7]
                 else Return(ALLOW)
  {
    hide DenyBlocks, Header, FcntlBlock, Defined;
  }

  lemma {:induction false} DenyPlace(numbers: seq<Word>, k: nat)
    requires k < 2 * |numbers|
    ensures k % 2 == 0 ==> DenyBlocks(numbers)[k] == JumpEq(numbers[k / 2], 0, 1)
    ensures k % 2 == 1 ==> DenyBlocks(numbers)[k] == Return(DENY)
  {
    DenyBlocksText(numbers, k / 2);
  }

  lemma {:induction false} PreconnectedTracks(p: Platform, early: seq<Word>, late: seq<Word>, holds: nat -> bool)
    requires Compiles(p)
    requires early == Defined(p, PRECONNECTED_CALLS) && late == Defined(p, PRECONNECTED_LATE_CALLS)
    requires forall pc: nat :: holds(pc) <==> BlockStart(4, |early|, pc) || BlockStart(4 + 2 * |early| + 7, |late|, pc)
    ensures Tracks(PreconnectedFilter(p), holds)
  {
    hide PreconnectedFilter, DenyBlocks, Defined;
    var prog := PreconnectedFilter(p);
    var at := 4 + 2 * |early|;
    forall pc: nat | pc < |prog|
      ensures TracksAt(prog[pc], holds, pc)
    {
      PreconnectedText(p, early, late, pc);
      if 4 <= pc < at {
        DenyPlace(early, pc - 4);
      } else if at + 7 <= pc < at + 7 + 2 * |late| {
        DenyPlace(late, pc - at - 7);
      }
    }
  }

  lemma {:induction false} BrokerAccumulator(p: Platform, data: SeccompData, n: nat)
    requires After(BrokerFilter(p), data, n).Some?
    ensures var s := After(BrokerFilter(p), data, n).value;
            BlockStart(4, |Defined(p, BROKER_CALLS)|, s.pc) ==> s.acc == data[NR_OFFSET / 4]
  {
    hide After, Defined, DenyBlocks;
    var prog := BrokerFilter(p);
    var numbers := Defined(p, BROKER_CALLS);
    var holds := (pc: nat) => BlockStart(4, |numbers|, pc);
    forall pc: nat | pc < |prog| ensures TracksAt(prog[pc], holds, pc) {
      if 4 <= pc < 4 + 2 * |numbers| {
        DenyPlace(numbers, pc - 4);
        assert prog[pc] == DenyBlocks(numbers)[pc - 4];
      } else if pc < 4 {
        assert prog[pc] == Header(p.arch)[pc];
      }
    }
    TracksSound(prog, data, holds, n);
  }

  /** In the routing filter the socket test and every deny block start with the number loaded. */
  lemma {:induction false} RoutingAccumulator(p: Platform, data: SeccompData, n: nat)
    requires Compiles(p) && After(RoutingFilter(p), data, n).Some?
    ensures var s := After(RoutingFilter(p), data, n).value;
            s.pc == 4 || BlockStart(14, |Defined(p, ROUTING_CALLS)|, s.pc) ==> s.acc == data[NR_OFFSET / 4]
  {
    hide After, Defined, DenyBlocks;
    var prog := RoutingFilter(p);
    var numbers := Defined(p, ROUTING_CALLS);
    var holds := (pc: nat) => pc == 4 || BlockStart(14, |numbers|, pc);
    forall pc: nat | pc < |prog| ensures TracksAt(prog[pc], holds, pc) {
      if 14 <= pc < 14 + 2 * |numbers| {
        DenyPlace(numbers, pc - 14);
        assert prog[pc] == DenyBlocks(numbers)[pc - 14];
      } else if 4 <= pc < 14 {
        assert prog[pc] == SocketBlock(p.numbers[Socket])[pc - 4];
      } else if pc < 4 {
        assert prog[pc] == Header(p.arch)[pc];
      }
    }
    TracksSound(prog, data, holds, n);
  }
}
