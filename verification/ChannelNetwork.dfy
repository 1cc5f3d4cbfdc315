/**
 * Processes that run fixed scripts of writes and exact reads over bounded byte channels.
 * Writes and reads move any positive number of octets at a time, and any process may move next.
 * One sequential schedule that the scripts project from is enough: then every interleaving and
 * every fragmentation succeeds, none can get stuck, and all carry the same bytes.
 */
module ChannelNetwork {
  import opened Common

  /** What travels on a channel: octets, and the end of the sender's stream. */
  datatype Token = Octet(b: Byte) | Eof

  type Tokens = seq<Token>

  /** A directed channel between two processes. */
  datatype Channel = Channel(from: nat, to: nat)

  /** Write all tokens, or read exactly as many and compare. */
  datatype Action =
    | Send(to: nat, tokens: Tokens)
    | Expect(from: nat, tokens: Tokens)

  type Script = seq<Action>

  /** Scripts by process number, and the octets a channel holds before a write blocks. */
  datatype Network = Network(scripts: seq<Script>, capacity: nat)

  // ---- events ----

  /** One token put on, or taken from, a channel. */
  datatype Event =
    | Put(c: Channel, t: Token)
    | Get(c: Channel, t: Token)

  function Actor(e: Event): nat {
    match e
    case Put(c, _) => c.from
    case Get(c, _) => c.to
  }

  function Puts(es: seq<Event>, c: Channel): (r: Tokens) {
    if es == [] then []
    else (if es[0].Put? && es[0].c == c then [es[0].t] else []) + Puts(es[1..], c)
  }

  function Gets(es: seq<Event>, c: Channel): (r: Tokens) {
    if es == [] then []
    else (if es[0].Get? && es[0].c == c then [es[0].t] else []) + Gets(es[1..], c)
  }

  /** The events of one process. */
  function Local(es: seq<Event>, p: nat): (r: seq<Event>) {
    if es == [] then []
    else (if Actor(es[0]) == p then [es[0]] else []) + Local(es[1..], p)
  }

  lemma {:induction false} PutsConcat(a: seq<Event>, b: seq<Event>, c: Channel)
    ensures Puts(a + b, c) == Puts(a, c) + Puts(b, c)
  {
    if a == [] {
      assert a + b == b;
    } else {
      PutsConcat(a[1..], b, c);
      assert (a + b)[1..] == a[1..] + b;
      var first := if a[0].Put? && a[0].c == c then [a[0].t] else [];
      ConcatAssociates(first, Puts(a[1..], c), Puts(b, c));
    }
  }

  lemma {:induction false} GetsConcat(a: seq<Event>, b: seq<Event>, c: Channel)
    ensures Gets(a + b, c) == Gets(a, c) + Gets(b, c)
  {
    if a == [] {
      assert a + b == b;
    } else {
      GetsConcat(a[1..], b, c);
      assert (a + b)[1..] == a[1..] + b;
      var first := if a[0].Get? && a[0].c == c then [a[0].t] else [];
      ConcatAssociates(first, Gets(a[1..], c), Gets(b, c));
    }
  }

  lemma {:induction false} LocalConcat(a: seq<Event>, b: seq<Event>, p: nat)
    ensures Local(a + b, p) == Local(a, p) + Local(b, p)
  {
    if a == [] {
      assert a + b == b;
    } else {
      LocalConcat(a[1..], b, p);
      assert (a + b)[1..] == a[1..] + b;
      var first := if Actor(a[0]) == p then [a[0]] else [];
      ConcatAssociates(first, Local(a[1..], p), Local(b, p));
    }
  }

  /** The sender's own events already hold everything put on its channels. */
  lemma {:induction false} PutsLocal(es: seq<Event>, c: Channel)
    ensures Puts(Local(es, c.from), c) == Puts(es, c)
  {
    if es != [] {
      PutsLocal(es[1..], c);
      var first := if Actor(es[0]) == c.from then [es[0]] else [];
      PutsConcat(first, Local(es[1..], c.from), c);
    }
  }

  lemma {:induction false} GetsLocal(es: seq<Event>, c: Channel)
    ensures Gets(Local(es, c.to), c) == Gets(es, c)
  {
    if es != [] {
      GetsLocal(es[1..], c);
      var first := if Actor(es[0]) == c.to then [es[0]] else [];
      GetsConcat(first, Local(es[1..], c.to), c);
    }
  }

  lemma {:induction false} PutsPrefix(a: seq<Event>, b: seq<Event>, c: Channel)
    requires a <= b
    ensures Puts(a, c) <= Puts(b, c)
  {
    assert b == a + b[|a|..];
    PutsConcat(a, b[|a|..], c);
  }

  lemma {:induction false} GetsPrefix(a: seq<Event>, b: seq<Event>, c: Channel)
    requires a <= b
    ensures Gets(a, c) <= Gets(b, c)
  {
    assert b == a + b[|a|..];
    GetsConcat(a, b[|a|..], c);
  }

  lemma {:induction false} LocalPrefix(a: seq<Event>, b: seq<Event>, p: nat)
    requires a <= b
    ensures Local(a, p) <= Local(b, p)
  {
    assert b == a + b[|a|..];
    LocalConcat(a, b[|a|..], p);
  }

  // ---- scripts as events ----

  function ActionEvent(p: nat, a: Action, t: Token): Event {
    match a
    case Send(to, _) => Put(Channel(p, to), t)
    case Expect(from, _) => Get(Channel(from, p), t)
  }

  function TokenEvents(p: nat, a: Action, tokens: Tokens): (r: seq<Event>)
    ensures |r| == |tokens|
  {
    seq(|tokens|, i requires 0 <= i < |tokens| => ActionEvent(p, a, tokens[i]))
  }

  function Events(p: nat, script: Script): (r: seq<Event>) {
    if script == [] then [] else TokenEvents(p, script[0], script[0].tokens) + Events(p, script[1..])
  }

  lemma {:induction false} EventsConcat(p: nat, a: Script, b: Script)
    ensures Events(p, a + b) == Events(p, a) + Events(p, b)
  {
    if a == [] {
      assert a + b == b;
    } else {
      hide TokenEvents;
      EventsConcat(p, a[1..], b);
      assert (a + b)[1..] == a[1..] + b;
      ConcatAssociates(TokenEvents(p, a[0], a[0].tokens), Events(p, a[1..]), Events(p, b));
    }
  }

  lemma {:induction false} TokenEventsConcat(p: nat, a: Action, first: Tokens, second: Tokens)
    ensures TokenEvents(p, a, first + second) == TokenEvents(p, a, first) + TokenEvents(p, a, second)
  {
  }

  /** What a run of equal-channel events puts and gets. */
  lemma {:induction false} TokenEventsStreams(p: nat, a: Action, tokens: Tokens, c: Channel)
    ensures Puts(TokenEvents(p, a, tokens), c) == if a.Send? && c == Channel(p, a.to) then tokens else []
    ensures Gets(TokenEvents(p, a, tokens), c) == if a.Expect? && c == Channel(a.from, p) then tokens else []
  {
    if tokens != [] {
      TokenEventsStreams(p, a, tokens[1..], c);
      assert tokens == [tokens[0]] + tokens[1..];
      assert TokenEvents(p, a, tokens)[1..] == TokenEvents(p, a, tokens[1..]);
    }
  }

  // ---- one sequential schedule ----

  /** At every point the channel holds what was put and not yet taken, in order and within capacity. */
  ghost predicate Sequential(schedule: seq<Event>, capacity: nat) {
    forall i, c :: 0 <= i <= |schedule| ==>
      Gets(schedule[..i], c) <= Puts(schedule[..i], c)
      && |Puts(schedule[..i], c)| - |Gets(schedule[..i], c)| <= capacity
  }

  /** The schedule is sequentially possible and every script is its projection. */
  ghost predicate Linearizes(net: Network, schedule: seq<Event>) {
    && Sequential(schedule, net.capacity)
    && (forall p :: 0 <= p < |net.scripts| ==> Local(schedule, p) == Events(p, net.scripts[p]))
    && (forall i :: 0 <= i < |schedule| ==> schedule[i].c in Channels(net))
  }

  /** Everything put on a channel is also taken from it. */
  ghost predicate Balanced(es: seq<Event>) {
    forall c :: Gets(es, c) == Puts(es, c)
  }

  function Channels(net: Network): set<Channel> {
    set f, t | 0 <= f < |net.scripts| && 0 <= t < |net.scripts| :: Channel(f, t)
  }

  // ---- execution ----

  /** A process: its current action, how many tokens of it are done, and what it has read for it. */
  datatype Process = Process(at: nat, done: nat, buffer: Tokens, failed: bool)

  /** Everything ever written on a channel, and how much of it has been read. */
  datatype Pipe = Pipe(log: Tokens, read: nat)

  datatype State = State(procs: seq<Process>, pipes: map<Channel, Pipe>)

  /** One move: a process transfers `n` tokens of its action, or completes it. */
  datatype Move =
    | Transfer(p: nat, n: nat)
    | Complete(p: nat)

  function Initial(net: Network): State {
    State(seq(|net.scripts|, _ => Process(0, 0, [], false)), map c | c in Channels(net) :: Pipe([], 0))
  }

  /** The action process `p` is in, if it still has one. */
  function Current(net: Network, s: State, p: nat): (r: Option<Action>) {
    if p < |net.scripts| && p < |s.procs| && !s.procs[p].failed && s.procs[p].at < |net.scripts[p]|
    then Some(net.scripts[p][s.procs[p].at]) else None
  }

  function Write(net: Network, s: State, p: nat, a: Action, n: nat): (r: Option<State>)
    requires p < |s.procs| && a.Send?
  {
    var proc, c := s.procs[p], Channel(p, a.to);
    if n == 0 || proc.done + n > |a.tokens| || c !in s.pipes then None
    else
      var pipe := s.pipes[c];
      if |pipe.log| - pipe.read + n > net.capacity then None
      else
        Some(State(s.procs[p := proc.(done := proc.done + n)],
                   s.pipes[c := pipe.(log := pipe.log + a.tokens[proc.done..proc.done + n])]))
  }

  function Read(s: State, p: nat, a: Action, n: nat): (r: Option<State>)
    requires p < |s.procs| && a.Expect?
  {
    var proc, c := s.procs[p], Channel(a.from, p);
    if n == 0 || proc.done + n > |a.tokens| || c !in s.pipes then None
    else
      var pipe := s.pipes[c];
      if pipe.read + n > |pipe.log| then None
      else
        Some(State(s.procs[p := proc.(done := proc.done + n, buffer := proc.buffer + pipe.log[pipe.read..pipe.read + n])],
                   s.pipes[c := pipe.(read := pipe.read + n)]))
  }

  /** The effect of a move; none when it is not enabled. A read that does not match fails its process. */
  function Apply(net: Network, s: State, move: Move): (r: Option<State>) {
    match move
    case Transfer(p, n) =>
      var current := Current(net, s, p);
      if current.None? then None
      else if current.value.Send? then Write(net, s, p, current.value, n)
      else Read(s, p, current.value, n)
    case Complete(p) =>
      var current := Current(net, s, p);
      if current.None? || s.procs[p].done != |current.value.tokens| then None
      else if current.value.Expect? && s.procs[p].buffer != current.value.tokens then
        Some(s.(procs := s.procs[p := s.procs[p].(failed := true)]))
      else Some(s.(procs := s.procs[p := Process(s.procs[p].at + 1, 0, [], false)]))
  }

  /** A run: any sequence of enabled moves. */
  function Execute(net: Network, moves: seq<Move>): (r: Option<State>) {
    if moves == [] then Some(Initial(net))
    else
      var before := Execute(net, moves[..|moves| - 1]);
      if before.None? then None else Apply(net, before.value, moves[|moves| - 1])
  }

  predicate Finished(net: Network, s: State) {
    |s.procs| == |net.scripts| && forall p :: 0 <= p < |s.procs| ==> !s.procs[p].failed && s.procs[p].at == |net.scripts[p]|
  }

  // ---- the invariant ----

  /** A healthy process: what it read so far is what it expects. */
  predicate ProcessOk(net: Network, s: State, p: nat) {
    && p < |net.scripts| && p < |s.procs|
    && var script, proc := net.scripts[p], s.procs[p];
    && !proc.failed
    && proc.at <= |script|
    && (proc.at == |script| ==> proc.done == 0)
    && (proc.at < |script| ==>
          && proc.done <= |script[proc.at].tokens|
          && (script[proc.at].Expect? ==> proc.buffer == script[proc.at].tokens[..proc.done]))
  }

  /** The events process `p` has performed. */
  function Performed(net: Network, s: State, p: nat): (r: seq<Event>)
    requires ProcessOk(net, s, p)
  {
    var script, proc := net.scripts[p], s.procs[p];
    Events(p, script[..proc.at])
    + if proc.at < |script| then TokenEvents(p, script[proc.at], script[proc.at].tokens[..proc.done]) else []
  }

  /** A channel holds what its sender has put and its receiver has not yet taken. */
  predicate PipeOk(net: Network, s: State, c: Channel)
    requires c in s.pipes && ProcessOk(net, s, c.from) && ProcessOk(net, s, c.to)
  {
    && s.pipes[c].log == Puts(Performed(net, s, c.from), c)
    && s.pipes[c].read == |Gets(Performed(net, s, c.to), c)|
    && s.pipes[c].read <= |s.pipes[c].log|
  }

  predicate Inv(net: Network, s: State) {
    && |s.procs| == |net.scripts|
    && s.pipes.Keys == Channels(net)
    && (forall p :: 0 <= p < |s.procs| ==> ProcessOk(net, s, p))
    && (forall c :: c in s.pipes ==> PipeOk(net, s, c))
  }

  lemma {:induction false} InitialOk(net: Network)
    ensures Inv(net, Initial(net))
  {
    var s := Initial(net);
    forall p | 0 <= p < |s.procs| ensures ProcessOk(net, s, p) && Performed(net, s, p) == [] {
      assert net.scripts[p][..0] == [];
      if 0 < |net.scripts[p]| {
        assert net.scripts[p][0].tokens[..0] == [];
      }
    }
    forall c | c in s.pipes ensures PipeOk(net, s, c) {
    }
  }

  /** Where a script stands splits its events. */
  lemma {:induction false} EventsAt(p: nat, script: Script, at: nat)
    requires at < |script|
    ensures Events(p, script[..at + 1]) == Events(p, script[..at]) + TokenEvents(p, script[at], script[at].tokens)
    ensures Events(p, script[..at + 1]) <= Events(p, script)
  {
    hide TokenEvents;
    EventsConcat(p, script[..at], [script[at]]);
    assert script[..at + 1] == script[..at] + [script[at]];
    assert [script[at]][1..] == [];
    EventsConcat(p, script[..at + 1], script[at + 1..]);
    assert script == script[..at + 1] + script[at + 1..];
  }

  lemma {:induction false} PerformedPrefix(net: Network, s: State, p: nat)
    requires ProcessOk(net, s, p)
    ensures Performed(net, s, p) <= Events(p, net.scripts[p])
    ensures s.procs[p].at == |net.scripts[p]| ==> Performed(net, s, p) == Events(p, net.scripts[p])
  {
    hide Events;
    var script, proc := net.scripts[p], s.procs[p];
    if proc.at < |script| {
      EventsAt(p, script, proc.at);
      var tokens := script[proc.at].tokens;
      assert tokens == tokens[..proc.done] + tokens[proc.done..];
      TokenEventsConcat(p, script[proc.at], tokens[..proc.done], tokens[proc.done..]);
    } else {
      assert script[..proc.at] == script;
    }
  }

  /** Completing an action performs nothing new. */
  lemma {:induction false} PerformedAfterComplete(net: Network, s: State, p: nat, next: State)
    requires ProcessOk(net, s, p) && s.procs[p].at < |net.scripts[p]|
    requires s.procs[p].done == |net.scripts[p][s.procs[p].at].tokens|
    requires next.procs == s.procs[p := Process(s.procs[p].at + 1, 0, [], false)]
    ensures ProcessOk(net, next, p) && Performed(net, next, p) == Performed(net, s, p)
  {
    hide Events;
    var script, at := net.scripts[p], s.procs[p].at;
    EventsAt(p, script, at);
    assert script[at].tokens[..s.procs[p].done] == script[at].tokens;
    if at + 1 < |script| {
      assert script[at + 1].tokens[..0] == [];
      assert TokenEvents(p, script[at + 1], []) == [];
    }
  }

  /** Transferring tokens performs exactly their events. */
  lemma {:induction false} PerformedAfterTransfer(net: Network, s: State, p: nat, n: nat, next: State)
    requires ProcessOk(net, s, p) && s.procs[p].at < |net.scripts[p]|
    requires s.procs[p].done + n <= |net.scripts[p][s.procs[p].at].tokens|
    requires ProcessOk(net, next, p) && next.procs[p].at == s.procs[p].at && next.procs[p].done == s.procs[p].done + n
    ensures var a, done := net.scripts[p][s.procs[p].at], s.procs[p].done;
            Performed(net, next, p) == Performed(net, s, p) + TokenEvents(p, a, a.tokens[done..done + n])
  {
    hide Events;
    var a, done := net.scripts[p][s.procs[p].at], s.procs[p].done;
    assert a.tokens[..done + n] == a.tokens[..done] + a.tokens[done..done + n];
    TokenEventsConcat(p, a, a.tokens[..done], a.tokens[done..done + n]);
  }

  /** What a receiver will take in all is a prefix of what the sender will put in all. */
  lemma {:induction false} TotalStreams(net: Network, schedule: seq<Event>, c: Channel)
    requires Linearizes(net, schedule) && c in Channels(net)
    ensures Gets(Events(c.to, net.scripts[c.to]), c) <= Puts(Events(c.from, net.scripts[c.from]), c)
  {
    PutsLocal(schedule, c);
    GetsLocal(schedule, c);
    assert schedule[..|schedule|] == schedule;
  }

  /** The streams of a channel after process `p` performed `chunk` of action `a`. */
  lemma {:induction false} StreamsAfter(net: Network, s: State, next: State, p: nat, a: Action, chunk: Tokens,
      c: Channel)
    requires |s.procs| == |next.procs| && p < |s.procs|
    requires ProcessOk(net, s, p) && ProcessOk(net, next, p)
    requires ProcessOk(net, s, c.from) && ProcessOk(net, s, c.to)
    requires forall q :: 0 <= q < |s.procs| && q != p ==> next.procs[q] == s.procs[q]
    requires Performed(net, next, p) == Performed(net, s, p) + TokenEvents(p, a, chunk)
    ensures ProcessOk(net, next, c.from) && ProcessOk(net, next, c.to)
    ensures Puts(Performed(net, next, c.from), c)
         == Puts(Performed(net, s, c.from), c) + if a.Send? && c == Channel(p, a.to) then chunk else []
    ensures Gets(Performed(net, next, c.to), c)
         == Gets(Performed(net, s, c.to), c) + if a.Expect? && c == Channel(a.from, p) then chunk else []
  {
    hide Events, TokenEvents;
    TokenEventsStreams(p, a, chunk, c);
    PutsConcat(Performed(net, s, p), TokenEvents(p, a, chunk), c);
    GetsConcat(Performed(net, s, p), TokenEvents(p, a, chunk), c);
  }

  lemma {:induction false} WriteKeeps(net: Network, s: State, p: nat, a: Action, n: nat, next: State)
    requires Inv(net, s) && Current(net, s, p) == Some(a) && a.Send? && Write(net, s, p, a, n) == Some(next)
    ensures Inv(net, next)
  {
    hide Performed, Puts, Gets;
    var done := s.procs[p].done;
    var chunk := a.tokens[done..done + n];
    assert ProcessOk(net, s, p);
    assert ProcessOk(net, next, p);
    PerformedAfterTransfer(net, s, p, n, next);
    forall q | 0 <= q < |next.procs| ensures ProcessOk(net, next, q) {
      assert ProcessOk(net, s, q);
    }
    forall c | c in next.pipes ensures PipeOk(net, next, c) {
      assert PipeOk(net, s, c);
      StreamsAfter(net, s, next, p, a, chunk, c);
    }
  }

  /** The tokens at the reading position are the ones the receiver expects next. */
  lemma {:induction false} ReadMatches(net: Network, schedule: seq<Event>, s: State, p: nat, a: Action, n: nat)
    requires Linearizes(net, schedule) && Inv(net, s)
    requires Current(net, s, p) == Some(a) && a.Expect? && Channel(a.from, p) in s.pipes
    requires s.procs[p].done + n <= |a.tokens|
    requires var pipe := s.pipes[Channel(a.from, p)]; pipe.read + n <= |pipe.log|
    ensures var pipe := s.pipes[Channel(a.from, p)];
            pipe.log[pipe.read..pipe.read + n] == a.tokens[s.procs[p].done..s.procs[p].done + n]
  {
    hide Performed, Puts, Gets, Events, Linearizes;
    var c := Channel(a.from, p);
    var pipe, done := s.pipes[c], s.procs[p].done;
    var chunk := a.tokens[done..done + n];
    assert PipeOk(net, s, c) && ProcessOk(net, s, p) && ProcessOk(net, s, a.from);
    var proc := s.procs[p].(done := done + n, buffer := a.tokens[..done + n]);
    var ahead := s.(procs := s.procs[p := proc]);
    assert ProcessOk(net, ahead, p);
    PerformedAfterTransfer(net, s, p, n, ahead);
    StreamsAfter(net, s, ahead, p, a, chunk, c);
    PerformedPrefix(net, ahead, p);
    PerformedPrefix(net, s, a.from);
    var gets, puts := Gets(Events(p, net.scripts[p]), c), Puts(Events(a.from, net.scripts[a.from]), c);
    GetsPrefix(Performed(net, ahead, p), Events(p, net.scripts[p]), c);
    PutsPrefix(Performed(net, s, a.from), Events(a.from, net.scripts[a.from]), c);
    TotalStreams(net, schedule, c);
    var taken := Gets(Performed(net, s, p), c);
    assert (taken + chunk)[pipe.read..pipe.read + n] == chunk;
    assert puts[pipe.read..pipe.read + n] == pipe.log[pipe.read..pipe.read + n];
    assert puts[pipe.read..pipe.read + n] == (taken + chunk)[pipe.read..pipe.read + n];
  }

  lemma {:induction false} ReadKeeps(net: Network, schedule: seq<Event>, s: State, p: nat, a: Action, n: nat,
      next: State)
    requires Linearizes(net, schedule)
    requires Inv(net, s) && Current(net, s, p) == Some(a) && a.Expect? && Read(s, p, a, n) == Some(next)
    ensures Inv(net, next)
  {
    hide Performed, Puts, Gets, Linearizes;
    ReadMatches(net, schedule, s, p, a, n);
    var done := s.procs[p].done;
    var chunk := a.tokens[done..done + n];
    assert ProcessOk(net, s, p);
    assert a.tokens[..done] + chunk == a.tokens[..done + n];
    assert ProcessOk(net, next, p);
    PerformedAfterTransfer(net, s, p, n, next);
    forall q | 0 <= q < |next.procs| ensures ProcessOk(net, next, q) {
      assert ProcessOk(net, s, q);
    }
    forall c | c in next.pipes ensures PipeOk(net, next, c) {
      assert PipeOk(net, s, c);
      StreamsAfter(net, s, next, p, a, chunk, c);
    }
  }

  lemma {:induction false} CompleteKeeps(net: Network, s: State, p: nat, next: State)
    requires Inv(net, s) && Apply(net, s, Complete(p)) == Some(next)
    ensures Inv(net, next)
  {
    hide Performed, Puts, Gets;
    assert ProcessOk(net, s, p);
    var a := Current(net, s, p).value;
    assert a.tokens[..s.procs[p].done] == a.tokens;
    PerformedAfterComplete(net, s, p, next);
    forall q | 0 <= q < |next.procs| ensures ProcessOk(net, next, q) && Performed(net, next, q) == Performed(net, s, q) {
      assert ProcessOk(net, s, q);
      if q != p {
        SamePerformed(net, s, next, q);
      }
    }
    forall c | c in next.pipes ensures PipeOk(net, next, c) {
      assert PipeOk(net, s, c);
    }
  }

  lemma {:induction false} SamePerformed(net: Network, s: State, next: State, q: nat)
    requires ProcessOk(net, s, q) && q < |next.procs| && next.procs[q] == s.procs[q]
    ensures ProcessOk(net, next, q) && Performed(net, next, q) == Performed(net, s, q)
  {
  }

  /** Every enabled move keeps the invariant; in particular no comparison fails. */
  lemma {:induction false} MoveKeeps(net: Network, schedule: seq<Event>, s: State, move: Move, next: State)
    requires Linearizes(net, schedule) && Inv(net, s) && Apply(net, s, move) == Some(next)
    ensures Inv(net, next)
  {
    hide Inv, Linearizes, Write, Read;
    match move {
      case Transfer(p, n) =>
        var a := Current(net, s, p).value;
        if a.Send? {
          WriteKeeps(net, s, p, a, n, next);
        } else {
          ReadKeeps(net, schedule, s, p, a, n, next);
        }
      case Complete(p) => CompleteKeeps(net, s, p, next);
    }
  }

  lemma {:induction false} RunKeeps(net: Network, schedule: seq<Event>, moves: seq<Move>)
    requires Linearizes(net, schedule) && Execute(net, moves).Some?
    ensures Inv(net, Execute(net, moves).value)
  {
    hide Inv, Linearizes, Apply;
    if moves == [] {
      InitialOk(net);
    } else {
      var front := moves[..|moves| - 1];
      RunKeeps(net, schedule, front);
      MoveKeeps(net, schedule, Execute(net, front).value, moves[|moves| - 1], Execute(net, moves).value);
    }
  }

  // ---- progress ----

  /** Every process has performed at least its part of the first `i` scheduled events. */
  ghost predicate Reached(net: Network, schedule: seq<Event>, s: State, i: nat)
    requires Inv(net, s) && i <= |schedule|
  {
    forall p :: 0 <= p < |net.scripts| ==> ProcessOk(net, s, p) && |Local(schedule[..i], p)| <= |Performed(net, s, p)|
  }

  lemma {:induction false} FirstPending(net: Network, schedule: seq<Event>, s: State, i: nat) returns (k: nat)
    requires Inv(net, s) && i <= |schedule| && Reached(net, schedule, s, i)
    ensures k <= |schedule| && Reached(net, schedule, s, k)
    ensures k == |schedule| || !Reached(net, schedule, s, k + 1)
    decreases |schedule| - i
  {
    hide Inv, Reached;
    if i == |schedule| || !Reached(net, schedule, s, i + 1) {
      k := i;
    } else {
      k := FirstPending(net, schedule, s, i + 1);
    }
  }

  /** What a process has performed extends its part of any reached schedule prefix. */
  lemma {:induction false} ReachedPrefix(net: Network, schedule: seq<Event>, s: State, i: nat, p: nat)
    requires Linearizes(net, schedule) && Inv(net, s) && i <= |schedule| && Reached(net, schedule, s, i)
    requires ProcessOk(net, s, p)
    ensures Local(schedule[..i], p) <= Performed(net, s, p)
  {
    PerformedPrefix(net, s, p);
    LocalPrefix(schedule[..i], schedule, p);
  }

  /** All scheduled events performed: whoever is not finished can complete its action. */
  lemma {:induction false} AllPerformed(net: Network, schedule: seq<Event>, s: State, p: nat)
    requires Linearizes(net, schedule) && Inv(net, s) && Reached(net, schedule, s, |schedule|)
    requires p < |net.scripts| && s.procs[p].at < |net.scripts[p]|
    ensures Apply(net, s, Complete(p)).Some?
  {
    hide Events, Local, PipeOk, Sequential, Channels;
    assert schedule[..|schedule|] == schedule;
    assert |Local(schedule[..|schedule|], p)| <= |Performed(net, s, p)|;
    EventsAt(p, net.scripts[p], s.procs[p].at);
    assert s.procs[p].done == |net.scripts[p][s.procs[p].at].tokens|;
  }

  /** The first pending event is the next event of its process. */
  lemma {:induction false} PendingIsNext(net: Network, schedule: seq<Event>, s: State, k: nat)
    requires Linearizes(net, schedule) && Inv(net, s) && k < |schedule|
    requires Reached(net, schedule, s, k) && !Reached(net, schedule, s, k + 1)
    ensures var e := schedule[k];
            var p := Actor(e);
            && ProcessOk(net, s, p)
            && Performed(net, s, p) == Local(schedule[..k], p)
            && Performed(net, s, p) + [e] <= Events(p, net.scripts[p])
  {
    hide Performed, Events, Inv;
    var e := schedule[k];
    var p := Actor(e);
    assert schedule[..k + 1] == schedule[..k] + [e];
    forall q ensures Local(schedule[..k + 1], q) == Local(schedule[..k], q) + if q == p then [e] else [] {
      LocalConcat(schedule[..k], [e], q);
      assert [e][1..] == [];
    }
    assert e.c in Channels(net);
    var q :| 0 <= q < |net.scripts| && ProcessOk(net, s, q) && |Local(schedule[..k + 1], q)| > |Performed(net, s, q)|;
    assert q == p;
    ReachedPrefix(net, schedule, s, k, p);
    LocalPrefix(schedule[..k + 1], schedule, p);
  }

  /** A process whose next event is `e` is inside the action of `e`, or can complete the one before. */
  lemma {:induction false} NextAction(net: Network, s: State, p: nat, e: Event)
    requires ProcessOk(net, s, p) && Performed(net, s, p) + [e] <= Events(p, net.scripts[p])
    ensures s.procs[p].at < |net.scripts[p]|
    ensures var a, done := net.scripts[p][s.procs[p].at], s.procs[p].done;
            done < |a.tokens| ==> e == ActionEvent(p, a, a.tokens[done])
  {
    hide Events;
    PerformedPrefix(net, s, p);
    var script, proc := net.scripts[p], s.procs[p];
    EventsAt(p, script, proc.at);
    var a := script[proc.at];
    if proc.done < |a.tokens| {
      var m := |Performed(net, s, p)|;
      assert (Performed(net, s, p) + [e])[m] == e;
      assert Events(p, script[..proc.at + 1])[m] == TokenEvents(p, a, a.tokens)[proc.done];
    }
  }

  /** A pending write fits the channel. */
  lemma {:induction false} PendingPutFits(net: Network, schedule: seq<Event>, s: State, k: nat)
    requires Linearizes(net, schedule) && Inv(net, s) && k < |schedule| && Reached(net, schedule, s, k)
    requires schedule[k].Put? && schedule[k].c in s.pipes
    requires ProcessOk(net, s, schedule[k].c.from) && Performed(net, s, schedule[k].c.from) == Local(schedule[..k], schedule[k].c.from)
    ensures var pipe := s.pipes[schedule[k].c]; |pipe.log| - pipe.read + 1 <= net.capacity
  {
    hide Performed, Events, Reached;
    var e := schedule[k];
    var c, before := e.c, schedule[..k];
    assert PipeOk(net, s, c);
    PutsLocal(before, c);
    GetsLocal(before, c);
    ProcessesOk(net, s, c.to);
    ReachedPrefix(net, schedule, s, k, c.to);
    GetsPrefix(Local(before, c.to), Performed(net, s, c.to), c);
    assert schedule[..k + 1] == before + [e];
    PutsConcat(before, [e], c);
    GetsConcat(before, [e], c);
    assert [e][1..] == [];
  }

  /** A pending read finds its token. */
  lemma {:induction false} PendingGetFinds(net: Network, schedule: seq<Event>, s: State, k: nat)
    requires Linearizes(net, schedule) && Inv(net, s) && k < |schedule| && Reached(net, schedule, s, k)
    requires schedule[k].Get? && schedule[k].c in s.pipes
    requires ProcessOk(net, s, schedule[k].c.to) && Performed(net, s, schedule[k].c.to) == Local(schedule[..k], schedule[k].c.to)
    ensures var pipe := s.pipes[schedule[k].c]; pipe.read + 1 <= |pipe.log|
  {
    hide Performed, Events, Reached;
    var e := schedule[k];
    var c, before := e.c, schedule[..k];
    assert PipeOk(net, s, c);
    PutsLocal(before, c);
    GetsLocal(before, c);
    ProcessesOk(net, s, c.from);
    ReachedPrefix(net, schedule, s, k, c.from);
    PutsPrefix(Local(before, c.from), Performed(net, s, c.from), c);
    assert schedule[..k + 1] == before + [e];
    PutsConcat(before, [e], c);
    GetsConcat(before, [e], c);
    assert [e][1..] == [];
  }

  /** No reachable state is stuck before the end. */
  lemma {:induction false} Progress(net: Network, schedule: seq<Event>, s: State) returns (move: Move)
    requires Linearizes(net, schedule) && Inv(net, s) && !Finished(net, s)
    ensures Apply(net, s, move).Some?
  {
    hide Performed, Events, Reached, Linearizes;
    StartReached(net, schedule, s);
    var k := FirstPending(net, schedule, s, 0);
    if k == |schedule| {
      var p :| 0 <= p < |s.procs| && !(!s.procs[p].failed && s.procs[p].at == |net.scripts[p]|);
      assert ProcessOk(net, s, p);
      AllPerformed(net, schedule, s, p);
      move := Complete(p);
    } else {
      var e := schedule[k];
      var p := Actor(e);
      PendingIsNext(net, schedule, s, k);
      ScheduledChannel(net, schedule, k);
      assert ProcessOk(net, s, p);
      NextAction(net, s, p, e);
      var a := net.scripts[p][s.procs[p].at];
      if s.procs[p].done == |a.tokens| {
        move := Complete(p);
      } else {
        move := Transfer(p, 1);
        if e.Put? {
          PendingPutFits(net, schedule, s, k);
        } else {
          PendingGetFinds(net, schedule, s, k);
        }
      }
    }
  }

  lemma {:induction false} StartReached(net: Network, schedule: seq<Event>, s: State)
    requires Inv(net, s)
    ensures Reached(net, schedule, s, 0)
  {
    assert schedule[..0] == [];
  }

  lemma {:induction false} ScheduledChannel(net: Network, schedule: seq<Event>, k: nat)
    requires Linearizes(net, schedule) && k < |schedule|
    ensures schedule[k].c in Channels(net)
  {
  }

  /** A finished state offers no move. */
  lemma {:induction false} FinishedStops(net: Network, s: State, move: Move)
    requires Finished(net, s)
    ensures Apply(net, s, move).None?
  {
  }

  // ---- termination ----

  /** Tokens and actions of the first `k` processes. */
  function Work(net: Network, k: nat): nat
    requires k <= |net.scripts|
  {
    if k == 0 then 0 else Work(net, k - 1) + |Events(k - 1, net.scripts[k - 1])| + |net.scripts[k - 1]|
  }

  function Achieved(net: Network, s: State, k: nat): nat
    requires Inv(net, s) && k <= |net.scripts|
  {
    if k == 0 then 0
    else
      assert ProcessOk(net, s, k - 1);
      Achieved(net, s, k - 1) + |Performed(net, s, k - 1)| + s.procs[k - 1].at
  }

  lemma {:induction false} AchievedBound(net: Network, s: State, k: nat)
    requires Inv(net, s) && k <= |net.scripts|
    ensures Achieved(net, s, k) <= Work(net, k)
  {
    hide Performed, Events;
    if k > 0 {
      AchievedBound(net, s, k - 1);
      assert ProcessOk(net, s, k - 1);
      PerformedPrefix(net, s, k - 1);
    }
  }

  /** Every move adds to what has been achieved. */
  lemma {:induction false} MoveAdvances(net: Network, s: State, p: nat, next: State, k: nat)
    requires Inv(net, s) && Inv(net, next) && k <= |net.scripts| && p < |net.scripts|
    requires forall q :: 0 <= q < |s.procs| && q != p ==> next.procs[q] == s.procs[q]
    requires ProcessOk(net, s, p) && ProcessOk(net, next, p)
    requires |Performed(net, next, p)| + next.procs[p].at > |Performed(net, s, p)| + s.procs[p].at
    ensures Achieved(net, next, k) >= Achieved(net, s, k) + if k > p then 1 else 0
  {
    hide Inv, Performed;
    if k > 0 {
      MoveAdvances(net, s, p, next, k - 1);
      ProcessesOk(net, s, k - 1);
      ProcessesOk(net, next, k - 1);
      if k - 1 != p {
        SamePerformed(net, s, next, k - 1);
      }
    }
  }

  lemma {:induction false} ProcessesOk(net: Network, s: State, p: nat)
    requires Inv(net, s) && p < |net.scripts|
    ensures ProcessOk(net, s, p)
  {
  }

  lemma {:induction false} MoveProgress(net: Network, s: State, move: Move, next: State)
    requires Inv(net, s) && Inv(net, next) && Apply(net, s, move) == Some(next)
    ensures Achieved(net, next, |net.scripts|) > Achieved(net, s, |net.scripts|)
  {
    hide Performed, Achieved, PipeOk;
    var p := move.p;
    assert ProcessOk(net, s, p) && ProcessOk(net, next, p);
    match move {
      case Transfer(_, n) => PerformedAfterTransfer(net, s, p, n, next);
      case Complete(_) => PerformedAfterComplete(net, s, p, next);
    }
    MoveAdvances(net, s, p, next, |net.scripts|);
  }

  lemma {:induction false} RunAdvances(net: Network, schedule: seq<Event>, moves: seq<Move>)
    requires Linearizes(net, schedule) && Execute(net, moves).Some? && Inv(net, Execute(net, moves).value)
    ensures |moves| <= Achieved(net, Execute(net, moves).value, |net.scripts|)
  {
    hide Inv, Linearizes, Apply, Achieved;
    if moves != [] {
      var front := moves[..|moves| - 1];
      RunKeeps(net, schedule, front);
      RunAdvances(net, schedule, front);
      MoveProgress(net, Execute(net, front).value, moves[|moves| - 1], Execute(net, moves).value);
    }
  }

  // ---- the theorem ----

  /** What a channel carries over a whole run. */
  function Stream(net: Network, c: Channel): Tokens
    requires c in Channels(net)
  {
    Puts(Events(c.from, net.scripts[c.from]), c)
  }

  /** Channel `c` carried exactly `tokens`, and its receiver has read all of them. */
  predicate Delivered(s: State, c: Channel, tokens: Tokens) {
    c in s.pipes && s.pipes[c].log == tokens && s.pipes[c].read == |tokens|
  }

  /** Under a balanced schedule a receiver takes all that its sender puts. */
  lemma {:induction false} AllTaken(net: Network, schedule: seq<Event>, c: Channel)
    requires Linearizes(net, schedule) && Balanced(schedule) && c in Channels(net)
    ensures Gets(Events(c.to, net.scripts[c.to]), c) == Stream(net, c)
  {
    PutsLocal(schedule, c);
    GetsLocal(schedule, c);
  }

  lemma {:induction false} FinishedStreams(net: Network, s: State, c: Channel)
    requires Inv(net, s) && Finished(net, s) && c in Channels(net)
    ensures s.pipes[c].log == Stream(net, c)
    ensures s.pipes[c].read == |Gets(Events(c.to, net.scripts[c.to]), c)|
  {
    hide Performed, Events;
    assert PipeOk(net, s, c);
    ProcessesOk(net, s, c.from);
    ProcessesOk(net, s, c.to);
    PerformedPrefix(net, s, c.from);
    PerformedPrefix(net, s, c.to);
  }

  /**
   * If one schedule linearizes the network, then in every interleaving and fragmentation: no
   * process fails, the run cannot exceed the network's work, it can stop only with every script
   * finished, and then each channel has carried exactly its stream, read to the end if the schedule is balanced.
   */
  lemma {:induction false} EveryRunSucceeds(net: Network, schedule: seq<Event>, moves: seq<Move>)
    requires Linearizes(net, schedule) && Execute(net, moves).Some?
    ensures var s := Execute(net, moves).value;
            && |s.procs| == |net.scripts|
            && (forall p :: 0 <= p < |s.procs| ==> !s.procs[p].failed)
            && |moves| <= Work(net, |net.scripts|)
            && ((forall move :: Apply(net, s, move).None?) <==> Finished(net, s))
            && (Finished(net, s) ==> forall c :: c in Channels(net) ==> c in s.pipes && s.pipes[c].log == Stream(net, c))
            && (Finished(net, s) && Balanced(schedule) ==> forall c :: c in Channels(net) ==> Delivered(s, c, Stream(net, c)))
  {
    hide Linearizes, Apply, Execute, Performed, Achieved, Work, Stream, PipeOk, Finished, Balanced, Gets;
    RunKeeps(net, schedule, moves);
    RunAdvances(net, schedule, moves);
    var s := Execute(net, moves).value;
    AchievedBound(net, s, |net.scripts|);
    forall p | 0 <= p < |s.procs| ensures !s.procs[p].failed {
      ProcessesOk(net, s, p);
    }
    if !Finished(net, s) {
      var move := Progress(net, schedule, s);
    } else {
      forall move ensures Apply(net, s, move).None? {
        FinishedStops(net, s, move);
      }
      forall c | c in Channels(net)
        ensures s.pipes[c].log == Stream(net, c) && (Balanced(schedule) ==> s.pipes[c].read == |Stream(net, c)|)
      {
        FinishedStreams(net, s, c);
        if Balanced(schedule) {
          AllTaken(net, schedule, c);
        }
      }
    }
  }

  /** Every run can be continued until all have finished. */
  lemma {:induction false} EveryRunCompletes(net: Network, schedule: seq<Event>, moves: seq<Move>)
    returns (all: seq<Move>)
    requires Linearizes(net, schedule) && Execute(net, moves).Some?
    ensures moves <= all && Execute(net, all).Some? && Finished(net, Execute(net, all).value)
    decreases Work(net, |net.scripts|) - |moves|
  {
    hide Linearizes, Apply, Finished, Work, Inv, Stream;
    EveryRunSucceeds(net, schedule, moves);
    var s := Execute(net, moves).value;
    if Finished(net, s) {
      all := moves;
    } else {
      RunKeeps(net, schedule, moves);
      var move := Progress(net, schedule, s);
      var longer := moves + [move];
      assert longer[..|longer| - 1] == moves;
      EveryRunSucceeds(net, schedule, longer);
      all := EveryRunCompletes(net, schedule, longer);
    }
  }

  // ---- what finishing means, in any network ----

  /** A write may move any number of tokens that the script has left and the channel has room for. */
  lemma {:induction false} AnyPieceWritten(net: Network, s: State, p: nat, n: nat)
    requires Current(net, s, p).Some? && Current(net, s, p).value.Send? && Channel(p, Current(net, s, p).value.to) in s.pipes
    ensures var a := Current(net, s, p).value;
            var pipe := s.pipes[Channel(p, a.to)];
            Apply(net, s, Transfer(p, n)).Some?
            <==> 1 <= n <= |a.tokens| - s.procs[p].done && |pipe.log| - pipe.read + n <= net.capacity
  {
  }

  /** A read may take any number of tokens that are there and that the script still awaits. */
  lemma {:induction false} AnyPieceRead(net: Network, s: State, p: nat, n: nat)
    requires Current(net, s, p).Some? && Current(net, s, p).value.Expect? && Channel(Current(net, s, p).value.from, p) in s.pipes
    ensures var a := Current(net, s, p).value;
            var pipe := s.pipes[Channel(a.from, p)];
            Apply(net, s, Transfer(p, n)).Some? <==> 1 <= n <= |a.tokens| - s.procs[p].done && n <= |pipe.log| - pipe.read
  {
  }

  /** What a script has put so far: its completed actions, and the part done of the one it is in. */
  function SoFar(net: Network, s: State, p: nat): (r: seq<Event>)
    requires p < |net.scripts| && p < |s.procs| && s.procs[p].at <= |net.scripts[p]|
  {
    Events(p, net.scripts[p][..s.procs[p].at])
  }

  predicate WithinScript(net: Network, s: State, p: nat) {
    && p < |net.scripts| && p < |s.procs|
    && var proc, script := s.procs[p], net.scripts[p];
    && proc.at <= |script|
    && (proc.at < |script| ==> proc.done <= |script[proc.at].tokens|)
    && (proc.failed ==> proc.at < |script| && script[proc.at].Expect?)
  }

  predicate SentOk(net: Network, s: State, c: Channel) {
    && c in s.pipes && WithinScript(net, s, c.from)
    && var proc, script := s.procs[c.from], net.scripts[c.from];
       s.pipes[c].log == Puts(SoFar(net, s, c.from), c)
                         + if proc.at < |script| && script[proc.at] == Send(c.to, script[proc.at].tokens) then script[proc.at].tokens[..proc.done] else []
  }

  /** What a healthy process has read: what its completed actions expect, and the buffer of the one it is in. */
  predicate ReadOk(net: Network, s: State, c: Channel) {
    && c in s.pipes && WithinScript(net, s, c.to) && s.pipes[c].read <= |s.pipes[c].log|
    && var proc, script := s.procs[c.to], net.scripts[c.to];
       !proc.failed ==>
         s.pipes[c].log[..s.pipes[c].read]
         == Gets(SoFar(net, s, c.to), c)
            + if proc.at < |script| && script[proc.at] == Expect(c.from, script[proc.at].tokens) then proc.buffer else []
  }

  predicate Bounded(net: Network, s: State, c: Channel) {
    c in s.pipes && s.pipes[c].read <= |s.pipes[c].log| && |s.pipes[c].log| - s.pipes[c].read <= net.capacity
  }

  predicate ChannelOk(net: Network, s: State, c: Channel) {
    SentOk(net, s, c) && ReadOk(net, s, c) && Bounded(net, s, c)
  }

  lemma {:induction false} NextEvents(p: nat, script: Script, at: nat)
    requires at < |script|
    ensures Events(p, script[..at + 1]) == Events(p, script[..at]) + TokenEvents(p, script[at], script[at].tokens)
  {
    hide TokenEvents;
    assert script[..at + 1] == script[..at] + [script[at]];
    EventsConcat(p, script[..at], [script[at]]);
    assert Events(p, [script[at]]) == TokenEvents(p, script[at], script[at].tokens) + Events(p, [script[at]][1..]);
    assert [script[at]][1..] == [];
  }

  lemma {:induction false} WriteSound(net: Network, s: State, p: nat, n: nat, next: State, c: Channel)
    requires Current(net, s, p).Some? && Current(net, s, p).value.Send?
    requires Write(net, s, p, Current(net, s, p).value, n) == Some(next) && ChannelOk(net, s, c)
    ensures ChannelOk(net, next, c)
  {
    hide Events, Puts, Gets;
    var a := Current(net, s, p).value;
    var done := s.procs[p].done;
    assert a.tokens[..done + n] == a.tokens[..done] + a.tokens[done..done + n];
    if c == Channel(p, a.to) {
      ConcatAssociates(Puts(SoFar(net, s, p), c), a.tokens[..done], a.tokens[done..done + n]);
      var pipe := s.pipes[c];
      assert next.pipes[c].log[..pipe.read] == pipe.log[..pipe.read];
    }
  }

  lemma {:induction false} ReadSound(net: Network, s: State, p: nat, n: nat, next: State, c: Channel)
    requires Current(net, s, p).Some? && Current(net, s, p).value.Expect?
    requires Read(s, p, Current(net, s, p).value, n) == Some(next) && ChannelOk(net, s, c)
    ensures ChannelOk(net, next, c)
  {
    hide Events, Puts, Gets;
    var a := Current(net, s, p).value;
    if c == Channel(a.from, p) {
      var pipe := s.pipes[c];
      assert pipe.log[..pipe.read + n] == pipe.log[..pipe.read] + pipe.log[pipe.read..pipe.read + n];
      ConcatAssociates(Gets(SoFar(net, s, p), c), s.procs[p].buffer, pipe.log[pipe.read..pipe.read + n]);
    }
  }

  lemma {:induction false} CompleteSound(net: Network, s: State, p: nat, next: State, c: Channel)
    requires Current(net, s, p).Some? && Apply(net, s, Complete(p)) == Some(next) && ChannelOk(net, s, c)
    ensures ChannelOk(net, next, c)
  {
    hide Events, Puts, Gets, TokenEvents;
    var a, at := Current(net, s, p).value, s.procs[p].at;
    if !next.procs[p].failed {
      var before := Events(p, net.scripts[p][..at]);
      NextEvents(p, net.scripts[p], at);
      PutsConcat(before, TokenEvents(p, a, a.tokens), c);
      GetsConcat(before, TokenEvents(p, a, a.tokens), c);
      TokenEventsStreams(p, a, a.tokens, c);
      assert a.tokens[..|a.tokens|] == a.tokens;
    }
  }

  lemma {:induction false} RunSound(net: Network, moves: seq<Move>, c: Channel)
    requires Execute(net, moves).Some? && c in Channels(net)
    ensures ChannelOk(net, Execute(net, moves).value, c)
  {
    hide ChannelOk;
    if moves == [] {
      StartSound(net, c);
    } else {
      var front, move := moves[..|moves| - 1], moves[|moves| - 1];
      RunSound(net, front, c);
      var s, next := Execute(net, front).value, Execute(net, moves).value;
      match move {
        case Transfer(p, n) =>
          if Current(net, s, p).value.Send? {
            WriteSound(net, s, p, n, next, c);
          } else {
            ReadSound(net, s, p, n, next, c);
          }
        case Complete(p) => CompleteSound(net, s, p, next, c);
      }
    }
  }

  lemma {:induction false} StartSound(net: Network, c: Channel)
    requires c in Channels(net)
    ensures ChannelOk(net, Initial(net), c)
  {
    assert net.scripts[c.from][..0] == [] && net.scripts[c.to][..0] == [];
    assert Events(c.from, []) == [] && Events(c.to, []) == [];
  }

  /**
   * In any network, schedule or none: no channel ever holds more than its capacity, and a run in which all have
   * finished has carried on every channel what its sender's script says, and what was read of it is what its
   * receiver's script expects. So scripts that disagree about the octets of a channel never all finish.
   */
  lemma {:induction false} FinishedMeansExact(net: Network, moves: seq<Move>, c: Channel)
    requires Execute(net, moves).Some? && c in Channels(net)
    ensures Bounded(net, Execute(net, moves).value, c)
    ensures var s := Execute(net, moves).value;
            Finished(net, s) ==>
              && s.pipes[c].log == Stream(net, c)
              && s.pipes[c].log[..s.pipes[c].read] == Gets(Events(c.to, net.scripts[c.to]), c)
              && Gets(Events(c.to, net.scripts[c.to]), c) <= Stream(net, c)
  {
    hide Execute, Events, Puts, Gets;
    RunSound(net, moves, c);
    var s := Execute(net, moves).value;
    if Finished(net, s) {
      assert net.scripts[c.from][..|net.scripts[c.from]|] == net.scripts[c.from];
      assert net.scripts[c.to][..|net.scripts[c.to]|] == net.scripts[c.to];
    }
  }
}
