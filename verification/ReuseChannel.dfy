/**
 * The one-use channel: the server answers one probe and closes, the client tries a second probe.
 * Reads and writes move any positive number of octets; a closed peer shows up as a broken pipe,
 * a reset or the end of the stream, in whatever order the two sides get there.
 */
module ReuseChannel {
  import opened Common

  datatype Config = Config(probe: Bytes, sentinel: Bytes, capacity: nat) {
    ghost predicate Valid() {
      |probe| >= 1 && |sentinel| >= 1 && capacity >= 1
    }
  }

  datatype Outcome = RegisteredExchange | ClosedAfterRegisteredExchange

  /** `channel_server`: reading the probe, writing the sentinel, about to close, returned, or raised. */
  datatype Server =
    | AwaitProbe(got: Bytes)
    | Answer(sent: nat)
    | Close
    | Returned(events: seq<Outcome>)
    | Raised

  /** `channel_client`: first write, reading the sentinel, second write, the final one-octet read, returned, or raised. */
  datatype Client =
    | FirstWrite(written: nat)
    | AwaitSentinel(have: Bytes)
    | SecondWrite(again: nat)
    | FinalRead
    | Ended(outcome: seq<Outcome>)
    | Aborted

  /** The two peers, the two queues, a reset seen by the client's side, and all octets ever read and answered. */
  datatype State = State(
    server: Server, client: Client, toServer: Bytes, toClient: Bytes, reset: bool, consumed: Bytes, answered: Bytes)

  datatype Errno = EPIPE | ECONNRESET

  datatype Move =
    | ServerRead(n: nat)
    | ServerWrite(n: nat)
    | ServerClose
    | ClientWrite(n: nat)
    | ClientWriteFails(errno: Errno)
    | ClientRead(n: nat)
    | ClientReadsEnd
    | ClientReadFails

  const EVENTS: seq<Outcome> := [RegisteredExchange, ClosedAfterRegisteredExchange]

  function Initial(): State {
    State(AwaitProbe([]), FirstWrite(0), [], [], false, [], [])
  }

  predicate Closed(s: State) {
    s.server.Returned? || s.server.Raised?
  }

  // ---- the server's steps ----

  function ServerReads(k: Config, s: State, n: nat): (r: Option<State>) {
    if !s.server.AwaitProbe? || n == 0 || n > |s.toServer| || |s.server.got| + n > |k.probe| then None
    else
      var got := s.server.got + s.toServer[..n];
      var next := if |got| < |k.probe| then AwaitProbe(got) else if got == k.probe then Answer(0) else Raised;
      Some(s.(server := next, toServer := s.toServer[n..], consumed := s.consumed + s.toServer[..n]))
  }

  function ServerWrites(k: Config, s: State, n: nat): (r: Option<State>) {
    if !s.server.Answer? || n == 0 || s.server.sent + n > |k.sentinel| || |s.toClient| + n > k.capacity then None
    else
      var piece := k.sentinel[s.server.sent..s.server.sent + n];
      var next := if s.server.sent + n < |k.sentinel| then Answer(s.server.sent + n) else Close;
      Some(s.(server := next, toClient := s.toClient + piece, answered := s.answered + piece))
  }

  /** Closing with unread input resets the connection. */
  function ServerCloses(s: State): (r: Option<State>) {
    if !s.server.Close? then None
    else Some(s.(server := Returned(EVENTS), toServer := [], reset := s.toServer != []))
  }

  // ---- the client's steps ----

  /** A write: stored while the server is open; after the close it may still be taken, lost, and answered by a reset. */
  function Deliver(k: Config, s: State, piece: Bytes): (r: Option<State>) {
    if Closed(s) then Some(s.(reset := true))
    else if |s.toServer| + |piece| > k.capacity then None
    else Some(s.(toServer := s.toServer + piece))
  }

  function ClientWrites(k: Config, s: State, n: nat): (r: Option<State>) {
    if n == 0 then None
    else if s.client.FirstWrite? && s.client.written + n <= |k.probe| then
      var sent := Deliver(k, s, k.probe[s.client.written..s.client.written + n]);
      if sent.None? then None
      else Some(sent.value.(client := if s.client.written + n < |k.probe| then FirstWrite(s.client.written + n) else AwaitSentinel([])))
    else if s.client.SecondWrite? && s.client.again + n <= |k.probe| then
      var sent := Deliver(k, s, k.probe[s.client.again..s.client.again + n]);
      if sent.None? then None
      else Some(sent.value.(client := if s.client.again + n < |k.probe| then SecondWrite(s.client.again + n) else FinalRead))
    else None
  }

  /** A broken pipe or a reset: caught in the second write, raised in the first. */
  function ClientWriteErrors(s: State, errno: Errno): (r: Option<State>) {
    if !Closed(s) || (errno.ECONNRESET? && !s.reset) then None
    else if s.client.FirstWrite? then Some(s.(client := Aborted))
    else if s.client.SecondWrite? then Some(s.(client := Ended(EVENTS)))
    else None
  }

  function ClientReads(k: Config, s: State, n: nat): (r: Option<State>) {
    if n == 0 || n > |s.toClient| then None
    else if s.client.AwaitSentinel? && |s.client.have| + n <= |k.sentinel| then
      var have := s.client.have + s.toClient[..n];
      var next := if |have| < |k.sentinel| then AwaitSentinel(have) else if have == k.sentinel then SecondWrite(0) else Aborted;
      Some(s.(client := next, toClient := s.toClient[n..]))
    else if s.client.FinalRead? && n == 1 then Some(s.(client := Aborted, toClient := s.toClient[1..]))
    else None
  }

  /** The end of the stream: truncation while the sentinel is awaited, the expected answer in the final read. */
  function ClientReadsNothing(s: State): (r: Option<State>) {
    if !Closed(s) || s.toClient != [] then None
    else if s.client.AwaitSentinel? then Some(s.(client := Aborted))
    else if s.client.FinalRead? then Some(s.(client := Ended(EVENTS)))
    else None
  }

  /** A reset overtakes whatever is still queued: raised while the sentinel is awaited, caught in the final read. */
  function ClientReadErrors(s: State): (r: Option<State>) {
    if !s.reset then None
    else if s.client.AwaitSentinel? then Some(s.(client := Aborted))
    else if s.client.FinalRead? then Some(s.(client := Ended(EVENTS)))
    else None
  }

  function Apply(k: Config, s: State, move: Move): (r: Option<State>) {
    match move
    case ServerRead(n) => ServerReads(k, s, n)
    case ServerWrite(n) => ServerWrites(k, s, n)
    case ServerClose => ServerCloses(s)
    case ClientWrite(n) => ClientWrites(k, s, n)
    case ClientWriteFails(errno) => ClientWriteErrors(s, errno)
    case ClientRead(n) => ClientReads(k, s, n)
    case ClientReadsEnd => ClientReadsNothing(s)
    case ClientReadFails => ClientReadErrors(s)
  }

  function Execute(k: Config, moves: seq<Move>): (r: Option<State>) {
    if moves == [] then Some(Initial())
    else
      var before := Execute(k, moves[..|moves| - 1]);
      if before.None? then None else Apply(k, before.value, moves[|moves| - 1])
  }

  /** Whatever arrives: the server answers exactly a complete probe, the client goes on exactly after the sentinel. */
  lemma {:induction false} OnlyExactOctetsPass(k: Config, s: State, n: nat)
    ensures ServerReads(k, s, n).Some? ==>
              var got, next := s.server.got + s.toServer[..n], ServerReads(k, s, n).value;
              && (next.server == Answer(0) <==> got == k.probe)
              && (next.server == Raised <==> |got| == |k.probe| && got != k.probe)
    ensures ClientReads(k, s, n).Some? && s.client.AwaitSentinel? ==>
              var have, next := s.client.have + s.toClient[..n], ClientReads(k, s, n).value;
              && (next.client == SecondWrite(0) <==> have == k.sentinel)
              && (next.client == Aborted <==> |have| == |k.sentinel| && have != k.sentinel)
    ensures ClientReads(k, s, n).Some? && s.client.FinalRead? ==> ClientReads(k, s, n).value.client == Aborted
  {
  }

  // ---- the invariant ----

  /** What each pairing of phases leaves on the queues. */
  predicate Inv(k: Config, s: State) {
    && (s.reset ==> s.server.Returned?)
    && (match s.server
        case AwaitProbe(got) => |got| < |k.probe| && s.consumed == got && s.answered == []
        case Answer(sent) => sent < |k.sentinel| && s.consumed == k.probe && s.answered == k.sentinel[..sent]
        case Close => s.consumed == k.probe && s.answered == k.sentinel
        case Returned(events) => events == EVENTS && s.consumed == k.probe && s.answered == k.sentinel && s.toServer == []
        case Raised => false)
    && (match s.client
        case FirstWrite(written) =>
          && written < |k.probe| && s.server.AwaitProbe? && s.toClient == [] && !s.reset
          && s.consumed + s.toServer == k.probe[..written]
        case AwaitSentinel(have) =>
          && |have| < |k.sentinel| && have + s.toClient == s.answered && !s.reset
          && s.consumed + s.toServer == k.probe
        case SecondWrite(again) =>
          && again < |k.probe| && s.answered == k.sentinel && s.toClient == [] && (s.server.Close? || s.server.Returned?)
          && (again == 0 ==> s.toServer == [] && !s.reset)
        case FinalRead => s.answered == k.sentinel && s.toClient == [] && (s.server.Close? || s.server.Returned?)
        case Ended(events) => events == EVENTS && s.server.Returned?
        case Aborted => false)
  }

  /** Octets and steps still to go on both sides. */
  function Remaining(k: Config, s: State): (r: int) {
    (match s.server
     case AwaitProbe(got) => |k.probe| - |got| + |k.sentinel| + 1
     case Answer(sent) => |k.sentinel| - sent + 1
     case Close => 1
     case Returned(_) => 0
     case Raised => 0)
    + (match s.client
       case FirstWrite(written) => 2 * |k.probe| - written + |k.sentinel| + 1
       case AwaitSentinel(have) => |k.sentinel| - |have| + |k.probe| + 1
       case SecondWrite(again) => |k.probe| - again + 1
       case FinalRead => 1
       case Ended(_) => 0
       case Aborted => 0)
  }

  lemma {:induction false} ServerKeeps(k: Config, s: State, move: Move)
    requires k.Valid() && Inv(k, s) && (move.ServerRead? || move.ServerWrite? || move.ServerClose?)
    requires Apply(k, s, move).Some?
    ensures Inv(k, Apply(k, s, move).value)
    ensures 0 <= Remaining(k, Apply(k, s, move).value) < Remaining(k, s)
  {
    match move
    case ServerRead(n) =>
      assert s.toServer == s.toServer[..n] + s.toServer[n..];
      ConcatAssociates(s.consumed, s.toServer[..n], s.toServer[n..]);
      var after := Apply(k, s, move).value;
      assert after.consumed + after.toServer == s.consumed + s.toServer;
      if |after.consumed| == |k.probe| {
        assert s.consumed + s.toServer == k.probe;
        assert after.consumed == k.probe;
      }
    case ServerWrite(n) =>
      var sent := s.server.sent;
      assert k.sentinel[..sent + n] == k.sentinel[..sent] + k.sentinel[sent..sent + n];
      if s.client.AwaitSentinel? {
        ConcatAssociates(s.client.have, s.toClient, k.sentinel[sent..sent + n]);
      }
      if sent + n == |k.sentinel| {
        assert k.sentinel[..sent + n] == k.sentinel;
      }
    case ServerClose =>
      if s.client.AwaitSentinel? {
        assert s.toServer == [];
      }
  }

  lemma {:induction false} ClientWriteKeeps(k: Config, s: State, n: nat)
    requires k.Valid() && Inv(k, s) && ClientWrites(k, s, n).Some?
    ensures Inv(k, ClientWrites(k, s, n).value)
    ensures 0 <= Remaining(k, ClientWrites(k, s, n).value) < Remaining(k, s)
  {
    if s.client.FirstWrite? {
      var written := s.client.written;
      assert k.probe[..written + n] == k.probe[..written] + k.probe[written..written + n];
      ConcatAssociates(s.consumed, s.toServer, k.probe[written..written + n]);
      assert k.probe[..|k.probe|] == k.probe;
    }
  }

  lemma {:induction false} ClientReadKeeps(k: Config, s: State, n: nat)
    requires k.Valid() && Inv(k, s) && ClientReads(k, s, n).Some?
    ensures Inv(k, ClientReads(k, s, n).value)
    ensures 0 <= Remaining(k, ClientReads(k, s, n).value) < Remaining(k, s)
  {
    if s.client.AwaitSentinel? {
      assert s.toClient == s.toClient[..n] + s.toClient[n..];
      ConcatAssociates(s.client.have, s.toClient[..n], s.toClient[n..]);
      var have := s.client.have + s.toClient[..n];
      assert have + s.toClient[n..] == s.answered;
      if |have| == |k.sentinel| {
        assert s.toClient[n..] == [];
      }
    }
  }

  lemma {:induction false} ClientStopKeeps(k: Config, s: State, move: Move)
    requires k.Valid() && Inv(k, s) && (move.ClientWriteFails? || move.ClientReadsEnd? || move.ClientReadFails?)
    requires Apply(k, s, move).Some?
    ensures Inv(k, Apply(k, s, move).value)
    ensures 0 <= Remaining(k, Apply(k, s, move).value) < Remaining(k, s)
  {
  }

  lemma {:induction false} MoveKeeps(k: Config, s: State, move: Move)
    requires k.Valid() && Inv(k, s) && Apply(k, s, move).Some?
    ensures Inv(k, Apply(k, s, move).value)
    ensures 0 <= Remaining(k, Apply(k, s, move).value) < Remaining(k, s)
  {
    hide Inv, Remaining;
    match move
    case ClientWrite(n) => ClientWriteKeeps(k, s, n);
    case ClientRead(n) => ClientReadKeeps(k, s, n);
    case ClientWriteFails(_) => ClientStopKeeps(k, s, move);
    case ClientReadsEnd => ClientStopKeeps(k, s, move);
    case ClientReadFails => ClientStopKeeps(k, s, move);
    case _ => ServerKeeps(k, s, move);
  }

  lemma {:induction false} RunKeeps(k: Config, moves: seq<Move>)
    requires k.Valid() && Execute(k, moves).Some?
    ensures Inv(k, Execute(k, moves).value)
    ensures 0 <= Remaining(k, Execute(k, moves).value) <= Remaining(k, Initial()) - |moves|
  {
    hide Apply, Inv;
    if moves == [] {
      InitialOk(k);
    } else {
      var front, last := moves[..|moves| - 1], moves[|moves| - 1];
      hide Remaining;
      RunKeeps(k, front);
      MoveKeeps(k, Execute(k, front).value, last);
    }
  }

  lemma {:induction false} InitialOk(k: Config)
    requires k.Valid()
    ensures Inv(k, Initial()) && Remaining(k, Initial()) == 3 * |k.probe| + 2 * |k.sentinel| + 2
  {
  }

  // ---- no deadlock ----

  predicate Finished(s: State) {
    s.server == Returned(EVENTS) && s.client == Ended(EVENTS)
  }

  /** Some move is possible until both have returned. */
  lemma {:induction false} Progress(k: Config, s: State) returns (move: Move)
    requires k.Valid() && Inv(k, s) && !Finished(s)
    ensures Apply(k, s, move).Some?
  {
    match s.server
    case AwaitProbe(got) =>
      if s.toServer != [] {
        move := ServerRead(1);
        if s.client.FirstWrite? {
          assert |got| + |s.toServer| <= |k.probe|;
        }
      } else if s.client.FirstWrite? {
        move := ClientWrite(1);
      } else {
        assert false;
      }
    case Answer(sent) =>
      if s.toClient == [] {
        move := ServerWrite(1);
      } else {
        move := ClientRead(1);
      }
    case Close => move := ServerClose;
    case Returned(_) =>
      match s.client
      case AwaitSentinel(have) =>
        if s.toClient == [] {
          assert false;
        } else {
          move := ClientRead(1);
        }
      case SecondWrite(_) => move := ClientWrite(1);
      case FinalRead => move := ClientReadsEnd;
  }

  lemma {:induction false} FinishedStops(k: Config, s: State, move: Move)
    requires Finished(s)
    ensures Apply(k, s, move).None?
  {
  }

  /**
   * In every interleaving, whatever order the close and the second write happen in: neither peer raises, the run is
   * bounded, it stops exactly when both have returned, both then return the same events, and one probe was read
   * and one sentinel answered, however much of the second probe had been written.
   */
  lemma {:induction false} OneExchangeAnswered(k: Config, moves: seq<Move>)
    requires k.Valid() && Execute(k, moves).Some?
    ensures var s := Execute(k, moves).value;
            && !s.server.Raised? && !s.client.Aborted?
            && |moves| <= 3 * |k.probe| + 2 * |k.sentinel| + 2
            && ((forall move :: Apply(k, s, move).None?) <==> Finished(s))
            && s.consumed <= k.probe && s.answered <= k.sentinel
            && (s.server.Returned? ==> s.consumed == k.probe && s.answered == k.sentinel)
            && (s.server.Returned? && s.client.Ended? ==> s.server.events == s.client.outcome == EVENTS)
  {
    hide Apply, Execute;
    RunKeeps(k, moves);
    InitialOk(k);
    var s := Execute(k, moves).value;
    if Finished(s) {
      forall move ensures Apply(k, s, move).None? {
        FinishedStops(k, s, move);
      }
    } else {
      var move := Progress(k, s);
    }
  }

  // ---- every ending occurs ----

  lemma {:induction false} Extend(k: Config, moves: seq<Move>, move: Move)
    requires Execute(k, moves).Some?
    ensures Execute(k, moves + [move]) == Apply(k, Execute(k, moves).value, move)
  {
    assert (moves + [move])[..|moves|] == moves;
  }

  /** The first `n` octets of the probe written and read one at a time. */
  function Probed(k: Config, n: nat): State
    requires n <= |k.probe|
  {
    if n < |k.probe| then State(AwaitProbe(k.probe[..n]), FirstWrite(n), [], [], false, k.probe[..n], [])
    else State(Answer(0), AwaitSentinel([]), [], [], false, k.probe, [])
  }

  /** Then the first `n` octets of the sentinel. */
  function Replied(k: Config, n: nat): State
    requires n <= |k.sentinel|
  {
    if n < |k.sentinel| then
      State(Answer(n), AwaitSentinel(k.sentinel[..n]), [], [], false, k.probe, k.sentinel[..n])
    else State(Close, SecondWrite(0), [], [], false, k.probe, k.sentinel)
  }

  lemma {:induction false} ProbeStep(k: Config, n: nat)
    requires k.Valid() && n < |k.probe|
    ensures var written := Apply(k, Probed(k, n), ClientWrite(1));
            written.Some? && Apply(k, written.value, ServerRead(1)) == Some(Probed(k, n + 1))
  {
    assert k.probe[..n + 1] == k.probe[..n] + k.probe[n..n + 1];
    assert k.probe[..|k.probe|] == k.probe;
    var written := Apply(k, Probed(k, n), ClientWrite(1)).value;
    assert written.toServer == k.probe[n..n + 1];
    assert written.toServer[..1] == written.toServer && written.toServer[1..] == [];
  }

  lemma {:induction false} ReplyStep(k: Config, n: nat)
    requires k.Valid() && n < |k.sentinel|
    ensures var written := Apply(k, Replied(k, n), ServerWrite(1));
            written.Some? && Apply(k, written.value, ClientRead(1)) == Some(Replied(k, n + 1))
  {
    assert k.sentinel[..n + 1] == k.sentinel[..n] + k.sentinel[n..n + 1];
    assert k.sentinel[..|k.sentinel|] == k.sentinel;
    var written := Apply(k, Replied(k, n), ServerWrite(1)).value;
    assert written.toClient == k.sentinel[n..n + 1];
    assert written.toClient[..1] == written.toClient && written.toClient[1..] == [];
  }

  lemma {:induction false} ProbeRun(k: Config, n: nat) returns (moves: seq<Move>)
    requires k.Valid() && n <= |k.probe|
    ensures Execute(k, moves) == Some(Probed(k, n))
  {
    if n == 0 {
      moves := [];
      assert k.probe[..0] == [];
    } else {
      hide Apply, Execute;
      var front := ProbeRun(k, n - 1);
      ProbeStep(k, n - 1);
      Extend(k, front, ClientWrite(1));
      Extend(k, front + [ClientWrite(1)], ServerRead(1));
      moves := front + [ClientWrite(1)] + [ServerRead(1)];
    }
  }

  lemma {:induction false} ReplyRun(k: Config, n: nat) returns (moves: seq<Move>)
    requires k.Valid() && n <= |k.sentinel|
    ensures Execute(k, moves) == Some(Replied(k, n))
  {
    hide Apply, Execute;
    if n == 0 {
      moves := ProbeRun(k, |k.probe|);
      assert k.sentinel[..0] == [];
    } else {
      var front := ReplyRun(k, n - 1);
      ReplyStep(k, n - 1);
      Extend(k, front, ServerWrite(1));
      Extend(k, front + [ServerWrite(1)], ClientRead(1));
      moves := front + [ServerWrite(1)] + [ClientRead(1)];
    }
  }

  /** A run that both peers have returned from, with this as its last move. */
  predicate EndsBy(k: Config, moves: seq<Move>, move: Move) {
    moves != [] && moves[|moves| - 1] == move && Execute(k, moves).Some? && Finished(Execute(k, moves).value)
  }

  /** Some run ends by a broken pipe, some by a reset read, and some by the end of the stream. */
  lemma {:induction false} EndsAreReached(k: Config) returns (broken: seq<Move>, reset: seq<Move>, ended: seq<Move>)
    requires k.Valid()
    ensures EndsBy(k, broken, ClientWriteFails(EPIPE))
    ensures EndsBy(k, reset, ClientReadFails)
    ensures EndsBy(k, ended, ClientReadsEnd)
  {
    var front := ReplyRun(k, |k.sentinel|);
    var closed := front + [ServerClose];
    Extend(k, front, ServerClose);
    broken := closed + [ClientWriteFails(EPIPE)];
    Extend(k, closed, ClientWriteFails(EPIPE));
    var written := closed + [ClientWrite(|k.probe|)];
    Extend(k, closed, ClientWrite(|k.probe|));
    reset := written + [ClientReadFails];
    Extend(k, written, ClientReadFails);
    ended := written + [ClientReadsEnd];
    Extend(k, written, ClientReadsEnd);
  }

  /** A reset can meet the second write itself exactly when that write can take more than one call. */
  lemma {:induction false} ResetWriteExact(k: Config)
    requires k.Valid()
    ensures (exists moves :: EndsBy(k, moves, ClientWriteFails(ECONNRESET))) <==> |k.probe| >= 2
  {
    if |k.probe| >= 2 {
      var front := ReplyRun(k, |k.sentinel|);
      var one := front + [ClientWrite(1)];
      Extend(k, front, ClientWrite(1));
      var closed := one + [ServerClose];
      Extend(k, one, ServerClose);
      var moves := closed + [ClientWriteFails(ECONNRESET)];
      Extend(k, closed, ClientWriteFails(ECONNRESET));
      assert EndsBy(k, moves, ClientWriteFails(ECONNRESET));
    }
    forall moves | EndsBy(k, moves, ClientWriteFails(ECONNRESET)) ensures |k.probe| >= 2 {
      RunKeeps(k, moves[..|moves| - 1]);
    }
  }
}

/** The brokered reuse: two framed requests on one channel, the first answered and the second rejected. */
module ReuseBroker {
  import opened Common
  import opened ChannelNetwork
  import opened Messages
  import opened ProxyRelay

  /** A frame's size octets; `_frame` puts them before the value. */
  function Size(value: Bytes): (r: Bytes)
    requires |value| <= 4096
  {
    PackU32(|value|)
  }

  function Frame(value: Bytes): (r: Bytes)
    requires |value| <= 4096
  {
    Size(value) + value
  }

  /** `_read_frame` takes the size and then the value. */
  function ReadFrame(peer: nat, value: Bytes): (r: Script)
    requires |value| <= 4096
  {
    [Expect(peer, Octets(Size(value))), Expect(peer, Octets(value))]
  }

  function WriteFrame(peer: nat, value: Bytes): (r: Script)
    requires |value| <= 4096
  {
    [Send(peer, Octets(Frame(value)))]
  }

  /** The three wire values: the request, its answer, and the rejection of the second one. */
  datatype Values = Values(request: Bytes, response: Bytes, rejected: Bytes) {
    predicate Valid() {
      1 <= |request| <= 4096 && 1 <= |response| <= 4096 && 1 <= |rejected| <= 4096
    }
  }

  function BrokerClient(v: Values): Script
    requires v.Valid()
  {
    WriteFrame(1, v.request) + ReadFrame(1, v.response) + WriteFrame(1, v.request) + ReadFrame(1, v.rejected)
  }

  function BrokerServer(v: Values): Script
    requires v.Valid()
  {
    ReadFrame(0, v.request) + WriteFrame(0, v.response) + ReadFrame(0, v.request) + WriteFrame(0, v.rejected)
  }

  function BrokerNetwork(v: Values, capacity: nat): Network
    requires v.Valid()
  {
    Network([BrokerClient(v), BrokerServer(v)], capacity)
  }

  function BrokerSteps(v: Values): seq<Step>
    requires v.Valid()
  {
    [ Step(Channel(0, 1), Octets(Frame(v.request))), Step(Channel(1, 0), Octets(Frame(v.response))),
      Step(Channel(0, 1), Octets(Frame(v.request))), Step(Channel(1, 0), Octets(Frame(v.rejected))) ]
  }

  /** Reading a frame in two parts performs the events of reading it whole. */
  lemma {:induction false} FrameEvents(p: nat, peer: nat, value: Bytes)
    requires |value| <= 4096
    ensures Events(p, ReadFrame(peer, value)) == Events(p, [Expect(peer, Octets(Frame(value)))])
    ensures |Size(value)| == 4 && U32(Size(value), 0) == |value|
  {
    var size, whole := Octets(Size(value)), Octets(Frame(value));
    assert whole == size + Octets(value);
    EventsConcat(p, [Expect(peer, size)], [Expect(peer, Octets(value))]);
    assert ReadFrame(peer, value) == [Expect(peer, size)] + [Expect(peer, Octets(value))];
    EventsOne(p, Expect(peer, size));
    EventsOne(p, Expect(peer, Octets(value)));
    EventsOne(p, Expect(peer, whole));
  }

  lemma {:induction false} FourEvents(p: nat, a: Script, b: Script, c: Script, d: Script)
    ensures Events(p, a + b + c + d) == Events(p, a) + Events(p, b) + Events(p, c) + Events(p, d)
  {
    EventsConcat(p, a, b);
    EventsConcat(p, a + b, c);
    EventsConcat(p, a + b + c, d);
  }

  lemma {:induction false} BrokerEvents(v: Values, p: nat)
    requires v.Valid() && p < 2
    ensures Events(p, BrokerNetwork(v, 0).scripts[p]) == Events(p, StepScript(BrokerSteps(v), p))
  {
    hide Events, StepScript, Octets, Frame, ReadFrame;
    var steps := BrokerSteps(v);
    TwoPairsScript(steps[0], steps[1], steps[2], steps[3], [], p);
    assert steps == [steps[0], steps[1], steps[2], steps[3]] + [];
    EmptyScript(p);
    var a, b, c, d := Act(steps[0], p), Act(steps[1], p), Act(steps[2], p), Act(steps[3], p);
    assert StepScript(steps, p) == a + b + c + d;
    FourEvents(p, a, b, c, d);
    if p == 0 {
      FourEvents(p, WriteFrame(1, v.request), ReadFrame(1, v.response), WriteFrame(1, v.request), ReadFrame(1, v.rejected));
      FrameEvents(p, 1, v.response);
      FrameEvents(p, 1, v.rejected);
    } else {
      FourEvents(p, ReadFrame(0, v.request), WriteFrame(0, v.response), ReadFrame(0, v.request), WriteFrame(0, v.rejected));
      FrameEvents(p, 0, v.request);
    }
  }

  lemma {:induction false} BrokerLinearizes(v: Values, capacity: nat)
    requires v.Valid() && capacity >= 1
    ensures Linearizes(BrokerNetwork(v, capacity), Steps(BrokerSteps(v))) && Balanced(Steps(BrokerSteps(v)))
  {
    hide Sequential, Balanced, Steps, StepScript, Events, Local, Octets, Frame, BrokerClient, BrokerServer;
    StepsLinearize(BrokerSteps(v), 2, capacity);
    BrokerEvents(v, 0);
    BrokerEvents(v, 1);
  }

  /**
   * Both peers of the brokered reuse finish in every interleaving and fragmentation, and the channel has then
   * carried exactly two requests one way, one answer and one rejection the other way.
   */
  lemma {:induction false} BrokerReuseCorrect(v: Values, capacity: nat, moves: seq<Move>)
    requires v.Valid() && capacity >= 1 && Execute(BrokerNetwork(v, capacity), moves).Some?
    ensures var net := BrokerNetwork(v, capacity);
            var s := Execute(net, moves).value;
            && |s.procs| == 2 && !s.procs[0].failed && !s.procs[1].failed
            && |moves| <= Work(net, 2)
            && ((forall move :: Apply(net, s, move).None?) <==> Finished(net, s))
            && (Finished(net, s) ==>
                  && Delivered(s, Channel(0, 1), Octets(Frame(v.request)) + Octets(Frame(v.request)))
                  && Delivered(s, Channel(1, 0), Octets(Frame(v.response)) + Octets(Frame(v.rejected))))
  {
    hide Execute, Apply, Finished, Linearizes, Balanced, Work, Octets, Frame, Stream, SentTo, Delivered, BrokerClient,
        BrokerServer;
    var net := BrokerNetwork(v, capacity);
    BrokerLinearizes(v, capacity);
    EveryRunSucceeds(net, Steps(BrokerSteps(v)), moves);
    var there, back := Channel(0, 1), Channel(1, 0);
    assert there in Channels(net) && back in Channels(net);
    StreamIsSent(net, there);
    StreamIsSent(net, back);
    BrokerSends(v);
  }

  lemma {:induction false} BrokerSends(v: Values)
    requires v.Valid()
    ensures SentTo(BrokerClient(v), 1) == Octets(Frame(v.request)) + Octets(Frame(v.request))
    ensures SentTo(BrokerServer(v), 0) == Octets(Frame(v.response)) + Octets(Frame(v.rejected))
  {
    hide SentTo, Octets, Frame, Size, ReadFrame, WriteFrame;
    FourSends(WriteFrame(1, v.request), ReadFrame(1, v.response), WriteFrame(1, v.request), ReadFrame(1, v.rejected), 1);
    FourSends(ReadFrame(0, v.request), WriteFrame(0, v.response), ReadFrame(0, v.request), WriteFrame(0, v.rejected), 0);
    FrameSends(v.request, 1);
    FrameSends(v.response, 1);
    FrameSends(v.rejected, 1);
    FrameSends(v.request, 0);
    FrameSends(v.response, 0);
    FrameSends(v.rejected, 0);
  }

  lemma {:induction false} FourSends(a: Script, b: Script, c: Script, d: Script, peer: nat)
    ensures SentTo(a + b + c + d, peer) == SentTo(a, peer) + SentTo(b, peer) + SentTo(c, peer) + SentTo(d, peer)
  {
    hide SentTo;
    SentToConcat(a, b, peer);
    SentToConcat(a + b, c, peer);
    SentToConcat(a + b + c, d, peer);
  }

  lemma {:induction false} FrameSends(value: Bytes, peer: nat)
    requires |value| <= 4096
    ensures SentTo(WriteFrame(peer, value), peer) == Octets(Frame(value))
    ensures SentTo(ReadFrame(peer, value), peer) == []
  {
    hide Octets, Frame, Size;
    var size, body := Expect(peer, Octets(Size(value))), Expect(peer, Octets(value));
    SentToPair(size, body, [], peer);
    assert ReadFrame(peer, value) == [size, body] + [];
  }
}
