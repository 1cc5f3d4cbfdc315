/** The preconnected relay: child, connector and fixture against the direct exchange. */
module ProxyRelay {
  import opened Common
  import opened ChannelNetwork
  import opened Messages

  // ---- conversations: messages, a crossing close, messages ----

  function ConversationScript(before: seq<Step>, x: nat, y: nat, after: seq<Step>, p: nat): Script {
    StepScript(before, p) + (CrossScript(x, y, p) + StepScript(after, p))
  }

  lemma {:induction false} ConversationLinearizes(net: Network, before: seq<Step>, x: nat, y: nat, after: seq<Step>)
    requires net.capacity >= 1 && x != y && x < |net.scripts| && y < |net.scripts|
    requires Directed(before, |net.scripts|) && Directed(after, |net.scripts|)
    requires forall p :: 0 <= p < |net.scripts| ==> net.scripts[p] == ConversationScript(before, x, y, after, p)
    ensures Linearizes(net, Steps(before) + (Crossing(x, y) + Steps(after)))
    ensures Balanced(Steps(before) + (Crossing(x, y) + Steps(after)))
  {
    hide Sequential, Balanced, Directed, Steps, StepScript, CrossScript, Events, Local;
    var n := |net.scripts|;
    StepsLinearize(before, n, net.capacity);
    StepsLinearize(after, n, net.capacity);
    CrossingSequential(x, y, net.capacity);
    SequentialConcat(Crossing(x, y), Steps(after), net.capacity);
    SequentialConcat(Steps(before), Crossing(x, y) + Steps(after), net.capacity);
    forall p | 0 <= p < n
      ensures Local(Steps(before) + (Crossing(x, y) + Steps(after)), p) == Events(p, net.scripts[p])
    {
      LocalConcat(Steps(before), Crossing(x, y) + Steps(after), p);
      LocalConcat(Crossing(x, y), Steps(after), p);
      CrossingLocal(x, y, p);
      EventsConcat(p, CrossScript(x, y, p), StepScript(after, p));
      EventsConcat(p, StepScript(before, p), CrossScript(x, y, p) + StepScript(after, p));
    }
  }

  // ---- what a script sends to a peer ----

  function SentBy(a: Action, peer: nat): (r: Tokens) {
    if a.Send? && a.to == peer then a.tokens else []
  }

  function SentTo(script: Script, peer: nat): (r: Tokens) {
    if script == [] then [] else SentBy(script[0], peer) + SentTo(script[1..], peer)
  }

  lemma {:induction false} PutsAreSent(p: nat, script: Script, peer: nat)
    ensures Puts(Events(p, script), Channel(p, peer)) == SentTo(script, peer)
  {
    hide TokenEvents;
    if script != [] {
      var c := Channel(p, peer);
      PutsAreSent(p, script[1..], peer);
      PutsConcat(TokenEvents(p, script[0], script[0].tokens), Events(p, script[1..]), c);
      TokenEventsStreams(p, script[0], script[0].tokens, c);
    }
  }

  lemma {:induction false} SentToConcat(a: Script, b: Script, peer: nat)
    ensures SentTo(a + b, peer) == SentTo(a, peer) + SentTo(b, peer)
  {
    if a == [] {
      assert a + b == b;
    } else {
      hide SentBy;
      SentToConcat(a[1..], b, peer);
      assert (a + b)[1..] == a[1..] + b;
      ConcatAssociates(SentBy(a[0], peer), SentTo(a[1..], peer), SentTo(b, peer));
    }
  }

  // ---- the proxy protocols ----

  /** One request and its answer. */
  datatype Exchange = Exchange(request: Bytes, response: Bytes)

  const ZERO: Tokens := [Octet(0)]
  const END: Tokens := [Eof]

  const PROBE: Exchange := Exchange(Literal("tunnel-probe\n"), Literal("denied-service-sentinel\n"))

  const HTTP_CONNECT: seq<Exchange> :=
    [ Exchange(Literal("CONNECT denied.test:443 HTTP/1.1\r\nHost: denied.test:443\r\nConnection: close\r\n\r\n"),
               Literal("HTTP/1.1 200 Connection Established\r\n\r\n")),
      PROBE ]

  const SOCKS5: seq<Exchange> :=
    [ Exchange([5, 1, 0], [5, 0]),
      Exchange([5, 1, 0, 3, 11] + Literal("denied.test") + [1, 0xBB], [5, 0, 0, 1, 127, 0, 0, 2, 1, 0xBB]),
      PROBE ]

  /**
   * The SOCKS exchanges as sections 3, 4 and 6 of RFC 1928 lay them out: one method and no authentication, then
   * a connection to a named host and port 443, answered from 127.0.0.2.
   */
  lemma {:induction false} SocksOctets()
    ensures var host := Literal("denied.test");
            && |SOCKS5| == 3
            && SOCKS5[0] == Exchange([5, 1, 0], [5, 0])
            && SOCKS5[1].request == [5, 1, 0, 3, |host|] + host + PackU16(443)
            && SOCKS5[1].response == [5, 0, 0, 1] + [127, 0, 0, 2] + PackU16(443)
            && SOCKS5[2] == HTTP_CONNECT[1] == PROBE
  {
    hide Literal;
    BigEndian(443);
  }

  /** The client side: ask, await the exact answer. */
  function Asking(xs: seq<Exchange>, peer: nat): Script {
    if xs == [] then []
    else [Send(peer, Octets(xs[0].request)), Expect(peer, Octets(xs[0].response))] + Asking(xs[1..], peer)
  }

  function Answering(xs: seq<Exchange>, peer: nat): Script {
    if xs == [] then []
    else [Expect(peer, Octets(xs[0].request)), Send(peer, Octets(xs[0].response))] + Answering(xs[1..], peer)
  }

  function Relaying(xs: seq<Exchange>, child: nat, fixture: nat): Script {
    if xs == [] then []
    else
      [ Expect(child, Octets(xs[0].request)),
        Send(fixture, Octets(xs[0].request)),
        Expect(fixture, Octets(xs[0].response)),
        Send(child, Octets(xs[0].response)) ]
      + Relaying(xs[1..], child, fixture)
  }

  /** `_channel_proxy` (zero octet, write shutdown, end of input) and, over TLS, `proxy_exchange` (zero octet, unwrap). */
  function ClientScript(xs: seq<Exchange>, peer: nat): Script {
    Asking(xs, peer) + [Send(peer, ZERO), Send(peer, END), Expect(peer, END)]
  }

  function RelayClosing(child: nat, fixture: nat): Script {
    [ Expect(child, ZERO), Expect(child, END),
      Send(fixture, ZERO),
      Send(fixture, END), Expect(fixture, END),
      Send(child, END) ]
  }

  /** `_relay_proxy`; unwrapping the TLS session sends one close notice and awaits the other. */
  function RelayScript(xs: seq<Exchange>, child: nat, fixture: nat): Script {
    Relaying(xs, child, fixture) + RelayClosing(child, fixture)
  }

  /** `serve_http_connect` or `serve_socks5`, the close marker, and the fixture's own unwrap. */
  function FixtureScript(xs: seq<Exchange>, peer: nat): Script {
    Answering(xs, peer) + [Expect(peer, ZERO), Send(peer, END), Expect(peer, END)]
  }

  /** Child 0, connector 1, fixture 2. */
  function RelayNetwork(xs: seq<Exchange>, capacity: nat): Network {
    Network([ClientScript(xs, 1), RelayScript(xs, 0, 2), FixtureScript(xs, 1)], capacity)
  }

  /** Client 0, fixture 1. */
  function DirectNetwork(xs: seq<Exchange>, capacity: nat): Network {
    Network([ClientScript(xs, 1), FixtureScript(xs, 0)], capacity)
  }

  // ---- schedules ----

  function RelaySteps(xs: seq<Exchange>): seq<Step> {
    if xs == [] then []
    else
      [ Step(Channel(0, 1), Octets(xs[0].request)),
        Step(Channel(1, 2), Octets(xs[0].request)),
        Step(Channel(2, 1), Octets(xs[0].response)),
        Step(Channel(1, 0), Octets(xs[0].response)) ]
      + RelaySteps(xs[1..])
  }

  const RELAY_CLOSE: seq<Step> := [Step(Channel(0, 1), ZERO), Step(Channel(0, 1), END), Step(Channel(1, 2), ZERO)]
  const RELAY_LAST: seq<Step> := [Step(Channel(1, 0), END)]

  function DirectSteps(xs: seq<Exchange>): seq<Step> {
    if xs == [] then []
    else [Step(Channel(0, 1), Octets(xs[0].request)), Step(Channel(1, 0), Octets(xs[0].response))] + DirectSteps(xs[1..])
  }

  const DIRECT_CLOSE: seq<Step> := [Step(Channel(0, 1), ZERO)]

  lemma {:induction false} FrontScript(a: Step, rest: seq<Step>, p: nat)
    ensures StepScript([a] + rest, p) == Act(a, p) + StepScript(rest, p)
  {
    assert ([a] + rest)[1..] == rest;
  }

  lemma {:induction false} PairScript(a: Step, b: Step, rest: seq<Step>, p: nat)
    ensures StepScript([a, b] + rest, p) == Act(a, p) + (Act(b, p) + StepScript(rest, p))
  {
    hide StepScript, Act;
    FrontScript(b, rest, p);
    FrontScript(a, [b] + rest, p);
    assert [a, b] + rest == [a] + ([b] + rest);
  }

  lemma {:induction false} TwoPairsScript(a: Step, b: Step, c: Step, d: Step, rest: seq<Step>, p: nat)
    ensures StepScript([a, b, c, d] + rest, p) == Act(a, p) + (Act(b, p) + (Act(c, p) + (Act(d, p) + StepScript(rest, p))))
  {
    hide StepScript, Act;
    PairScript(c, d, rest, p);
    PairScript(a, b, [c, d] + rest, p);
    assert [a, b, c, d] + rest == [a, b] + ([c, d] + rest);
  }

  lemma {:induction false} RelayStepsProject(xs: seq<Exchange>)
    ensures StepScript(RelaySteps(xs), 0) == Asking(xs, 1)
    ensures StepScript(RelaySteps(xs), 1) == Relaying(xs, 0, 2)
    ensures StepScript(RelaySteps(xs), 2) == Answering(xs, 1)
    ensures Directed(RelaySteps(xs), 3)
  {
    hide Octets;
    if xs != [] {
      hide StepScript;
      RelayStepsProject(xs[1..]);
      var request, response, rest := Octets(xs[0].request), Octets(xs[0].response), RelaySteps(xs[1..]);
      var a, b, c, d := Step(Channel(0, 1), request), Step(Channel(1, 2), request), Step(Channel(2, 1), response), Step(Channel(1, 0), response);
      assert RelaySteps(xs) == [a, b, c, d] + rest;
      TwoPairsScript(a, b, c, d, rest, 0);
      TwoPairsScript(a, b, c, d, rest, 1);
      TwoPairsScript(a, b, c, d, rest, 2);
    }
  }

  lemma {:induction false} DirectStepsProject(xs: seq<Exchange>)
    ensures StepScript(DirectSteps(xs), 0) == Asking(xs, 1)
    ensures StepScript(DirectSteps(xs), 1) == Answering(xs, 0)
    ensures Directed(DirectSteps(xs), 2)
  {
    hide Octets;
    if xs != [] {
      hide StepScript;
      DirectStepsProject(xs[1..]);
      var request, response, rest := Octets(xs[0].request), Octets(xs[0].response), DirectSteps(xs[1..]);
      var a, b := Step(Channel(0, 1), request), Step(Channel(1, 0), response);
      assert DirectSteps(xs) == [a, b] + rest;
      PairScript(a, b, rest, 0);
      PairScript(a, b, rest, 1);
    }
  }

  // ---- every run of the relay succeeds and carries the direct exchange ----

  function RelaySchedule(xs: seq<Exchange>): seq<Event> {
    Steps(RelaySteps(xs) + RELAY_CLOSE) + (Crossing(1, 2) + Steps(RELAY_LAST))
  }

  function DirectSchedule(xs: seq<Exchange>): seq<Event> {
    Steps(DirectSteps(xs) + DIRECT_CLOSE) + (Crossing(0, 1) + Steps([]))
  }

  lemma {:induction false} RelayLinearizes(xs: seq<Exchange>, capacity: nat)
    requires capacity >= 1
    ensures Linearizes(RelayNetwork(xs, capacity), RelaySchedule(xs)) && Balanced(RelaySchedule(xs))
  {
    hide Asking, Answering, Relaying, RelaySteps, Linearizes, StepScript, Balanced;
    RelayStepsProject(xs);
    forall p: nat | p < 3
      ensures RelayNetwork(xs, capacity).scripts[p] == ConversationScript(RelaySteps(xs) + RELAY_CLOSE, 1, 2, RELAY_LAST, p)
    {
      StepScriptConcat(RelaySteps(xs), RELAY_CLOSE, p);
      PairScript(RELAY_CLOSE[0], RELAY_CLOSE[1], [RELAY_CLOSE[2]], p);
      assert RELAY_CLOSE == [RELAY_CLOSE[0], RELAY_CLOSE[1]] + [RELAY_CLOSE[2]];
      OneScript(RELAY_CLOSE[2], p);
      OneScript(RELAY_LAST[0], p);
    }
    ConversationLinearizes(RelayNetwork(xs, capacity), RelaySteps(xs) + RELAY_CLOSE, 1, 2, RELAY_LAST);
  }

  lemma {:induction false} OneScript(a: Step, p: nat)
    ensures StepScript([a], p) == Act(a, p)
  {
    FrontScript(a, [], p);
    assert [a] + [] == [a];
  }

  lemma {:induction false} DirectLinearizes(xs: seq<Exchange>, capacity: nat)
    requires capacity >= 1
    ensures Linearizes(DirectNetwork(xs, capacity), DirectSchedule(xs)) && Balanced(DirectSchedule(xs))
  {
    hide Asking, Answering, DirectSteps, Linearizes, StepScript, Balanced;
    DirectStepsProject(xs);
    forall p: nat | p < 2
      ensures DirectNetwork(xs, capacity).scripts[p] == ConversationScript(DirectSteps(xs) + DIRECT_CLOSE, 0, 1, [], p)
    {
      StepScriptConcat(DirectSteps(xs), DIRECT_CLOSE, p);
      OneScript(DIRECT_CLOSE[0], p);
      EmptyScript(p);
    }
    ConversationLinearizes(DirectNetwork(xs, capacity), DirectSteps(xs) + DIRECT_CLOSE, 0, 1, []);
  }

  lemma {:induction false} EmptyScript(p: nat)
    ensures StepScript([], p) == []
  {
  }

  /** Everything the client side says: the requests, the zero octet, the end. */
  function RequestStream(xs: seq<Exchange>): (r: Tokens) {
    if xs == [] then ZERO + END else Octets(xs[0].request) + RequestStream(xs[1..])
  }

  function ResponseStream(xs: seq<Exchange>): (r: Tokens) {
    if xs == [] then END else Octets(xs[0].response) + ResponseStream(xs[1..])
  }

  lemma {:induction false} ClientSends(xs: seq<Exchange>, peer: nat)
    ensures SentTo(ClientScript(xs, peer), peer) == RequestStream(xs)
  {
    hide Octets;
    var tail := [Send(peer, ZERO), Send(peer, END), Expect(peer, END)];
    SentToThree(tail[0], tail[1], tail[2], peer);
    AskingSends(xs, tail, peer);
  }

  lemma {:induction false} SentToThree(a: Action, b: Action, c: Action, peer: nat)
    ensures SentTo([a, b, c], peer) == SentTo([a], peer) + (SentTo([b], peer) + SentTo([c], peer))
    ensures SentTo([a], peer) == if a.Send? && a.to == peer then a.tokens else []
    ensures SentTo([b], peer) == if b.Send? && b.to == peer then b.tokens else []
    ensures SentTo([c], peer) == if c.Send? && c.to == peer then c.tokens else []
  {
    SentToConcat([a], [b, c], peer);
    SentToConcat([b], [c], peer);
    assert [a, b, c] == [a] + [b, c] && [b, c] == [b] + [c];
  }

  lemma {:induction false} AskingFront(xs: seq<Exchange>, tail: Script, peer: nat)
    requires xs != []
    ensures Asking(xs, peer) + tail
         == [Send(peer, Octets(xs[0].request)), Expect(peer, Octets(xs[0].response))] + (Asking(xs[1..], peer) + tail)
  {
    hide Octets;
  }

  lemma {:induction false} AskingSends(xs: seq<Exchange>, tail: Script, peer: nat)
    requires SentTo(tail, peer) == ZERO + END
    ensures SentTo(Asking(xs, peer) + tail, peer) == RequestStream(xs)
  {
    hide Octets, SentTo;
    if xs == [] {
      assert Asking(xs, peer) + tail == tail;
    } else {
      hide Asking;
      AskingSends(xs[1..], tail, peer);
      AskingFront(xs, tail, peer);
      SentToPair(Send(peer, Octets(xs[0].request)), Expect(peer, Octets(xs[0].response)), Asking(xs[1..], peer) + tail, peer);
    }
  }

  lemma {:induction false} SentToPair(a: Action, b: Action, rest: Script, peer: nat)
    ensures SentTo([a, b] + rest, peer)
         == (if a.Send? && a.to == peer then a.tokens else []) + ((if b.Send? && b.to == peer then b.tokens else []) + SentTo(rest, peer))
  {
    assert ([a, b] + rest)[1..] == [b] + rest;
    assert ([b] + rest)[1..] == rest;
  }

  lemma {:induction false} AnsweringFront(xs: seq<Exchange>, tail: Script, peer: nat)
    requires xs != []
    ensures Answering(xs, peer) + tail
         == [Expect(peer, Octets(xs[0].request)), Send(peer, Octets(xs[0].response))] + (Answering(xs[1..], peer) + tail)
  {
    hide Octets;
  }

  lemma {:induction false} AnsweringSends(xs: seq<Exchange>, tail: Script, peer: nat)
    requires SentTo(tail, peer) == END
    ensures SentTo(Answering(xs, peer) + tail, peer) == ResponseStream(xs)
  {
    hide Octets, SentTo;
    if xs == [] {
      assert Answering(xs, peer) + tail == tail;
    } else {
      hide Answering;
      AnsweringSends(xs[1..], tail, peer);
      AnsweringFront(xs, tail, peer);
      SentToPair(Expect(peer, Octets(xs[0].request)), Send(peer, Octets(xs[0].response)), Answering(xs[1..], peer) + tail, peer);
    }
  }

  lemma {:induction false} FixtureSends(xs: seq<Exchange>, peer: nat)
    ensures SentTo(FixtureScript(xs, peer), peer) == ResponseStream(xs)
  {
    var tail := [Expect(peer, ZERO), Send(peer, END), Expect(peer, END)];
    SentToThree(tail[0], tail[1], tail[2], peer);
    AnsweringSends(xs, tail, peer);
  }

  /** One round of the connector sends the request one way and the response the other. */
  lemma {:induction false} RoundSends(x: Exchange, rest: Script, child: nat, fixture: nat)
    requires child != fixture
    ensures var front, back := [Expect(child, Octets(x.request)), Send(fixture, Octets(x.request))],
                               [Expect(fixture, Octets(x.response)), Send(child, Octets(x.response))];
            && SentTo(front + (back + rest), fixture) == Octets(x.request) + SentTo(rest, fixture)
            && SentTo(front + (back + rest), child) == Octets(x.response) + SentTo(rest, child)
  {
    hide SentTo, Octets;
    var a, b, c, d := Expect(child, Octets(x.request)), Send(fixture, Octets(x.request)), Expect(fixture, Octets(x.response)), Send(child, Octets(x.response));
    SentToPair(a, b, [c, d] + rest, fixture);
    SentToPair(c, d, rest, fixture);
    SentToPair(a, b, [c, d] + rest, child);
    SentToPair(c, d, rest, child);
  }

  /** The connector forwards the requests to the fixture and the responses to the child. */
  lemma {:induction false} RelayingSends(xs: seq<Exchange>, tail: Script, child: nat, fixture: nat)
    requires child != fixture
    requires SentTo(tail, fixture) == ZERO + END && SentTo(tail, child) == END
    ensures SentTo(Relaying(xs, child, fixture) + tail, fixture) == RequestStream(xs)
    ensures SentTo(Relaying(xs, child, fixture) + tail, child) == ResponseStream(xs)
  {
    hide Octets;
    if xs == [] {
      assert Relaying(xs, child, fixture) + tail == tail;
    } else {
      RelayingSends(xs[1..], tail, child, fixture);
      RelayingFront(xs, tail, child, fixture);
      hide SentTo, Relaying;
      RoundSends(xs[0], Relaying(xs[1..], child, fixture) + tail, child, fixture);
    }
  }

  lemma {:induction false} RelayingFront(xs: seq<Exchange>, tail: Script, child: nat, fixture: nat)
    requires xs != []
    ensures Relaying(xs, child, fixture) + tail
         == [Expect(child, Octets(xs[0].request)), Send(fixture, Octets(xs[0].request))]
            + ([Expect(fixture, Octets(xs[0].response)), Send(child, Octets(xs[0].response))] + (Relaying(xs[1..], child, fixture) + tail))
  {
    hide Octets;
  }

  /** What the connector's closing steps send to a peer. */
  lemma {:induction false} ClosingSends(child: nat, fixture: nat, peer: nat)
    requires child != fixture
    ensures SentTo(RelayClosing(child, fixture), peer) == if peer == fixture then ZERO + END else if peer == child then END else []
  {
    hide SentTo;
    var front, back := [Expect(child, ZERO), Expect(child, END), Send(fixture, ZERO)], [Send(fixture, END), Expect(fixture, END), Send(child, END)];
    SentToThree(front[0], front[1], front[2], peer);
    SentToThree(back[0], back[1], back[2], peer);
    SentToConcat(front, back, peer);
    assert RelayClosing(child, fixture) == front + back;
  }

  lemma {:induction false} RelaySends(xs: seq<Exchange>, child: nat, fixture: nat)
    requires child != fixture
    ensures SentTo(RelayScript(xs, child, fixture), fixture) == RequestStream(xs)
    ensures SentTo(RelayScript(xs, child, fixture), child) == ResponseStream(xs)
  {
    hide Relaying, RelayClosing, SentTo;
    ClosingSends(child, fixture, fixture);
    ClosingSends(child, fixture, child);
    RelayingSends(xs, RelayClosing(child, fixture), child, fixture);
  }

  lemma {:induction false} StreamIsSent(net: Network, c: Channel)
    requires c in Channels(net)
    ensures Stream(net, c) == SentTo(net.scripts[c.from], c.to)
  {
    PutsAreSent(c.from, net.scripts[c.from], c.to);
  }

  /** The four streams of the relay and the two of the direct exchange. */
  lemma {:induction false} RelayStreams(xs: seq<Exchange>, capacity: nat)
    ensures Stream(RelayNetwork(xs, capacity), Channel(0, 1)) == RequestStream(xs)
    ensures Stream(RelayNetwork(xs, capacity), Channel(1, 2)) == RequestStream(xs)
    ensures Stream(RelayNetwork(xs, capacity), Channel(2, 1)) == ResponseStream(xs)
    ensures Stream(RelayNetwork(xs, capacity), Channel(1, 0)) == ResponseStream(xs)
    ensures Stream(DirectNetwork(xs, capacity), Channel(0, 1)) == RequestStream(xs)
    ensures Stream(DirectNetwork(xs, capacity), Channel(1, 0)) == ResponseStream(xs)
  {
    hide SentTo, ClientScript, RelayScript, FixtureScript, Stream;
    var relay, direct := RelayNetwork(xs, capacity), DirectNetwork(xs, capacity);
    StreamIsSent(relay, Channel(0, 1));
    StreamIsSent(relay, Channel(1, 2));
    StreamIsSent(relay, Channel(2, 1));
    StreamIsSent(relay, Channel(1, 0));
    StreamIsSent(direct, Channel(0, 1));
    StreamIsSent(direct, Channel(1, 0));
    ClientSends(xs, 1);
    RelaySends(xs, 0, 2);
    FixtureSends(xs, 1);
    FixtureSends(xs, 0);
  }

  /**
   * Whatever the exchanges, the channel capacity, the interleaving and the fragmentation: no party of the relay
   * ever fails, the number of moves is bounded, only a state in which all three have succeeded is stuck, and
   * there the fixture has read, and sent, exactly the stream of the direct exchange.
   */
  lemma {:induction false} RelayTransparent(xs: seq<Exchange>, capacity: nat, moves: seq<Move>)
    requires capacity >= 1 && Execute(RelayNetwork(xs, capacity), moves).Some?
    ensures var net, direct := RelayNetwork(xs, capacity), DirectNetwork(xs, capacity);
            var s := Execute(net, moves).value;
            && |s.procs| == 3
            && (forall p :: 0 <= p < 3 ==> !s.procs[p].failed)
            && |moves| <= Work(net, 3)
            && ((forall move :: Apply(net, s, move).None?) <==> Finished(net, s))
            && Stream(direct, Channel(0, 1)) == RequestStream(xs)
            && Stream(direct, Channel(1, 0)) == ResponseStream(xs)
            && (Finished(net, s) ==>
                  && Delivered(s, Channel(1, 2), Stream(direct, Channel(0, 1)))
                  && Delivered(s, Channel(2, 1), Stream(direct, Channel(1, 0)))
                  && Delivered(s, Channel(0, 1), RequestStream(xs))
                  && Delivered(s, Channel(1, 0), ResponseStream(xs)))
  {
    hide Execute, Apply, Finished, Linearizes, Balanced, Stream, Work, ClientScript, RelayScript, FixtureScript,
        RequestStream, ResponseStream, RelaySchedule, Delivered;
    RelayLinearizes(xs, capacity);
    EveryRunSucceeds(RelayNetwork(xs, capacity), RelaySchedule(xs), moves);
    RelayStreams(xs, capacity);
    assert Channel(0, 1) in Channels(DirectNetwork(xs, capacity)) && Channel(1, 0) in Channels(DirectNetwork(xs, capacity));
    assert Channel(1, 2) in Channels(RelayNetwork(xs, capacity)) && Channel(2, 1) in Channels(RelayNetwork(xs, capacity));
    assert Channel(0, 1) in Channels(RelayNetwork(xs, capacity)) && Channel(1, 0) in Channels(RelayNetwork(xs, capacity));
  }

  /** The direct exchange ends only in success too, with its two streams read to the end. */
  lemma {:induction false} DirectSucceeds(xs: seq<Exchange>, capacity: nat, moves: seq<Move>)
    requires capacity >= 1 && Execute(DirectNetwork(xs, capacity), moves).Some?
    ensures var net := DirectNetwork(xs, capacity);
            var s := Execute(net, moves).value;
            && (forall p :: 0 <= p < |s.procs| ==> !s.procs[p].failed)
            && ((forall move :: Apply(net, s, move).None?) <==> Finished(net, s))
            && (Finished(net, s) ==>
                  Delivered(s, Channel(0, 1), RequestStream(xs)) && Delivered(s, Channel(1, 0), ResponseStream(xs)))
  {
    hide Execute, Apply, Finished, Linearizes, Balanced, Stream, Work, ClientScript, FixtureScript,
        RequestStream, ResponseStream, DirectSchedule, Delivered;
    DirectLinearizes(xs, capacity);
    EveryRunSucceeds(DirectNetwork(xs, capacity), DirectSchedule(xs), moves);
    RelayStreams(xs, capacity);
    assert Channel(0, 1) in Channels(DirectNetwork(xs, capacity)) && Channel(1, 0) in Channels(DirectNetwork(xs, capacity));
  }

  /** Every run of the relay, and every run of the direct exchange, can be continued to that end. */
  lemma {:induction false} RelayCompletes(xs: seq<Exchange>, capacity: nat, relayed: seq<Move>, direct: seq<Move>)
    returns (all: seq<Move>, whole: seq<Move>)
    requires capacity >= 1 && Execute(RelayNetwork(xs, capacity), relayed).Some? && Execute(DirectNetwork(xs, capacity), direct).Some?
    ensures relayed <= all && Execute(RelayNetwork(xs, capacity), all).Some?
    ensures Finished(RelayNetwork(xs, capacity), Execute(RelayNetwork(xs, capacity), all).value)
    ensures direct <= whole && Execute(DirectNetwork(xs, capacity), whole).Some?
    ensures Finished(DirectNetwork(xs, capacity), Execute(DirectNetwork(xs, capacity), whole).value)
  {
    hide Execute, Finished, Linearizes, Balanced, RelayNetwork, DirectNetwork, RelaySchedule, DirectSchedule;
    RelayLinearizes(xs, capacity);
    DirectLinearizes(xs, capacity);
    all := EveryRunCompletes(RelayNetwork(xs, capacity), RelaySchedule(xs), relayed);
    whole := EveryRunCompletes(DirectNetwork(xs, capacity), DirectSchedule(xs), direct);
  }

  // ---- the two proxy protocols, step by step as each party performs them ----

  datatype Protocol = HttpConnect | Socks5

  function Exchanges(protocol: Protocol): seq<Exchange> {
    match protocol
    case HttpConnect => HTTP_CONNECT
    case Socks5 => SOCKS5
  }

  function Ask(x: Exchange, peer: nat): Script {
    [Send(peer, Octets(x.request)), Expect(peer, Octets(x.response))]
  }

  function Answer(x: Exchange, peer: nat): Script {
    [Expect(peer, Octets(x.request)), Send(peer, Octets(x.response))]
  }

  function Relay(x: Exchange, child: nat, fixture: nat): Script {
    [ Expect(child, Octets(x.request)), Send(fixture, Octets(x.request)),
      Expect(fixture, Octets(x.response)), Send(child, Octets(x.response)) ]
  }

  /** `_channel_proxy`, and `proxy_exchange` over TLS. */
  function ChannelProxy(protocol: Protocol, peer: nat): Script {
    (match protocol
     case HttpConnect => Ask(HTTP_CONNECT[0], peer)
     case Socks5 => Ask(SOCKS5[0], peer) + Ask(SOCKS5[1], peer))
    + Ask(PROBE, peer)
    + [Send(peer, ZERO), Send(peer, END), Expect(peer, END)]
  }

  /** `_relay_proxy`. */
  function RelayProxy(protocol: Protocol, child: nat, fixture: nat): Script {
    (match protocol
     case HttpConnect => Relay(HTTP_CONNECT[0], child, fixture)
     case Socks5 => Relay(SOCKS5[0], child, fixture) + Relay(SOCKS5[1], child, fixture))
    + Relay(PROBE, child, fixture)
    + RelayClosing(child, fixture)
  }

  /** `serve_http_connect` or `serve_socks5` inside `serve_proxy_fixture`. */
  function ServeProxy(protocol: Protocol, peer: nat): Script {
    (match protocol
     case HttpConnect => Answer(HTTP_CONNECT[0], peer)
     case Socks5 => Answer(SOCKS5[0], peer) + Answer(SOCKS5[1], peer))
    + Answer(PROBE, peer)
    + [Expect(peer, ZERO), Send(peer, END), Expect(peer, END)]
  }

  function ProxyRelayNetwork(protocol: Protocol, capacity: nat): Network {
    Network([ChannelProxy(protocol, 1), RelayProxy(protocol, 0, 2), ServeProxy(protocol, 1)], capacity)
  }

  function ProxyDirectNetwork(protocol: Protocol, capacity: nat): Network {
    Network([ChannelProxy(protocol, 1), ServeProxy(protocol, 0)], capacity)
  }

  lemma {:induction false} AskingList(xs: seq<Exchange>, peer: nat)
    ensures |xs| == 2 ==> Asking(xs, peer) == Ask(xs[0], peer) + Ask(xs[1], peer)
    ensures |xs| == 3 ==> Asking(xs, peer) == Ask(xs[0], peer) + Ask(xs[1], peer) + Ask(xs[2], peer)
    ensures |xs| == 2 ==> Answering(xs, peer) == Answer(xs[0], peer) + Answer(xs[1], peer)
    ensures |xs| == 3 ==> Answering(xs, peer) == Answer(xs[0], peer) + Answer(xs[1], peer) + Answer(xs[2], peer)
  {
    hide Octets;
    if |xs| == 2 {
      assert Asking(xs[2..], peer) == [] && Answering(xs[2..], peer) == [];
      assert xs[1..][1..] == xs[2..];
    }
    if |xs| == 3 {
      AskingList(xs[1..], peer);
    }
  }

  lemma {:induction false} RelayingList(xs: seq<Exchange>, child: nat, fixture: nat)
    ensures |xs| == 2 ==> Relaying(xs, child, fixture) == Relay(xs[0], child, fixture) + Relay(xs[1], child, fixture)
    ensures |xs| == 3 ==> Relaying(xs, child, fixture) == Relay(xs[0], child, fixture) + Relay(xs[1], child, fixture) + Relay(xs[2], child, fixture)
  {
    hide Octets;
    if |xs| == 2 {
      assert Relaying(xs[2..], child, fixture) == [];
      assert xs[1..][1..] == xs[2..];
    }
    if |xs| == 3 {
      RelayingList(xs[1..], child, fixture);
    }
  }

  lemma {:induction false} ProxyScripts(protocol: Protocol, capacity: nat)
    ensures ProxyRelayNetwork(protocol, capacity) == RelayNetwork(Exchanges(protocol), capacity)
    ensures ProxyDirectNetwork(protocol, capacity) == DirectNetwork(Exchanges(protocol), capacity)
  {
    hide Asking, Answering, Relaying, Ask, Answer, Relay, RelayClosing, Literal;
    var xs := Exchanges(protocol);
    AskingList(xs, 1);
    AskingList(xs, 0);
    RelayingList(xs, 0, 2);
  }

  /**
   * CONNECT and SOCKS through the connector: every interleaving and fragmentation can only end with child,
   * connector and fixture all successful, and the fixture has then seen and sent the bytes of `proxy_exchange`.
   */
  lemma {:induction false} ProxyRelayCorrect(protocol: Protocol, capacity: nat, moves: seq<Move>)
    requires capacity >= 1 && Execute(ProxyRelayNetwork(protocol, capacity), moves).Some?
    ensures var net, direct := ProxyRelayNetwork(protocol, capacity), ProxyDirectNetwork(protocol, capacity);
            var s := Execute(net, moves).value;
            && (forall p :: 0 <= p < |s.procs| ==> !s.procs[p].failed)
            && |moves| <= Work(net, 3)
            && ((forall move :: Apply(net, s, move).None?) <==> Finished(net, s))
            && Stream(direct, Channel(0, 1)) == RequestStream(Exchanges(protocol))
            && Stream(direct, Channel(1, 0)) == ResponseStream(Exchanges(protocol))
            && (Finished(net, s) ==>
                  && Delivered(s, Channel(1, 2), Stream(direct, Channel(0, 1)))
                  && Delivered(s, Channel(2, 1), Stream(direct, Channel(1, 0))))
  {
    hide Execute, Apply, Finished, Work, ChannelProxy, RelayProxy, ServeProxy, RelayNetwork, DirectNetwork,
      RequestStream, ResponseStream, Exchanges, Stream, Delivered;
    ProxyScripts(protocol, capacity);
    RelayTransparent(Exchanges(protocol), capacity, moves);
    assert Channel(0, 1) in Channels(ProxyDirectNetwork(protocol, capacity)) && Channel(1, 0) in Channels(ProxyDirectNetwork(protocol, capacity));
  }

  // ---- the HTTP relay ----

  /** `_channel_http`: request, write shutdown, the exact response and its end. */
  function ChannelHttp(request: Bytes, response: Bytes, peer: nat): Script {
    [Send(peer, Octets(request)), Send(peer, END), Expect(peer, Octets(response)), Expect(peer, END)]
  }

  /** `_relay_http`: the connector takes its leave of the fixture before it answers the child. */
  function RelayHttp(request: Bytes, response: Bytes, child: nat, fixture: nat): Script {
    [ Expect(child, Octets(request)), Expect(child, END),
      Send(fixture, Octets(request)), Expect(fixture, Octets(response)),
      Send(fixture, END), Expect(fixture, END),
      Send(child, Octets(response)), Send(child, END) ]
  }

  function ServeHttp(request: Bytes, response: Bytes, peer: nat): Script {
    [Expect(peer, Octets(request)), Send(peer, Octets(response)), Send(peer, END), Expect(peer, END)]
  }

  function HttpNetwork(request: Bytes, response: Bytes, capacity: nat): Network {
    Network([ChannelHttp(request, response, 1), RelayHttp(request, response, 0, 2), ServeHttp(request, response, 1)], capacity)
  }

  function HttpSteps(request: Bytes, response: Bytes): seq<Step> {
    [ Step(Channel(0, 1), Octets(request)), Step(Channel(0, 1), END),
      Step(Channel(1, 2), Octets(request)), Step(Channel(2, 1), Octets(response)) ]
  }

  function HttpReply(response: Bytes): seq<Step> {
    [Step(Channel(1, 0), Octets(response)), Step(Channel(1, 0), END)]
  }

  function HttpSchedule(request: Bytes, response: Bytes): seq<Event> {
    Steps(HttpSteps(request, response)) + (Crossing(1, 2) + Steps(HttpReply(response)))
  }

  lemma {:induction false} HttpProjects(request: Bytes, response: Bytes, p: nat)
    requires p < 3
    ensures HttpNetwork(request, response, 0).scripts[p] == ConversationScript(HttpSteps(request, response), 1, 2, HttpReply(response), p)
  {
    hide Octets, StepScript;
    var before, after := HttpSteps(request, response), HttpReply(response);
    TwoPairsScript(before[0], before[1], before[2], before[3], [], p);
    assert before == [before[0], before[1], before[2], before[3]] + [];
    PairScript(after[0], after[1], [], p);
    assert after == [after[0], after[1]] + [];
    EmptyScript(p);
    if p == 0 {
    } else if p == 1 {
    } else {
    }
  }

  lemma {:induction false} HttpLinearizes(request: Bytes, response: Bytes, capacity: nat)
    requires capacity >= 1
    ensures Linearizes(HttpNetwork(request, response, capacity), HttpSchedule(request, response)) && Balanced(HttpSchedule(request, response))
  {
    hide Linearizes, Octets, ConversationScript, Steps, Crossing, StepScript, ChannelHttp, RelayHttp, ServeHttp,
        Balanced;
    HttpProjects(request, response, 0);
    HttpProjects(request, response, 1);
    HttpProjects(request, response, 2);
    ConversationLinearizes(HttpNetwork(request, response, capacity), HttpSteps(request, response), 1, 2, HttpReply(response));
  }

  /** The HTTP relay ends only in success: the fixture has read exactly the request, the child exactly the response. */
  lemma {:induction false} HttpRelayCorrect(request: Bytes, response: Bytes, capacity: nat, moves: seq<Move>)
    requires capacity >= 1 && Execute(HttpNetwork(request, response, capacity), moves).Some?
    ensures var net := HttpNetwork(request, response, capacity);
            var s := Execute(net, moves).value;
            && (forall p :: 0 <= p < |s.procs| ==> !s.procs[p].failed)
            && |moves| <= Work(net, 3)
            && ((forall move :: Apply(net, s, move).None?) <==> Finished(net, s))
            && (Finished(net, s) ==>
                  && Delivered(s, Channel(1, 2), Octets(request) + END)
                  && Delivered(s, Channel(1, 0), Octets(response) + END))
  {
    hide Execute, Apply, Finished, Linearizes, Balanced, Work, Octets, Stream, SentTo, Delivered, HttpSchedule;
    var net := HttpNetwork(request, response, capacity);
    HttpLinearizes(request, response, capacity);
    EveryRunSucceeds(net, HttpSchedule(request, response), moves);
    var there, back := Channel(1, 2), Channel(1, 0);
    assert there in Channels(net) && back in Channels(net);
    StreamIsSent(net, there);
    StreamIsSent(net, back);
    HttpRelaySends(request, response, 2);
    HttpRelaySends(request, response, 0);
  }

  lemma {:induction false} HttpRelaySends(request: Bytes, response: Bytes, peer: nat)
    ensures SentTo(RelayHttp(request, response, 0, 2), peer)
         == if peer == 2 then Octets(request) + END else if peer == 0 then Octets(response) + END else []
  {
    hide Octets, SentTo;
    var a := RelayHttp(request, response, 0, 2);
    SentToPair(a[6], a[7], [], peer);
    SentToPair(a[4], a[5], [a[6], a[7]] + [], peer);
    SentToPair(a[2], a[3], [a[4], a[5]] + ([a[6], a[7]] + []), peer);
    SentToPair(a[0], a[1], [a[2], a[3]] + ([a[4], a[5]] + ([a[6], a[7]] + [])), peer);
    assert a == [a[0], a[1]] + ([a[2], a[3]] + ([a[4], a[5]] + ([a[6], a[7]] + [])));
    NothingSent(peer);
  }

  lemma {:induction false} NothingSent(peer: nat)
    ensures SentTo([], peer) == []
  {
  }
}
