/** Schedules built from messages, and the relayed exchanges they linearize. */
module Messages {
  import opened Common
  import opened ChannelNetwork

  function Octets(bytes: Bytes): (r: Tokens)
    ensures |r| == |bytes|
  {
    seq(|bytes|, i requires 0 <= i < |bytes| => Octet(bytes[i]))
  }

  /** Each token is put and taken before the next. */
  function Message(c: Channel, tokens: Tokens): (r: seq<Event>) {
    if tokens == [] then [] else [Put(c, tokens[0]), Get(c, tokens[0])] + Message(c, tokens[1..])
  }

  /** A schedule that leaves every channel empty can be followed by any other. */
  lemma {:induction false} SequentialConcat(a: seq<Event>, b: seq<Event>, capacity: nat)
    requires Sequential(a, capacity) && Balanced(a) && Sequential(b, capacity)
    ensures Sequential(a + b, capacity)
    ensures Balanced(b) ==> Balanced(a + b)
  {
    hide Puts, Gets;
    forall i, c | 0 <= i <= |a + b|
      ensures Gets((a + b)[..i], c) <= Puts((a + b)[..i], c)
      ensures |Puts((a + b)[..i], c)| - |Gets((a + b)[..i], c)| <= capacity
    {
      if i <= |a| {
        assert (a + b)[..i] == a[..i];
      } else {
        var rest := b[..i - |a|];
        assert (a + b)[..i] == a + rest;
        PutsConcat(a, rest, c);
        GetsConcat(a, rest, c);
      }
    }
    forall c ensures Balanced(b) ==> Gets(a + b, c) == Puts(a + b, c) {
      PutsConcat(a, b, c);
      GetsConcat(a, b, c);
    }
  }

  lemma {:induction false} EmptySequential(capacity: nat)
    ensures Sequential([], capacity) && Balanced([])
  {
  }

  /** Puts and gets of a list of one or two events. */
  lemma {:induction false} PairStreams(e: Event, f: Event, c: Channel)
    ensures Puts([e], c) == if e.Put? && e.c == c then [e.t] else []
    ensures Gets([e], c) == if e.Get? && e.c == c then [e.t] else []
    ensures Puts([e, f], c) == Puts([e], c) + Puts([f], c)
    ensures Gets([e, f], c) == Gets([e], c) + Gets([f], c)
  {
    assert [e, f] == [e] + [f] && [e][1..] == [];
    PutsConcat([e], [f], c);
    GetsConcat([e], [f], c);
  }

  lemma {:induction false} HandoverSequential(c: Channel, t: Token, capacity: nat)
    requires capacity >= 1
    ensures Sequential([Put(c, t), Get(c, t)], capacity) && Balanced([Put(c, t), Get(c, t)])
  {
    hide Puts, Gets;
    var es := [Put(c, t), Get(c, t)];
    forall i, d | 0 <= i <= |es|
      ensures Gets(es[..i], d) <= Puts(es[..i], d) && |Puts(es[..i], d)| - |Gets(es[..i], d)| <= capacity
    {
      PairStreams(es[0], es[1], d);
      PairStreams(es[1], es[0], d);
      NoEvents(d);
      assert es[..0] == [] && es[..1] == [es[0]] && es[..2] == es;
    }
    forall d ensures Gets(es, d) == Puts(es, d) {
      PairStreams(es[0], es[1], d);
      PairStreams(es[1], es[0], d);
    }
  }

  lemma {:induction false} NoEvents(c: Channel)
    ensures Puts([], c) == [] && Gets([], c) == []
  {
  }

  lemma {:induction false} MessageSequential(c: Channel, tokens: Tokens, capacity: nat)
    requires capacity >= 1
    ensures Sequential(Message(c, tokens), capacity) && Balanced(Message(c, tokens))
  {
    hide Sequential, Balanced;
    if tokens == [] {
      EmptySequential(capacity);
    } else {
      HandoverSequential(c, tokens[0], capacity);
      MessageSequential(c, tokens[1..], capacity);
      SequentialConcat([Put(c, tokens[0]), Get(c, tokens[0])], Message(c, tokens[1..]), capacity);
    }
  }

  /** What each process sees of a message. */
  lemma {:induction false} MessageLocal(c: Channel, tokens: Tokens, p: nat)
    requires c.from != c.to
    ensures p == c.from ==> Local(Message(c, tokens), p) == TokenEvents(p, Send(c.to, tokens), tokens)
    ensures p == c.to ==> Local(Message(c, tokens), p) == TokenEvents(p, Expect(c.from, tokens), tokens)
    ensures p != c.from && p != c.to ==> Local(Message(c, tokens), p) == []
    ensures forall i :: 0 <= i < |Message(c, tokens)| ==> Message(c, tokens)[i].c == c
  {
    if tokens != [] {
      MessageLocal(c, tokens[1..], p);
      var first := [Put(c, tokens[0]), Get(c, tokens[0])];
      LocalConcat(first, Message(c, tokens[1..]), p);
      LocalPair(first[0], first[1], p);
      assert tokens == [tokens[0]] + tokens[1..];
      if p == c.from {
        TokenEventsHead(p, Send(c.to, tokens), Send(c.to, tokens[1..]), tokens);
      } else if p == c.to {
        TokenEventsHead(p, Expect(c.from, tokens), Expect(c.from, tokens[1..]), tokens);
      }
    }
  }

  lemma {:induction false} LocalPair(e: Event, f: Event, p: nat)
    ensures Local([e, f], p) == (if Actor(e) == p then [e] else []) + (if Actor(f) == p then [f] else [])
    ensures Local([e], p) == if Actor(e) == p then [e] else []
  {
    assert [e, f] == [e] + [f] && [f][1..] == [] && [e][1..] == [];
    LocalConcat([e], [f], p);
  }

  /** Events depend on an action's direction and peer only. */
  lemma {:induction false} TokenEventsHead(p: nat, a: Action, b: Action, tokens: Tokens)
    requires tokens != []
    requires (a.Send? && b.Send? && a.to == b.to) || (a.Expect? && b.Expect? && a.from == b.from)
    ensures TokenEvents(p, a, tokens) == [ActionEvent(p, a, tokens[0])] + TokenEvents(p, b, tokens[1..])
  {
  }

  lemma {:induction false} EventsOne(p: nat, a: Action)
    ensures Events(p, [a]) == TokenEvents(p, a, a.tokens)
  {
    assert [a][1..] == [];
  }

  // ---- messages in sequence ----

  datatype Step = Step(c: Channel, tokens: Tokens)

  function Steps(steps: seq<Step>): (r: seq<Event>) {
    if steps == [] then [] else Message(steps[0].c, steps[0].tokens) + Steps(steps[1..])
  }

  /** A process's part in one message. */
  function Act(s: Step, p: nat): (r: Script) {
    if p == s.c.from then [Send(s.c.to, s.tokens)]
    else if p == s.c.to then [Expect(s.c.from, s.tokens)]
    else []
  }

  /** The script process `p` follows in a sequence of messages. */
  function StepScript(steps: seq<Step>, p: nat): (r: Script) {
    if steps == [] then [] else Act(steps[0], p) + StepScript(steps[1..], p)
  }

  predicate Directed(steps: seq<Step>, n: nat) {
    forall i :: 0 <= i < |steps| ==> steps[i].c.from != steps[i].c.to && steps[i].c.from < n && steps[i].c.to < n
  }

  /** Messages one after another are sequential, leave nothing behind, and project to their scripts. */
  lemma {:induction false} StepsLinearize(steps: seq<Step>, n: nat, capacity: nat)
    requires Directed(steps, n) && capacity >= 1
    ensures Sequential(Steps(steps), capacity) && Balanced(Steps(steps))
    ensures forall p: nat :: Local(Steps(steps), p) == Events(p, StepScript(steps, p))
    ensures forall i :: 0 <= i < |Steps(steps)| ==> Steps(steps)[i].c.from < n && Steps(steps)[i].c.to < n
    decreases |steps|
  {
    hide Sequential, Balanced, Message;
    if steps == [] {
      EmptySequential(capacity);
    } else {
      var s, rest := steps[0], steps[1..];
      StepsLinearize(rest, n, capacity);
      MessageSequential(s.c, s.tokens, capacity);
      SequentialConcat(Message(s.c, s.tokens), Steps(rest), capacity);
      forall p: nat ensures Local(Steps(steps), p) == Events(p, StepScript(steps, p)) {
        StepLocal(steps, p);
      }
      MessageLocal(s.c, s.tokens, 0);
    }
  }

  lemma {:induction false} StepLocal(steps: seq<Step>, p: nat)
    requires steps != [] && steps[0].c.from != steps[0].c.to
    requires Local(Steps(steps[1..]), p) == Events(p, StepScript(steps[1..], p))
    ensures Local(Steps(steps), p) == Events(p, StepScript(steps, p))
  {
    hide Message;
    var s, rest := steps[0], steps[1..];
    LocalConcat(Message(s.c, s.tokens), Steps(rest), p);
    MessageLocal(s.c, s.tokens, p);
    var first := Act(s, p);
    EventsConcat(p, first, StepScript(rest, p));
    if first != [] {
      EventsOne(p, first[0]);
    }
  }

  lemma {:induction false} StepScriptConcat(a: seq<Step>, b: seq<Step>, p: nat)
    ensures StepScript(a + b, p) == StepScript(a, p) + StepScript(b, p)
  {
    if a == [] {
      assert a + b == b;
    } else {
      StepScriptConcat(a[1..], b, p);
      assert (a + b)[1..] == a[1..] + b;
      var s := a[0];
      var first := if p == s.c.from then [Send(s.c.to, s.tokens)] else if p == s.c.to then [Expect(s.c.from, s.tokens)] else [];
      ConcatAssociates(first, StepScript(a[1..], p), StepScript(b, p));
    }
  }

  // ---- a crossing close ----

  /** Both ends announce their end before either reads the other's. */
  function Crossing(x: nat, y: nat): (r: seq<Event>) {
    var there, back := Channel(x, y), Channel(y, x);
    [Put(there, Eof), Put(back, Eof)] + [Get(there, Eof), Get(back, Eof)]
  }

  function CrossScript(x: nat, y: nat, p: nat): (r: Script) {
    if p == x then [Send(y, [Eof]), Expect(y, [Eof])]
    else if p == y then [Send(x, [Eof]), Expect(x, [Eof])]
    else []
  }

  /** The four events, channel by channel: one token in flight at most. */
  lemma {:induction false} CrossingStreams(x: nat, y: nat, c: Channel)
    requires x != y
    ensures var es, crossed := Crossing(x, y), c == Channel(x, y) || c == Channel(y, x);
            && Puts(es, c) == Gets(es, c)
            && Puts(es[..2], c) == (if crossed then [Eof] else []) && Gets(es[..2], c) == []
            && Puts(es[..3], c) == Puts(es[..2], c) && Gets(es[..3], c) == (if c == Channel(x, y) then [Eof] else [])
            && Puts(es[..1], c) == (if c == Channel(x, y) then [Eof] else []) && Gets(es[..1], c) == []
  {
    hide Puts, Gets;
    var es := Crossing(x, y);
    var puts, gets := [es[0], es[1]], [es[2], es[3]];
    PairStreams(es[0], es[1], c);
    PairStreams(es[1], es[0], c);
    PairStreams(es[2], es[3], c);
    PairStreams(es[3], es[2], c);
    PutsConcat(puts, gets, c);
    GetsConcat(puts, gets, c);
    PutsConcat(puts, [es[2]], c);
    GetsConcat(puts, [es[2]], c);
    assert es[..1] == [es[0]] && es[..2] == puts && es[..3] == puts + [es[2]];
  }

  lemma {:induction false} CrossingSequential(x: nat, y: nat, capacity: nat)
    requires x != y && capacity >= 1
    ensures Sequential(Crossing(x, y), capacity) && Balanced(Crossing(x, y))
  {
    hide Puts, Gets;
    var es := Crossing(x, y);
    forall i, c | 0 <= i <= |es|
      ensures Gets(es[..i], c) <= Puts(es[..i], c) && |Puts(es[..i], c)| - |Gets(es[..i], c)| <= capacity
    {
      NoEvents(c);
      CrossingStreams(x, y, c);
      assert es[..0] == [] && es[..4] == es;
    }
    forall c ensures Gets(es, c) == Puts(es, c) {
      CrossingStreams(x, y, c);
    }
  }

  lemma {:induction false} CrossingLocal(x: nat, y: nat, p: nat)
    requires x != y
    ensures Local(Crossing(x, y), p) == Events(p, CrossScript(x, y, p))
  {
    var es := Crossing(x, y);
    LocalConcat([es[0], es[1]], [es[2], es[3]], p);
    LocalPair(es[0], es[1], p);
    LocalPair(es[2], es[3], p);
    var script := CrossScript(x, y, p);
    if script != [] {
      EventsConcat(p, [script[0]], [script[1]]);
      assert script == [script[0]] + [script[1]];
      EventsOne(p, script[0]);
      EventsOne(p, script[1]);
    }
  }
}
