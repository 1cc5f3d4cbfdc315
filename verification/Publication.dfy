/**
 * `write_new`: any number of writers race to publish their bytes under one path, each through a temporary
 * file, a hard link and a directory flush. Any operation may fail and the machine may stop at any step;
 * writers that had not begun may begin after a restart.
 */
module Publication {
  import opened Common

  /** The bytes each writer wants to publish, and what the path already held. */
  datatype Config = Config(wanted: seq<Bytes>, prior: Option<Bytes>)

  datatype Operation =
    | MakeTemporary | ChangeMode | WriteData | SyncData | CloseData
    | LinkPath | OpenDirectory | SyncDirectory | CloseDirectory | UnlinkTemporary

  datatype Result = Succeeded | Failed(at: Operation)

  /** Where a writer stands; `Stopped` is a writer the machine took down. */
  datatype Phase =
    | Start
    | Made
    | Writing(count: nat)
    | Closing(pending: Result)
    | Linking
    | Opening
    | Syncing
    | Releasing(outcome: Result)
    | Unlinking(verdict: Result)
    | Exited(result: Result)
    | Stopped

  /** Which file the path names: the one it already held, or a writer's. */
  datatype Source = Prior | By(writer: nat)

  /**
   * Writer `i`'s temporary file holds `data[i]`, flushed when `synced[i]`; `temps` are the temporary names
   * present; `target` is the path's entry, known to survive a stop when `durable`.
   */
  datatype State = State(
    phases: seq<Phase>, data: seq<Bytes>, synced: seq<bool>, temps: set<nat>, target: Option<Source>, durable: bool)

  /** One operation of a writer with its fate and, for a write, its size; or a stop and what the disk kept. */
  datatype Move =
    | Step(i: nat, ok: bool, n: nat)
    | Stop(keep: bool, left: set<nat>, remains: seq<Bytes>)

  function Initial(k: Config): State {
    var n := |k.wanted|;
    State(seq(n, _ => Start), seq(n, _ => []), seq(n, _ => false), {},
          if k.prior.Some? then Some(Prior) else None, k.prior.Some?)
  }

  /** What a reader of the path sees. */
  function Content(k: Config, s: State): (r: Option<Bytes>) {
    match s.target
    case None => None
    case Some(Prior) => k.prior
    case Some(By(i)) => if i < |s.data| then Some(s.data[i]) else None
  }

  predicate Sized(k: Config, s: State) {
    |s.phases| == |s.data| == |s.synced| == |k.wanted|
  }

  function At(s: State, i: nat, phase: Phase): (r: State)
    requires i < |s.phases|
  {
    s.(phases := s.phases[i := phase])
  }

  /** Up to the close of the temporary file. */
  function Prepare(k: Config, s: State, i: nat, ok: bool, n: nat): (r: Option<State>)
    requires Sized(k, s) && i < |s.phases|
  {
    match s.phases[i]
    case Start =>
      if ok then Some(At(s, i, Made).(temps := s.temps + {i}))
      else Some(At(s, i, Exited(Failed(MakeTemporary))))
    case Made =>
      Some(At(s, i, if ok then Writing(0) else Closing(Failed(ChangeMode))))
    case Writing(count) =>
      if count < |k.wanted[i]| then
        if !ok then Some(At(s, i, Closing(Failed(WriteData))))
        else if n == 0 || count + n > |k.wanted[i]| then None
        else Some(At(s, i, Writing(count + n)).(data := s.data[i := s.data[i] + k.wanted[i][count..count + n]]))
      else if ok then Some(At(s, i, Closing(Succeeded)).(synced := s.synced[i := true]))
      else Some(At(s, i, Closing(Failed(SyncData))))
    case Closing(pending) =>
      if !ok then Some(At(s, i, Exited(Failed(CloseData))))
      else if pending.Succeeded? then Some(At(s, i, Linking))
      else Some(At(s, i, Exited(pending)))
    case _ => None
  }

  /** From the link on. An existing path makes the link fail whatever else happens. */
  function Publish(s: State, i: nat, ok: bool): (r: Option<State>)
    requires i < |s.phases|
  {
    match s.phases[i]
    case Linking =>
      if ok && s.target.None? then Some(At(s, i, Opening).(target := Some(By(i)), durable := false))
      else if ok then None
      else Some(At(s, i, Unlinking(Failed(LinkPath))))
    case Opening =>
      Some(At(s, i, if ok then Syncing else Unlinking(Failed(OpenDirectory))))
    case Syncing =>
      if ok then Some(At(s, i, Releasing(Succeeded)).(durable := s.target.Some?))
      else Some(At(s, i, Releasing(Failed(SyncDirectory))))
    case Releasing(outcome) =>
      Some(At(s, i, Unlinking(if ok then outcome else Failed(CloseDirectory))))
    case Unlinking(verdict) =>
      if ok then Some(At(s, i, Exited(verdict)).(temps := s.temps - {i}))
      else Some(At(s, i, Exited(Failed(UnlinkTemporary))))
    case _ => None
  }

  predicate Preparing(phase: Phase) {
    phase.Start? || phase.Made? || phase.Writing? || phase.Closing?
  }

  /** After a stop: running writers are gone, unflushed data is whatever is left, an unflushed entry may be lost. */
  function Restart(s: State, keep: bool, left: set<nat>, remains: seq<Bytes>): (r: State)
    requires |s.phases| == |s.data| == |s.synced| == |remains|
  {
    var n := |s.phases|;
    State(seq(n, i requires 0 <= i < n => if s.phases[i].Start? || s.phases[i].Exited? then s.phases[i] else Stopped),
          seq(n, i requires 0 <= i < n => if s.synced[i] then s.data[i] else if s.phases[i].Start? then [] else remains[i]),
          s.synced,
          left,
          if keep then s.target else None,
          keep && s.target.Some?)
  }

  function Apply(k: Config, s: State, move: Move): (r: Option<State>)
    requires Sized(k, s)
  {
    match move
    case Step(i, ok, n) =>
      if i >= |s.phases| then None
      else if Preparing(s.phases[i]) then Prepare(k, s, i, ok, n)
      else Publish(s, i, ok)
    case Stop(keep, left, remains) =>
      if |remains| == |s.phases| && (s.durable ==> keep) && (forall i :: i in left ==> i < |s.phases| && !s.phases[i].Start?)
      then Some(Restart(s, keep, left, remains)) else None
  }

  lemma {:induction false} ApplySized(k: Config, s: State, move: Move)
    requires Sized(k, s) && Apply(k, s, move).Some?
    ensures Sized(k, Apply(k, s, move).value)
  {
  }

  /** A run from a state: any sequence of enabled moves. */
  function Execute(k: Config, s: State, moves: seq<Move>): (r: Option<State>)
    requires Sized(k, s)
    ensures r.Some? ==> Sized(k, r.value)
  {
    if moves == [] then Some(s)
    else
      var before := Execute(k, s, moves[..|moves| - 1]);
      if before.None? then None
      else if Apply(k, before.value, moves[|moves| - 1]).None? then None
      else
        ApplySized(k, before.value, moves[|moves| - 1]);
        Apply(k, before.value, moves[|moves| - 1])
  }

  // ---- the invariant ----

  /** Writer `i`'s file is complete and flushed. */
  predicate Complete(k: Config, s: State, i: nat)
    requires Sized(k, s)
  {
    i < |s.phases| && s.data[i] == k.wanted[i] && s.synced[i]
  }

  predicate WriterOk(k: Config, s: State, i: nat)
    requires Sized(k, s) && i < |s.phases|
  {
    match s.phases[i]
    case Start => s.data[i] == [] && !s.synced[i]
    case Made => s.data[i] == [] && !s.synced[i]
    case Writing(count) => count <= |k.wanted[i]| && s.data[i] == k.wanted[i][..count] && !s.synced[i]
    case Closing(pending) => pending.Succeeded? ==> Complete(k, s, i)
    case Linking => Complete(k, s, i)
    case Opening => s.target == Some(By(i))
    case Syncing => s.target == Some(By(i))
    case Releasing(outcome) => s.target == Some(By(i)) && (outcome.Succeeded? ==> s.durable)
    case Unlinking(verdict) => verdict.Succeeded? ==> s.target == Some(By(i)) && s.durable
    case Exited(result) => result.Succeeded? ==> s.target == Some(By(i)) && s.durable
    case Stopped => true
  }

  predicate TargetOk(k: Config, s: State)
    requires Sized(k, s)
  {
    && (s.target == Some(Prior) <==> k.prior.Some?)
    && (s.target == Some(Prior) ==> s.durable)
    && (s.durable ==> s.target.Some?)
    && (s.target.Some? && s.target.value.By? ==>
          var i := s.target.value.writer;
          Complete(k, s, i) && !Preparing(s.phases[i]) && !s.phases[i].Linking?)
  }

  predicate Inv(k: Config, s: State) {
    && Sized(k, s)
    && TargetOk(k, s)
    && (forall i :: 0 <= i < |s.phases| ==> WriterOk(k, s, i))
  }

  /** Nothing of writer `j` has moved, and an entry the path had is still there. */
  predicate Untouched(s: State, t: State, j: nat) {
    && j < |s.phases| && j < |t.phases| && j < |s.data| && j < |t.data| && j < |s.synced| && j < |t.synced|
    && t.phases[j] == s.phases[j] && t.data[j] == s.data[j] && t.synced[j] == s.synced[j]
    && (s.target.Some? ==> t.target == s.target)
    && (s.durable ==> t.durable)
  }

  lemma {:induction false} UntouchedOk(k: Config, s: State, t: State, j: nat)
    requires Sized(k, s) && Sized(k, t) && Untouched(s, t, j) && WriterOk(k, s, j)
    ensures WriterOk(k, t, j)
  {
  }

  lemma {:induction false} PrepareWriter(k: Config, s: State, i: nat, ok: bool, n: nat)
    requires Sized(k, s) && i < |s.phases| && Preparing(s.phases[i]) && Prepare(k, s, i, ok, n).Some? && WriterOk(k, s, i)
    ensures Sized(k, Prepare(k, s, i, ok, n).value) && WriterOk(k, Prepare(k, s, i, ok, n).value, i)
  {
    if s.phases[i].Writing? && s.phases[i].count < |k.wanted[i]| && ok {
      var count := s.phases[i].count;
      assert k.wanted[i][..count + n] == k.wanted[i][..count] + k.wanted[i][count..count + n];
    }
  }

  lemma {:induction false} PrepareFrame(k: Config, s: State, i: nat, ok: bool, n: nat)
    requires Sized(k, s) && i < |s.phases| && Prepare(k, s, i, ok, n).Some?
    ensures var t := Prepare(k, s, i, ok, n).value;
            && Sized(k, t) && t.target == s.target && t.durable == s.durable
            && forall j :: 0 <= j < |s.phases| && j != i ==> Untouched(s, t, j)
  {
  }

  lemma {:induction false} PrepareKeeps(k: Config, s: State, i: nat, ok: bool, n: nat)
    requires Inv(k, s) && i < |s.phases| && Preparing(s.phases[i]) && Prepare(k, s, i, ok, n).Some?
    ensures Inv(k, Prepare(k, s, i, ok, n).value)
    ensures Prepare(k, s, i, ok, n).value.target == s.target && Prepare(k, s, i, ok, n).value.durable == s.durable
  {
    hide Prepare, WriterOk;
    var t := Prepare(k, s, i, ok, n).value;
    PrepareWriter(k, s, i, ok, n);
    PrepareFrame(k, s, i, ok, n);
    forall j | 0 <= j < |t.phases| && j != i ensures WriterOk(k, t, j) {
      UntouchedOk(k, s, t, j);
    }
    if t.target.Some? && t.target.value.By? {
      assert Untouched(s, t, t.target.value.writer);
    }
  }

  lemma {:induction false} PublishWriter(k: Config, s: State, i: nat, ok: bool)
    requires Inv(k, s) && i < |s.phases| && !Preparing(s.phases[i]) && Publish(s, i, ok).Some?
    ensures var t := Publish(s, i, ok).value; Sized(k, t) && WriterOk(k, t, i) && TargetOk(k, t)
  {
    assert WriterOk(k, s, i);
  }

  lemma {:induction false} PublishFrame(s: State, i: nat, ok: bool)
    requires |s.phases| == |s.data| == |s.synced| && i < |s.phases| && Publish(s, i, ok).Some?
    requires s.durable ==> s.target.Some?
    ensures var t := Publish(s, i, ok).value;
            && (s.target.Some? ==> t.target == s.target) && (s.durable ==> t.durable)
            && forall j :: 0 <= j < |s.phases| && j != i ==> Untouched(s, t, j)
  {
  }

  lemma {:induction false} PublishKeeps(k: Config, s: State, i: nat, ok: bool)
    requires Inv(k, s) && i < |s.phases| && !Preparing(s.phases[i]) && Publish(s, i, ok).Some?
    ensures Inv(k, Publish(s, i, ok).value)
    ensures s.target.Some? ==> Publish(s, i, ok).value.target == s.target
    ensures s.durable ==> Publish(s, i, ok).value.durable
  {
    PublishWriter(k, s, i, ok);
    hide Publish, WriterOk;
    var t := Publish(s, i, ok).value;
    PublishFrame(s, i, ok);
    forall j | 0 <= j < |t.phases| && j != i ensures WriterOk(k, t, j) {
      UntouchedOk(k, s, t, j);
    }
  }

  lemma {:induction false} RestartKeeps(k: Config, s: State, move: Move)
    requires Inv(k, s) && move.Stop? && Apply(k, s, move).Some?
    ensures Inv(k, Apply(k, s, move).value)
    ensures s.durable ==> Apply(k, s, move).value.target == s.target && Apply(k, s, move).value.durable
  {
    var after := Apply(k, s, move).value;
    forall j | 0 <= j < |after.phases| ensures WriterOk(k, after, j) {
      assert WriterOk(k, s, j);
    }
  }

  /** One move: the invariant holds, a durable entry stays, and only a stop removes an entry. */
  lemma {:induction false} MoveKeeps(k: Config, s: State, move: Move)
    requires Inv(k, s) && Apply(k, s, move).Some?
    ensures Inv(k, Apply(k, s, move).value)
    ensures s.durable ==> Apply(k, s, move).value.target == s.target && Apply(k, s, move).value.durable
    ensures s.target.Some? && !move.Stop? ==> Apply(k, s, move).value.target == s.target
  {
    hide Inv, Prepare, Publish, Restart;
    match move
    case Step(i, ok, n) =>
      assert Sized(k, s) by { InvSized(k, s); }
      if Preparing(s.phases[i]) {
        PrepareKeeps(k, s, i, ok, n);
      } else {
        InvDurable(k, s);
        PublishKeeps(k, s, i, ok);
      }
    case Stop(_, _, _) => RestartKeeps(k, s, move);
  }

  lemma {:induction false} InvSized(k: Config, s: State)
    requires Inv(k, s)
    ensures Sized(k, s)
  {
  }

  lemma {:induction false} InvDurable(k: Config, s: State)
    requires Inv(k, s)
    ensures s.durable ==> s.target.Some?
  {
  }

  lemma {:induction false} InitialOk(k: Config)
    ensures Inv(k, Initial(k))
  {
  }

  predicate StopFree(moves: seq<Move>) {
    forall i :: 0 <= i < |moves| ==> !moves[i].Stop?
  }

  lemma {:induction false} RunKeeps(k: Config, s: State, moves: seq<Move>)
    requires Inv(k, s) && Execute(k, s, moves).Some?
    ensures Inv(k, Execute(k, s, moves).value)
    ensures s.durable ==> Execute(k, s, moves).value.target == s.target && Execute(k, s, moves).value.durable
    ensures s.target.Some? && StopFree(moves) ==> Execute(k, s, moves).value.target == s.target
  {
    hide Apply, WriterOk, TargetOk;
    if moves != [] {
      var front := moves[..|moves| - 1];
      RunKeeps(k, s, front);
      MoveKeeps(k, Execute(k, s, front).value, moves[|moves| - 1]);
    }
  }

  // ---- what a reader can see ----

  /** The path is absent, or holds what it held before, or all the flushed bytes of one writer. */
  lemma {:induction false} NeverPartial(k: Config, moves: seq<Move>)
    requires Execute(k, Initial(k), moves).Some?
    ensures var s := Execute(k, Initial(k), moves).value;
            && (k.prior.Some? ==> s.target == Some(Prior) && Content(k, s) == k.prior)
            && (k.prior.None? && Content(k, s).Some? ==>
                  exists i :: 0 <= i < |k.wanted| && s.target == Some(By(i)) && s.synced[i] && Content(k, s) == Some(k.wanted[i]))
  {
    hide Apply, Execute;
    InitialOk(k);
    RunKeeps(k, Initial(k), moves);
  }

  lemma {:induction false} ContentStays(k: Config, s: State, t: State)
    requires Inv(k, s) && Inv(k, t) && s.target.Some? && t.target == s.target
    ensures Content(k, t) == Content(k, s) && Content(k, s).Some?
  {
  }

  /** Once visible, the bytes stay as they are; a stop can undo only an entry whose directory was never flushed. */
  lemma {:induction false} NeverChanges(k: Config, before: seq<Move>, more: seq<Move>)
    requires Execute(k, Initial(k), before).Some?
    requires Content(k, Execute(k, Initial(k), before).value).Some?
    requires Execute(k, Execute(k, Initial(k), before).value, more).Some?
    requires StopFree(more) || Execute(k, Initial(k), before).value.durable
    ensures var s := Execute(k, Initial(k), before).value;
            Content(k, Execute(k, s, more).value) == Content(k, s)
  {
    hide Apply, Execute, WriterOk;
    InitialOk(k);
    RunKeeps(k, Initial(k), before);
    var s := Execute(k, Initial(k), before).value;
    RunKeeps(k, s, more);
    ContentStays(k, s, Execute(k, s, more).value);
  }

  /** A stop can take a visible entry away exactly while its directory has not been flushed. */
  lemma {:induction false} LossExact(k: Config, moves: seq<Move>)
    requires Execute(k, Initial(k), moves).Some? && Content(k, Execute(k, Initial(k), moves).value).Some?
    ensures var s := Execute(k, Initial(k), moves).value;
            (exists move: Move :: Apply(k, s, move).Some? && Content(k, Apply(k, s, move).value).None?) <==> !s.durable
  {
    hide Execute;
    InitialOk(k);
    RunKeeps(k, Initial(k), moves);
    var s := Execute(k, Initial(k), moves).value;
    if s.durable {
      forall move: Move | Apply(k, s, move).Some? ensures Content(k, Apply(k, s, move).value).Some? {
        hide Apply, Inv;
        MoveKeeps(k, s, move);
        SomeContent(k, s);
        ContentStays(k, s, Apply(k, s, move).value);
      }
    } else {
      var move := Stop(false, {}, s.data);
      assert Apply(k, s, move).Some? && Content(k, Apply(k, s, move).value).None?;
    }
  }

  lemma {:induction false} SomeContent(k: Config, s: State)
    requires Content(k, s).Some?
    ensures s.target.Some?
  {
  }

  /** A call that returns has published its own bytes, and no later call, failure or stop takes them back. */
  lemma {:induction false} SuccessIsPermanent(k: Config, before: seq<Move>, more: seq<Move>, i: nat)
    requires Execute(k, Initial(k), before).Some?
    requires i < |k.wanted| && Execute(k, Initial(k), before).value.phases[i] == Exited(Succeeded)
    requires Execute(k, Execute(k, Initial(k), before).value, more).Some?
    ensures var t := Execute(k, Execute(k, Initial(k), before).value, more).value;
            Content(k, t) == Some(k.wanted[i]) && t.durable
  {
    hide Apply, Execute;
    InitialOk(k);
    RunKeeps(k, Initial(k), before);
    var s := Execute(k, Initial(k), before).value;
    assert WriterOk(k, s, i);
    RunKeeps(k, s, more);
  }

  /** Over all calls and restarts at most one returns, and none does when the path already existed. */
  lemma {:induction false} OneSuccess(k: Config, moves: seq<Move>, i: nat, j: nat)
    requires Execute(k, Initial(k), moves).Some? && i < |k.wanted| && j < |k.wanted|
    requires Execute(k, Initial(k), moves).value.phases[i] == Exited(Succeeded)
    requires Execute(k, Initial(k), moves).value.phases[j] == Exited(Succeeded)
    ensures i == j && k.prior.None?
  {
    hide Apply, Execute;
    InitialOk(k);
    RunKeeps(k, Initial(k), moves);
    var s := Execute(k, Initial(k), moves).value;
    assert WriterOk(k, s, i) && WriterOk(k, s, j);
  }

  // ---- how often the link succeeds ----

  /** The links that succeeded during a run. */
  function Links(k: Config, s: State, moves: seq<Move>): (r: nat)
    requires Sized(k, s) && Execute(k, s, moves).Some?
  {
    if moves == [] then 0
    else
      var front, last := moves[..|moves| - 1], moves[|moves| - 1];
      var at := Execute(k, s, front).value;
      Links(k, s, front)
      + if last.Step? && last.ok && last.i < |at.phases| && at.phases[last.i].Linking? then 1 else 0
  }

  function Stops(moves: seq<Move>): (r: nat) {
    if moves == [] then 0 else Stops(moves[..|moves| - 1]) + if moves[|moves| - 1].Stop? then 1 else 0
  }

  lemma {:induction false} StopFreeCounts(moves: seq<Move>)
    requires StopFree(moves)
    ensures Stops(moves) == 0
  {
    if moves != [] {
      StopFreeCounts(moves[..|moves| - 1]);
    }
  }

  /** A link needs an absent path: one success, and one more for each stop that lost an unflushed entry. */
  lemma {:induction false} LinksBounded(k: Config, moves: seq<Move>)
    requires Execute(k, Initial(k), moves).Some?
    ensures var s := Execute(k, Initial(k), moves).value;
            && Links(k, Initial(k), moves) <= Stops(moves) + (if s.target.Some? && s.target.value.By? then 1 else 0)
            && (k.prior.Some? ==> Links(k, Initial(k), moves) == 0)
  {
    hide Apply, WriterOk, TargetOk, Initial;
    InitialOk(k);
    if moves != [] {
      var front, last := moves[..|moves| - 1], moves[|moves| - 1];
      LinksBounded(k, front);
      RunKeeps(k, Initial(k), front);
      var s := Execute(k, Initial(k), front).value;
      MoveKeeps(k, s, last);
      LinkNeedsAbsence(k, s, last);
    }
  }

  lemma {:induction false} LinkNeedsAbsence(k: Config, s: State, move: Move)
    requires Inv(k, s) && Apply(k, s, move).Some?
    ensures move.Step? && move.ok && move.i < |s.phases| && s.phases[move.i].Linking? ==>
              s.target.None? && Apply(k, s, move).value.target == Some(By(move.i)) && k.prior.None?
    ensures move.Step? && !(move.ok && move.i < |s.phases| && s.phases[move.i].Linking?) ==>
              Apply(k, s, move).value.target == s.target
    ensures move.Stop? ==> Apply(k, s, move).value.target in {s.target, None}
  {
  }

  /** Without a stop at most one link ever succeeds. */
  lemma {:induction false} OneLink(k: Config, moves: seq<Move>)
    requires Execute(k, Initial(k), moves).Some? && StopFree(moves)
    ensures Links(k, Initial(k), moves) <= 1
  {
    hide Execute, Links;
    LinksBounded(k, moves);
    StopFreeCounts(moves);
  }

  // ---- temporary files ----

  /** The failures after which the temporary file is still there: before the link, or its own removal. */
  predicate LeavesTemporary(result: Result) {
    result.Failed? && result.at in {ChangeMode, WriteData, SyncData, CloseData, UnlinkTemporary}
  }

  predicate TemporaryOk(s: State, i: nat)
    requires i < |s.phases|
  {
    i in s.temps <==>
      match s.phases[i]
      case Start => false
      case Exited(result) => LeavesTemporary(result)
      case _ => true
  }

  /** The failures a writer can still be carrying. */
  predicate PendingOk(phase: Phase) {
    match phase
    case Closing(pending) => pending.Failed? ==> pending.at in {ChangeMode, WriteData, SyncData}
    case Releasing(outcome) => outcome.Failed? ==> outcome.at == SyncDirectory
    case Unlinking(verdict) => verdict.Failed? ==> verdict.at in {LinkPath, OpenDirectory, SyncDirectory, CloseDirectory}
    case _ => true
  }

  predicate TracksTemporary(s: State, i: nat) {
    i < |s.phases| && TemporaryOk(s, i) && PendingOk(s.phases[i])
  }

  lemma {:induction false} StepTemporary(k: Config, s: State, move: Move, i: nat)
    requires Sized(k, s) && TracksTemporary(s, i) && move.Step? && Apply(k, s, move).Some?
    ensures TracksTemporary(Apply(k, s, move).value, i)
  {
  }

  /** Only writers that have begun have temporaries, stops or not. */
  predicate Begun(s: State) {
    forall i :: i in s.temps ==> i < |s.phases| && !s.phases[i].Start?
  }

  lemma {:induction false} MoveBegun(k: Config, s: State, move: Move)
    requires Sized(k, s) && Begun(s) && Apply(k, s, move).Some?
    ensures Begun(Apply(k, s, move).value)
  {
  }

  lemma {:induction false} RunBegun(k: Config, moves: seq<Move>)
    requires Execute(k, Initial(k), moves).Some?
    ensures Begun(Execute(k, Initial(k), moves).value)
  {
    hide Apply;
    if moves != [] {
      hide Begun;
      var front := moves[..|moves| - 1];
      RunBegun(k, front);
      MoveBegun(k, Execute(k, Initial(k), front).value, moves[|moves| - 1]);
    }
  }

  lemma {:induction false} RunTemporary(k: Config, s: State, moves: seq<Move>, i: nat)
    requires Sized(k, s) && TracksTemporary(s, i) && StopFree(moves) && Execute(k, s, moves).Some?
    ensures TracksTemporary(Execute(k, s, moves).value, i)
  {
    hide Apply, TracksTemporary;
    if moves != [] {
      var front := moves[..|moves| - 1];
      RunTemporary(k, s, front, i);
      assert moves[|moves| - 1].Step?;
      StepTemporary(k, Execute(k, s, front).value, moves[|moves| - 1], i);
    }
  }

  /**
   * A call begun after any run, stops and restarts included, that has since ended by itself: its temporary is
   * there exactly when the call failed before the link or in the removal.
   */
  lemma {:induction false} TemporariesExact(k: Config, before: seq<Move>, more: seq<Move>, i: nat)
    requires Execute(k, Initial(k), before).Some? && i < |k.wanted|
    requires Execute(k, Initial(k), before).value.phases[i].Start?
    requires StopFree(more) && Execute(k, Execute(k, Initial(k), before).value, more).Some?
    ensures var s := Execute(k, Execute(k, Initial(k), before).value, more).value;
            s.phases[i].Exited? ==> (i in s.temps <==> LeavesTemporary(s.phases[i].result))
  {
    hide Execute, StopFree;
    RunBegun(k, before);
    RunTemporary(k, Execute(k, Initial(k), before).value, more, i);
  }

  /** The case of a run without stops. */
  lemma {:induction false} StopFreeTemporaries(k: Config, moves: seq<Move>, i: nat)
    requires Execute(k, Initial(k), moves).Some? && StopFree(moves) && i < |k.wanted|
    ensures var s := Execute(k, Initial(k), moves).value;
            s.phases[i].Exited? ==> (i in s.temps <==> LeavesTemporary(s.phases[i].result))
  {
    assert Execute(k, Initial(k), []) == Some(Initial(k));
    hide Execute, StopFree;
    TemporariesExact(k, [], moves, i);
  }

  // ---- the race itself ----

  /** Nothing fails except a link onto a path that exists. */
  predicate Faultless(k: Config, s: State, moves: seq<Move>)
    requires Sized(k, s) && Execute(k, s, moves).Some?
  {
    moves == []
    || (var front, last := moves[..|moves| - 1], moves[|moves| - 1];
        Faultless(k, s, front) && Good(Execute(k, s, front).value, last))
  }

  predicate Good(s: State, move: Move) {
    move.Step? && (move.ok || (move.i < |s.phases| && s.phases[move.i].Linking? && s.target.Some?))
  }

  /** Without faults a writer is on its way, has won, or has found the path taken. */
  predicate RacerOk(s: State, i: nat)
    requires i < |s.phases|
  {
    match s.phases[i]
    case Closing(pending) => pending.Succeeded?
    case Releasing(outcome) => outcome.Succeeded?
    case Unlinking(verdict) => verdict.Succeeded? || (verdict == Failed(LinkPath) && s.target.Some? && s.target != Some(By(i)))
    case Exited(result) => result.Succeeded? || (result == Failed(LinkPath) && s.target.Some? && s.target != Some(By(i)))
    case Stopped => false
    case _ => true
  }

  lemma {:induction false} RacersKeep(k: Config, s: State, move: Move)
    requires Inv(k, s) && (forall i :: 0 <= i < |s.phases| ==> RacerOk(s, i))
    requires Good(s, move) && Apply(k, s, move).Some?
    ensures var t := Apply(k, s, move).value; forall i :: 0 <= i < |t.phases| ==> RacerOk(t, i)
  {
    var t := Apply(k, s, move).value;
    forall j | 0 <= j < |t.phases| ensures RacerOk(t, j) {
      assert RacerOk(s, j);
      if j == move.i {
        assert WriterOk(k, s, j);
      }
    }
  }

  lemma {:induction false} RunRaces(k: Config, moves: seq<Move>)
    requires Execute(k, Initial(k), moves).Some? && Faultless(k, Initial(k), moves)
    ensures var s := Execute(k, Initial(k), moves).value;
            Inv(k, s) && StopFree(moves) && forall i :: 0 <= i < |s.phases| ==> RacerOk(s, i)
  {
    hide Apply, RacerOk, WriterOk, TargetOk, Initial;
    InitialOk(k);
    RunKeeps(k, Initial(k), moves);
    if moves == [] {
      InitialRaces(k);
    } else {
      var front := moves[..|moves| - 1];
      RunRaces(k, front);
      RacersKeep(k, Execute(k, Initial(k), front).value, moves[|moves| - 1]);
    }
  }

  lemma {:induction false} InitialRaces(k: Config)
    ensures forall i :: 0 <= i < |Initial(k).phases| ==> RacerOk(Initial(k), i)
  {
  }

  /**
   * A race in which nothing else fails has exactly one winner: once all calls have ended, one has returned, the
   * path holds its bytes for good, every other call failed on the existing path, and no temporary is left.
   */
  lemma {:induction false} ExactlyOneWins(k: Config, moves: seq<Move>) returns (w: nat)
    requires Execute(k, Initial(k), moves).Some? && Faultless(k, Initial(k), moves) && k.prior.None? && |k.wanted| >= 1
    requires forall i :: 0 <= i < |k.wanted| ==> Execute(k, Initial(k), moves).value.phases[i].Exited?
    ensures var s := Execute(k, Initial(k), moves).value;
            && w < |k.wanted| && s.phases[w] == Exited(Succeeded) && Content(k, s) == Some(k.wanted[w]) && s.durable
            && (forall i :: 0 <= i < |k.wanted| && i != w ==> s.phases[i] == Exited(Failed(LinkPath)))
            && s.temps == {}
  {
    hide Apply, Execute, Faultless;
    RunRaces(k, moves);
    RunBegun(k, moves);
    var s := Execute(k, Initial(k), moves).value;
    assert RacerOk(s, 0) && WriterOk(k, s, 0);
    assert s.target.Some?;
    w := s.target.value.writer;
    assert RacerOk(s, w) && WriterOk(k, s, w);
    forall i | 0 <= i < |k.wanted| && i != w ensures s.phases[i] == Exited(Failed(LinkPath)) {
      assert RacerOk(s, i) && WriterOk(k, s, i);
    }
    forall i | 0 <= i < |k.wanted| ensures i !in s.temps {
      StopFreeTemporaries(k, moves, i);
    }
    assert s.temps == {};
  }

  /** With a path that already exists every such call fails on it and the path keeps its bytes. */
  lemma {:induction false} ExistingPathWins(k: Config, moves: seq<Move>, i: nat)
    requires Execute(k, Initial(k), moves).Some? && Faultless(k, Initial(k), moves) && k.prior.Some? && i < |k.wanted|
    requires Execute(k, Initial(k), moves).value.phases[i].Exited?
    ensures var s := Execute(k, Initial(k), moves).value;
            s.phases[i] == Exited(Failed(LinkPath)) && i !in s.temps && Content(k, s) == k.prior
  {
    hide Apply, Execute, Faultless;
    RunRaces(k, moves);
    StopFreeTemporaries(k, moves, i);
    var s := Execute(k, Initial(k), moves).value;
    assert RacerOk(s, i) && WriterOk(k, s, i);
  }

  // ---- every run can be brought to its end ----

  /** The steps writer `i` still has before it, writing one octet at a time. */
  function StepsLeft(k: Config, phase: Phase, i: nat): (r: int)
    requires i < |k.wanted|
  {
    match phase
    case Start => |k.wanted[i]| + 9
    case Made => |k.wanted[i]| + 8
    case Writing(count) => |k.wanted[i]| - count + 7
    case Closing(_) => 6
    case Linking => 5
    case Opening => 4
    case Syncing => 3
    case Releasing(_) => 2
    case Unlinking(_) => 1
    case Exited(_) => 0
    case Stopped => 0
  }

  predicate Ended(phase: Phase) {
    phase.Exited? || phase.Stopped?
  }

  /** The steps the first `n` writers still have before them. */
  function AllLeft(k: Config, s: State, n: nat): (r: int)
    requires Sized(k, s) && n <= |s.phases|
  {
    if n == 0 then 0 else AllLeft(k, s, n - 1) + StepsLeft(k, s.phases[n - 1], n - 1)
  }

  lemma {:induction false} AllLeftPositive(k: Config, s: State, n: nat)
    requires Inv(k, s) && n <= |s.phases|
    ensures AllLeft(k, s, n) >= 0
  {
    if n > 0 {
      AllLeftPositive(k, s, n - 1);
      assert WriterOk(k, s, n - 1);
    }
  }

  lemma {:induction false} AllLeftFalls(k: Config, s: State, t: State, i: nat, n: nat)
    requires Sized(k, s) && Sized(k, t) && i < |s.phases| && n <= |s.phases|
    requires forall j :: 0 <= j < |s.phases| && j != i ==> t.phases[j] == s.phases[j]
    requires StepsLeft(k, t.phases[i], i) < StepsLeft(k, s.phases[i], i)
    ensures if n > i then AllLeft(k, t, n) < AllLeft(k, s, n) else AllLeft(k, t, n) == AllLeft(k, s, n)
  {
    hide StepsLeft;
    if n > 0 {
      AllLeftFalls(k, s, t, i, n - 1);
    }
  }

  /** A writer that has not ended can take a step without a fault, and has fewer before it then. */
  lemma {:induction false} NextStep(k: Config, s: State, i: nat) returns (move: Move)
    requires Inv(k, s) && i < |s.phases| && !Ended(s.phases[i])
    ensures Good(s, move) && move.i == i && Apply(k, s, move).Some?
    ensures var t := Apply(k, s, move).value;
            && Sized(k, t)
            && StepsLeft(k, t.phases[i], i) < StepsLeft(k, s.phases[i], i)
            && forall j :: 0 <= j < |s.phases| && j != i ==> t.phases[j] == s.phases[j]
  {
    assert WriterOk(k, s, i);
    move := Step(i, !(s.phases[i].Linking? && s.target.Some?), 1);
  }

  lemma {:induction false} ConsRun(k: Config, s: State, move: Move, rest: seq<Move>)
    requires Sized(k, s) && Apply(k, s, move).Some?
    ensures Sized(k, Apply(k, s, move).value)
    ensures Execute(k, s, [move] + rest) == Execute(k, Apply(k, s, move).value, rest)
    ensures Execute(k, s, [move] + rest).Some? && Good(s, move) && Faultless(k, Apply(k, s, move).value, rest)
        ==> Faultless(k, s, [move] + rest)
  {
    hide Apply, Good;
    ApplySized(k, s, move);
    if rest == [] {
      assert [move] + rest == [move] && [move][..0] == [];
      assert Execute(k, s, []) == Some(s);
    } else {
      var front := rest[..|rest| - 1];
      ConsRun(k, s, move, front);
      assert ([move] + rest)[..|rest|] == [move] + front;
    }
  }

  lemma {:induction false} ConcatRun(k: Config, s: State, first: seq<Move>, second: seq<Move>)
    requires Sized(k, s) && Execute(k, s, first).Some?
    ensures Execute(k, s, first + second) == Execute(k, Execute(k, s, first).value, second)
    ensures Execute(k, s, first + second).Some? && Faultless(k, s, first) && Faultless(k, Execute(k, s, first).value, second)
        ==> Faultless(k, s, first + second)
  {
    hide Apply, Good;
    if second == [] {
      assert first + second == first;
    } else {
      var front := second[..|second| - 1];
      ConcatRun(k, s, first, front);
      assert (first + second)[..|first + second| - 1] == first + front;
    }
  }

  /** From any state: steps without faults after which every call has ended. */
  lemma {:induction false} Finish(k: Config, s: State) returns (more: seq<Move>)
    requires Inv(k, s)
    ensures Execute(k, s, more).Some? && Faultless(k, s, more)
    ensures forall i :: 0 <= i < |k.wanted| ==> Ended(Execute(k, s, more).value.phases[i])
    decreases AllLeft(k, s, |s.phases|)
  {
    hide Apply, Good, WriterOk, TargetOk, StepsLeft, AllLeft;
    if i :| 0 <= i < |s.phases| && !Ended(s.phases[i]) {
      var move := NextStep(k, s, i);
      MoveKeeps(k, s, move);
      var t := Apply(k, s, move).value;
      AllLeftFalls(k, s, t, i, |s.phases|);
      AllLeftPositive(k, s, |s.phases|);
      AllLeftPositive(k, t, |s.phases|);
      var rest := Finish(k, t);
      ConsRun(k, s, move, rest);
      more := [move] + rest;
    } else {
      more := [];
    }
  }

  /** Every run, whatever failed or stopped in it, can be continued until every call has returned, raised or stopped. */
  lemma {:induction false} EveryRunCompletes(k: Config, moves: seq<Move>) returns (all: seq<Move>)
    requires Execute(k, Initial(k), moves).Some?
    ensures moves <= all && Execute(k, Initial(k), all).Some?
    ensures forall i :: 0 <= i < |k.wanted| ==> Ended(Execute(k, Initial(k), all).value.phases[i])
    ensures Faultless(k, Initial(k), moves) ==> Faultless(k, Initial(k), all)
  {
    hide Execute, Faultless, Initial, Inv;
    InitialOk(k);
    assert Sized(k, Initial(k)) by { InvSized(k, Initial(k)); }
    RunKeeps(k, Initial(k), moves);
    var more := Finish(k, Execute(k, Initial(k), moves).value);
    ConcatRun(k, Initial(k), moves, more);
    all := moves + more;
  }

  /** Every race can be run to its end, and then exactly one call has returned. */
  lemma {:induction false} EveryRaceIsWon(k: Config, moves: seq<Move>) returns (all: seq<Move>, w: nat)
    requires Execute(k, Initial(k), moves).Some? && Faultless(k, Initial(k), moves) && k.prior.None? && |k.wanted| >= 1
    ensures moves <= all && Execute(k, Initial(k), all).Some? && Faultless(k, Initial(k), all)
    ensures w < |k.wanted| && Execute(k, Initial(k), all).value.phases[w] == Exited(Succeeded)
    ensures Content(k, Execute(k, Initial(k), all).value) == Some(k.wanted[w])
  {
    assert Sized(k, Initial(k));
    hide Execute, Faultless, Initial;
    all := EveryRunCompletes(k, moves);
    RunRaces(k, all);
    var s := Execute(k, Initial(k), all).value;
    forall i | 0 <= i < |k.wanted| ensures s.phases[i].Exited? {
      assert RacerOk(s, i);
    }
    w := ExactlyOneWins(k, all);
  }

  // ---- every failure occurs where it can ----

  /** When a call can fail at an operation: a write needs data, the directory is opened only after a link. */
  predicate CanFailAt(k: Config, i: nat, op: Operation)
    requires i < |k.wanted|
  {
    match op
    case WriteData => k.wanted[i] != []
    case OpenDirectory => k.prior.None?
    case SyncDirectory => k.prior.None?
    case CloseDirectory => k.prior.None?
    case _ => true
  }

  predicate CarriesOk(k: Config, phase: Phase, i: nat)
    requires i < |k.wanted|
  {
    match phase
    case Closing(pending) => pending.Failed? ==> CanFailAt(k, i, pending.at)
    case Releasing(outcome) => outcome.Failed? ==> CanFailAt(k, i, outcome.at)
    case Unlinking(verdict) => verdict.Failed? ==> CanFailAt(k, i, verdict.at)
    case Exited(result) => result.Failed? ==> CanFailAt(k, i, result.at)
    case _ => true
  }

  lemma {:induction false} MoveCarries(k: Config, s: State, move: Move, i: nat)
    requires Inv(k, s) && Apply(k, s, move).Some? && i < |k.wanted| && CarriesOk(k, s.phases[i], i)
    ensures Sized(k, Apply(k, s, move).value) && CarriesOk(k, Apply(k, s, move).value.phases[i], i)
  {
    ApplySized(k, s, move);
    if move.Step? && move.i == i {
      assert WriterOk(k, s, i);
      if Preparing(s.phases[i]) {
        PrepareCarries(k, s, i, move.ok, move.n);
      } else {
        PublishCarries(k, s, i, move.ok);
      }
    }
  }

  lemma {:induction false} PrepareCarries(k: Config, s: State, i: nat, ok: bool, n: nat)
    requires Sized(k, s) && i < |k.wanted| && Prepare(k, s, i, ok, n).Some? && CarriesOk(k, s.phases[i], i)
    ensures i < |Prepare(k, s, i, ok, n).value.phases| && CarriesOk(k, Prepare(k, s, i, ok, n).value.phases[i], i)
  {
  }

  lemma {:induction false} PublishCarries(k: Config, s: State, i: nat, ok: bool)
    requires Sized(k, s) && TargetOk(k, s) && i < |k.wanted| && WriterOk(k, s, i)
    requires Publish(s, i, ok).Some? && CarriesOk(k, s.phases[i], i)
    ensures i < |Publish(s, i, ok).value.phases| && CarriesOk(k, Publish(s, i, ok).value.phases[i], i)
  {
  }

  lemma {:induction false} RunCarries(k: Config, moves: seq<Move>, i: nat)
    requires Execute(k, Initial(k), moves).Some? && i < |k.wanted|
    ensures CarriesOk(k, Execute(k, Initial(k), moves).value.phases[i], i)
  {
    hide Apply, CarriesOk, WriterOk, TargetOk;
    if moves == [] {
      StartCarries(k, i);
    } else {
      var front := moves[..|moves| - 1];
      InitialOk(k);
      RunKeeps(k, Initial(k), front);
      RunCarries(k, front, i);
      MoveCarries(k, Execute(k, Initial(k), front).value, moves[|moves| - 1], i);
    }
  }

  lemma {:induction false} StartCarries(k: Config, i: nat)
    requires i < |k.wanted|
    ensures CarriesOk(k, Start, i)
  {
  }

  /** Writer `i` alone, `left` steps before its end. */
  predicate Alone(k: Config, s: State, i: nat, left: nat) {
    && Inv(k, s) && i < |s.phases|
    && StepsLeft(k, s.phases[i], i) == left
    && CarriesNothing(s.phases[i])
    && (left >= 5 ==> s.target == if k.prior.Some? then Some(Prior) else None)
  }

  predicate CarriesNothing(phase: Phase) {
    match phase
    case Closing(pending) => pending.Succeeded?
    case Releasing(outcome) => outcome.Succeeded?
    case Unlinking(verdict) => verdict.Succeeded?
    case Exited(result) => result.Succeeded?
    case Stopped => false
    case _ => true
  }

  lemma {:induction false} AloneStep(k: Config, s: State, i: nat, left: nat)
    requires Alone(k, s, i, left) && left >= 1 && (left <= 5 ==> k.prior.None?)
    ensures Apply(k, s, Step(i, true, 1)).Some? && Alone(k, Apply(k, s, Step(i, true, 1)).value, i, left - 1)
  {
    assert WriterOk(k, s, i);
    AloneApplies(k, s, i, left);
    MoveKeeps(k, s, Step(i, true, 1));
  }

  lemma {:induction false} AloneApplies(k: Config, s: State, i: nat, left: nat)
    requires Alone(k, s, i, left) && left >= 1 && (left <= 5 ==> k.prior.None?)
    ensures var t := Apply(k, s, Step(i, true, 1));
            && t.Some? && Sized(k, t.value) && StepsLeft(k, t.value.phases[i], i) == left - 1
            && CarriesNothing(t.value.phases[i]) && (left >= 6 ==> t.value.target == s.target)
  {
    assert WriterOk(k, s, i);
  }

  lemma {:induction false} RunAlone(k: Config, i: nat, left: nat) returns (moves: seq<Move>)
    requires i < |k.wanted| && left <= |k.wanted[i]| + 9 && (left < 5 ==> k.prior.None?)
    ensures Execute(k, Initial(k), moves).Some? && Alone(k, Execute(k, Initial(k), moves).value, i, left)
    decreases |k.wanted[i]| + 9 - left
  {
    if left == |k.wanted[i]| + 9 {
      moves := [];
      InitialOk(k);
    } else {
      hide Apply, Alone, Initial;
      var front := RunAlone(k, i, left + 1);
      var s := Execute(k, Initial(k), front).value;
      AloneStep(k, s, i, left + 1);
      moves := front + [Step(i, true, 1)];
      assert moves[..|moves| - 1] == front;
    }
  }

  /** How many steps before the end to start failing: at the operation itself, for the removal at the link. */
  function LeftAt(k: Config, i: nat, op: Operation): (r: nat)
    requires i < |k.wanted|
  {
    match op
    case MakeTemporary => |k.wanted[i]| + 9
    case ChangeMode => |k.wanted[i]| + 8
    case WriteData => |k.wanted[i]| + 7
    case SyncData => 7
    case CloseData => 6
    case LinkPath => 5
    case OpenDirectory => 4
    case SyncDirectory => 3
    case CloseDirectory => 2
    case UnlinkTemporary => 5
  }

  /** A call can be made to fail at each operation it attempts, alone and with all else going well. */
  lemma {:induction false} FailAlone(k: Config, s: State, i: nat, op: Operation) returns (more: seq<Move>)
    requires i < |k.wanted| && CanFailAt(k, i, op) && Alone(k, s, i, LeftAt(k, i, op))
    ensures Execute(k, s, more).Some? && Execute(k, s, more).value.phases[i] == Exited(Failed(op))
  {
    var fail, go := Step(i, false, 1), Step(i, true, 1);
    AloneFails(k, s, i, op);
    ConsRun(k, s, fail, []);
    more := [fail];
    assert more == [fail] + [];
    var t := Apply(k, s, fail).value;
    if t.phases[i] != Exited(Failed(op)) {
      var next := if op == UnlinkTemporary then fail else go;
      ConsRun(k, t, next, []);
      ConsRun(k, s, fail, [next]);
      more := [fail] + [next];
      assert [next] + [] == [next];
      var u := Apply(k, t, next).value;
      if op == SyncDirectory {
        ConsRun(k, u, go, []);
        ConsRun(k, t, next, [go]);
        ConsRun(k, s, fail, [next] + [go]);
        more := [fail] + ([next] + [go]);
        assert [go] + [] == [go];
      }
    }
  }

  /** What the failing step leaves the writer with. */
  lemma {:induction false} AloneFails(k: Config, s: State, i: nat, op: Operation)
    requires i < |k.wanted| && CanFailAt(k, i, op) && Alone(k, s, i, LeftAt(k, i, op))
    ensures Apply(k, s, Step(i, false, 1)).Some?
    ensures var t := Apply(k, s, Step(i, false, 1)).value;
            && Sized(k, t)
            && t.phases[i] == match op
               case MakeTemporary => Exited(Failed(op))
               case CloseData => Exited(Failed(op))
               case ChangeMode => Closing(Failed(op))
               case WriteData => Closing(Failed(op))
               case SyncData => Closing(Failed(op))
               case SyncDirectory => Releasing(Failed(op))
               case UnlinkTemporary => Unlinking(Failed(LinkPath))
               case _ => Unlinking(Failed(op))
  {
    assert WriterOk(k, s, i);
  }

  /** A call ends by failing at an operation in some run if and only if it attempts that operation at all. */
  lemma {:induction false} FailuresExact(k: Config, i: nat, op: Operation)
    requires i < |k.wanted|
    ensures (exists moves :: FailsAt(k, moves, i, op)) <==> CanFailAt(k, i, op)
  {
    assert Sized(k, Initial(k));
    hide Execute, Initial, Alone;
    forall moves | FailsAt(k, moves, i, op) ensures CanFailAt(k, i, op) {
      RunCarries(k, moves, i);
    }
    if CanFailAt(k, i, op) {
      var front := RunAlone(k, i, LeftAt(k, i, op));
      var more := FailAlone(k, Execute(k, Initial(k), front).value, i, op);
      ConcatRun(k, Initial(k), front, more);
      assert FailsAt(k, front + more, i, op);
    }
  }

  predicate FailsAt(k: Config, moves: seq<Move>, i: nat, op: Operation) {
    i < |k.wanted| && Execute(k, Initial(k), moves).Some? && Execute(k, Initial(k), moves).value.phases[i] == Exited(Failed(op))
  }
}
