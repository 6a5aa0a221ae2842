/**
 What every operation of the client keeps, whatever the outside world does: the journal stays
 bounded, a fatal client stays silent, and a version check restarts the server at most once.
 */
module ClientSafety {
  import opened ClientModel

  datatype Op =
    | Send(kind: Kind, payload: Payload)
    | Ensure
    | Connect
    | Command(commandKind: Kind)
    | CheckServer
    | ResetClient

  /** One public call. */
  function Do(c: Setup, w: World, op: Op): World {
    match op
    case Send(kind, payload) => EnsureCallCommand(c, w, kind, payload).world
    case Ensure => EnsureSession(c, w).0
    case Connect => EnsureConnection(c, w).0
    case Command(kind) => CallCommand(c, w, kind).0
    case CheckServer => CheckVersionOrRestartServer(c, w).0
    case ResetClient => Reset(w)
  }

  function Run(c: Setup, w: World, ops: seq<Op>): World
    decreases |ops|
  {
    if ops == [] then w else Run(c, Do(c, w, ops[0]), ops[1..])
  }

  // ---------------------------------------------------------------------------
  // Nothing is sent once the server is given up
  // ---------------------------------------------------------------------------

  /** A client that has given the server up turns fatal at the latest with the next call that needs the server. */
  lemma BrokenStep(c: Setup, w: World, op: Op)
    requires w.status.Broken() && !op.CheckServer? && !op.ResetClient?
    ensures Do(c, w, op) == w || Do(c, w, op) == w.(status := ServerFatal)
    ensures w.status.ServerFatal? ==> Do(c, w, op) == w
    ensures op.Send? || op.Ensure? || op.Connect? ==> Do(c, w, op).status.ServerFatal?
  {}

  /** Over any run without Reset and without a version check, no request, start or stop is even attempted. */
  lemma {:induction false} BrokenRunIsSilent(c: Setup, w: World, ops: seq<Op>)
    requires w.status.Broken()
    requires forall i | 0 <= i < |ops| :: !ops[i].CheckServer? && !ops[i].ResetClient?
    ensures Run(c, w, ops) == w || Run(c, w, ops) == w.(status := ServerFatal)
    ensures w.status.ServerFatal? ==> Run(c, w, ops) == w
    decreases |ops|
  {
    hide Do;
    if ops != [] {
      BrokenStep(c, w, ops[0]);
      BrokenRunIsSilent(c, Do(c, w, ops[0]), ops[1..]);
    }
  }

  /**
   The second trial of a version check, at tick `i`, does not give the server up: it is answered by
   a server that is not outdated, or finds no server, or loses it, and a server can be started then.
   */
  predicate SecondTrialHolds(c: Setup, i: nat) {
    var tick := c.oracle(i);
    && tick.hasClient
    && if !tick.connected then c.oracle(i + 1).done
       else
         && tick.protocol == 3
         && match tick.fate
            case Delivered => !tick.product.Before(c.version)
            case Lost(_) => c.oracle(i + 1).done
            case _ => false
  }

  /** A client after a server has been replaced, about to try for the second time. */
  lemma SecondTrialFate(c: Setup, w: World)
    requires w.status.ServerInvalidSession?
    ensures var a := CheckVersion(c, w, Input(NoOperation, 0, 0), 1);
            var w' := if a.ok then a.world else EnsureConnection(c, a.world).0;
            !w'.status.ServerFatal? <==> SecondTrialHolds(c, w.clock)
  {
    hide Serve, Less;
  }

  lemma RestartOfFatal(c: Setup, w: World)
    requires w.status.ServerFatal?
    ensures var (w', restarted) := Restart(c, w, false);
            && (restarted <==> c.oracle(w.clock).done && c.oracle(w.clock + 2).done)
            && (restarted ==> w'.status.ServerInvalidSession? && w'.clock == w.clock + 3)
            && (!restarted ==> w'.status.Broken())
  {}

  /**
   SERVER_FATAL is not for ever: a version check revives a fatal client if and only if the protocol
   version it last saw is too old, the old server can be ended, a new one started, and the second
   trial does not give that one up.
   */
  lemma FatalRevived(c: Setup, w: World)
    requires w.status.ServerFatal?
    ensures !CheckVersionOrRestartServer(c, w).0.status.ServerFatal?
       <==> w.protocol < 3 && c.oracle(w.clock).done && c.oracle(w.clock + 2).done
            && SecondTrialHolds(c, w.clock + 3)
  {
    hide Restart, SecondTrialHolds, Serve, Less;
    RestartOfFatal(c, w);
    var (r, restarted) := Restart(c, w, false);
    if restarted {
      SecondTrialFate(c, r);
    }
  }

  /** It sends, starts and stops nothing for a fatal client if and only if that version is not too old. */
  lemma FatalSilentIff(c: Setup, w: World)
    requires w.status.ServerFatal?
    ensures CheckVersionOrRestartServer(c, w).0.log == w.log <==> w.protocol >= 3
    ensures w.protocol >= 3 ==> CheckVersionOrRestartServer(c, w) == (w, false)
  {
    hide Serve, Less, Restart;
    var input := Input(NoOperation, 0, 0);
    if w.protocol < 3 {
      RestartOfFatalLogs(c, w);
      var r := Restart(c, w, false).0;
      CheckVersionLogs(c, r, input, 1);
      ConnectionLogs(c, CheckVersion(c, w, input, 0).world);
    }
  }

  /** The end of the old server is attempted in any case. */
  lemma RestartOfFatalLogs(c: Setup, w: World)
    requires w.status.ServerFatal?
    ensures |Restart(c, w, false).0.log| > |w.log|
  {}

  lemma CheckVersionLogs(c: Setup, w: World, input: Input, trial: nat)
    requires trial >= 1
    ensures |CheckVersion(c, w, input, trial).world.log| >= |w.log|
  {
    hide Call;
    CallLogs(c, w, input);
  }

  // ---------------------------------------------------------------------------
  // Sessions and the journal
  // ---------------------------------------------------------------------------

  lemma EnsuredIsOk(c: Setup, w: World)
    ensures EnsureSession(c, w).1 ==> EnsureSession(c, w).0.status.ServerOk?
  {}

  /** Journal and session id stay, session numbers are not given again, and only EnsureSession makes a session good. */
  predicate Kept(w: World, w': World) {
    && w'.history == w.history && w'.id == w.id && w.server.nextId <= w'.server.nextId
    && (!w.status.ServerOk? ==> !w'.status.ServerOk?)
  }

  lemma CallKeeps(c: Setup, w: World, input: Input)
    ensures Kept(w, Call(c, w, input).world)
  {}

  lemma ConnectionKeeps(c: Setup, w: World)
    ensures Kept(w, EnsureConnection(c, w).0)
    ensures !EnsureConnection(c, w).1 ==> EnsureConnection(c, w).0.status.ServerFatal?
  {}

  lemma RestartKeeps(c: Setup, w: World, polite: bool)
    ensures Kept(w, Restart(c, w, polite).0)
    ensures !Restart(c, w, polite).0.status.ServerOk?
  {
    hide Call, EnsureConnection;
    CallKeeps(c, w, Input(Shutdown, w.id, 0));
    forall v: World
      ensures Kept(v, EnsureConnection(c, v).0)
    {
      ConnectionKeeps(c, v);
    }
  }

  lemma CheckVersionKeeps(c: Setup, w: World, input: Input, trial: nat)
    ensures Kept(w, CheckVersion(c, w, input, trial).world)
    decreases 2 - trial
  {
    hide Call, Restart;
    if trial < 2 {
      var a := Call(c, w, input);
      CallKeeps(c, w, input);
      RestartKeeps(c, a.world, a.ok && a.world.product.Before(c.version));
      if trial == 0 {
        CheckVersionKeeps(c, Restart(c, a.world, a.ok && a.world.product.Before(c.version)).0, input, 1);
      }
    }
  }

  lemma EnsureSessionKeepsJournal(c: Setup, w: World)
    ensures var (w', ensured) := EnsureSession(c, w);
            && w'.history == w.history && w.server.nextId <= w'.server.nextId
            && (!ensured ==> !w'.status.ServerOk?)
  {
    hide Call, CheckVersion, EnsureConnection;
    var w1 := EnsureConnection(c, w).0;
    ConnectionKeeps(c, w);
    CheckVersionKeeps(c, w1.(id := 0), Input(CreateSession, 0, 0), 0);
    var w2 := CreateNewSession(c, w1).0;
    ConnectionKeeps(c, w2);
    if c.request.Some? {
      CallKeeps(c, w2, Input(SetRequest, w2.id, c.request.value));
    }
  }

  lemma {:induction false} PlaybackKeepsLength(c: Setup, w: World, i: nat)
    requires i <= |w.history|
    ensures |Playback(c, w, i).history| == |w.history|
    decreases |w.history| - i
  {
    hide Call;
    if i < |w.history| {
      var input := w.history[i].(id := w.id);
      var updated := w.(history := w.history[i := input]);
      CallKeeps(c, updated, input);
      if Call(c, updated, input).ok {
        PlaybackKeepsLength(c, Call(c, updated, input).world, i + 1);
      }
    }
  }

  lemma SecondTrialBounded(c: Setup, w: World, kind: Kind, payload: Payload)
    requires |w.history| <= 512
    ensures |SecondTrial(c, w, kind, payload).world.history| <= 512
  {
    hide Call, EnsureSession, Playback;
    EnsureSessionKeepsJournal(c, w);
    var w1 := EnsureSession(c, w).0;
    PlaybackKeepsLength(c, w1, 0);
    var w2 := PlaybackHistory(c, w1);
    CallKeeps(c, w2, Input(kind, w2.id, payload));
  }

  /** The journal never exceeds 512 entries, whatever is called and whatever goes wrong. */
  lemma JournalStep(c: Setup, w: World, op: Op)
    requires |w.history| <= 512
    ensures |Do(c, w, op).history| <= 512
  {
    hide Call, EnsureSession, CheckVersion, EnsureConnection, SecondTrial;
    EnsureSessionKeepsJournal(c, w);
    ConnectionKeeps(c, w);
    match op
    case Send(kind, payload) =>
      var w1 := EnsureSession(c, w).0;
      CallKeeps(c, w1, Input(kind, w1.id, payload));
      SecondTrialBounded(c, FirstTrial(c, w1, Input(kind, w1.id, payload)).world, kind, payload);
    case Command(kind) => CallKeeps(c, w, Input(kind, w.id, 0));
    case CheckServer =>
      CheckVersionKeeps(c, w, Input(NoOperation, 0, 0), 0);
      ConnectionKeeps(c, CheckVersion(c, w, Input(NoOperation, 0, 0), 0).world);
    case _ =>
  }

  lemma {:induction false} JournalBounded(c: Setup, server: Server, ops: seq<Op>)
    ensures |Run(c, Start(server), ops).history| <= 512
  {
    JournalRun(c, Start(server), ops);
  }

  lemma {:induction false} JournalRun(c: Setup, w: World, ops: seq<Op>)
    requires |w.history| <= 512
    ensures |Run(c, w, ops).history| <= 512
    decreases |ops|
  {
    hide Do;
    if ops != [] {
      JournalStep(c, w, ops[0]);
      JournalRun(c, Do(c, w, ops[0]), ops[1..]);
    }
  }

  // ---------------------------------------------------------------------------
  // The version check
  // ---------------------------------------------------------------------------

  /** How often an event occurs in a log. */
  function Count(log: seq<Event>, e: Event): nat {
    if log == [] then 0 else Count(log[..|log| - 1], e) + if log[|log| - 1] == e then 1 else 0
  }

  lemma CountOne(log: seq<Event>, last: Event, e: Event)
    ensures Count(log + [last], e) == Count(log, e) + if last == e then 1 else 0
  {
    assert (log + [last])[..|log|] == log;
  }

  /** A call hands its request to the server at most once, and only then can it succeed. */
  lemma CallLogs(c: Setup, w: World, input: Input)
    ensures var a := Call(c, w, input);
            && (a.world.log == w.log || a.world.log == w.log + [Issued(input)])
            && (a.ok ==> a.world.log == w.log + [Issued(input)] && a.world.protocol == 3)
  {
    hide Serve;
  }

  lemma ConnectionLogs(c: Setup, w: World)
    ensures var w' := EnsureConnection(c, w).0; w'.log == w.log || w'.log == w.log + [Started]
  {}

  /** A restart starts the server at most once and issues nothing but a SHUTDOWN. */
  lemma RestartLogs(c: Setup, w: World, polite: bool, input: Input)
    ensures var w' := Restart(c, w, polite).0;
            && Count(w'.log, Started) <= Count(w.log, Started) + 1
            && Count(w'.log, Issued(input)) <= Count(w.log, Issued(input)) + if input.kind.Shutdown? then 1 else 0
  {
    hide Call, EnsureConnection, Count;
    var request := Input(Shutdown, w.id, 0);
    CallLogs(c, w, request);
    CountOne(w.log, Issued(request), Started);
    CountOne(w.log, Issued(request), Issued(input));
    var (w1, stopped) := if polite then ShutdownServer(c, w) else (w, false);
    CountOne(w1.log, Terminated, Started);
    CountOne(w1.log, Terminated, Issued(input));
    var (w2, going) := if stopped then (w1, true) else ForceTerminate(c, w1);
    ConnectionLogs(c, w2.(status := ServerUnknown));
    CountOne(w2.log, Started, Started);
    CountOne(w2.log, Started, Issued(input));
  }

  /**
   Whatever versions servers report and however calls end, the request is issued at most twice and
   the server started at most once. Success means that the last thing that happened was the
   request, answered by a server whose protocol is ours and whose version is not older.
   */
  lemma CheckVersionOnce(c: Setup, w: World, input: Input, trial: nat)
    requires trial <= 1 && !input.kind.Shutdown?
    ensures var a := CheckVersion(c, w, input, trial);
            && Count(a.world.log, Issued(input)) <= Count(w.log, Issued(input)) + 2 - trial
            && Count(a.world.log, Started) <= Count(w.log, Started) + 1 - trial
            && (a.ok ==>
                  && a.world.log != [] && a.world.log[|a.world.log| - 1] == Issued(input)
                  && a.world.protocol == 3 && !a.world.product.Before(c.version))
    decreases 2 - trial
  {
    hide Call, Restart, Count;
    var a := Call(c, w, input);
    CallLogs(c, w, input);
    CountOne(w.log, Issued(input), Issued(input));
    CountOne(w.log, Issued(input), Started);
    var polite := a.ok && a.world.product.Before(c.version);
    RestartLogs(c, a.world, polite, input);
    if trial == 0 {
      CheckVersionOnce(c, Restart(c, a.world, polite).0, input, 1);
    }
  }
}
