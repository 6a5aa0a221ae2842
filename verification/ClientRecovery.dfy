/**
 Crash recovery: what a user sees is a single session that never crashes, and every input the
 client has acknowledged is in it exactly once.
 */
module ClientRecovery {
  import opened ClientModel
  import opened ClientSafety
  import opened Options

  /** The state a new session has when the client starts to use it. */
  function Base(c: Setup): Session {
    match c.request
    case None => c.logic.initial
    case Some(r) => c.logic.step(c.logic.initial, SetRequest, r).0
  }

  /** The state after the journal is played into a session in state `s`. */
  function Replay(logic: Logic, s: Session, history: seq<Input>): Session {
    if history == [] then s
    else
      var last := history[|history| - 1];
      logic.step(Replay(logic, s, history[..|history| - 1]), last.kind, last.payload).0
  }

  /** What the journal relies on: unconsumed inputs change nothing, a committing key ends the context. */
  ghost predicate Laws(c: Setup) {
    && (forall s, k: Kind, p | k.ForSession() && !c.logic.step(s, k, p).1.consumed :: c.logic.step(s, k, p).0 == s)
    && (forall s, p | c.logic.step(s, SendKey, p).1.consumed && c.logic.step(s, SendKey, p).1.hasResult ::
          c.logic.step(s, SendKey, p).0 == Base(c))
  }

  predicate ForSessions(history: seq<Input>) {
    forall i | 0 <= i < |history| :: history[i].kind.ForSession()
  }

  /** Equal but for the session ids, which playing back overwrites. */
  predicate SameJournal(h: seq<Input>, g: seq<Input>) {
    |h| == |g| && forall i | 0 <= i < |h| :: h[i].kind == g[i].kind && h[i].payload == g[i].payload
  }

  /** `ideal` is the state of a session that has received every acknowledged input and nothing else. */
  ghost predicate Healthy(c: Setup, w: World, ideal: Session) {
    && |w.history| <= 512 && ForSessions(w.history) && w.server.nextId >= 1
    && (w.status.ServerOk? ==>
          && w.id >= 1
          && (w.id in w.server.sessions ==> w.server.sessions[w.id] == ideal)
          && (|w.history| < 512 ==> Replay(c.logic, Base(c), w.history) == ideal))
    && (w.status.ServerUnknown? || w.status.ServerShutdown? || w.status.ServerInvalidSession? ==>
          w.history == [] && ideal == Base(c))
  }

  // ---------------------------------------------------------------------------
  // Time only moves forward
  // ---------------------------------------------------------------------------

  lemma CallClock(c: Setup, w: World, input: Input)
    ensures w.clock <= Call(c, w, input).world.clock <= w.clock + 1
  {
    hide Serve;
  }

  lemma ConnectionClock(c: Setup, w: World)
    ensures w.clock <= EnsureConnection(c, w).0.clock
  {}

  lemma RestartClock(c: Setup, w: World, polite: bool)
    ensures w.clock <= Restart(c, w, polite).0.clock
  {
    hide Call, EnsureConnection;
    CallClock(c, w, Input(Shutdown, w.id, 0));
    forall v: World
      ensures v.clock <= EnsureConnection(c, v).0.clock
    {
      ConnectionClock(c, v);
    }
  }

  lemma CheckVersionClock(c: Setup, w: World, input: Input, trial: nat)
    ensures w.clock <= CheckVersion(c, w, input, trial).world.clock
    decreases 2 - trial
  {
    hide Call, Restart;
    if trial < 2 {
      var a := Call(c, w, input);
      var polite := a.ok && a.world.product.Before(c.version);
      CallClock(c, w, input);
      RestartClock(c, a.world, polite);
      if trial == 0 {
        CheckVersionClock(c, Restart(c, a.world, polite).0, input, 1);
      }
    }
  }

  lemma SendRequestClock(c: Setup, w: World)
    ensures w.clock <= SendRequest(c, w).clock
  {
    hide Call;
    if c.request.Some? {
      CallClock(c, w, Input(SetRequest, w.id, c.request.value));
    }
  }

  lemma EnsureSessionClock(c: Setup, w: World)
    ensures w.clock <= EnsureSession(c, w).0.clock
    ensures var (w1, connected) := EnsureConnection(c, w);
            connected && !w1.status.ServerOk? ==>
              && w1.clock <= CreateNewSession(c, w1).0.clock
              && CreateNewSession(c, w1).0.clock <= EnsureSession(c, w).0.clock
  {
    hide Call, CheckVersion, EnsureConnection, SendRequest;
    ConnectionClock(c, w);
    var w1 := EnsureConnection(c, w).0;
    CheckVersionClock(c, w1.(id := 0), Input(CreateSession, 0, 0), 0);
    var w2 := CreateNewSession(c, w1).0;
    ConnectionClock(c, w2);
    SendRequestClock(c, w2);
  }

  lemma {:induction false} PlaybackClock(c: Setup, w: World, i: nat)
    requires i <= |w.history|
    ensures w.clock <= Playback(c, w, i).clock
    decreases |w.history| - i
  {
    hide Call;
    if i < |w.history| {
      var input := w.history[i].(id := w.id);
      var updated := w.(history := w.history[i := input]);
      CallKeeps(c, updated, input);
      CallClock(c, updated, input);
      if Call(c, updated, input).ok {
        PlaybackClock(c, Call(c, updated, input).world, i + 1);
      }
    }
  }

  // ---------------------------------------------------------------------------
  // A good session
  // ---------------------------------------------------------------------------

  /** The request reaches the server and is executed there, whatever becomes of the answer. */
  predicate Executes(tick: Tick) {
    && !tick.forgotten && tick.hasClient && tick.connected && tick.protocol == 3
    && match tick.fate
       case Lost(executed) => executed
       case TimedOut(executed) => executed
       case _ => true
  }

  /** The request is executed and its answer arrives. */
  predicate Answers(tick: Tick) {
    Executes(tick) && tick.fate.Delivered?
  }

  ghost predicate AnsweredFrom(c: Setup, from: nat, to: nat) {
    forall i | from <= i < to :: Answers(c.oracle(i))
  }

  lemma AttemptTakesTime(c: Setup, w: World, input: Input)
    requires !w.status.Broken()
    ensures Call(c, w, input).world.clock == w.clock + 1
  {
    hide Serve;
  }

  lemma ExecutedCall(c: Setup, w: World, input: Input)
    requires !w.status.Broken() && Executes(c.oracle(w.clock)) && !input.kind.CreateSession?
    ensures Call(c, w, input).world.server == Serve(c.logic, w.server, input, false).0
  {}

  lemma AnsweredCall(c: Setup, w: World, input: Input)
    requires !w.status.Broken() && Answers(c.oracle(w.clock)) && !input.kind.CreateSession?
    ensures var a := Call(c, w, input); var (server, output) := Serve(c.logic, w.server, input, false);
            && a.ok && a.output == output && a.world.server == server && a.world.clock == w.clock + 1
            && a.world.status == w.status && a.world.id == w.id && a.world.history == w.history
            && a.world.protocol == 3
  {}

  /** A session just made. */
  predicate Made(c: Setup, server: Server, id: nat) {
    id >= 1 && server.nextId >= 1 && id in server.sessions && server.sessions[id] == c.logic.initial
  }

  lemma CallCreates(c: Setup, w: World)
    requires w.server.nextId >= 1
    ensures var a := Call(c, w, Input(CreateSession, 0, 0));
            a.ok ==> !a.world.status.Broken() && (a.output.success ==> Made(c, a.world.server, a.output.id))
  {}

  /** A CREATE_SESSION that succeeds has made a session, whether or not the server had to be replaced for it. */
  lemma CheckVersionCreates(c: Setup, w: World, trial: nat)
    requires w.server.nextId >= 1
    ensures var a := CheckVersion(c, w, Input(CreateSession, 0, 0), trial);
            a.ok ==> !a.world.status.Broken() && (a.output.success ==> Made(c, a.world.server, a.output.id))
    decreases 2 - trial
  {
    hide Call, Restart, Made;
    if trial < 2 {
      var input := Input(CreateSession, 0, 0);
      var a := Call(c, w, input);
      CallCreates(c, w);
      CallKeeps(c, w, input);
      var polite := a.ok && a.world.product.Before(c.version);
      RestartKeeps(c, a.world, polite);
      if trial == 0 {
        CheckVersionCreates(c, Restart(c, a.world, polite).0, 1);
      }
    }
  }

  /** When EnsureSession sends SET_REQUEST, if it does. */
  function RequestClock(c: Setup, w: World): nat {
    CreateNewSession(c, EnsureConnection(c, w).0).0.clock
  }

  /** Unless the session exists already, or there is none in the end, its SET_REQUEST is executed. */
  predicate RequestTaken(c: Setup, w: World) {
    EnsureSession(c, w).1 && !w.status.ServerOk? && c.request.Some? ==> Executes(c.oracle(RequestClock(c, w)))
  }

  /** A session in its base state, ready for use. */
  ghost predicate Fresh(c: Setup, w: World) {
    && w.status.ServerOk? && w.id >= 1 && w.server.nextId >= 1
    && w.id in w.server.sessions && w.server.sessions[w.id] == Base(c)
  }

  lemma RequestServed(c: Setup, w: World)
    requires !w.status.Broken() && Made(c, w.server, w.id)
    requires c.request.Some? ==> Executes(c.oracle(w.clock))
    ensures var w' := SendRequest(c, w);
            && w'.id == w.id >= 1 && w'.server.nextId >= 1
            && w'.id in w'.server.sessions && w'.server.sessions[w'.id] == Base(c)
  {
    hide Call;
    if c.request.Some? {
      var input := Input(SetRequest, w.id, c.request.value);
      CallKeeps(c, w, input);
      ExecutedCall(c, w, input);
    }
  }

  /** When EnsureSession makes a session, through whatever restarts, that session is fresh and the journal is kept. */
  lemma EnsureMakesFresh(c: Setup, w: World)
    requires EnsureSession(c, w).1 && !w.status.ServerOk? && w.server.nextId >= 1 && RequestTaken(c, w)
    ensures Fresh(c, EnsureSession(c, w).0) && EnsureSession(c, w).0.history == w.history
  {
    hide CheckVersion, SendRequest, EnsureConnection, Made, Base, Executes;
    EnsureSessionKeepsJournal(c, w);
    ConnectionKeeps(c, w);
    var w1 := EnsureConnection(c, w).0;
    CheckVersionCreates(c, w1.(id := 0), 0);
    var w2 := CreateNewSession(c, w1).0;
    assert !w1.status.ServerOk? && CreateNewSession(c, w1).1 && Made(c, w2.server, w2.id);
    RequestServed(c, w2);
    assert EnsureSession(c, w).0 == SendRequest(c, w2).(status := ServerOk);
  }

  // ---------------------------------------------------------------------------
  // The journal
  // ---------------------------------------------------------------------------

  lemma {:induction false} ReplaySame(logic: Logic, s: Session, h: seq<Input>, g: seq<Input>)
    requires SameJournal(h, g)
    ensures Replay(logic, s, h) == Replay(logic, s, g)
    decreases |h|
  {
    if h != [] {
      ReplaySame(logic, s, h[..|h| - 1], g[..|g| - 1]);
    }
  }

  lemma ReplayOneMore(logic: Logic, s: Session, h: seq<Input>, input: Input)
    ensures Replay(logic, s, h + [input]) == logic.step(Replay(logic, s, h), input.kind, input.payload).0
  {
    assert (h + [input])[..|h|] == h;
  }

  /** The session of the client is there, in state `s`. */
  predicate Alive(w: World, s: Session) {
    w.id >= 1 && w.server.nextId >= 1 && w.id in w.server.sessions && w.server.sessions[w.id] == s
  }

  /** An input for the session that is executed, and one that is also answered. */
  lemma SessionCall(c: Setup, w: World, kind: Kind, payload: Payload, s: Session)
    requires !w.status.Broken() && Executes(c.oracle(w.clock)) && kind.ForSession() && Alive(w, s)
    ensures var a := Call(c, w, Input(kind, w.id, payload)); var (next, reply) := c.logic.step(s, kind, payload);
            && a.world.id == w.id && a.world.history == w.history && Alive(a.world, next)
            && (Answers(c.oracle(w.clock)) ==>
                  a.ok && a.output == Output(w.id, true, reply) && a.world.status == w.status
                  && a.world.protocol == 3)
  {
    hide Call;
    var input := Input(kind, w.id, payload);
    CallKeeps(c, w, input);
    ExecutedCall(c, w, input);
    if Answers(c.oracle(w.clock)) {
      AnsweredCall(c, w, input);
    }
  }

  /** An input that is not executed leaves the session as it is. */
  lemma UnexecutedCall(c: Setup, w: World, input: Input)
    requires !c.oracle(w.clock).forgotten && !Executes(c.oracle(w.clock))
    ensures var a := Call(c, w, input); !a.ok && a.world.server == w.server
  {
    hide Serve;
  }

  lemma AnsweredKeepsStatus(c: Setup, w: World, input: Input)
    ensures Call(c, w, input).ok ==>
              Call(c, w, input).world.status == w.status && !w.status.Broken() && c.oracle(w.clock).fate.Delivered?
  {
    hide Serve;
  }

  /** The journal with the session id that playing back has put into entry `i`. */
  function Readdressed(w: World, i: nat): World
    requires i < |w.history|
  {
    w.(history := w.history[i := w.history[i].(id := w.id)])
  }

  /** The call that plays entry `i` back. */
  function EntryCall(c: Setup, w: World, i: nat): Answer
    requires i < |w.history|
  {
    Call(c, Readdressed(w, i), w.history[i].(id := w.id))
  }

  lemma EntryCallMeans(c: Setup, w: World, i: nat, s: Session)
    requires i < |w.history| && w.history[i].kind.ForSession() && !w.status.Broken() && Alive(w, s)
    requires !c.oracle(w.clock).forgotten
    ensures var a := EntryCall(c, w, i); var tick := c.oracle(w.clock); var entry := w.history[i];
            && a.world.history == w.history[i := entry.(id := w.id)] && a.world.id == w.id && a.world.clock == w.clock + 1
            && Alive(a.world, if Executes(tick) then c.logic.step(s, entry.kind, entry.payload).0 else s)
            && (a.ok ==> Executes(tick) && a.world.status == w.status)
            && (Answers(tick) ==> a.ok)
  {
    hide Call, Executes;
    var entry, updated := w.history[i], Readdressed(w, i);
    var input := entry.(id := w.id);
    CallKeeps(c, updated, input);
    AttemptTakesTime(c, updated, input);
    AnsweredKeepsStatus(c, updated, input);
    if Executes(c.oracle(w.clock)) {
      SessionCall(c, updated, entry.kind, entry.payload, s);
    } else {
      UnexecutedCall(c, updated, input);
    }
  }

  /** How many entries of the journal are executed, when it is played back from entry `i` on. */
  function Executed(c: Setup, w: World, i: nat): nat
    requires i <= |w.history|
    decreases |w.history| - i
  {
    if i == |w.history| then i
    else
      var a := EntryCall(c, w, i);
      if a.ok then Executed(c, a.world, i + 1)
      else if !w.status.Broken() && Executes(c.oracle(w.clock)) then i + 1 else i
  }

  ghost predicate NothingForgotten(c: Setup, from: nat, to: nat) {
    forall i | from <= i < to :: !c.oracle(i).forgotten
  }

  lemma AnsweredForgetsNothing(c: Setup, from: nat, to: nat)
    requires AnsweredFrom(c, from, to)
    ensures NothingForgotten(c, from, to)
  {
    forall i | from <= i < to
      ensures !c.oracle(i).forgotten
    {
      assert Answers(c.oracle(i));
    }
  }

  /**
   However far playing the journal back from entry `i` on gets, it brings the session to the state
   that the executed entries denote, and it gets to the end when every entry is answered.
   */
  lemma {:induction false} PlaybackReplays(c: Setup, w: World, i: nat)
    requires i <= |w.history| && ForSessions(w.history) && !w.status.Broken()
    requires Alive(w, Replay(c.logic, Base(c), w.history[..i]))
    requires NothingForgotten(c, w.clock, Playback(c, w, i).clock)
    ensures var w' := Playback(c, w, i); var n := Executed(c, w, i);
            && w'.id == w.id && SameJournal(w'.history, w.history) && n <= |w.history|
            && Alive(w', Replay(c.logic, Base(c), w.history[..n]))
            && (AnsweredFrom(c, w.clock, w'.clock) ==> n == |w.history| && w'.status == w.status)
    decreases |w.history| - i
  {
    hide Call, Alive, Base, Executes, Replay;
    if i < |w.history| {
      var s, a := Replay(c.logic, Base(c), w.history[..i]), EntryCall(c, w, i);
      PlaybackTakesTime(c, w, i);
      EntryCallMeans(c, w, i, s);
      OneEntryMore(c, w, i, a.world.history);
      if a.ok {
        PlaybackReplays(c, a.world, i + 1);
        var n := Executed(c, a.world, i + 1);
        ReplaySame(c.logic, Base(c), a.world.history[..n], w.history[..n]);
      }
    }
  }

  lemma OneEntryMore(c: Setup, w: World, i: nat, h: seq<Input>)
    requires i < |w.history| && h == w.history[i := w.history[i].(id := w.id)]
    ensures SameJournal(h, w.history) && (ForSessions(w.history) ==> ForSessions(h))
    ensures var s := Replay(c.logic, Base(c), w.history[..i]); var entry := w.history[i];
            var next := c.logic.step(s, entry.kind, entry.payload).0;
            Replay(c.logic, Base(c), h[..i + 1]) == next && Replay(c.logic, Base(c), w.history[..i + 1]) == next
  {
    hide Base;
    assert w.history[..i + 1] == w.history[..i] + [w.history[i]];
    ReplayOneMore(c.logic, Base(c), w.history[..i], w.history[i]);
    ReplaySame(c.logic, Base(c), h[..i + 1], w.history[..i + 1]);
  }

  lemma PlaybackTakesTime(c: Setup, w: World, i: nat)
    requires i < |w.history| && !w.status.Broken()
    ensures w.clock < Playback(c, w, i).clock
  {
    hide Call;
    var input := w.history[i].(id := w.id);
    var updated := w.(history := w.history[i := input]);
    AttemptTakesTime(c, updated, input);
    CallKeeps(c, updated, input);
    if Call(c, updated, input).ok {
      PlaybackClock(c, Call(c, updated, input).world, i + 1);
    }
  }

  // ---------------------------------------------------------------------------
  // One Send
  // ---------------------------------------------------------------------------

  /** What a journal and the ideal session become when an input is acknowledged. */
  lemma PushKeepsReplay(c: Setup, h: seq<Input>, input: Input, ideal: Session)
    requires Laws(c) && ForSessions(h) && input.kind.ForSession() && |h| <= 512
    requires |h| < 512 ==> Replay(c.logic, Base(c), h) == ideal
    ensures var (next, reply) := c.logic.step(ideal, input.kind, input.payload);
            var g := PushHistory(h, input, Output(input.id, true, reply));
            && |g| <= 512 && ForSessions(g)
            && (|g| < 512 ==> Replay(c.logic, Base(c), g) == next)
  {
    ReplayOneMore(c.logic, Base(c), h, input);
  }

  /** The answer to an input that reached a healthy session. */
  ghost predicate Served(c: Setup, ideal: Session, kind: Kind, payload: Payload, a: Answer) {
    var (next, reply) := c.logic.step(ideal, kind, payload);
    a.ok && a.world.status.ServerOk? && Healthy(c, a.world, next) && a.output == Output(a.world.id, true, reply)
  }

  lemma FinishServed(c: Setup, w: World, kind: Kind, payload: Payload, ideal: Session, history: seq<Input>)
    requires w.status.ServerOk? && w.history == history && w.id >= 1 && w.server.nextId >= 1
    requires var (next, reply) := c.logic.step(ideal, kind, payload);
             var g := PushHistory(history, Input(kind, w.id, payload), Output(w.id, true, reply));
             && (w.id in w.server.sessions ==> w.server.sessions[w.id] == next)
             && |g| <= 512 && ForSessions(g)
             && (|g| < 512 ==> Replay(c.logic, Base(c), g) == next)
    ensures var reply := c.logic.step(ideal, kind, payload).1;
            Served(c, ideal, kind, payload, Finish(w, Input(kind, w.id, payload), Output(w.id, true, reply)))
  {}

  /**
   Recovery does not fail: there is a session again, by whatever way, and then every entry of the
   journal and the input itself are answered.
   */
  ghost predicate RecoveryWorks(c: Setup, w: World, kind: Kind, payload: Payload) {
    && EnsureSession(c, w).1 && RequestTaken(c, w)
    && AnsweredFrom(c, EnsureSession(c, w).0.clock, SecondTrial(c, w, kind, payload).world.clock)
  }

  /** Recovery that works delivers the input to a session in the ideal state. */
  lemma RecoveryServes(c: Setup, w: World, kind: Kind, payload: Payload, ideal: Session)
    requires Laws(c) && kind.ForSession() && w.server.nextId >= 1
    requires w.status.ServerShutdown? || w.status.ServerInvalidSession?
    requires ForSessions(w.history) && |w.history| < 512 && Replay(c.logic, Base(c), w.history) == ideal
    requires RecoveryWorks(c, w, kind, payload)
    ensures Served(c, ideal, kind, payload, SecondTrial(c, w, kind, payload))
  {
    hide Call, Playback, Laws, Served, Base, EnsureSession, Executes, RequestTaken;
    SecondTrialClock(c, w, kind, payload);
    EnsureMakesFresh(c, w);
    var w1 := EnsureSession(c, w).0;
    PlaybackClock(c, w1, 0);
    assert w1.history[..0] == [] && w1.history[..|w1.history|] == w1.history;
    AnsweredForgetsNothing(c, w1.clock, Playback(c, w1, 0).clock);
    PlaybackReplays(c, w1, 0);
    var w2 := Playback(c, w1, 0);
    var input := Input(kind, w2.id, payload);
    ReplaySame(c.logic, Base(c), w2.history, w.history);
    SessionCall(c, w2, kind, payload, ideal);
    PushKeepsReplay(c, w2.history, input, ideal);
    FinishServed(c, Call(c, w2, input).world, kind, payload, ideal, w2.history);
  }

  lemma SecondTrialClock(c: Setup, w: World, kind: Kind, payload: Payload)
    ensures EnsureSession(c, w).0.clock <= SecondTrial(c, w, kind, payload).world.clock
    ensures EnsureSession(c, w).1 && |EnsureSession(c, w).0.history| < 512 ==>
              && Playback(c, EnsureSession(c, w).0, 0).clock <= SecondTrial(c, w, kind, payload).world.clock
              && (!Playback(c, EnsureSession(c, w).0, 0).status.Broken() ==>
                    Playback(c, EnsureSession(c, w).0, 0).clock < SecondTrial(c, w, kind, payload).world.clock)
  {
    hide Call, Playback, EnsureSession;
    var (w1, ensured) := EnsureSession(c, w);
    if ensured {
      PlaybackClock(c, w1, 0);
      var w2 := PlaybackHistory(c, w1);
      var input := Input(kind, w2.id, payload);
      CallClock(c, w2, input);
      if !w2.status.Broken() {
        AttemptTakesTime(c, w2, input);
      }
    }
  }

  /** The first attempt either reaches the session, or finds it gone, or gives the server up. */
  lemma FirstTrialCases(c: Setup, w: World, kind: Kind, payload: Payload, ideal: Session)
    requires Healthy(c, w, ideal) && w.status.ServerOk? && kind.ForSession()
    ensures var a := FirstTrial(c, w, Input(kind, w.id, payload)); var w' := a.world;
            var (next, reply) := c.logic.step(ideal, kind, payload);
            && w'.history == w.history && w'.id == w.id && w'.server.nextId >= 1 && w'.clock == w.clock + 1
            && (w'.status.Broken() || w'.status.ServerShutdown? || w'.status.ServerInvalidSession? || w'.status.ServerOk?)
            && (w'.status.ServerOk? ==>
                  && a.ok && a.output == Output(w.id, true, reply)
                  && w.id in w'.server.sessions && w'.server.sessions[w.id] == next)
  {
    hide Replay, Base;
  }

  /** Whether the first attempt of a Send finds its session gone. */
  predicate Recovers(c: Setup, w: World, kind: Kind, payload: Payload) {
    var status := FirstTrial(c, w, Input(kind, w.id, payload)).world.status;
    status.ServerShutdown? || status.ServerInvalidSession?
  }

  /** If recovery is called for, the journal is not full and recovery does not fail. */
  ghost predicate Recoverable(c: Setup, w: World, kind: Kind, payload: Payload) {
    Recovers(c, w, kind, payload) ==>
      && |w.history| < 512
      && RecoveryWorks(c, FirstTrial(c, w, Input(kind, w.id, payload)).world, kind, payload)
  }

  /** A Send on an established session. */
  lemma SendFromOk(c: Setup, w: World, kind: Kind, payload: Payload, ideal: Session)
    requires Laws(c) && Healthy(c, w, ideal) && w.status.ServerOk? && kind.ForSession()
    requires Recoverable(c, w, kind, payload)
    ensures var a := EnsureCallCommand(c, w, kind, payload);
            if FirstTrial(c, w, Input(kind, w.id, payload)).world.status.Broken()
            then !a.ok && a.world.status.Broken() && Healthy(c, a.world, ideal)
            else Served(c, ideal, kind, payload, a)
  {
    hide FirstTrial, SecondTrial, Laws, Base, Served, RecoveryWorks;
    FirstTrialCases(c, w, kind, payload, ideal);
    var input := Input(kind, w.id, payload);
    var a := FirstTrial(c, w, input);
    if a.world.status.Broken() {
    } else if a.world.status.ServerOk? {
      PushKeepsReplay(c, w.history, input, ideal);
      FinishServed(c, a.world, kind, payload, ideal, w.history);
    } else {
      RecoveryServes(c, a.world, kind, payload, ideal);
    }
  }

  /**
   What a Send needs: when it has to make a session first, its SET_REQUEST is executed, and when it
   has to recover one, recovery does not fail. Nothing is asked of a Send that gets no session.
   */
  ghost predicate Sound(c: Setup, w: World, kind: Kind, payload: Payload) {
    && RequestTaken(c, w)
    && (EnsureSession(c, w).1 ==> Recoverable(c, EnsureSession(c, w).0, kind, payload))
  }

  /**
   One Send of a run. Acknowledged, it was answered by, and is in, the ideal session; otherwise the
   ideal session has not seen it. The client is healthy afterwards in both cases.
   */
  lemma SendStep(c: Setup, w: World, kind: Kind, payload: Payload, ideal: Session)
    requires Laws(c) && Healthy(c, w, ideal) && kind.ForSession() && Sound(c, w, kind, payload)
    ensures var a := EnsureCallCommand(c, w, kind, payload);
            if a.ok then Served(c, ideal, kind, payload, a) else Healthy(c, a.world, ideal)
  {
    hide FirstTrial, SecondTrial, Laws, Served, Recoverable, RequestTaken, EnsureSession, Replay;
    var (w1, ensured) := EnsureSession(c, w);
    if ensured {
      EstablishedIsHealthy(c, w, ideal);
      EnsuredIsOk(c, w);
      EnsureWhenOk(c, w);
      EnsureWhenOk(c, w1);
      SendFromOk(c, w1, kind, payload, ideal);
      ServedIsOk(c, ideal, kind, payload, EnsureCallCommand(c, w, kind, payload));
    } else {
      NoSessionIsHealthy(c, w, ideal);
    }
  }

  lemma ServedIsOk(c: Setup, ideal: Session, kind: Kind, payload: Payload, a: Answer)
    ensures Served(c, ideal, kind, payload, a) ==> a.ok
  {}

  lemma EnsureWhenOk(c: Setup, w: World)
    ensures w.status.ServerOk? ==> EnsureSession(c, w) == (w, true)
  {}

  lemma EstablishedIsHealthy(c: Setup, w: World, ideal: Session)
    requires Healthy(c, w, ideal) && EnsureSession(c, w).1 && RequestTaken(c, w)
    ensures Healthy(c, EnsureSession(c, w).0, ideal)
  {
    hide EnsureSession, RequestTaken, Base;
    EnsureWhenOk(c, w);
    if w.status.Broken() {
      BrokenHasNoSession(c, w);
    } else if !w.status.ServerOk? {
      EnsureMakesFresh(c, w);
    }
  }

  lemma BrokenHasNoSession(c: Setup, w: World)
    requires w.status.Broken()
    ensures !EnsureSession(c, w).1 && EnsureSession(c, w).0.status.ServerFatal?
  {}

  lemma NoSessionIsHealthy(c: Setup, w: World, ideal: Session)
    requires Healthy(c, w, ideal) && !EnsureSession(c, w).1
    ensures Healthy(c, EnsureSession(c, w).0, ideal)
  {
    hide EnsureSession;
    EnsureWhenOk(c, w);
    EnsureSessionKeepsJournal(c, w);
    if w.status.Broken() {
      BrokenHasNoSession(c, w);
    }
  }

  // ---------------------------------------------------------------------------
  // A run of Sends
  // ---------------------------------------------------------------------------

  datatype Keystroke = Keystroke(kind: Kind, payload: Payload)

  /** The answers to a run of Sends. */
  function SendAll(c: Setup, w: World, inputs: seq<Keystroke>): (answers: seq<Answer>)
    ensures |answers| == |inputs|
    decreases |inputs|
  {
    if inputs == [] then []
    else
      var a := EnsureCallCommand(c, w, inputs[0].kind, inputs[0].payload);
      [a] + SendAll(c, a.world, inputs[1..])
  }

  /** The inputs of a run that are acknowledged. */
  function Acknowledged(c: Setup, w: World, inputs: seq<Keystroke>): seq<Keystroke>
    decreases |inputs|
  {
    if inputs == [] then []
    else
      var a := EnsureCallCommand(c, w, inputs[0].kind, inputs[0].payload);
      (if a.ok then [inputs[0]] else []) + Acknowledged(c, a.world, inputs[1..])
  }

  /** What a single session that never crashes does with inputs. */
  function IdealState(logic: Logic, s: Session, inputs: seq<Keystroke>): Session
    decreases |inputs|
  {
    if inputs == [] then s
    else IdealState(logic, logic.step(s, inputs[0].kind, inputs[0].payload).0, inputs[1..])
  }

  /** Its answer to the last of them. */
  function IdealReply(logic: Logic, s: Session, inputs: seq<Keystroke>): Reply
    requires inputs != []
    decreases |inputs|
  {
    var (next, reply) := logic.step(s, inputs[0].kind, inputs[0].payload);
    if |inputs| == 1 then reply else IdealReply(logic, next, inputs[1..])
  }

  /** Every input of the run is for the session and every Send is sound. */
  ghost predicate Steady(c: Setup, w: World, inputs: seq<Keystroke>)
    decreases |inputs|
  {
    inputs != [] ==>
      var i := inputs[0];
      && i.kind.ForSession() && Sound(c, w, i.kind, i.payload)
      && Steady(c, EnsureCallCommand(c, w, i.kind, i.payload).world, inputs[1..])
  }

  /**
   Over every run of Sends from a healthy client, after every Send: the ideal session is the one
   that has received each acknowledged input exactly once and in order, the session, the journal
   and the ideal session agree, and an acknowledged input was answered as the ideal session does.
   */
  lemma {:induction false} RunIsIdeal(c: Setup, w: World, inputs: seq<Keystroke>, ideal: Session, k: nat)
    requires Laws(c) && Healthy(c, w, ideal) && Steady(c, w, inputs) && k < |inputs|
    ensures var a := SendAll(c, w, inputs)[k]; var received := Acknowledged(c, w, inputs[..k + 1]);
            && Healthy(c, a.world, IdealState(c.logic, ideal, received))
            && (a.ok ==>
                  && a.world.status.ServerOk? && received != []
                  && a.output == Output(a.world.id, true, IdealReply(c.logic, ideal, received)))
    decreases |inputs|
  {
    hide EnsureCallCommand, Laws, Healthy, Sound;
    var i, rest := inputs[0], inputs[1..];
    var a := EnsureCallCommand(c, w, i.kind, i.payload);
    SendStep(c, w, i.kind, i.payload, ideal);
    var next := if a.ok then c.logic.step(ideal, i.kind, i.payload).0 else ideal;
    assert inputs[..k + 1][0] == i && inputs[..k + 1][1..] == rest[..k];
    var later := Acknowledged(c, a.world, rest[..k]);
    var received := Acknowledged(c, w, inputs[..k + 1]);
    assert received == (if a.ok then [i] else []) + later;
    if a.ok {
      assert received[0] == i && received[1..] == later;
    } else {
      assert received == later;
    }
    if k == 0 {
      assert rest[..0] == [] && later == [];
    } else {
      RunIsIdeal(c, a.world, rest, next, k - 1);
      assert rest[..k - 1 + 1] == rest[..k];
    }
  }

  /** The same for a new client. */
  lemma NewClientIsIdeal(c: Setup, server: Server, inputs: seq<Keystroke>, k: nat)
    requires Laws(c) && server.nextId >= 1 && Steady(c, Start(server), inputs) && k < |inputs|
    ensures var a := SendAll(c, Start(server), inputs)[k];
            var received := Acknowledged(c, Start(server), inputs[..k + 1]);
            var s := IdealState(c.logic, Base(c), received);
            a.ok ==>
              && received != [] && a.output.reply == IdealReply(c.logic, Base(c), received)
              && (a.world.id in a.world.server.sessions ==> a.world.server.sessions[a.world.id] == s)
              && (|a.world.history| < 512 ==> Replay(c.logic, Base(c), a.world.history) == s)
  {
    hide EnsureCallCommand, Laws, Sound, SendAll, Steady, Acknowledged;
    RunIsIdeal(c, Start(server), inputs, Base(c), k);
  }
}
