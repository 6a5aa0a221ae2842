/**
 One crash in an otherwise undisturbed run of any length: whenever it comes and whatever it
 destroys, the user does not notice it.
 */
module ClientOneCrash {
  import opened ClientModel
  import opened ClientSafety
  import opened ClientRecovery

  /** A tick at which everything goes well. */
  predicate Benign(c: Setup, tick: Tick) {
    && !tick.forgotten && tick.hasClient && tick.connected && tick.protocol == 3
    && !tick.product.Before(c.version) && tick.fate.Delivered? && !tick.refuses && tick.done
  }

  ghost predicate BenignFrom(c: Setup, from: nat, to: nat) {
    forall i | from <= i < to :: Benign(c, c.oracle(i))
  }

  /**
   A tick at which the server, its sessions, the connection or the answer may be lost, the request
   having been executed or not.
   */
  predicate Crash(tick: Tick) {
    tick.hasClient &&
    (tick.connected ==> tick.protocol == 3 && (tick.fate.Delivered? || tick.fate.Lost?))
  }

  /** From some time on nothing goes wrong at any tick but `t`. */
  ghost predicate OnlyAt(c: Setup, from: nat, t: nat) {
    Crash(c.oracle(t)) && forall i: nat | i >= from && i != t :: Benign(c, c.oracle(i))
  }

  /** The session is still there, or the crash is over. */
  predicate Prepared(w: World, t: nat) {
    t < w.clock || (w.id in w.server.sessions)
  }

  // ---------------------------------------------------------------------------
  // Making a session with nothing going wrong
  // ---------------------------------------------------------------------------

  lemma BenignCreates(c: Setup, w: World)
    requires !w.status.Broken() && Benign(c, c.oracle(w.clock))
    ensures CreateNewSession(c, w).1 && CreateNewSession(c, w).0.clock == w.clock + 1
  {}

  lemma CreateTakesTime(c: Setup, w: World)
    requires !w.status.Broken()
    ensures w.clock < CreateNewSession(c, w).0.clock
  {
    hide Call, Restart;
    var v, input := w.(id := 0), Input(CreateSession, 0, 0);
    AttemptTakesTime(c, v, input);
    var a := Call(c, v, input);
    var polite := a.ok && a.world.product.Before(c.version);
    RestartClock(c, a.world, polite);
    CheckVersionClock(c, Restart(c, a.world, polite).0, input, 1);
  }

  lemma StartTakesTime(c: Setup, w: World)
    requires w.status.ServerUnknown? || w.status.ServerShutdown?
    ensures w.clock < EnsureSession(c, w).0.clock
  {
    hide Call, CreateNewSession, SendRequest;
    EnsureSessionClock(c, w);
  }

  lemma BenignEnsures(c: Setup, w: World)
    requires !w.status.Broken() && BenignFrom(c, w.clock, EnsureSession(c, w).0.clock)
    ensures EnsureSession(c, w).1 && RequestTaken(c, w)
  {
    hide CreateNewSession, Call;
    if !w.status.ServerOk? {
      EnsureSessionClock(c, w);
      if !w.status.ServerInvalidSession? {
        StartTakesTime(c, w);
        assert Benign(c, c.oracle(w.clock));
      }
      var (w1, connected) := EnsureConnection(c, w);
      assert connected && w1.status.ServerInvalidSession?;
      CreateTakesTime(c, w1);
      assert Benign(c, c.oracle(w1.clock));
      BenignCreates(c, w1);
      var w2 := CreateNewSession(c, w1).0;
      if c.request.Some? {
        RequestTakesTime(c, w1);
        assert w2.clock < EnsureSession(c, w).0.clock;
        assert Benign(c, c.oracle(w2.clock));
      }
    }
  }

  lemma RequestTakesTime(c: Setup, w: World)
    requires w.status.ServerInvalidSession? && c.request.Some? && CreateNewSession(c, w).1
    ensures CreateNewSession(c, w).0.clock < SendRequest(c, CreateNewSession(c, w).0).clock
  {
    hide Call, CheckVersion;
    var w2 := CreateNewSession(c, w).0;
    SuccessIsNotBroken(c, w.(id := 0), Input(CreateSession, 0, 0), 0);
    AttemptTakesTime(c, w2, Input(SetRequest, w2.id, c.request.value));
  }

  lemma SuccessIsNotBroken(c: Setup, w: World, input: Input, trial: nat)
    ensures CheckVersion(c, w, input, trial).ok ==> !CheckVersion(c, w, input, trial).world.status.Broken()
    decreases 2 - trial
  {
    hide Call, Restart;
    if trial < 2 {
      var a := Call(c, w, input);
      AnsweredKeepsStatus(c, w, input);
      if trial == 0 {
        SuccessIsNotBroken(c, Restart(c, a.world, a.ok && a.world.product.Before(c.version)).0, input, 1);
      }
    }
  }

  // ---------------------------------------------------------------------------
  // One Send
  // ---------------------------------------------------------------------------

  lemma CrashBreaksNothing(c: Setup, w: World, kind: Kind, payload: Payload)
    requires w.status.ServerOk? && Crash(c.oracle(w.clock)) && kind.ForSession()
    ensures !FirstTrial(c, w, Input(kind, w.id, payload)).world.status.Broken()
  {
    hide Serve;
  }

  /** Before the crash a Send takes one exchange and leaves the session in place. */
  lemma SendBeforeCrash(c: Setup, w: World, kind: Kind, payload: Payload, ideal: Session)
    requires Healthy(c, w, ideal) && w.status.ServerOk? && kind.ForSession()
    requires Benign(c, c.oracle(w.clock)) && w.id in w.server.sessions
    ensures !Recovers(c, w, kind, payload)
    ensures var a := EnsureCallCommand(c, w, kind, payload);
            a.world.clock == w.clock + 1 && a.world.id in a.world.server.sessions
  {
    hide Call, SecondTrial, Replay;
    EnsureWhenOk(c, w);
    AttemptTakesTime(c, w, Input(kind, w.id, payload));
    SessionCall(c, w, kind, payload, ideal);
  }

  /** At the crash or after it, recovery works if it is called for. */
  lemma RecoveryAfterCrash(c: Setup, w: World, kind: Kind, payload: Payload, t: nat, from: nat)
    requires OnlyAt(c, from, t) && from <= w.clock && t < w.clock && !w.status.Broken()
    ensures RecoveryWorks(c, w, kind, payload)
  {
    hide SecondTrial, EnsureSession, RequestTaken;
    EnsureSessionClock(c, w);
    BenignEnsures(c, w);
  }

  /** How many inputs the journal holds for the current context after one more. */
  function Pending(n: nat, kind: Kind, reply: Reply): nat {
    if !reply.consumed then n else if kind.SendKey? && reply.hasResult then 0 else n + 1
  }

  lemma SendPushes(c: Setup, w: World, kind: Kind, payload: Payload)
    requires w.status.ServerOk? && |w.history| < 512
    ensures var a := EnsureCallCommand(c, w, kind, payload);
            a.ok ==> |a.world.history| == Pending(|w.history|, kind, a.output.reply)
  {
    hide Call, SecondTrial;
    var input := Input(kind, w.id, payload);
    CallKeeps(c, w, input);
    SecondTrialPushes(c, FirstTrial(c, w, input).world, kind, payload);
  }

  lemma SecondTrialPushes(c: Setup, w: World, kind: Kind, payload: Payload)
    requires |w.history| < 512
    ensures var a := SecondTrial(c, w, kind, payload);
            a.ok ==> |a.world.history| == Pending(|w.history|, kind, a.output.reply)
  {
    hide Call, EnsureSession, Playback;
    EnsureSessionKeepsJournal(c, w);
    var w1 := EnsureSession(c, w).0;
    PlaybackKeepsLength(c, w1, 0);
    var w2 := PlaybackHistory(c, w1);
    CallKeeps(c, w2, Input(kind, w2.id, payload));
  }

  /** One Send of such a run: sound, acknowledged, and answered as by the ideal session. */
  lemma SendDespiteCrash(
      c: Setup, w: World, kind: Kind, payload: Payload, ideal: Session, from: nat, t: nat)
    requires Laws(c) && OnlyAt(c, from, t) && Healthy(c, w, ideal) && w.status.ServerOk? && Prepared(w, t)
    requires from <= w.clock && kind.ForSession() && |w.history| < 512
    ensures var a := EnsureCallCommand(c, w, kind, payload);
            && Sound(c, w, kind, payload) && Served(c, ideal, kind, payload, a)
            && w.clock < a.world.clock && Prepared(a.world, t)
            && |a.world.history| == Pending(|w.history|, kind, c.logic.step(ideal, kind, payload).1)
  {
    hide FirstTrial, SecondTrial, Laws, Replay, RecoveryWorks, EnsureSession;
    EnsureWhenOk(c, w);
    SendPushes(c, w, kind, payload);
    FirstTrialCases(c, w, kind, payload, ideal);
    BenignIsCrash(c, c.oracle(w.clock));
    CrashBreaksNothing(c, w, kind, payload);
    if t > w.clock {
      SendBeforeCrash(c, w, kind, payload, ideal);
    } else {
      RecoveryAfterCrash(c, FirstTrial(c, w, Input(kind, w.id, payload)).world, kind, payload, t, from);
      SendIsLater(c, w, kind, payload);
    }
    SendFromOk(c, w, kind, payload, ideal);
  }

  lemma BenignIsCrash(c: Setup, tick: Tick)
    ensures Benign(c, tick) ==> Crash(tick)
  {}

  lemma SendIsLater(c: Setup, w: World, kind: Kind, payload: Payload)
    requires w.status.ServerOk?
    ensures w.clock < EnsureCallCommand(c, w, kind, payload).world.clock
  {
    hide Call, SecondTrial, EnsureSession;
    EnsureWhenOk(c, w);
    AttemptTakesTime(c, w, Input(kind, w.id, payload));
    var w2 := FirstTrial(c, w, Input(kind, w.id, payload)).world;
    EnsureSessionClock(c, w2);
    SecondTrialClock(c, w2, kind, payload);
  }

  // ---------------------------------------------------------------------------
  // A run of Sends
  // ---------------------------------------------------------------------------

  /**
   Every input is for the session, and on the ideal session fewer than 512 inputs are ever consumed
   since the last commit, `n` of them before the run, when the next one comes.
   */
  predicate ShortContexts(logic: Logic, s: Session, n: nat, inputs: seq<Keystroke>)
    decreases |inputs|
  {
    inputs != [] ==>
      var i := inputs[0]; var (next, reply) := logic.step(s, i.kind, i.payload);
      && i.kind.ForSession() && n < 512
      && ShortContexts(logic, next, Pending(n, i.kind, reply), inputs[1..])
  }

  lemma {:induction false} RunDespiteCrash(
      c: Setup, w: World, inputs: seq<Keystroke>, ideal: Session, from: nat, t: nat)
    requires Laws(c) && OnlyAt(c, from, t) && Healthy(c, w, ideal) && w.status.ServerOk? && Prepared(w, t)
    requires from <= w.clock && ShortContexts(c.logic, ideal, |w.history|, inputs)
    ensures Steady(c, w, inputs) && forall a | a in SendAll(c, w, inputs) :: a.ok
    decreases |inputs|
  {
    hide EnsureCallCommand, Laws, OnlyAt, Healthy, Sound, Prepared, Pending;
    if inputs != [] {
      var i := inputs[0];
      SendDespiteCrash(c, w, i.kind, i.payload, ideal, from, t);
      var a := EnsureCallCommand(c, w, i.kind, i.payload);
      RunDespiteCrash(c, a.world, inputs[1..], c.logic.step(ideal, i.kind, i.payload).0, from, t);
    }
  }

  lemma {:induction false} AllAcknowledged(c: Setup, w: World, inputs: seq<Keystroke>, k: nat)
    requires k < |inputs| && forall a | a in SendAll(c, w, inputs) :: a.ok
    ensures Acknowledged(c, w, inputs[..k + 1]) == inputs[..k + 1]
    decreases |inputs|
  {
    hide EnsureCallCommand;
    var a := EnsureCallCommand(c, w, inputs[0].kind, inputs[0].payload);
    var all := SendAll(c, w, inputs);
    assert all[0] == a && all[1..] == SendAll(c, a.world, inputs[1..]);
    assert inputs[..k + 1][1..] == inputs[1..][..k];
    if k == 0 {
      assert inputs[1..][..0] == [] && inputs[..1] == [inputs[0]];
    } else {
      AllAcknowledged(c, a.world, inputs[1..], k - 1);
      assert inputs[1..][..k - 1 + 1] == inputs[1..][..k];
    }
  }

  /** The session that the first Send of a new client makes. */
  lemma FirstSession(c: Setup, server: Server)
    requires server.nextId >= 1 && EnsureSession(c, Start(server)).1 && RequestTaken(c, Start(server))
    ensures var w := EnsureSession(c, Start(server)).0;
            && Healthy(c, w, Base(c)) && w.status.ServerOk? && w.id in w.server.sessions && w.history == []
            && EnsureSession(c, w) == (w, true)
  {
    hide EnsureSession, RequestTaken;
    EnsureMakesFresh(c, Start(server));
    EnsureWhenOk(c, EnsureSession(c, Start(server)).0);
  }

  /** The first Send of a new client is a Send on that session. */
  lemma FirstSend(c: Setup, server: Server, inputs: seq<Keystroke>)
    requires EnsureSession(c, Start(server)).1 && RequestTaken(c, Start(server))
    requires var w := EnsureSession(c, Start(server)).0; w.status.ServerOk? && Steady(c, w, inputs)
    ensures Steady(c, Start(server), inputs)
    ensures SendAll(c, Start(server), inputs) == SendAll(c, EnsureSession(c, Start(server)).0, inputs)
  {
    hide EnsureSession, RequestTaken, Recoverable, FirstTrial, SecondTrial, Steady, SendAll;
    var w := EnsureSession(c, Start(server)).0;
    EnsureWhenOk(c, w);
    SameFirstSend(c, Start(server), w, inputs);
  }

  lemma SameFirstSend(c: Setup, w: World, v: World, inputs: seq<Keystroke>)
    requires EnsureSession(c, w) == (v, true) == EnsureSession(c, v) && RequestTaken(c, w) && Steady(c, v, inputs)
    ensures Steady(c, w, inputs) && SendAll(c, w, inputs) == SendAll(c, v, inputs)
  {
    hide EnsureSession, RequestTaken, Recoverable, FirstTrial, SecondTrial, Finish;
  }

  /**
   For a new client that has made its first session, by whatever restarts, and for a run of any
   length without a context of more than 512 inputs: if nothing goes wrong from then on but one
   crash, at any time, every input is acknowledged and answered exactly as by a session that never
   crashed.
   */
  lemma OneCrashIsInvisible(c: Setup, server: Server, inputs: seq<Keystroke>, t: nat, k: nat)
    requires Laws(c) && server.nextId >= 1
    requires EnsureSession(c, Start(server)).1 && RequestTaken(c, Start(server))
    requires OnlyAt(c, EnsureSession(c, Start(server)).0.clock, t)
    requires ShortContexts(c.logic, Base(c), 0, inputs) && k < |inputs|
    ensures var a := SendAll(c, Start(server), inputs)[k];
            a.ok && a.output.reply == IdealReply(c.logic, Base(c), inputs[..k + 1])
  {
    hide EnsureCallCommand, EnsureSession, Laws, OnlyAt, Steady, SendAll, Acknowledged, RequestTaken, ShortContexts;
    FirstSession(c, server);
    var w := EnsureSession(c, Start(server)).0;
    RunDespiteCrash(c, w, inputs, Base(c), w.clock, t);
    FirstSend(c, server, inputs);
    AllAcknowledged(c, Start(server), inputs, k);
    NewClientIsIdeal(c, server, inputs, k);
  }
}
