/**
 Where recovery does lose inputs, and where it does not: a session found missing by anything but a
 Send is replaced without playback, a full journal is thrown away instead of being played, and a
 playback that stops halfway does not stop the Send.
 */
module ClientLimits {
  import opened ClientModel
  import opened ClientRecovery
  import opened ClientSafety
  import opened Options

  /** The answer of a session in its base state, to a Send that the user takes for a later one. */
  ghost predicate StartsOver(c: Setup, kind: Kind, payload: Payload, a: Answer) {
    var (next, reply) := c.logic.step(Base(c), kind, payload);
    a.ok && a.output == Output(a.world.id, true, reply)
    && a.world.id in a.world.server.sessions && a.world.server.sessions[a.world.id] == next
  }

  /** There is a session again, and the next exchange is answered. */
  predicate NextAnswered(c: Setup, w: World) {
    EnsureSession(c, w).1 && RequestTaken(c, w) && Answers(c.oracle(EnsureSession(c, w).0.clock))
  }

  /** A session that answers how many inputs it has consumed. */
  const COUNTING := Logic(0, (s: Session, k: Kind, p: Payload) => (s + 1, Reply(true, false, s + 1)))

  lemma {:induction false} CountingReplay(s: Session, h: seq<Input>)
    ensures Replay(COUNTING, s, h) == s + |h|
    decreases |h|
  {
    if h != [] {
      CountingReplay(s, h[..|h| - 1]);
    }
  }

  // ---------------------------------------------------------------------------
  // A loss that is noticed between two Sends
  // ---------------------------------------------------------------------------

  /**
   A Send that finds the session already marked as lost makes a new one and does not play the
   journal: the input reaches a session that has seen none of the journal, which is kept.
   */
  lemma LateSendStartsOver(c: Setup, w: World, kind: Kind, payload: Payload)
    requires w.status.ServerShutdown? || w.status.ServerInvalidSession?
    requires kind.ForSession() && w.server.nextId >= 1 && NextAnswered(c, w)
    ensures var a := EnsureCallCommand(c, w, kind, payload);
            && StartsOver(c, kind, payload, a) && a.world.status.ServerOk?
            && a.world.history == PushHistory(w.history, Input(kind, a.world.id, payload), a.output)
  {
    hide Call, SecondTrial, EnsureSession, Base, Executes, RequestTaken;
    EnsureMakesFresh(c, w);
    var w1 := EnsureSession(c, w).0;
    SessionCall(c, w1, kind, payload, Base(c));
  }

  /** Any command that ends with the server gone leaves a client whose journal is all that is left of the session. */
  lemma CommandLoses(c: Setup, w: World, ideal: Session, command: Kind)
    requires Healthy(c, w, ideal) && w.status.ServerOk? && CallCommand(c, w, command).0.status.ServerShutdown?
    ensures var v := CallCommand(c, w, command).0;
            && v.history == w.history && v.server.nextId >= 1
            && (w.history == [] ==> ideal == Base(c) && Healthy(c, v, ideal))
  {
    hide Call;
    CallKeeps(c, w, Input(command, w.id, 0));
  }

  /**
   Whatever command ended with the server gone, and however it did, for every kind of session: with
   an empty journal nothing is lost, and a Send is served next as if nothing had happened.
   */
  lemma EmptyJournalLosesNothing(
      c: Setup, w: World, ideal: Session, command: Kind, kind: Kind, payload: Payload)
    requires Laws(c) && Healthy(c, w, ideal) && w.status.ServerOk? && kind.ForSession() && w.history == []
    requires var v := CallCommand(c, w, command).0; v.status.ServerShutdown? && Sound(c, v, kind, payload)
    ensures var a := EnsureCallCommand(c, CallCommand(c, w, command).0, kind, payload);
            if a.ok then Served(c, ideal, kind, payload, a) else Healthy(c, a.world, ideal)
  {
    hide EnsureCallCommand, Sound, Laws, CallCommand, Healthy;
    CommandLoses(c, w, ideal, command);
    SendStep(c, CallCommand(c, w, command).0, kind, payload, ideal);
  }

  /** And with a journal that is not empty something can be lost: a counting session shows it in the next answer. */
  lemma LossIsSeen(c: Setup, w: World, ideal: Session, command: Kind, kind: Kind, payload: Payload)
    requires c.logic == COUNTING && c.request.None?
    requires Healthy(c, w, ideal) && w.status.ServerOk? && kind.ForSession() && |w.history| < 512
    requires var v := CallCommand(c, w, command).0; v.status.ServerShutdown? && NextAnswered(c, v)
    ensures var a := EnsureCallCommand(c, CallCommand(c, w, command).0, kind, payload);
            a.ok && (a.output.reply == c.logic.step(ideal, kind, payload).1 <==> w.history == [])
  {
    hide EnsureCallCommand, NextAnswered, CallCommand;
    CountingReplay(0, w.history);
    CommandLoses(c, w, ideal, command);
    LateSendStartsOver(c, CallCommand(c, w, command).0, kind, payload);
  }

  // ---------------------------------------------------------------------------
  // A full journal
  // ---------------------------------------------------------------------------

  /** Recovery with a full journal: the journal is emptied, and the input starts over. */
  lemma FullJournalStartsOver(c: Setup, w: World, kind: Kind, payload: Payload)
    requires w.status.ServerShutdown? || w.status.ServerInvalidSession?
    requires kind.ForSession() && w.server.nextId >= 1 && |w.history| == 512 && NextAnswered(c, w)
    ensures var a := SecondTrial(c, w, kind, payload);
            && StartsOver(c, kind, payload, a)
            && a.world.history == PushHistory([], Input(kind, a.world.id, payload), a.output)
  {
    hide Call, Playback, EnsureSession, Base, Executes, RequestTaken;
    EnsureMakesFresh(c, w);
    SessionCall(c, EnsureSession(c, w).0.(history := []), kind, payload, Base(c));
  }

  /**
   A counting session shows it: when recovery does not fail, its answer is that of the ideal session
   if and only if the journal is not full. For every session, one that is not full is enough
   (RecoveryServes).
   */
  lemma FullJournalIsSeen(c: Setup, w: World, ideal: Session, kind: Kind, payload: Payload)
    requires c.logic == COUNTING && c.request.None? && kind.ForSession()
    requires Healthy(c, w, ideal) && w.status.ServerOk? && |w.history| <= ideal
    requires Recovers(c, w, kind, payload)
    requires RecoveryWorks(c, FirstTrial(c, w, Input(kind, w.id, payload)).world, kind, payload)
    ensures var a := EnsureCallCommand(c, w, kind, payload);
            a.ok && (a.output.reply == c.logic.step(ideal, kind, payload).1 <==> |w.history| < 512)
  {
    hide FirstTrial, SecondTrial, RecoveryWorks, EnsureSession, Replay;
    EnsureWhenOk(c, w);
    FirstTrialCases(c, w, kind, payload, ideal);
    var w2 := FirstTrial(c, w, Input(kind, w.id, payload)).world;
    if |w.history| < 512 {
      assert Laws(c);
      RecoveryServes(c, w2, kind, payload, ideal);
    } else {
      FirstAnswered(c, w2, kind, payload);
      FullJournalStartsOver(c, w2, kind, payload);
    }
  }

  lemma FirstAnswered(c: Setup, w: World, kind: Kind, payload: Payload)
    requires RecoveryWorks(c, w, kind, payload) && |w.history| == 512
    ensures NextAnswered(c, w)
  {
    hide Call, EnsureSession, RequestTaken, Answers;
    EnsureSessionKeepsJournal(c, w);
    EnsuredIsOk(c, w);
    var w1 := EnsureSession(c, w).0.(history := []);
    AttemptTakesTime(c, w1, Input(kind, w1.id, payload));
    assert SecondTrial(c, w, kind, payload).world.clock == w1.clock + 1;
  }

  /** A counting session is never behind the journal, so that the bound above is no restriction. */
  lemma CountingKeepsUp(n: nat, ideal: Session, h: seq<Input>, input: Input)
    requires |h| <= ideal
    ensures var (next, reply) := COUNTING.step(ideal, input.kind, input.payload);
            |PushHistory(h, input, Output(n, true, reply))| <= next
  {}

  // ---------------------------------------------------------------------------
  // A playback that stops halfway
  // ---------------------------------------------------------------------------

  /**
   The loop of PlaybackHistory ends at the first call that fails, and the second trial is made all
   the same. If it is answered, and no session is dropped on the way, it is answered from the state
   that the entries executed so far denote.
   */
  lemma SecondTrialAnswers(c: Setup, w: World, kind: Kind, payload: Payload)
    requires w.status.ServerShutdown? || w.status.ServerInvalidSession?
    requires kind.ForSession() && w.server.nextId >= 1 && ForSessions(w.history) && |w.history| < 512
    requires EnsureSession(c, w).1 && RequestTaken(c, w) && SecondTrial(c, w, kind, payload).ok
    requires NothingForgotten(c, EnsureSession(c, w).0.clock, SecondTrial(c, w, kind, payload).world.clock)
    ensures var n := Executed(c, EnsureSession(c, w).0, 0); var a := SecondTrial(c, w, kind, payload);
            && n <= |w.history|
            && a.output == Output(a.world.id, true,
                 c.logic.step(Replay(c.logic, Base(c), w.history[..n]), kind, payload).1)
  {
    hide Call, Playback, Base, EnsureSession, Executes, RequestTaken, Replay, Executed;
    SecondTrialClock(c, w, kind, payload);
    EnsureMakesFresh(c, w);
    var w1 := EnsureSession(c, w).0;
    PlaybackClock(c, w1, 0);
    NoEntries(c, w1.history);
    PlaybackReplays(c, w1, 0);
    var w2 := Playback(c, w1, 0);
    var input := Input(kind, w2.id, payload);
    SucceedsOnlyIfAnswered(c, w2, input);
    SessionCall(c, w2, kind, payload, Replay(c.logic, Base(c), w.history[..Executed(c, w1, 0)]));
  }

  lemma NoEntries(c: Setup, h: seq<Input>)
    ensures Replay(c.logic, Base(c), h[..0]) == Base(c)
  {}

  lemma SucceedsOnlyIfAnswered(c: Setup, w: World, input: Input)
    requires Call(c, w, input).ok
    ensures !w.status.Broken() && (!c.oracle(w.clock).forgotten ==> Answers(c.oracle(w.clock)))
    ensures Call(c, w, input).world.clock == w.clock + 1
  {
    hide Serve;
  }

  /** If every entry is executed, even one whose answer is lost, the answer is that of the ideal session, for every session. */
  lemma FullPlaybackIsIdeal(c: Setup, w: World, kind: Kind, payload: Payload)
    requires w.status.ServerShutdown? || w.status.ServerInvalidSession?
    requires kind.ForSession() && w.server.nextId >= 1 && ForSessions(w.history) && |w.history| < 512
    requires EnsureSession(c, w).1 && RequestTaken(c, w) && SecondTrial(c, w, kind, payload).ok
    requires NothingForgotten(c, EnsureSession(c, w).0.clock, SecondTrial(c, w, kind, payload).world.clock)
    requires Executed(c, EnsureSession(c, w).0, 0) == |w.history|
    ensures SecondTrial(c, w, kind, payload).output.reply
            == c.logic.step(Replay(c.logic, Base(c), w.history), kind, payload).1
  {
    hide SecondTrial, EnsureSession, RequestTaken, Executed, Base, Replay, NothingForgotten;
    SecondTrialAnswers(c, w, kind, payload);
    assert w.history[..|w.history|] == w.history;
  }

  /** A counting session shows it: an acknowledged input is answered as by the ideal session if and only if every entry was executed. */
  lemma StoppedPlaybackIsSeen(c: Setup, w: World, kind: Kind, payload: Payload)
    requires c.logic == COUNTING && c.request.None?
    requires w.status.ServerShutdown? || w.status.ServerInvalidSession?
    requires kind.ForSession() && w.server.nextId >= 1 && ForSessions(w.history) && |w.history| < 512
    requires EnsureSession(c, w).1 && RequestTaken(c, w) && SecondTrial(c, w, kind, payload).ok
    requires NothingForgotten(c, EnsureSession(c, w).0.clock, SecondTrial(c, w, kind, payload).world.clock)
    ensures SecondTrial(c, w, kind, payload).output.reply
            == c.logic.step(Replay(c.logic, Base(c), w.history), kind, payload).1
       <==> Executed(c, EnsureSession(c, w).0, 0) == |w.history|
  {
    hide SecondTrial, EnsureSession, RequestTaken, Executed, Replay, NothingForgotten;
    SecondTrialAnswers(c, w, kind, payload);
    var n := Executed(c, EnsureSession(c, w).0, 0);
    CountingReplay(0, w.history[..n]);
    CountingReplay(0, w.history);
  }

  /** Such a playback: one whose first call finds no server executes nothing. */
  lemma StopsAtOnce(c: Setup, w: World)
    requires w.history != [] && c.oracle(w.clock).hasClient && !c.oracle(w.clock).connected
    ensures Executed(c, w, 0) == 0
  {}
}
