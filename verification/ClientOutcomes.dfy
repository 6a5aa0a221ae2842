/**
 What each outcome leads to: exactly which answers, ends and starts of servers let a version check and
 EnsureSession succeed, with and without the replacement of an outdated server, and which failures of
 a call are recovered from.
 */
module ClientOutcomes {
  import opened ClientModel
  import opened ClientRecovery
  import opened ClientSafety
  import opened Options

  /** `a` is the older version: its numbers come first in the order of words. */
  ghost predicate Older(a: seq<nat>, b: seq<nat>) {
    exists k: nat :: DiffersAt(a, b, k)
  }

  /** The first difference is at position `k`, where `a` has ended or has the smaller number. */
  predicate DiffersAt(a: seq<nat>, b: seq<nat>, k: nat) {
    k <= |a| && k < |b| && a[..k] == b[..k] && (k < |a| ==> a[k] < b[k])
  }

  /** Version::CompareVersion is this order, and false when a version is unknown. */
  lemma BeforeIsOlder(v: Version, w: Version)
    ensures v.Before(w) <==> v.Version? && w.Version? && Older(v.parts, w.parts)
  {
    if v.Version? && w.Version? {
      LessIsOlder(v.parts, w.parts);
    }
  }

  lemma {:induction false} LessIsOlder(a: seq<nat>, b: seq<nat>)
    ensures Less(a, b) <==> Older(a, b)
    decreases |a|
  {
    if b == [] {
    } else if a == [] {
      assert DiffersAt(a, b, 0);
    } else if a[0] != b[0] {
      if a[0] < b[0] {
        assert DiffersAt(a, b, 0);
      } else {
        forall k: nat
          ensures !DiffersAt(a, b, k)
        {
          if 0 < k <= |a| && k < |b| {
            assert a[..k][0] != b[..k][0];
          }
        }
      }
    } else {
      LessIsOlder(a[1..], b[1..]);
      if Less(a, b) {
        var k: nat :| DiffersAt(a[1..], b[1..], k);
        assert a[..k + 1] == [a[0]] + a[1..][..k] && b[..k + 1] == [b[0]] + b[1..][..k];
        assert DiffersAt(a, b, k + 1);
      }
      if k: nat :| DiffersAt(a, b, k) {
        assert k > 0;
        assert a[1..][..k - 1] == a[..k][1..] && b[1..][..k - 1] == b[..k][1..];
        assert DiffersAt(a[1..], b[1..], k - 1);
      }
    }
  }

  // ---------------------------------------------------------------------------
  // What can happen at a trial
  // ---------------------------------------------------------------------------

  /** The request is answered by a server of protocol 3. */
  predicate Answered(tick: Tick) {
    tick.hasClient && tick.connected && tick.protocol == 3 && tick.fate.Delivered?
  }

  /** It is, and that server is not older than the client. */
  predicate Current(c: Setup, i: nat) {
    Answered(c.oracle(i)) && !c.oracle(i).product.Before(c.version)
  }

  /** It is, and that server is older. */
  predicate OldProduct(c: Setup, i: nat) {
    Answered(c.oracle(i)) && c.oracle(i).product.Before(c.version)
  }

  /** There is a server, of an older protocol; the request is not sent. */
  predicate OldProtocol(c: Setup, i: nat) {
    c.oracle(i).hasClient && c.oracle(i).connected && c.oracle(i).protocol < 3
  }

  /**
   Whether the old server that was met at tick `i` is ended. One of an older product is sent SHUTDOWN
   at the next tick and waited for at the one after, and is terminated if it does not end; one of an
   older protocol is terminated at once.
   */
  predicate OldServerEnds(c: Setup, i: nat) {
    if OldProtocol(c, i) then c.oracle(i + 1).done else c.oracle(i + 2).done || c.oracle(i + 3).done
  }

  /** When the new server is started: after the wait for the old one. */
  function StartTick(c: Setup, i: nat): nat {
    if OldProtocol(c, i) || c.oracle(i + 2).done then i + 3 else i + 5
  }

  /** An old server is met at tick `i`, ended and replaced by one that answers and is not older. */
  predicate Upgraded(c: Setup, i: nat) {
    && (OldProduct(c, i) || OldProtocol(c, i)) && OldServerEnds(c, i)
    && c.oracle(StartTick(c, i)).done && Current(c, StartTick(c, i) + 1)
  }

  /** One call, by what its tick says. */
  lemma CallMeans(c: Setup, w: World, input: Input)
    requires !w.status.Broken()
    ensures var a := Call(c, w, input); var tick := c.oracle(w.clock);
            && (a.ok <==> Answered(tick))
            && a.world.clock == w.clock + 1
            && (a.ok ==>
                  && a.world.product == tick.product && a.world.protocol == 3 && a.world.status == w.status
                  && a.output == Serve(c.logic, Forget(w.server, tick), input, tick.refuses).1
                  && a.world.server == Serve(c.logic, Forget(w.server, tick), input, tick.refuses).0)
            && (!a.ok ==> (a.world.protocol < 3 <==> OldProtocol(c, w.clock)))
  {
    hide Serve, Less;
  }

  /** A restart, by what its ticks say. It is polite to a server whose protocol it shares. */
  lemma RestartMeans(c: Setup, w: World, polite: bool)
    requires polite ==> !w.status.Broken()
    ensures var (w', restarted) := Restart(c, w, polite); var i := w.clock;
            var start := if !polite || c.oracle(i + 1).done then i + 2 else i + 4;
            && (restarted <==>
                  (if polite then c.oracle(i + 1).done || c.oracle(i + 2).done else c.oracle(i).done)
                  && c.oracle(start).done)
            && (restarted ==> w'.clock == start + 1 && w'.status.ServerInvalidSession?)
            && (!restarted ==> w'.status.Broken())
  {
    hide Serve, Less;
    if polite {
      CallMeans(c, w, Input(Shutdown, w.id, 0));
      hide Call;
    }
  }

  /** The tick of the trial that decides. */
  function LastTrial(c: Setup, i: nat): nat {
    if Current(c, i) then i else StartTick(c, i) + 1
  }

  /** The world in which that trial is made. */
  function BeforeLastTrial(c: Setup, w: World, input: Input): World {
    if Current(c, w.clock) then w
    else
      var a := Call(c, w, input);
      Restart(c, a.world, a.ok && a.world.product.Before(c.version)).0
  }

  /**
   For every oracle, a version check succeeds if and only if its request is answered at once by a
   server that is not older, or an older one is met, ended and replaced by such a server. The answer
   is then that of the last trial.
   */
  lemma CheckVersionIff(c: Setup, w: World, input: Input)
    requires !w.status.Broken()
    ensures var a := CheckVersion(c, w, input, 0);
            && (a.ok <==> Current(c, w.clock) || Upgraded(c, w.clock))
            && (a.ok ==>
                  && a == Call(c, BeforeLastTrial(c, w, input), input)
                  && BeforeLastTrial(c, w, input).clock == LastTrial(c, w.clock)
                  && a.world.clock == LastTrial(c, w.clock) + 1
                  && a.world.status == if Current(c, w.clock) then w.status else ServerInvalidSession)
  {
    hide Call, Restart, Serve, Less;
    CallMeans(c, w, input);
    var a := Call(c, w, input);
    var polite := a.ok && a.world.product.Before(c.version);
    var r := Restart(c, a.world, polite).0;
    if a.world.status.Broken() {
      assert !a.ok;
    }
    RestartMeans(c, a.world, polite);
    if !r.status.Broken() {
      CallMeans(c, r, input);
    }
  }

  /** A server of a newer protocol is never sent a request or replaced: the client is turned fatal by the next EnsureConnection. */
  lemma NewerServerIsLeft(c: Setup, w: World, input: Input)
    requires !w.status.Broken()
    requires c.oracle(w.clock).hasClient && c.oracle(w.clock).connected && c.oracle(w.clock).protocol > 3
    ensures var a := CheckVersion(c, w, input, 0);
            && !a.ok && a.world.log == w.log && a.world.clock == w.clock + 1
            && EnsureConnection(c, a.world).0.status.ServerFatal?
  {
    hide Serve, Less;
  }

  /** A server that is old and cannot be replaced by one that is not turns the client fatal, too. */
  lemma OldServerIsFatal(c: Setup, w: World, input: Input)
    requires !w.status.Broken() && (OldProduct(c, w.clock) || OldProtocol(c, w.clock))
    requires OldServerEnds(c, w.clock) && c.oracle(StartTick(c, w.clock)).done
             ==> var j := StartTick(c, w.clock) + 1; OldProduct(c, j) || OldProtocol(c, j)
    ensures EnsureConnection(c, CheckVersion(c, w, input, 0).world).0.status.ServerFatal?
  {
    hide Call, Restart, Serve, Less;
    CallMeans(c, w, input);
    var a := Call(c, w, input);
    var polite := a.ok && a.world.product.Before(c.version);
    var r := Restart(c, a.world, polite).0;
    RestartMeans(c, a.world, polite);
    if !r.status.Broken() {
      CallMeans(c, r, input);
    }
  }

  // ---------------------------------------------------------------------------
  // EnsureSession
  // ---------------------------------------------------------------------------

  /** When CREATE_SESSION is tried first. */
  function CreateTick(w: World): nat {
    if w.status.ServerInvalidSession? then w.clock else w.clock + 1
  }

  /**
   For every oracle, EnsureSession succeeds if and only if there is a session already, or a server
   runs or can be started, CREATE_SESSION passes the version check, and the last server asked for a
   session does not refuse it. Runs in which an outdated server is replaced are among these.
   */
  lemma EnsureSessionIff(c: Setup, w: World)
    ensures EnsureSession(c, w).1 <==>
              || w.status.ServerOk?
              || (&& (|| w.status.ServerInvalidSession?
                      || ((w.status.ServerUnknown? || w.status.ServerShutdown?) && c.oracle(w.clock).done))
                  && (Current(c, CreateTick(w)) || Upgraded(c, CreateTick(w)))
                  && !c.oracle(LastTrial(c, CreateTick(w))).refuses)
  {
    var (w1, connected) := EnsureConnection(c, w);
    if connected && !w1.status.ServerOk? {
      var v, input := w1.(id := 0), Input(CreateSession, 0, 0);
      assert v.clock == CreateTick(w);
      hide EnsureConnection, Call, CheckVersion, Less, Restart;
      CheckVersionIff(c, v, input);
      var a := CheckVersion(c, v, input, 0);
      if a.ok {
        var before := BeforeLastTrial(c, v, input);
        CallOfLastTrial(c, v, input);
        CreationRefused(c, before);
      }
    }
  }

  lemma CallOfLastTrial(c: Setup, w: World, input: Input)
    requires !w.status.Broken() && CheckVersion(c, w, input, 0).ok
    ensures !BeforeLastTrial(c, w, input).status.Broken()
  {
    CheckVersionIff(c, w, input);
    SucceedsUnbroken(c, BeforeLastTrial(c, w, input), input);
  }

  lemma SucceedsUnbroken(c: Setup, w: World, input: Input)
    requires Call(c, w, input).ok
    ensures !w.status.Broken()
  {}

  lemma CreationRefused(c: Setup, w: World)
    requires !w.status.Broken() && Call(c, w, Input(CreateSession, 0, 0)).ok
    ensures Call(c, w, Input(CreateSession, 0, 0)).output.success <==> !c.oracle(w.clock).refuses
  {}

  /**
   A new client without a SET_REQUEST in front of an outdated server that can be replaced: its first
   input, when it is answered, is acknowledged and answered by a session of the new server.
   */
  lemma FirstSendUpgrades(c: Setup, server: Server, kind: Kind, payload: Payload)
    requires server.nextId >= 1 && c.request.None? && kind.ForSession()
    requires c.oracle(0).done && Upgraded(c, 1) && !c.oracle(StartTick(c, 1) + 1).refuses
    requires Answers(c.oracle(StartTick(c, 1) + 2))
    ensures var a := EnsureCallCommand(c, Start(server), kind, payload);
            && a.ok && a.world.status.ServerOk?
            && a.output.reply == c.logic.step(Base(c), kind, payload).1
  {
    var w := Start(server);
    var w1 := EnsureConnection(c, w).0;
    assert w1.status.ServerInvalidSession? && w1.clock == 1;
    EnsureSessionIff(c, w);
    CheckVersionIff(c, w1.(id := 0), Input(CreateSession, 0, 0));
    assert !Current(c, 1);
    hide Call, CheckVersion, Upgraded, Less, EnsureConnection, SecondTrial;
    assert EnsureSession(c, w).0.clock == StartTick(c, 1) + 2;
    EnsureMakesFresh(c, w);
    hide EnsureSession;
    SessionCall(c, EnsureSession(c, w).0, kind, payload, Base(c));
  }

  // ---------------------------------------------------------------------------
  // Calls that fail
  // ---------------------------------------------------------------------------

  /** Neither a server nor an answer in time: the server can be started again. */
  predicate LosesServer(tick: Tick) {
    tick.hasClient && (!tick.connected || (tick.protocol == 3 && tick.fate.Lost?))
  }

  /** After a call that fails, EnsureConnection goes on if and only if the server was lost and another can be started. */
  lemma FailureFate(c: Setup, w: World, input: Input)
    requires (w.status.ServerOk? || w.status.ServerInvalidSession? || w.status.ServerShutdown?) && !Call(c, w, input).ok
    requires c.oracle(w.clock).connected ==> c.oracle(w.clock).protocol == 3
    ensures EnsureConnection(c, Call(c, w, input).world).1
       <==> LosesServer(c.oracle(w.clock)) && c.oracle(w.clock + 1).done
  {
    hide Serve;
  }

  /**
   The first attempt of a Send leads to recovery if and only if the server was lost, or answered
   without knowing the session. It gives the server up if and only if no connection could be made at
   all, or the server speaks another protocol, or its answer came too late or could not be read.
   */
  lemma FirstTrialFate(c: Setup, w: World, kind: Kind, payload: Payload)
    requires w.status.ServerOk? && w.id >= 1 && kind.ForSession()
    ensures var tick := c.oracle(w.clock); var status := FirstTrial(c, w, Input(kind, w.id, payload)).world.status;
            && (Recovers(c, w, kind, payload) <==>
                  LosesServer(tick) || (Answered(tick) && (tick.forgotten || w.id !in w.server.sessions)))
            && (status.Broken() <==>
                  !tick.hasClient || (tick.connected && (tick.protocol != 3 || tick.fate.TimedOut? || tick.fate.Garbled?)))
  {}

  /** Reset makes the status that of a new client and keeps everything else, so that a server can be started again. */
  lemma ResetStartsAnew(c: Setup, w: World)
    ensures var r := Reset(w); var n := Start(w.server);
            && r.status == n.status && r.protocol == n.protocol && r.(status := w.status, protocol := w.protocol) == w
            && (EnsureConnection(c, r).1 <==> c.oracle(w.clock).done)
  {}

  /**
   Recovery acknowledges the input exactly when there is a session again and the second trial is
   answered. It empties the journal exactly when that trial fails; without a session nothing of the
   journal is lost.
   */
  lemma RecoveryFate(c: Setup, w: World, kind: Kind, payload: Payload)
    ensures var a := SecondTrial(c, w, kind, payload); var (e, ensured) := EnsureSession(c, w); var p := PlaybackHistory(c, e);
            && (a.ok <==> ensured && !p.status.Broken() && Answered(c.oracle(p.clock)))
            && (!ensured ==> a.world.history == w.history)
            && (ensured && !a.ok ==> a.world.history == [])
  {
    hide EnsureSession, PlaybackHistory, Call, Answered;
    EnsureSessionKeepsJournal(c, w);
    var (e, ensured) := EnsureSession(c, w);
    var p := PlaybackHistory(c, e);
    if !p.status.Broken() {
      CallMeans(c, p, Input(kind, p.id, payload));
    } else if Call(c, p, Input(kind, p.id, payload)).ok {
      SucceedsUnbroken(c, p, Input(kind, p.id, payload));
    }
  }

  /** A Send that gives the server up at its first attempt, or gets no session for it, keeps the whole journal. */
  lemma GivingUpKeepsJournal(c: Setup, w: World, kind: Kind, payload: Payload)
    requires var (e, ensured) := EnsureSession(c, w);
             ensured ==> FirstTrial(c, e, Input(kind, e.id, payload)).world.status.Broken()
    ensures var a := EnsureCallCommand(c, w, kind, payload); !a.ok && a.world.history == w.history
  {
    hide EnsureSession, Call;
    EnsureSessionKeepsJournal(c, w);
    var (e, ensured) := EnsureSession(c, w);
    CallKeeps(c, e, Input(kind, e.id, payload));
  }
}
