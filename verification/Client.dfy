/**
 Client of src/client/client.cc, method by method. Each method is proved to move client and outside
 world as the function of the same step in ClientModel does.
 */
module MozcClient {
  import opened ClientModel
  import opened ClientSafety
  import opened Options

  /** The server, the launcher and the connection between them and the client. */
  class Outside {
    const setup: Setup
    var server: Server
    var clock: nat
    var log: seq<Event>

    constructor (setup: Setup, server: Server)
      ensures this.setup == setup && this.server == server && clock == 0 && log == []
    {
      this.setup, this.server, clock, log := setup, server, 0, [];
    }

    /** One attempt to reach, start or stop the server. */
    method Attempt() returns (tick: Tick)
      modifies this
      ensures tick == setup.oracle(old(clock)) && clock == old(clock) + 1
      ensures server == Forget(old(server), tick) && log == old(log)
    {
      tick := setup.oracle(clock);
      if tick.forgotten {
        server := server.(sessions := map[]);
      }
      clock := clock + 1;
    }

    method Record(e: Event)
      modifies `log
      ensures log == old(log) + [e]
    {
      log := log + [e];
    }

    /** IPCClientInterface::Call together with what the server does about it. */
    method Exchange(input: Input, tick: Tick) returns (output: Output)
      modifies this
      ensures clock == old(clock) && log == old(log) + [Issued(input)]
      ensures output == Serve(setup.logic, old(server), input, tick.refuses).1
      ensures server ==
              if (tick.fate.Lost? || tick.fate.TimedOut?) && !tick.fate.executed then old(server)
              else Serve(setup.logic, old(server), input, tick.refuses).0
    {
      Record(Issued(input));
      var (next, answer) := Serve(setup.logic, server, input, tick.refuses);
      output := answer;
      match tick.fate
      case Lost(executed) => if executed { server := next; }
      case TimedOut(executed) => if executed { server := next; }
      case _ => server := next;
    }
  }

  class Client {
    const outside: Outside
    var id: nat
    var serverStatus: Status
    var serverProtocolVersion: nat
    var serverProductVersion: Version
    var historyInputs: seq<Input>

    constructor (outside: Outside)
      ensures this.outside == outside
      ensures Snapshot() == Start(outside.server).(clock := outside.clock, log := outside.log)
    {
      this.outside := outside;
      id := 0;
      serverStatus := ServerUnknown;
      serverProtocolVersion := 0;
      serverProductVersion := UnknownVersion;
      historyInputs := [];
    }

    ghost function Snapshot(): World
      reads this, outside
    {
      World(id, serverStatus, serverProtocolVersion, serverProductVersion, historyInputs,
            outside.server, outside.clock, outside.log)
    }

    method Call(input: Input) returns (ok: bool, output: Output)
      modifies this, outside
      ensures Answer(Snapshot(), ok, output) == ClientModel.Call(outside.setup, old(Snapshot()), input)
    {
      hide Serve;
      output := NO_OUTPUT;
      if serverStatus.Broken() {
        return false, output;
      }
      var tick := outside.Attempt();
      serverProtocolVersion := IPC_PROTOCOL_VERSION;
      serverProductVersion := outside.setup.version;
      if !tick.hasClient {
        serverStatus := ServerFatal;
        return false, output;
      }
      if !tick.connected {
        if serverStatus != ServerUnknown {
          serverStatus := ServerShutdown;
        }
        return false, output;
      }
      serverProtocolVersion := tick.protocol;
      serverProductVersion := tick.product;
      if serverProtocolVersion != IPC_PROTOCOL_VERSION {
        return false, output;
      }
      var response := outside.Exchange(input, tick);
      if tick.fate.TimedOut? {
        serverStatus := ServerTimeout;
        return false, output;
      }
      if tick.fate.Lost? {
        serverStatus := ServerShutdown;
        return false, output;
      }
      if tick.fate.Garbled? {
        serverStatus := ServerBrokenMessage;
        return false, output;
      }
      return true, response;
    }

    method CallAndCheckVersion(input: Input) returns (ok: bool, output: Output)
      modifies this, outside
      ensures Answer(Snapshot(), ok, output)
              == ClientModel.CallAndCheckVersion(outside.setup, old(Snapshot()), input)
    {
      hide ClientModel.Call;
      ok, output := Call(input);
      if !ok {
        if serverProtocolVersion != IPC_PROTOCOL_VERSION {
          serverStatus := ServerVersionMismatch;
        }
      }
    }

    method CallCommand(kind: Kind) returns (ok: bool)
      modifies this, outside
      ensures (Snapshot(), ok) == ClientModel.CallCommand(outside.setup, old(Snapshot()), kind)
    {
      hide ClientModel.Call;
      var output;
      ok, output := Call(Input(kind, id, 0));
    }

    method Shutdown() returns (ok: bool)
      modifies this, outside
      ensures (Snapshot(), ok) == ShutdownServer(outside.setup, old(Snapshot()))
    {
      hide ClientModel.CallCommand;
      var called := CallCommand(Kind.Shutdown);
      var tick := outside.Attempt();
      ok := tick.done;
    }

    method EnsureConnection() returns (ok: bool)
      modifies this, outside
      ensures (Snapshot(), ok) == ClientModel.EnsureConnection(outside.setup, old(Snapshot()))
    {
      match serverStatus
      case ServerOk => return true;
      case ServerInvalidSession => return true;
      case ServerFatal => return false;
      case ServerTimeout =>
        serverStatus := ServerFatal;
        return false;
      case ServerBrokenMessage =>
        serverStatus := ServerFatal;
        return false;
      case ServerVersionMismatch =>
        serverStatus := ServerFatal;
        return false;
      case _ =>
        var tick := outside.Attempt();
        outside.Record(Started);
        if tick.done {
          serverStatus := ServerInvalidSession;
          return true;
        } else {
          serverStatus := ServerFatal;
          return false;
        }
    }

    /** The branch of CheckVersionOrRestartServerInternal that replaces an outdated server. */
    method RestartServer(callResult: bool, versionUpgraded: bool) returns (ok: bool)
      modifies this, outside
      ensures (Snapshot(), ok) == Restart(outside.setup, old(Snapshot()), callResult && versionUpgraded)
    {
      hide ShutdownServer, ClientModel.EnsureConnection;
      var stopped := false;
      if callResult && versionUpgraded {
        stopped := Shutdown();
      }
      if !stopped {
        var tick := outside.Attempt();
        outside.Record(Terminated);
        if !tick.done {
          serverStatus := ServerBrokenMessage;
          return false;
        }
        var waited := outside.Attempt();
      }
      serverStatus := ServerUnknown;
      ok := EnsureConnection();
      if !ok {
        serverStatus := ServerVersionMismatch;
      }
    }

    method CheckVersionOrRestartServerInternal(input: Input) returns (ok: bool, output: Output)
      modifies this, outside
      ensures Answer(Snapshot(), ok, output) == CheckVersion(outside.setup, old(Snapshot()), input, 0)
    {
      hide ClientModel.Call, Restart;
      for trial := 0 to 2
        invariant CheckVersion(outside.setup, Snapshot(), input, trial)
                  == CheckVersion(outside.setup, old(Snapshot()), input, 0)
      {
        ok, output := Call(input);
        if !ok && serverProtocolVersion > IPC_PROTOCOL_VERSION {
          serverStatus := ServerVersionMismatch;
          return false, NO_OUTPUT;
        }
        var versionUpgraded := serverProductVersion.Before(outside.setup.version);
        if (ok && versionUpgraded) || (!ok && serverProtocolVersion < IPC_PROTOCOL_VERSION) {
          if trial > 0 {
            serverStatus := ServerBrokenMessage;
            return false, NO_OUTPUT;
          }
          var restarted := RestartServer(ok, versionUpgraded);
          if !restarted {
            return false, NO_OUTPUT;
          }
          continue;
        }
        return;
      }
      return false, NO_OUTPUT;
    }

    method CheckVersionOrRestartServer() returns (ok: bool)
      modifies this, outside
      ensures (Snapshot(), ok) == ClientModel.CheckVersionOrRestartServer(outside.setup, old(Snapshot()))
    {
      hide CheckVersion, ClientModel.EnsureConnection;
      var checked, output := CheckVersionOrRestartServerInternal(Input(NoOperation, 0, 0));
      if !checked {
        var connected := EnsureConnection();
        if !connected {
          return false;
        }
      }
      return true;
    }

    method CreateSession() returns (ok: bool)
      modifies this, outside
      ensures (Snapshot(), ok) == CreateNewSession(outside.setup, old(Snapshot()))
    {
      hide CheckVersion;
      id := 0;
      var checked, output := CheckVersionOrRestartServerInternal(Input(Kind.CreateSession, 0, 0));
      if !checked {
        return false;
      }
      if !output.success {
        serverStatus := ServerInvalidSession;
        return false;
      }
      id := output.id;
      return true;
    }

    method EnsureSession() returns (ok: bool)
      modifies this, outside
      ensures (Snapshot(), ok) == ClientModel.EnsureSession(outside.setup, old(Snapshot()))
    {
      hide ClientModel.Call, CreateNewSession, ClientModel.EnsureConnection;
      var connected := EnsureConnection();
      if !connected {
        return false;
      }
      if serverStatus == ServerOk {
        return true;
      }
      var created := CreateSession();
      if !created {
        connected := EnsureConnection();
        return false;
      }
      match outside.setup.request {
        case Some(request) => var called, output := Call(Input(SetRequest, id, request));
        case None =>
      }
      serverStatus := ServerOk;
      return true;
    }

    method ResetHistory()
      modifies this
      ensures Snapshot() == old(Snapshot()).(history := [])
    {
      historyInputs := [];
    }

    method PlaybackHistory()
      modifies this, outside
      ensures Snapshot() == ClientModel.PlaybackHistory(outside.setup, old(Snapshot()))
    {
      hide ClientModel.Call;
      if |historyInputs| >= MAX_PLAYBACK_SIZE {
        ResetHistory();
        return;
      }
      var i := 0;
      while i < |historyInputs|
        invariant i <= |historyInputs| == |old(historyInputs)|
        invariant Playback(outside.setup, Snapshot(), i) == Playback(outside.setup, old(Snapshot()), 0)
      {
        historyInputs := historyInputs[i := historyInputs[i].(id := id)];
        CallKeeps(outside.setup, Snapshot(), historyInputs[i]);
        var ok, output := Call(historyInputs[i]);
        if !ok {
          break;
        }
        i := i + 1;
      }
    }

    method PushHistory(input: Input, output: Output)
      modifies this
      ensures Snapshot() == old(Snapshot()).(history := ClientModel.PushHistory(old(historyInputs), input, output))
    {
      if !output.reply.consumed {
        return;
      }
      if |historyInputs| < MAX_PLAYBACK_SIZE {
        historyInputs := historyInputs + [input];
      }
      if input.kind == SendKey && output.reply.hasResult {
        ResetHistory();
      }
    }

    /** The branch of EnsureCallCommand that restores the session and tries again. */
    method RetryCommand(kind: Kind, payload: Payload) returns (ok: bool, output: Output)
      modifies this, outside
      ensures Answer(Snapshot(), ok, output) == SecondTrial(outside.setup, old(Snapshot()), kind, payload)
    {
      hide ClientModel.Call, ClientModel.EnsureSession, ClientModel.PlaybackHistory, ClientModel.PushHistory;
      hide ClientModel.CallAndCheckVersion;
      var ensured := EnsureSession();
      if !ensured {
        return false, NO_OUTPUT;
      }
      PlaybackHistory();
      var input := Input(kind, id, payload);
      ok, output := CallAndCheckVersion(input);
      if !ok {
        historyInputs := historyInputs + [input];
        ResetHistory();
        return false, NO_OUTPUT;
      }
      PushHistory(input, output);
    }

    method EnsureCallCommand(kind: Kind, payload: Payload) returns (ok: bool, output: Output)
      modifies this, outside
      ensures Answer(Snapshot(), ok, output)
              == ClientModel.EnsureCallCommand(outside.setup, old(Snapshot()), kind, payload)
    {
      hide ClientModel.Call, ClientModel.EnsureSession, SecondTrial, ClientModel.PushHistory;
      hide ClientModel.CallAndCheckVersion;
      var ensured := EnsureSession();
      if !ensured {
        return false, NO_OUTPUT;
      }
      var input := Input(kind, id, payload);
      ok, output := CallAndCheckVersion(input);
      if ok && output.id != input.id {
        serverStatus := ServerInvalidSession;
      }
      if serverStatus.Broken() {
        return false, NO_OUTPUT;
      }
      if serverStatus == ServerShutdown || serverStatus == ServerInvalidSession {
        ok, output := RetryCommand(kind, payload);
        return;
      }
      PushHistory(input, output);
      return true, output;
    }

    method Reset()
      modifies this
      ensures Snapshot() == ClientModel.Reset(old(Snapshot()))
    {
      serverStatus := ServerUnknown;
      serverProtocolVersion := 0;
    }
  }
}
