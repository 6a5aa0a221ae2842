/**
 The client of src/client/client.cc and the server it talks to, as functions from one state of
 both to the next. Everything the outside world decides is read from an oracle, one tick for
 each attempt to reach, start or stop the server.
 */
module ClientModel {
  import opened Options

  const IPC_PROTOCOL_VERSION := 3
  const MAX_PLAYBACK_SIZE := 512

  /** Session states, what users send and what sessions answer; any numbering of them will do. */
  type Session = nat
  type Payload = nat

  datatype Kind =
    | CreateSession | DeleteSession | SendKey | TestSendKey | SendCommand | SetRequest
    | NoOperation | Shutdown | OtherCommand
  {
    /** The inputs a session itself handles. */
    predicate ForSession() {
      SendKey? || TestSendKey? || SendCommand?
    }
  }

  datatype Input = Input(kind: Kind, id: nat, payload: Payload)

  datatype Reply = Reply(consumed: bool, hasResult: bool, body: nat)

  datatype Output = Output(id: nat, success: bool, reply: Reply)

  const NO_REPLY := Reply(false, false, 0)

  /** ServerStatus, in the order its comparisons rely on. */
  datatype Status =
    | ServerUnknown | ServerShutdown | ServerInvalidSession | ServerOk
    | ServerTimeout | ServerVersionMismatch | ServerBrokenMessage | ServerFatal
  {
    /** At least SERVER_TIMEOUT: the server is not called any more. */
    predicate Broken() {
      ServerTimeout? || ServerVersionMismatch? || ServerBrokenMessage? || ServerFatal?
    }
  }

  datatype Version = UnknownVersion | Version(parts: seq<nat>) {
    /** Version::CompareVersion: older, number by number. */
    predicate Before(other: Version) {
      Version? && other.Version? && Less(parts, other.parts)
    }
  }

  predicate Less(a: seq<nat>, b: seq<nat>) {
    if b == [] then false
    else if a == [] then true
    else if a[0] != b[0] then a[0] < b[0]
    else Less(a[1..], b[1..])
  }

  // ---------------------------------------------------------------------------
  // The server
  // ---------------------------------------------------------------------------

  /** How one session behaves: its first state, and its answer and next state for each input. */
  datatype Logic = Logic(initial: Session, step: (Session, Kind, Payload) -> (Session, Reply))

  datatype Server = Server(sessions: map<nat, Session>, nextId: nat)

  /** One request, evaluated by the server. It may refuse a new session that comes too soon. */
  function Serve(logic: Logic, server: Server, input: Input, refuses: bool): (Server, Output) {
    if input.kind.CreateSession? && refuses then (server, Output(0, false, NO_REPLY))
    else if input.kind.CreateSession? then
      (Server(server.sessions[server.nextId := logic.initial], server.nextId + 1), Output(server.nextId, true, NO_REPLY))
    else if input.kind.ForSession() || input.kind.SetRequest? then
      if input.id in server.sessions then
        var (next, reply) := logic.step(server.sessions[input.id], input.kind, input.payload);
        (server.(sessions := server.sessions[input.id := next]), Output(input.id, true, reply))
      else (server, Output(0, false, NO_REPLY))
    else if input.kind.DeleteSession? then
      (server.(sessions := server.sessions - {input.id}), Output(input.id, true, NO_REPLY))
    else if input.kind.Shutdown? then
      (server.(sessions := map[]), Output(input.id, true, NO_REPLY))
    else (server, Output(input.id, true, NO_REPLY))
  }

  // ---------------------------------------------------------------------------
  // What the outside world decides
  // ---------------------------------------------------------------------------

  /** The end of one request: answered, lost with or without being executed, too late, or unreadable. */
  datatype Fate = Delivered | Lost(executed: bool) | TimedOut(executed: bool) | Garbled

  /**
   One attempt to reach, start or stop the server. `forgotten` says that the server has crashed
   or dropped its sessions since the last tick.
   */
  datatype Tick = Tick(
    forgotten: bool, hasClient: bool, connected: bool, protocol: nat, product: Version, fate: Fate,
    refuses: bool, done: bool)

  /** What stays fixed during a run. */
  datatype Setup = Setup(logic: Logic, oracle: nat -> Tick, request: Option<Payload>, version: Version)

  datatype Event = Issued(input: Input) | Started | Terminated

  /** Client and server together, and what has happened between them. */
  datatype World = World(
    id: nat, status: Status, protocol: nat, product: Version, history: seq<Input>,
    server: Server, clock: nat, log: seq<Event>)

  function Forget(server: Server, tick: Tick): Server {
    if tick.forgotten then server.(sessions := map[]) else server
  }

  /** Takes the next tick. */
  function Advance(c: Setup, w: World): World {
    w.(clock := w.clock + 1, server := Forget(w.server, c.oracle(w.clock)))
  }

  const NO_OUTPUT := Output(0, false, NO_REPLY)

  // ---------------------------------------------------------------------------
  // The client's operations
  // ---------------------------------------------------------------------------

  datatype Answer = Answer(world: World, ok: bool, output: Output)

  /** Client::Call. */
  function Call(c: Setup, w: World, input: Input): Answer {
    if w.status.Broken() then Answer(w, false, NO_OUTPUT)
    else
      var tick := c.oracle(w.clock);
      var w := Advance(c, w).(protocol := IPC_PROTOCOL_VERSION, product := c.version);
      if !tick.hasClient then Answer(w.(status := ServerFatal), false, NO_OUTPUT)
      else if !tick.connected then
        Answer(if w.status.ServerUnknown? then w else w.(status := ServerShutdown), false, NO_OUTPUT)
      else
        var w := w.(protocol := tick.protocol, product := tick.product);
        if tick.protocol != IPC_PROTOCOL_VERSION then Answer(w, false, NO_OUTPUT)
        else
          var w := w.(log := w.log + [Issued(input)]);
          var (server, output) := Serve(c.logic, w.server, input, tick.refuses);
          match tick.fate
          case Delivered => Answer(w.(server := server), true, output)
          case Lost(executed) =>
            Answer(w.(server := if executed then server else w.server, status := ServerShutdown), false, NO_OUTPUT)
          case TimedOut(executed) =>
            Answer(w.(server := if executed then server else w.server, status := ServerTimeout), false, NO_OUTPUT)
          case Garbled => Answer(w.(server := server, status := ServerBrokenMessage), false, NO_OUTPUT)
  }

  /** Client::CallAndCheckVersion. */
  function CallAndCheckVersion(c: Setup, w: World, input: Input): Answer {
    var a := Call(c, w, input);
    if !a.ok && a.world.protocol != IPC_PROTOCOL_VERSION
    then a.(world := a.world.(status := ServerVersionMismatch))
    else a
  }

  /** ServerLauncher::StartServer, seen from the client. */
  function StartServer(c: Setup, w: World): (World, bool) {
    (Advance(c, w).(log := w.log + [Started]), c.oracle(w.clock).done)
  }

  /** Client::EnsureConnection. */
  function EnsureConnection(c: Setup, w: World): (World, bool) {
    match w.status
    case ServerOk => (w, true)
    case ServerInvalidSession => (w, true)
    case ServerFatal => (w, false)
    case ServerTimeout => (w.(status := ServerFatal), false)
    case ServerBrokenMessage => (w.(status := ServerFatal), false)
    case ServerVersionMismatch => (w.(status := ServerFatal), false)
    case _ =>
      var (w, started) := StartServer(c, w);
      (w.(status := if started then ServerInvalidSession else ServerFatal), started)
  }

  /** Client::CallCommand. */
  function CallCommand(c: Setup, w: World, kind: Kind): (World, bool) {
    var a := Call(c, w, Input(kind, w.id, 0));
    (a.world, a.ok)
  }

  /** Client::Shutdown: the command's own result does not matter, only whether the process ends. */
  function ShutdownServer(c: Setup, w: World): (World, bool) {
    var w := CallCommand(c, w, Shutdown).0;
    (Advance(c, w), c.oracle(w.clock).done)
  }

  /** ForceTerminateServer and, when it succeeds, WaitServer. */
  function ForceTerminate(c: Setup, w: World): (World, bool) {
    var done := c.oracle(w.clock).done;
    var w := Advance(c, w).(log := w.log + [Terminated]);
    if done then (Advance(c, w), true) else (w.(status := ServerBrokenMessage), false)
  }

  /** The part of CheckVersionOrRestartServerInternal that restarts an outdated server. */
  function Restart(c: Setup, w: World, polite: bool): (World, bool) {
    var (w, stopped) := if polite then ShutdownServer(c, w) else (w, false);
    var (w, going) := if stopped then (w, true) else ForceTerminate(c, w);
    if !going then (w, false)
    else
      var (w, connected) := EnsureConnection(c, w.(status := ServerUnknown));
      if connected then (w, true) else (w.(status := ServerVersionMismatch), false)
  }

  /** Client::CheckVersionOrRestartServerInternal from the given trial on. */
  function CheckVersion(c: Setup, w: World, input: Input, trial: nat): Answer
    decreases 2 - trial
  {
    if trial >= 2 then Answer(w, false, NO_OUTPUT)
    else
      var a := Call(c, w, input);
      var w := a.world;
      if !a.ok && w.protocol > IPC_PROTOCOL_VERSION then
        Answer(w.(status := ServerVersionMismatch), false, NO_OUTPUT)
      else
        var outdated := w.product.Before(c.version);
        if (a.ok && outdated) || (!a.ok && w.protocol < IPC_PROTOCOL_VERSION) then
          if trial > 0 then Answer(w.(status := ServerBrokenMessage), false, NO_OUTPUT)
          else
            var (w, restarted) := Restart(c, w, a.ok && outdated);
            if restarted then CheckVersion(c, w, input, 1) else Answer(w, false, NO_OUTPUT)
        else a
  }

  /** Client::CreateSession. */
  function CreateNewSession(c: Setup, w: World): (World, bool) {
    var a := CheckVersion(c, w.(id := 0), Input(CreateSession, 0, 0), 0);
    if !a.ok then (a.world, false)
    else if !a.output.success then (a.world.(status := ServerInvalidSession), false)
    else (a.world.(id := a.output.id), true)
  }

  /** SET_REQUEST, whose result EnsureSession ignores. */
  function SendRequest(c: Setup, w: World): World {
    match c.request
    case None => w
    case Some(r) => Call(c, w, Input(SetRequest, w.id, r)).world
  }

  /** Client::EnsureSession. */
  function EnsureSession(c: Setup, w: World): (World, bool) {
    var (w, connected) := EnsureConnection(c, w);
    if !connected then (w, false)
    else if w.status.ServerOk? then (w, true)
    else
      var (w, created) := CreateNewSession(c, w);
      if !created then (EnsureConnection(c, w).0, false)
      else (SendRequest(c, w).(status := ServerOk), true)
  }

  /** The loop of Client::PlaybackHistory, from entry `i` on. */
  function Playback(c: Setup, w: World, i: nat): World
    requires i <= |w.history|
    decreases |w.history| - i
  {
    if i == |w.history| then w
    else
      var input := w.history[i].(id := w.id);
      var a := Call(c, w.(history := w.history[i := input]), input);
      if !a.ok then a.world else Playback(c, a.world, i + 1)
  }

  /** Client::PlaybackHistory. */
  function PlaybackHistory(c: Setup, w: World): World {
    if |w.history| >= MAX_PLAYBACK_SIZE then w.(history := []) else Playback(c, w, 0)
  }

  /** Client::PushHistory. */
  function PushHistory(history: seq<Input>, input: Input, output: Output): (h: seq<Input>)
  {
    if !output.reply.consumed then history
    else if input.kind.SendKey? && output.reply.hasResult then []
    else if |history| < MAX_PLAYBACK_SIZE then history + [input]
    else history
  }

  /** The first attempt of Client::EnsureCallCommand, with the check of the session id. */
  function FirstTrial(c: Setup, w: World, input: Input): Answer {
    var a := CallAndCheckVersion(c, w, input);
    if a.ok && a.output.id != input.id then a.(world := a.world.(status := ServerInvalidSession)) else a
  }

  /** Client::EnsureCallCommand. */
  function EnsureCallCommand(c: Setup, w: World, kind: Kind, payload: Payload): Answer {
    var (w, ensured) := EnsureSession(c, w);
    if !ensured then Answer(w, false, NO_OUTPUT)
    else
      var a := FirstTrial(c, w, Input(kind, w.id, payload));
      if a.world.status.Broken() then Answer(a.world, false, NO_OUTPUT)
      else if a.world.status.ServerShutdown? || a.world.status.ServerInvalidSession? then
        SecondTrial(c, a.world, kind, payload)
      else Finish(a.world, Input(kind, w.id, payload), a.output)
  }

  /** Recovery: a new session, the journal played back into it, and the input once more. */
  function SecondTrial(c: Setup, w: World, kind: Kind, payload: Payload): Answer {
    var (w, ensured) := EnsureSession(c, w);
    if !ensured then Answer(w, false, NO_OUTPUT)
    else
      var w := PlaybackHistory(c, w);
      var input := Input(kind, w.id, payload);
      var a := CallAndCheckVersion(c, w, input);
      if a.ok then Finish(a.world, input, a.output)
      else Answer(a.world.(history := []), false, NO_OUTPUT)
  }

  function Finish(w: World, input: Input, output: Output): Answer {
    Answer(w.(history := PushHistory(w.history, input, output)), true, output)
  }

  /** Client::CheckVersionOrRestartServer. */
  function CheckVersionOrRestartServer(c: Setup, w: World): (World, bool) {
    var a := CheckVersion(c, w, Input(NoOperation, 0, 0), 0);
    if a.ok then (a.world, true) else EnsureConnection(c, a.world)
  }

  /** Client::Reset. */
  function Reset(w: World): World {
    w.(status := ServerUnknown, protocol := 0)
  }

  /** A new client in front of a server. */
  function Start(server: Server): World {
    World(0, ServerUnknown, 0, UnknownVersion, [], server, 0, [])
  }
}
