/**
 * The command loop of the background worker, `worker_task`
 * (src/worker.rs:36-89). Each command reads the server address from the
 * window, makes its HTTP requests and writes the outcome back to the window;
 * a successful login also starts a streaming session for the user.
 *
 * HTTP is not modelled: the answers the network gives for a command are the
 * `Exchange` passed with it.
 */
module Worker {
  import opened Wrappers
  import opened Records
  import opened Ui

  /** The status code `StatusCode::OK`. */
  const StatusOk: int := 200

  /** An HTTP response as far as the worker looks at it: its status and its `Authorization` header, if present and readable as text. */
  datatype Response = Response(status: int, authorization: Option<string>)

  /**
   * What the network answered for one command: `response` is `None` when the
   * request could not be sent; `selfUser` is the username from GET /self_user,
   * `None` when that request or the JSON of its body fails. Only a login that
   * got status 200 goes on to ask for `selfUser`.
   */
  datatype Exchange = Exchange(response: Option<Response>, selfUser: Option<string>)

  /** A streaming session the worker started: for this user, against this server. */
  datatype Session = Session(username: string, serverAddress: string)

  /**
   * Where the worker task panics on a command: a request that could not be
   * sent, or an accepted login without a readable token or without a username.
   */
  predicate Panics(command: WorkerMessage, exchange: Exchange) {
    || exchange.response.None?
    || (command.AttemptLogin? && exchange.response.value.status == StatusOk &&
        (exchange.response.value.authorization.None? || exchange.selfUser.None?))
  }

  /** A login that gets through to the streaming phase. */
  predicate LoginSucceeds(command: WorkerMessage, exchange: Exchange) {
    command.AttemptLogin? && !Panics(command, exchange) && exchange.response.value.status == StatusOk
  }

  /** How many of the commands are login attempts. */
  function LoginAttempts(commands: seq<WorkerMessage>): nat {
    if commands == [] then 0
    else LoginAttempts(commands[..|commands| - 1]) + (if commands[|commands| - 1].AttemptLogin? then 1 else 0)
  }

  /** The sessions that a run of commands starts against `address`: one per successful login, in order. */
  function StartedSessions(commands: seq<WorkerMessage>, exchanges: seq<Exchange>, address: string): (ss: seq<Session>)
    requires |commands| == |exchanges|
    ensures forall k :: 0 <= k < |ss| ==> ss[k].serverAddress == address
  {
    if commands == [] then []
    else
      var n := |commands| - 1;
      StartedSessions(commands[..n], exchanges[..n], address) +
        (if LoginSucceeds(commands[n], exchanges[n]) then [Session(exchanges[n].selfUser.value, address)] else [])
  }

  /** A run of commands starts at most one session per login attempt. */
  lemma {:induction false} AtMostOneSessionPerLogin(commands: seq<WorkerMessage>, exchanges: seq<Exchange>, address: string)
    requires |commands| == |exchanges|
    ensures |StartedSessions(commands, exchanges, address)| <= LoginAttempts(commands)
  {
    if commands != [] {
      var n := |commands| - 1;
      AtMostOneSessionPerLogin(commands[..n], exchanges[..n], address);
    }
  }

  /** Registration never starts a streaming session. */
  lemma {:induction false} RegistrationsStartNoSession(commands: seq<WorkerMessage>, exchanges: seq<Exchange>, address: string)
    requires |commands| == |exchanges|
    requires forall k :: 0 <= k < |commands| ==> commands[k].AttemptRegister?
    ensures StartedSessions(commands, exchanges, address) == []
  {
    if commands != [] {
      var n := |commands| - 1;
      RegistrationsStartNoSession(commands[..n], exchanges[..n], address);
    }
  }

  /** A command the server answered with status 200, and that did not panic. */
  predicate Accepted(command: WorkerMessage, exchange: Exchange) {
    !Panics(command, exchange) && exchange.response.value.status == StatusOk
  }

  /** A command the server answered with a status other than 200. */
  predicate Rejected(command: WorkerMessage, exchange: Exchange) {
    !Panics(command, exchange) && exchange.response.value.status != StatusOk
  }

  /**
   * The screen after a run of commands that starts on `s0`: the one set by the
   * last accepted command (`Cameras` after a login, `Login` after a
   * registration), or `s0` if none was accepted.
   */
  function ScreenAfter(commands: seq<WorkerMessage>, exchanges: seq<Exchange>, s0: WindowState): WindowState
    requires |commands| == |exchanges|
  {
    if commands == [] then s0
    else
      var n := |commands| - 1;
      if Accepted(commands[n], exchanges[n]) then (if commands[n].AttemptLogin? then Cameras else Login)
      else ScreenAfter(commands[..n], exchanges[..n], s0)
  }

  /** The error text after a run of commands that starts with `e0`: the fixed text once any command is rejected. */
  function ErrorAfter(commands: seq<WorkerMessage>, exchanges: seq<Exchange>, e0: string): string
    requires |commands| == |exchanges|
  {
    if commands == [] then e0
    else
      var n := |commands| - 1;
      if Rejected(commands[n], exchanges[n]) then RegisterErrorText
      else ErrorAfter(commands[..n], exchanges[..n], e0)
  }

  /** The error text changes exactly when some command is rejected, and then it is the fixed text. */
  lemma {:induction false} ErrorAfterRejection(commands: seq<WorkerMessage>, exchanges: seq<Exchange>, e0: string)
    requires |commands| == |exchanges|
    ensures (exists k :: 0 <= k < |commands| && Rejected(commands[k], exchanges[k])) ==>
      ErrorAfter(commands, exchanges, e0) == RegisterErrorText
    ensures (forall k :: 0 <= k < |commands| ==> !Rejected(commands[k], exchanges[k])) ==>
      ErrorAfter(commands, exchanges, e0) == e0
  {
    if commands != [] {
      var n := |commands| - 1;
      ErrorAfterRejection(commands[..n], exchanges[..n], e0);
      if !Rejected(commands[n], exchanges[n]) {
        if exists k :: 0 <= k < |commands| && Rejected(commands[k], exchanges[k]) {
          var k :| 0 <= k < |commands| && Rejected(commands[k], exchanges[k]);
          assert commands[..n][k] == commands[k] && exchanges[..n][k] == exchanges[k];
        }
      }
      if forall k :: 0 <= k < |commands| ==> !Rejected(commands[k], exchanges[k]) {
        assert forall k :: 0 <= k < n ==> commands[..n][k] == commands[k] && exchanges[..n][k] == exchanges[k];
      }
    }
  }

  /**
   * After an accepted login that no registration was accepted after, the
   * camera screen is shown; with no accepted command the screen is unchanged.
   */
  lemma {:induction false} ScreenAfterLogin(commands: seq<WorkerMessage>, exchanges: seq<Exchange>, s0: WindowState, k: int)
    requires |commands| == |exchanges|
    requires 0 <= k < |commands| && LoginSucceeds(commands[k], exchanges[k])
    requires forall j :: k < j < |commands| ==> !(commands[j].AttemptRegister? && Accepted(commands[j], exchanges[j]))
    ensures ScreenAfter(commands, exchanges, s0) == Cameras
  {
    var n := |commands| - 1;
    if k < n && !Accepted(commands[n], exchanges[n]) {
      assert forall j :: k < j < n ==> commands[..n][j] == commands[j] && exchanges[..n][j] == exchanges[j];
      ScreenAfterLogin(commands[..n], exchanges[..n], s0, k);
    }
  }

  /** After an accepted registration that no login was accepted after, the login screen is shown. */
  lemma {:induction false} ScreenAfterRegistration(commands: seq<WorkerMessage>, exchanges: seq<Exchange>, s0: WindowState, k: int)
    requires |commands| == |exchanges|
    requires 0 <= k < |commands| && commands[k].AttemptRegister? && Accepted(commands[k], exchanges[k])
    requires forall j :: k < j < |commands| ==> !LoginSucceeds(commands[j], exchanges[j])
    ensures ScreenAfter(commands, exchanges, s0) == Login
  {
    var n := |commands| - 1;
    if k < n && !Accepted(commands[n], exchanges[n]) {
      assert forall j :: k < j < n ==> commands[..n][j] == commands[j] && exchanges[..n][j] == exchanges[j];
      ScreenAfterRegistration(commands[..n], exchanges[..n], s0, k);
    }
  }

  /** A run in which no command is accepted leaves the screen as it was. */
  lemma {:induction false} ScreenAfterNoneAccepted(commands: seq<WorkerMessage>, exchanges: seq<Exchange>, s0: WindowState)
    requires |commands| == |exchanges|
    requires forall k :: 0 <= k < |commands| ==> !Accepted(commands[k], exchanges[k])
    ensures ScreenAfter(commands, exchanges, s0) == s0
  {
    if commands != [] {
      var n := |commands| - 1;
      assert forall k :: 0 <= k < n ==> commands[..n][k] == commands[k] && exchanges[..n][k] == exchanges[k];
      ScreenAfterNoneAccepted(commands[..n], exchanges[..n], s0);
    }
  }

  class Worker {
    const window: MainWindow
    /** The streaming sessions spawned so far, in order. */
    var sessions: seq<Session>
    /** False once the worker task has panicked; it handles no further command. */
    var running: bool

    constructor (window: MainWindow)
      ensures this.window == window && sessions == [] && running
    {
      this.window := window;
      sessions := [];
      running := true;
    }

    /**
     * One turn of the command loop (src/worker.rs:39-87). A rejected login or
     * registration (any status but 200) puts the fixed error text in the error
     * slot and leaves the screen alone; an accepted login shows the camera
     * screen and starts one session for the fetched username at the address
     * read from the window; an accepted registration shows the login screen.
     * Registration never starts a session. A panic writes nothing.
     */
    method Handle(command: WorkerMessage, exchange: Exchange)
      requires running
      modifies this`sessions, this`running, window
      ensures running <==> !Panics(command, exchange)
      ensures window.serverAddress == old(window.serverAddress)
      ensures window.cameras == old(window.cameras) && window.frame == old(window.frame)
      ensures !running ==>
        window.screen == old(window.screen) && window.errorMessage == old(window.errorMessage) && sessions == old(sessions)
      ensures running && exchange.response.value.status != StatusOk ==>
        && window.errorMessage == RegisterErrorText
        && window.screen == old(window.screen)
        && sessions == old(sessions)
      ensures running && exchange.response.value.status == StatusOk && command.AttemptLogin? ==>
        && window.screen == Cameras
        && window.errorMessage == old(window.errorMessage)
        && sessions == old(sessions) + [Session(exchange.selfUser.value, window.serverAddress)]
      ensures running && exchange.response.value.status == StatusOk && command.AttemptRegister? ==>
        && window.screen == Login
        && window.errorMessage == old(window.errorMessage)
        && sessions == old(sessions)
      ensures command.AttemptRegister? ==> sessions == old(sessions)
    {
      var address := window.serverAddress;
      if exchange.response.None? {
        running := false;
        return;
      }
      var response := exchange.response.value;
      match command
      case AttemptLogin(_) =>
        if response.status != StatusOk {
          window.errorMessage := RegisterErrorText;
        } else if response.authorization.None? || exchange.selfUser.None? {
          running := false;
        } else {
          window.screen := Cameras;
          sessions := sessions + [Session(exchange.selfUser.value, address)];
        }
      case AttemptRegister(_) =>
        if response.status != StatusOk {
          window.errorMessage := RegisterErrorText;
        } else {
          window.screen := Login;
        }
    }

    /**
     * The command loop (src/worker.rs:38-88) over the commands received, until
     * one makes the task panic. The sessions it starts are exactly those of
     * the successful logins; the screen is the one the last accepted command
     * set, and the error slot holds the fixed text once a command is rejected;
     * the camera list, the frame and the address are never touched.
     */
    method Run(commands: seq<WorkerMessage>, exchanges: seq<Exchange>) returns (handled: nat)
      requires running
      requires |exchanges| == |commands|
      modifies this`sessions, this`running, window
      ensures handled <= |commands|
      ensures running <==> handled == |commands|
      ensures forall k :: 0 <= k < handled ==> !Panics(commands[k], exchanges[k])
      ensures !running ==> Panics(commands[handled], exchanges[handled])
      ensures sessions == old(sessions) + StartedSessions(commands[..handled], exchanges[..handled], window.serverAddress)
      ensures window.serverAddress == old(window.serverAddress)
      ensures window.cameras == old(window.cameras) && window.frame == old(window.frame)
      ensures window.errorMessage == ErrorAfter(commands[..handled], exchanges[..handled], old(window.errorMessage))
      ensures window.screen == ScreenAfter(commands[..handled], exchanges[..handled], old(window.screen))
    {
      handled := 0;
      while handled < |commands|
        invariant handled <= |commands|
        invariant running
        invariant forall k :: 0 <= k < handled ==> !Panics(commands[k], exchanges[k])
        invariant sessions == old(sessions) + StartedSessions(commands[..handled], exchanges[..handled], window.serverAddress)
        invariant window.serverAddress == old(window.serverAddress)
        invariant window.cameras == old(window.cameras) && window.frame == old(window.frame)
        invariant window.errorMessage == ErrorAfter(commands[..handled], exchanges[..handled], old(window.errorMessage))
        invariant window.screen == ScreenAfter(commands[..handled], exchanges[..handled], old(window.screen))
        decreases |commands| - handled
      {
        Handle(commands[handled], exchanges[handled]);
        if !running {
          return;
        }
        assert commands[..handled + 1][..handled] == commands[..handled];
        assert exchanges[..handled + 1][..handled] == exchanges[..handled];
        handled := handled + 1;
      }
    }
  }
}
