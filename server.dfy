/**
 * The chat backend's TCP server: start-up of the listening socket, the
 * `while (keep_running)` accept loop and the SIGINT handler that clears
 * `keep_running`.
 *
 * Syscalls are not modelled; what the loop learns from them arrives as a
 * sequence of events.  A signal is delivered while the process waits in
 * `accept`; it clears the flag but does not by itself end the wait (only an
 * `AcceptFailed(EINTR)` event does).  The observable effects of the loop on
 * sockets are recorded as a trace of actions.
 *
 * Only SIGINT has a handler, and `send` is called without `MSG_NOSIGNAL`, so
 * sending to a peer that has reset the connection raises SIGPIPE, whose default
 * action ends the process inside the loop.
 */
module Server {

  /** Linux's value of EINTR. */
  const EINTR := 4

  /** The one response the server ever sends. */
  const RESPONSE: string := "HTTP/1.1 200 OK\r\nContent-Type: text/html\r\n\r\n<h1>Welcome to pgin!</h1>"

  /** Range of a 64-bit `ssize_t`, the type `recv` returns. */
  const SSIZE_MIN := -0x8000_0000_0000_0000
  const SSIZE_MAX := 0x7FFF_FFFF_FFFF_FFFF

  /** `size_t` is 64 bits wide: conversion from a signed value wraps modulo 2^64. */
  const SIZE_MODULUS := 0x1_0000_0000_0000_0000

  type SSize = x: int | SSIZE_MIN <= x <= SSIZE_MAX

  /** What the main thread experiences next. */
  datatype Event =
    | Sigint                       // SIGINT is delivered and its handler runs
    | AcceptFailed(errno: int)     // accept returns -1 with this errno
    | Accepted(recvReturn: SSize, peerReset: bool)
      // accept returns a client socket; recv on it returns `recvReturn`, and a send on it
      // raises SIGPIPE exactly when `peerReset`

  /** What the loop does to sockets. */
  datatype Action = ClientAccepted | ResponseSent(bytes: string) | ClientClosed | ServerClosed

  /** How the loop ends, or that it has not ended. */
  datatype Exit =
    | FlagClearedAtCheck           // `while (keep_running)` found the flag cleared
    | InterruptedShutdown          // accept failed with EINTR after the flag was cleared
    | AcceptError(errno: int)      // accept failed with another errno: fatal
    | StillAccepting               // the events ran out while the loop waits in accept
    | KilledBySigpipe              // send raised SIGPIPE and the process died, sockets unclosed

  /** The loop's socket actions, how it ended, and the value `keep_running` holds at that point. */
  datatype Outcome = Outcome(trace: seq<Action>, exit: Exit, running: bool)

  /** Where the loop is: about to test `keep_running`, or waiting in `accept`. */
  datatype Phase = AtCheck | InAccept

  /** The implicit conversion `size_t read_size = recv(...)`. */
  function ToSizeT(x: int): (r: nat)
    ensures r < SIZE_MODULUS
  {
    x % SIZE_MODULUS
  }

  /**
   * The test `read_size > 0` on the converted value holds for every `recv` result but 0,
   * including the error return -1.
   */
  lemma ResponseUnlessZero(x: SSize)
    ensures ToSizeT(x) > 0 <==> x != 0
  {
    if x < 0 {
      assert ToSizeT(x) == x + SIZE_MODULUS;
    }
  }

  /** The actions of one accepted connection: respond when `read_size > 0`, then close the client. */
  function Session(recvReturn: SSize): (t: seq<Action>)
    ensures Sessions(t)
  {
    assert Sessions([]);
    [ClientAccepted] + (if ToSizeT(recvReturn) > 0 then [ResponseSent(RESPONSE)] else []) + [ClientClosed]
  }

  function Prepend(t: seq<Action>, o: Outcome): Outcome
  {
    Outcome(t + o.trace, o.exit, o.running)
  }

  lemma PrependTwice(a: seq<Action>, b: seq<Action>, o: Outcome)
    ensures Prepend(a, Prepend(b, o)) == Prepend(a + b, o)
  {
    assert a + (b + o.trace) == (a + b) + o.trace;
  }

  lemma AppendAssoc(a: seq<Action>, b: seq<Action>, c: seq<Action>)
    ensures a + b + c == a + (b + c)
  {
  }

  /** The reference definition of the accept loop from `phase`, with the flag at `running`. */
  function Run(events: seq<Event>, running: bool, phase: Phase): (o: Outcome)
    ensures o.running ==> running
    ensures o.exit.FlagClearedAtCheck? || o.exit.InterruptedShutdown? ==> !o.running
    decreases |events|, if phase.AtCheck? then 1 else 0
  {
    match phase
    case AtCheck =>
      if running then Run(events, running, InAccept) else Outcome([ServerClosed], FlagClearedAtCheck, false)
    case InAccept =>
      if events == [] then Outcome([], StillAccepting, running)
      else
        match events[0]
        case Sigint => Run(events[1..], false, InAccept)
        case AcceptFailed(errno) =>
          if errno != EINTR then Outcome([ServerClosed], AcceptError(errno), running)
          else if !running then Outcome([ServerClosed], InterruptedShutdown, false)
          else Run(events[1..], running, AtCheck)
        case Accepted(n, reset) =>
          if ToSizeT(n) > 0 && reset then Outcome([ClientAccepted], KilledBySigpipe, running)
          else Prepend(Session(n), Run(events[1..], running, AtCheck))
  }

  /** Traces of whole client sessions: each accept is followed by at most the fixed response, then a close. */
  predicate Sessions(t: seq<Action>)
    decreases |t|
  {
    if t == [] then true
    else if |t| >= 2 && t[0] == ClientAccepted && t[1] == ClientClosed then Sessions(t[2..])
    else if |t| >= 3 && t[0] == ClientAccepted && t[1] == ResponseSent(RESPONSE) && t[2] == ClientClosed then Sessions(t[3..])
    else false
  }

  lemma SessionThenSessions(n: SSize, t: seq<Action>)
    requires Sessions(t)
    ensures Sessions(Session(n) + t)
  {
    var s := Session(n) + t;
    if ToSizeT(n) > 0 {
      assert s[3..] == t;
    } else {
      assert s[2..] == t;
    }
  }

  lemma {:induction false} SessionsNeverCloseServer(t: seq<Action>)
    requires Sessions(t)
    ensures ServerClosed !in t
    decreases |t|
  {
    if t != [] {
      if t[1] == ClientClosed {
        SessionsNeverCloseServer(t[2..]);
        assert t == t[..2] + t[2..];
      } else {
        SessionsNeverCloseServer(t[3..]);
        assert t == t[..3] + t[3..];
      }
    }
  }

  /** What the loop does after it is left with `exit`: close the server socket, unless the process died. */
  function Closing(exit: Exit): seq<Action>
  {
    if exit.KilledBySigpipe? then [] else [ServerClosed]
  }

  /** The loop left `while (keep_running)` and reached `close(server_socket)`. */
  predicate LoopEnded(e: Exit)
  {
    !e.StillAccepting? && !e.KilledBySigpipe?
  }

  /**
   * A trace of complete client sessions, followed by one close of the server socket
   * when, and only when, the loop has ended; a SIGPIPE cuts the last session short
   * after its accept.
   */
  predicate WellEnded(o: Outcome)
  {
    if o.exit.StillAccepting? then Sessions(o.trace)
    else
      var last := if o.exit.KilledBySigpipe? then ClientAccepted else ServerClosed;
      |o.trace| > 0 && o.trace[|o.trace| - 1] == last && Sessions(o.trace[..|o.trace| - 1])
  }

  lemma SessionThenWellEnded(n: SSize, o: Outcome)
    requires WellEnded(o)
    ensures WellEnded(Prepend(Session(n), o))
  {
    var t := o.trace;
    if o.exit.StillAccepting? {
      SessionThenSessions(n, t);
    } else {
      SessionThenSessions(n, t[..|t| - 1]);
      assert (Session(n) + t)[..|Session(n) + t| - 1] == Session(n) + t[..|t| - 1];
    }
  }

  /**
   * Socket ownership: every run of the loop is well ended, so at most one client socket is
   * open at a time, none is open when accept is called, and the server socket is closed
   * last, once the loop has ended.
   */
  lemma {:induction false} RunShape(events: seq<Event>, running: bool, phase: Phase)
    ensures WellEnded(Run(events, running, phase))
    decreases |events|, if phase.AtCheck? then 1 else 0
  {
    match phase
    case AtCheck =>
      if running {
        RunShape(events, running, InAccept);
      }
    case InAccept =>
      if events != [] {
        match events[0]
        case Sigint => RunShape(events[1..], false, InAccept);
        case AcceptFailed(errno) =>
          if errno == EINTR && running {
            RunShape(events[1..], running, AtCheck);
          }
        case Accepted(n, reset) =>
          if !(ToSizeT(n) > 0 && reset) {
            RunShape(events[1..], running, AtCheck);
            SessionThenWellEnded(n, Run(events[1..], running, AtCheck));
          } else {
            assert Sessions([]);
          }
      }
  }

  lemma WellEndedClosesServerOnce(o: Outcome)
    requires WellEnded(o)
    ensures multiset(o.trace)[ServerClosed] == if LoopEnded(o.exit) then 1 else 0
  {
    if o.exit.StillAccepting? {
      SessionsNeverCloseServer(o.trace);
    } else {
      var body := o.trace[..|o.trace| - 1];
      SessionsNeverCloseServer(body);
      assert o.trace == body + [o.trace[|o.trace| - 1]];
    }
  }

  /**
   * The server socket is closed exactly once if the loop ends, and not at all while it
   * waits or when SIGPIPE ends the process.
   */
  lemma ServerClosedOnce(events: seq<Event>, running: bool, phase: Phase)
    ensures var o := Run(events, running, phase);
            multiset(o.trace)[ServerClosed] == if LoopEnded(o.exit) then 1 else 0
  {
    RunShape(events, running, phase);
    WellEndedClosesServerOnce(Run(events, running, phase));
  }

  /** A connection gets the fixed response exactly when `recv` did not return 0. */
  lemma SessionResponds(n: SSize)
    ensures ResponseSent(RESPONSE) in Session(n) <==> n != 0
    ensures forall a | a in Session(n) && a.ResponseSent? :: a.bytes == RESPONSE
    ensures Session(n)[0] == ClientAccepted && Session(n)[|Session(n)| - 1] == ClientClosed
  {
    ResponseUnlessZero(n);
  }

  /** accept failing with EINTR: another iteration while the flag is set, a clean exit once it is cleared. */
  lemma InterruptedAccept(rest: seq<Event>, running: bool)
    ensures running ==> Run([AcceptFailed(EINTR)] + rest, running, InAccept) == Run(rest, true, InAccept)
    ensures !running ==> Run([AcceptFailed(EINTR)] + rest, running, InAccept) == Outcome([ServerClosed], InterruptedShutdown, false)
  {
    assert ([AcceptFailed(EINTR)] + rest)[1..] == rest;
  }

  /** accept failing with any other errno ends the loop, whatever the flag and the later events. */
  lemma FatalAccept(errno: int, rest: seq<Event>, running: bool)
    requires errno != EINTR
    ensures Run([AcceptFailed(errno)] + rest, running, InAccept) == Outcome([ServerClosed], AcceptError(errno), running)
  {
  }

  /**
   * Responding to a peer that has reset the connection ends the process: the client and
   * the server socket stay unclosed and no later event is handled.
   */
  lemma ResetPeerKills(n: SSize, rest: seq<Event>, running: bool)
    requires n != 0
    ensures Run([Accepted(n, true)] + rest, running, InAccept) == Outcome([ClientAccepted], KilledBySigpipe, running)
  {
    ResponseUnlessZero(n);
  }

  /**
   * Once the flag is cleared, at most the connection already being accepted is served:
   * the next check or accept outcome ends the loop.
   */
  lemma {:induction false} ShutdownServesAtMostOne(events: seq<Event>)
    ensures Run(events, false, AtCheck) == Outcome([ServerClosed], FlagClearedAtCheck, false)
    ensures var o := Run(events, false, InAccept);
            multiset(o.trace)[ClientAccepted] <= 1 && (o.exit.StillAccepting? ==> o.trace == [])
  {
    if events != [] {
      match events[0]
      case Sigint => ShutdownServesAtMostOne(events[1..]);
      case AcceptFailed(errno) =>
      case Accepted(n, reset) =>
        if !(ToSizeT(n) > 0 && reset) {
          assert Run(events, false, InAccept).trace == Session(n) + [ServerClosed];
        }
    }
  }

  /** The process's sockets and the `keep_running` flag. */
  class Listener {
    var keepRunning: bool
    var serverOpen: bool
    var clientOpen: bool
    var trace: seq<Action>

    /** `socket` succeeded: the server socket is open and the flag starts at 1. */
    constructor ()
      ensures keepRunning && serverOpen && !clientOpen && trace == []
    {
      keepRunning := true;
      serverOpen := true;
      clientOpen := false;
      trace := [];
    }

    /** sigint_handler: the flag only ever goes to 0. */
    method SigintHandler()
      modifies this`keepRunning
      ensures !keepRunning
    {
      keepRunning := false;
    }

    /** A successful accept: a client socket is open, and only one at a time. */
    method AcceptClient()
      requires serverOpen && !clientOpen
      modifies this`clientOpen, this`trace
      ensures clientOpen && trace == old(trace) + [ClientAccepted]
    {
      clientOpen := true;
      trace := trace + [ClientAccepted];
    }

    method SendResponse()
      requires clientOpen
      modifies this`trace
      ensures trace == old(trace) + [ResponseSent(RESPONSE)]
    {
      trace := trace + [ResponseSent(RESPONSE)];
    }

    method CloseClient()
      requires clientOpen
      modifies this`clientOpen, this`trace
      ensures !clientOpen && trace == old(trace) + [ClientClosed]
    {
      clientOpen := false;
      trace := trace + [ClientClosed];
    }

    /** `close(server_socket)`: allowed once, with no client socket left open. */
    method CloseServer()
      requires serverOpen && !clientOpen
      modifies this`serverOpen, this`trace
      ensures !serverOpen && trace == old(trace) + [ServerClosed]
    {
      serverOpen := false;
      trace := trace + [ServerClosed];
    }

    /**
     * One accepted connection: `recv`, the response when `read_size > 0`, and the close of
     * the client, unless the send raises SIGPIPE and the process ends with the client open.
     */
    method HandleClient(recvReturn: SSize, peerReset: bool) returns (killed: bool)
      requires serverOpen && !clientOpen
      modifies this`clientOpen, this`trace
      ensures killed == (ToSizeT(recvReturn) > 0 && peerReset)
      ensures killed ==> clientOpen && trace == old(trace) + [ClientAccepted]
      ensures !killed ==> !clientOpen && trace == old(trace) + Session(recvReturn)
    {
      AcceptClient();
      var readSize := ToSizeT(recvReturn);
      killed := false;
      if readSize > 0 {
        if peerReset {
          // SIGPIPE's default action: the process ends here.
          return true;
        }
        SendResponse();
      }
      CloseClient();
    }

    /** Blocked in accept: the signals from `events[i]` on are handled until accept returns. */
    method AwaitAccept(events: seq<Event>, i: nat) returns (j: nat)
      requires i <= |events|
      modifies this`keepRunning
      ensures i <= j <= |events| && (j < |events| ==> !events[j].Sigint?)
      ensures Run(events[i..], old(keepRunning), InAccept) == Run(events[j..], keepRunning, InAccept)
      ensures keepRunning ==> old(keepRunning)
    {
      j := i;
      while j < |events| && events[j].Sigint?
        invariant i <= j <= |events|
        invariant Run(events[i..], old(keepRunning), InAccept) == Run(events[j..], keepRunning, InAccept)
        invariant keepRunning ==> old(keepRunning)
        decreases |events| - j
      {
        assert events[j..][1..] == events[j + 1..];
        SigintHandler();
        j := j + 1;
      }
    }

    /**
     * accept returned with `event`: another iteration (the exit stays `StillAccepting`), or
     * the end of the loop.  `step` is what this return adds to the trace, and `later` the
     * events after it.
     */
    method AcceptReturned(event: Event, ghost later: seq<Event>) returns (exit: Exit, ghost step: seq<Action>)
      requires !event.Sigint? && serverOpen && !clientOpen
      modifies this`clientOpen, this`trace
      ensures trace == old(trace) + step && clientOpen == exit.KilledBySigpipe?
      ensures exit.StillAccepting? ==>
                Run([event] + later, keepRunning, InAccept) == Prepend(step, Run(later, keepRunning, AtCheck))
      ensures !exit.StillAccepting? ==>
                Run([event] + later, keepRunning, InAccept) == Prepend(step, Outcome(Closing(exit), exit, keepRunning))
    {
      assert ([event] + later)[1..] == later;
      if event.AcceptFailed? {
        step := [];
        if event.errno == EINTR {
          exit := if keepRunning then StillAccepting else InterruptedShutdown;
        } else {
          exit := AcceptError(event.errno);
        }
        return;
      }
      var killed := HandleClient(event.recvReturn, event.peerReset);
      if killed {
        exit, step := KilledBySigpipe, [ClientAccepted];
      } else {
        exit, step := StillAccepting, Session(event.recvReturn);
      }
    }

    /** The `while (keep_running)` loop of main, run over `events`. */
    method Serve(events: seq<Event>) returns (exit: Exit)
      requires serverOpen && !clientOpen
      modifies this
      ensures var o := Run(events, old(keepRunning), AtCheck);
              trace == old(trace) + o.trace && exit == o.exit
      ensures clientOpen == exit.KilledBySigpipe? && serverOpen == !LoopEnded(exit)
      ensures keepRunning == Run(events, old(keepRunning), AtCheck).running
      ensures keepRunning ==> old(keepRunning)
    {
      var i := 0;
      exit := StillAccepting;
      ghost var done: seq<Action> := [];
      ghost var rest := Outcome([], StillAccepting, true);  // what the loop still does once it leaves
      while keepRunning
        invariant i <= |events| && serverOpen && !clientOpen && exit.StillAccepting?
        invariant trace == old(trace) + done
        invariant Run(events, old(keepRunning), AtCheck) == Prepend(done, Run(events[i..], keepRunning, AtCheck))
        invariant keepRunning ==> old(keepRunning)
        decreases |events| - i
      {
        assert Run(events[i..], keepRunning, AtCheck) == Run(events[i..], keepRunning, InAccept);
        i := AwaitAccept(events, i);
        if i == |events| {
          assert trace == old(trace) + done + [];
          return;
        }
        assert events[i..] == [events[i]] + events[i + 1..];
        var e;
        ghost var step;
        e, step := AcceptReturned(events[i], events[i + 1..]);
        i := i + 1;
        if !e.StillAccepting? {
          exit := e;
          rest := Outcome(Closing(exit), exit, keepRunning);
          PrependTwice(done, step, rest);
          AppendAssoc(old(trace), done, step);
          done := done + step;
          break;
        }
        PrependTwice(done, step, Run(events[i..], keepRunning, AtCheck));
        AppendAssoc(old(trace), done, step);
        done := done + step;
      }
      if exit.StillAccepting? {
        exit := FlagClearedAtCheck;
        rest := Run(events[i..], keepRunning, AtCheck);
      }
      ghost var o := Run(events, old(keepRunning), AtCheck);
      assert o == Prepend(done, rest);
      assert rest == Outcome(Closing(exit), exit, keepRunning);
      if exit.KilledBySigpipe? {
        assert o.trace == done + [] == done;
      } else {
        CloseServer();
        assert o.trace == done + [ServerClosed];
        AppendAssoc(old(trace), done, [ServerClosed]);
        done := done + [ServerClosed];
      }
      assert trace == old(trace) + o.trace;
    }
  }

  /** The exit status of the process, or that it is still serving. */
  datatype Status = ExitFailure | ExitSuccess | StillServing | KilledBySignal

  /**
   * main: create the socket, set SO_REUSEADDR, bind, listen (its result is ignored), then run
   * the loop.  A failure before the loop ends the process with EXIT_FAILURE, closing the
   * server socket if it was created; after the loop main returns 0 whatever the exit reason,
   * unless SIGPIPE has ended the process inside it.
   */
  method RunServer(socketOk: bool, reuseOk: bool, bindOk: bool, listenOk: bool,
                   sigintBeforeLoop: bool, events: seq<Event>)
    returns (status: Status, trace: seq<Action>)
    ensures !socketOk ==> status == ExitFailure && trace == []
    ensures socketOk && !(reuseOk && bindOk) ==> status == ExitFailure && trace == [ServerClosed]
    ensures socketOk && reuseOk && bindOk ==>
              var o := Run(events, !sigintBeforeLoop, AtCheck);
              trace == o.trace &&
              status == (if o.exit.StillAccepting? then StillServing
                         else if o.exit.KilledBySigpipe? then KilledBySignal else ExitSuccess)
  {
    if !socketOk {
      return ExitFailure, [];
    }
    var listener := new Listener();
    if !reuseOk || !bindOk {
      listener.CloseServer();
      return ExitFailure, listener.trace;
    }
    // listen(server_socket, 3): the result is not checked, so listenOk changes nothing.
    if sigintBeforeLoop {
      listener.SigintHandler();
    }
    var exit := listener.Serve(events);
    trace := listener.trace;
    status := if exit.StillAccepting? then StillServing
              else if exit.KilledBySigpipe? then KilledBySignal else ExitSuccess;
  }
}
