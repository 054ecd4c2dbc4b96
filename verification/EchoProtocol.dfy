/**
 The poll client `str_cli` of network/echo/d4_poll_echo_client.cpp talking to the
 server loop `str_echo` of basic_lib/str_echo.c over two FIFO byte channels. Every
 read and write moves an arbitrary number of bytes allowed by the buffer sizes;
 `writen` is the sequence of writes that empties a buffer. An end of file is
 reported to `poll` as readable, and the channels are unbounded.
 */
module EchoProtocol {
  import opened Bytes

  const CLIENT_BUFFER := 1024
  const SERVER_BUFFER := 4096

  datatype Client =
    | Polling
    | Dispatch(sock: bool, input: bool)  // the revents still to be handled, socket first
    | Sending                            // inside `Writen`
    | Returned
    | Quit                               // err_quit or err_sys

  datatype Server = Reading | Writing | Closed

  datatype State = State(
    client: Client,
    stdineof: bool,
    input: seq<byte>,     // not yet read from standard input
    outgoing: seq<byte>,  // the rest of write_buf
    c2s: seq<byte>,       // client to server, in flight
    server: Server,
    held: seq<byte>,      // the rest of the server's buf
    s2c: seq<byte>,       // server to client, in flight
    output: seq<byte>,    // written to standard output
    received: seq<byte>,  // history: everything read from the socket by the client
    dropped: nat,         // bytes lost to short writes on standard output
    failed: bool)         // history: some read or write reported an error

  datatype Action =
    | Poll(sock: bool, input: bool)
    | SocketRead(n: nat, w: nat)  // n bytes arrive, w of them reach standard output
    | SocketEof
    | InputRead(n: nat)
    | InputEof
    | Send(n: nat)
    | ServerRead(n: nat)
    | ServerIntr
    | ServerEof
    | ServerWrite(n: nat)
    | SocketError
    | InputError
    | SendError
    | ServerError

  function Start(data: seq<byte>): State {
    State(Polling, false, data, [], [], Reading, [], [], [], [], 0, false)
  }

  predicate Enabled(s: State, a: Action) {
    match a
    case Poll(sock, input) =>
      && s.client.Polling?
      && (sock || input)
      && (sock ==> s.s2c != [] || s.server.Closed?)
      && (input ==> !s.stdineof)
    case SocketRead(n, w) => s.client.Dispatch? && s.client.sock && 0 < n <= CLIENT_BUFFER && n <= |s.s2c| && w <= n
    case SocketEof => s.client.Dispatch? && s.client.sock && s.s2c == [] && s.server.Closed?
    case InputRead(n) => s.client == Dispatch(false, true) && 0 < n <= CLIENT_BUFFER && n <= |s.input|
    case InputEof => s.client == Dispatch(false, true) && s.input == []
    case Send(n) => s.client.Sending? && 0 < n <= |s.outgoing|
    case ServerRead(n) => s.server.Reading? && 0 < n <= SERVER_BUFFER && n <= |s.c2s|
    case ServerIntr => s.server.Reading?
    case ServerEof => s.server.Reading? && s.c2s == [] && s.stdineof
    case ServerWrite(n) => s.server.Writing? && 0 < n <= |s.held|
    case SocketError => s.client.Dispatch? && s.client.sock
    case InputError => s.client == Dispatch(false, true)
    case SendError => s.client.Sending?
    case ServerError => !s.server.Closed?
  }

  /** After the socket is handled the client handles standard input or polls again. */
  function AfterSocket(c: Client): Client
    requires c.Dispatch?
  {
    if c.input then Dispatch(false, true) else Polling
  }

  function Apply(s: State, a: Action): State
    requires Enabled(s, a)
  {
    match a
    case Poll(sock, input) => s.(client := Dispatch(sock, input))
    case SocketRead(n, w) =>
      s.(client := AfterSocket(s.client), s2c := s.s2c[n..], received := s.received + s.s2c[..n],
         output := s.output + s.s2c[..w], dropped := s.dropped + (n - w))
    case SocketEof => s.(client := if s.stdineof then Returned else Quit)
    case InputRead(n) => s.(client := Sending, input := s.input[n..], outgoing := s.input[..n])
    case InputEof => s.(client := Polling, stdineof := true)
    case Send(n) =>
      var rest := s.outgoing[n..];
      s.(client := if rest == [] then Polling else Sending, outgoing := rest, c2s := s.c2s + s.outgoing[..n])
    case ServerRead(n) => s.(server := Writing, c2s := s.c2s[n..], held := s.c2s[..n])
    case ServerIntr => s
    case ServerEof => s.(server := Closed)
    case ServerWrite(n) =>
      var rest := s.held[n..];
      s.(server := if rest == [] then Reading else Writing, held := rest, s2c := s.s2c + s.held[..n])
    case SocketError => s.(client := if s.stdineof then Returned else Quit, failed := true)
    case InputError => s.(client := Polling, stdineof := true, failed := true)
    case SendError => s.(client := Quit, failed := true)
    case ServerError => s.(server := Closed, failed := true)
  }

  predicate Legal(s: State, acts: seq<Action>)
    decreases |acts|
  {
    acts == [] || (Enabled(s, acts[0]) && Legal(Apply(s, acts[0]), acts[1..]))
  }

  function Run(s: State, acts: seq<Action>): State
    requires Legal(s, acts)
    decreases |acts|
  {
    if acts == [] then s else Run(Apply(s, acts[0]), acts[1..])
  }

  // ---------------------------------------------------------------- invariants

  /** Every byte of the input is in exactly one place, and in order. */
  predicate Conserved(s: State, data: seq<byte>) {
    s.received + s.s2c + s.held + s.c2s + s.outgoing + s.input == data
  }

  predicate OutputOk(s: State) {
    && |s.output| + s.dropped == |s.received|
    && (s.dropped == 0 ==> s.output == s.received)
  }

  /** The order in which the two ends close. */
  predicate Closing(s: State) {
    && (s.client.Sending? <==> s.outgoing != [] && !s.client.Quit?)
    && (s.server.Writing? ==> s.held != [])
    && (s.server.Reading? ==> s.held == [])
    && (s.client.Dispatch? ==> (s.client.sock || s.client.input) && (s.client.input ==> !s.stdineof))
    && (s.client.Dispatch? && s.client.sock ==> s.s2c != [] || s.server.Closed?)
    && (s.stdineof ==> s.outgoing == [])
    && (s.stdineof && !s.failed ==> s.input == [])
    && (s.server.Closed? && !s.failed ==> s.stdineof && s.c2s == [] && s.held == [])
    && (s.client.Returned? && !s.failed ==> s.stdineof && s.server.Closed? && s.s2c == [])
    && (s.client.Quit? ==> s.failed && !s.stdineof)
    && (s.client.Returned? ==> s.stdineof)
    && |s.outgoing| <= 1024 && |s.held| <= 4096
  }

  predicate Inv(s: State, data: seq<byte>) { Conserved(s, data) && OutputOk(s) && Closing(s) }

  /** Moving a prefix of b to the end of a leaves a + b alone. */
  lemma Shift(a: seq<byte>, b: seq<byte>, n: nat)
    requires n <= |b|
    ensures (a + b[..n]) + b[n..] == a + b
  {
    assert b[..n] + b[n..] == b;
  }

  lemma StepConserves(s: State, a: Action, data: seq<byte>)
    requires Inv(s, data) && Enabled(s, a)
    ensures Conserved(Apply(s, a), data)
  {
    match a
    case SocketRead(n, _) => Shift(s.received, s.s2c, n);
    case InputRead(n) =>
      assert s.outgoing == [];
      Shift(s.received + s.s2c + s.held + s.c2s, s.input, n);
      assert s.received + s.s2c + s.held + s.c2s + s.outgoing == s.received + s.s2c + s.held + s.c2s;
    case Send(n) =>
      var p := s.received + s.s2c + s.held;
      assert p + (s.c2s + s.outgoing[..n]) + s.outgoing[n..] == p + s.c2s + s.outgoing by {
        Shift(p + s.c2s, s.outgoing, n);
        assert p + (s.c2s + s.outgoing[..n]) == p + s.c2s + s.outgoing[..n];
      }
    case ServerRead(n) =>
      assert s.held == [];
      var p := s.received + s.s2c;
      assert p + s.held == p;
      Shift(p, s.c2s, n);
    case ServerWrite(n) =>
      assert s.received + (s.s2c + s.held[..n]) + s.held[n..] == s.received + s.s2c + s.held by {
        Shift(s.received + s.s2c, s.held, n);
        assert s.received + (s.s2c + s.held[..n]) == s.received + s.s2c + s.held[..n];
      }
    case _ =>
  }

  lemma StepKeeps(s: State, a: Action, data: seq<byte>)
    requires Inv(s, data) && Enabled(s, a)
    ensures Inv(Apply(s, a), data)
  {
    StepConserves(s, a, data);
  }

  lemma {:induction false} RunKeeps(s: State, acts: seq<Action>, data: seq<byte>)
    requires Inv(s, data) && Legal(s, acts)
    ensures Inv(Run(s, acts), data)
    decreases |acts|
  {
    if acts != [] {
      StepKeeps(s, acts[0], data);
      RunKeeps(Apply(s, acts[0]), acts[1..], data);
    }
  }

  /**
   In every run, errors and interrupts included, the bytes received so far are a
   prefix of the input and everything else is accounted for. Without errors the
   client never quits, and its normal return has received the whole input; with them
   it ends normally if and only if it has seen the end of its input. What then
   reached standard output then equals the input if and only if no write to
   standard output was short.
   */
  lemma EchoIsFaithful(data: seq<byte>, acts: seq<Action>)
    requires Legal(Start(data), acts)
    ensures var t := Run(Start(data), acts);
      && Inv(t, data)
      && t.received <= data
      && (t.dropped == 0 ==> t.output <= data)
      && (!t.failed ==> !t.client.Quit?)
      && (t.client.Returned? || t.client.Quit? ==> (t.client.Returned? <==> t.stdineof))
      && (!t.failed && t.client.Returned? ==> t.received == data && (t.output == data <==> t.dropped == 0))
  {
    RunKeeps(Start(data), acts, data);
    ReceivedIsPrefix(Run(Start(data), acts), data);
  }

  lemma ReceivedIsPrefix(t: State, data: seq<byte>)
    requires Conserved(t, data)
    ensures t.received <= data
    ensures t.s2c == [] && t.held == [] && t.c2s == [] && t.outgoing == [] && t.input == [] ==> t.received == data
  {
    var rest := t.s2c + t.held + t.c2s + t.outgoing + t.input;
    assert t.received + rest == data;
  }

  /** What reached standard output of a stream of replies read in these steps: of each read, as much as was written. */
  function Written(acts: seq<Action>, stream: seq<byte>): seq<byte>
    decreases |acts|
  {
    if acts == [] then []
    else if acts[0].SocketRead? && acts[0].w <= acts[0].n <= |stream| then
      stream[..acts[0].w] + Written(acts[1..], stream[acts[0].n..])
    else Written(acts[1..], stream)
  }

  /** In every run the output is that, byte for byte, of what was received. */
  lemma {:induction false} OutputIsWritten(s: State, acts: seq<Action>) returns (more: seq<byte>)
    requires Legal(s, acts)
    ensures Run(s, acts).received == s.received + more
    ensures Run(s, acts).output == s.output + Written(acts, more)
    decreases |acts|
  {
    if acts == [] {
      more := [];
      assert s.received + [] == s.received && s.output + [] == s.output;
    } else {
      var t := Apply(s, acts[0]);
      var rest := OutputIsWritten(t, acts[1..]);
      if acts[0].SocketRead? {
        var chunk := s.s2c[..acts[0].n];
        more := chunk + rest;
        assert more[..acts[0].w] == s.s2c[..acts[0].w] && more[acts[0].n..] == rest;
        Regroup(s.received, chunk, rest);
        Regroup(s.output, s.s2c[..acts[0].w], Written(acts[1..], rest));
      } else {
        more := rest;
      }
    }
  }

  /** One poll, at most one read of each kind, the socket first: what was reported is handled before the next poll. */
  lemma ReportsAreHandled(s: State, n: nat, w: nat)
    ensures forall sock, input :: Enabled(s, Poll(sock, input)) ==> Apply(s, Poll(sock, input)).client == Dispatch(sock, input)
    ensures s.client.Dispatch? ==> forall sock, input :: !Enabled(s, Poll(sock, input))
    ensures s.client.Dispatch? && s.client.sock ==> !Enabled(s, InputRead(n)) && !Enabled(s, InputEof)
    ensures Enabled(s, SocketRead(n, w)) ==>
      Apply(s, SocketRead(n, w)).client == if s.client.input then Dispatch(false, true) else Polling
    ensures Enabled(s, InputRead(n)) ==> Apply(s, InputRead(n)).client.Sending?
    ensures Enabled(s, InputEof) ==> Apply(s, InputEof).client.Polling?
  {}

  /**
   What ends the client: nothing but the end of the socket's stream or an error on it,
   after the end of its input normally and before it not, and a failed send. A failed
   read of the input counts as its end, and an interrupted read as nothing.
   */
  lemma ClientEndsExactly(s: State, a: Action)
    requires Enabled(s, a) && !s.client.Returned? && !s.client.Quit?
    ensures Apply(s, a).client.Returned? <==> s.stdineof && (a.SocketEof? || a.SocketError?)
    ensures Apply(s, a).client.Quit? <==> a.SendError? || (!s.stdineof && (a.SocketEof? || a.SocketError?))
    ensures Apply(s, a).stdineof <==> s.stdineof || a.InputEof? || a.InputError?
    ensures a.InputError? ==> Apply(s, a).client.Polling? && Apply(s, a).input == s.input
    ensures a.ServerIntr? ==> Apply(s, a) == s
    ensures Apply(s, a).server.Closed? <==> s.server.Closed? || a.ServerEof? || a.ServerError?
    ensures Apply(s, a).failed <==> s.failed || a.SocketError? || a.InputError? || a.SendError? || a.ServerError?
  {}

  /** A read takes as much as a buffer of 1024, on the server 4096, holds, or any part of it. */
  lemma ReadsUpToBuffer(s: State, n: nat)
    requires 0 < n
    ensures s.client == Dispatch(false, true) ==> (Enabled(s, InputRead(n)) <==> n <= 1024 && n <= |s.input|)
    ensures s.client.Dispatch? && s.client.sock ==> (Enabled(s, SocketRead(n, n)) <==> n <= 1024 && n <= |s.s2c|)
    ensures s.server.Reading? ==> (Enabled(s, ServerRead(n)) <==> n <= 4096 && n <= |s.c2s|)
  {}

  lemma {:induction false} RunThenStep(s: State, acts: seq<Action>, a: Action)
    requires Legal(s, acts) && Enabled(Run(s, acts), a)
    ensures Legal(s, acts + [a]) && Run(s, acts + [a]) == Apply(Run(s, acts), a)
    decreases |acts|
  {
    if acts == [] {
      assert acts + [a] == [a];
    } else {
      assert (acts + [a])[1..] == acts[1..] + [a];
      RunThenStep(Apply(s, acts[0]), acts[1..], a);
    }
  }

  /** A byte that makes the round trip. */
  lemma OneByteArrives(b: byte) returns (acts: seq<Action>)
    ensures Legal(Start([b]), acts)
    ensures Run(Start([b]), acts) == State(Dispatch(true, false), false, [], [], [], Reading, [], [b], [], [], 0, false)
  {
    var s := Start([b]);
    acts := [];
    RunThenStep(s, acts, Poll(false, true));
    acts := acts + [Poll(false, true)];
    RunThenStep(s, acts, InputRead(1));
    acts := acts + [InputRead(1)];
    RunThenStep(s, acts, Send(1));
    acts := acts + [Send(1)];
    RunThenStep(s, acts, ServerRead(1));
    acts := acts + [ServerRead(1)];
    RunThenStep(s, acts, ServerWrite(1));
    acts := acts + [ServerWrite(1)];
    RunThenStep(s, acts, Poll(true, false));
    acts := acts + [Poll(true, false)];
  }

  /** And is lost there: an error-free exchange that ends normally with nothing written to standard output. */
  lemma ShortWriteLoses(b: byte) returns (acts: seq<Action>)
    ensures Legal(Start([b]), acts)
    ensures var t := Run(Start([b]), acts); !t.failed && t.client.Returned? && t.received == [b] && t.output == []
  {
    var s := Start([b]);
    acts := OneByteArrives(b);
    RunThenStep(s, acts, SocketRead(1, 0));
    acts := acts + [SocketRead(1, 0)];
    RunThenStep(s, acts, Poll(false, true));
    acts := acts + [Poll(false, true)];
    RunThenStep(s, acts, InputEof);
    acts := acts + [InputEof];
    RunThenStep(s, acts, ServerEof);
    acts := acts + [ServerEof];
    RunThenStep(s, acts, Poll(true, false));
    acts := acts + [Poll(true, false)];
    RunThenStep(s, acts, SocketEof);
    acts := acts + [SocketEof];
  }

  // ---------------------------------------------------------------- progress

  /** Steps of an error-free run, not counting interrupted reads. */
  predicate Working(a: Action) {
    !(a.ServerIntr? || a.SocketError? || a.InputError? || a.SendError? || a.ServerError?)
  }

  function ClientRank(c: Client): nat {
    match c
    case Polling => 3
    case Dispatch(sock, _) => if sock then 2 else 1
    case Sending => 0
    case Returned => 0
    case Quit => 0
  }

  /** Each byte still has its remaining hops to make. */
  function Measure(s: State): nat {
    4 * (5 * |s.input| + 4 * |s.outgoing| + 3 * |s.c2s| + 2 * |s.held| + |s.s2c|)
    + (if s.stdineof then 0 else 4) + (if s.server.Closed? then 0 else 1) + ClientRank(s.client)
  }

  lemma WorkProgress(s: State, a: Action, data: seq<byte>)
    requires Inv(s, data) && Enabled(s, a) && Working(a)
    ensures Measure(Apply(s, a)) < Measure(s)
    ensures !s.failed ==> !Apply(s, a).failed
  {
  }

  /** An error-free exchange that has not returned can always take another step. */
  lemma NeverStuck(s: State, data: seq<byte>) returns (a: Action)
    requires Inv(s, data) && !s.failed && !s.client.Returned?
    ensures Enabled(s, a) && Working(a)
  {
    match s.client
    case Polling =>
      if !s.stdineof {
        a := Poll(false, true);
      } else if s.s2c != [] || s.server.Closed? {
        a := Poll(true, false);
      } else if s.server.Writing? {
        a := ServerWrite(|s.held|);
      } else {
        a := if s.c2s == [] then ServerEof else ServerRead(1);
      }
    case Dispatch(sock, input) =>
      if sock {
        a := if s.s2c == [] then SocketEof else SocketRead(1, 1);
      } else {
        a := if s.input == [] then InputEof else InputRead(1);
      }
    case Sending =>
      a := Send(|s.outgoing|);
  }

  lemma {:induction false} WorkingRun(s: State, acts: seq<Action>, data: seq<byte>)
    requires Inv(s, data) && Legal(s, acts) && forall k :: 0 <= k < |acts| ==> Working(acts[k])
    ensures |acts| + Measure(Run(s, acts)) <= Measure(s)
    ensures !s.failed ==> !Run(s, acts).failed
    decreases |acts|
  {
    if acts != [] {
      StepKeeps(s, acts[0], data);
      WorkProgress(s, acts[0], data);
      WorkingRun(Apply(s, acts[0]), acts[1..], data);
    }
  }

  /** Every error-free exchange ends, within a fixed number of steps, with the client's normal return. */
  lemma EveryExchangeCompletes(data: seq<byte>, acts: seq<Action>)
    requires Legal(Start(data), acts) && forall k :: 0 <= k < |acts| ==> Working(acts[k])
    ensures |acts| <= 20 * |data| + 8
    ensures var t := Run(Start(data), acts);
      (forall a :: Working(a) ==> !Enabled(t, a)) ==>
        t.client.Returned? && t.received == data && (t.output == data <==> t.dropped == 0)
  {
    WorkingRun(Start(data), acts, data);
    EchoIsFaithful(data, acts);
    var t := Run(Start(data), acts);
    if !t.client.Returned? {
      var a := NeverStuck(t, data);
      assert Enabled(t, a);
    }
  }
}
