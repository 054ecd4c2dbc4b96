/**
 The short-count I/O loops of basic_lib: readn.c, writen.c, readline.c and
 str_echo.c. A descriptor is the bytes it has still to give (or has taken) and a
 script of what the kernel will do on the next calls: move at most so many bytes,
 be interrupted, or fail. Past the end of its script it moves all it can.
 */
module BufferedIO {
  import opened Bytes

  datatype Event = Moves(n: nat) | Interrupt | Failure

  /** Some later call fails. */
  predicate Fails(script: seq<Event>) { script != [] && (script[0].Failure? || Fails(script[1..])) }

  /** Some later write fails or takes nothing. */
  predicate Refuses(script: seq<Event>) {
    script != [] && (script[0].Failure? || script[0] == Moves(0) || Refuses(script[1..]))
  }

  /** The result of `read`: the bytes (none at end of file), EINTR or another error. */
  datatype ReadResult = Bytes(bytes: seq<byte>) | ReadEintr | ReadError

  datatype WriteResult = Wrote(n: nat) | WriteEintr | WriteError

  const MAXLINE := 4096
  const NEWLINE: byte := 10

  function Min(a: nat, b: nat): nat { if a < b then a else b }

  class Source {
    var data: seq<byte>
    var script: seq<Event>

    constructor (data: seq<byte>, script: seq<Event>)
      ensures this.data == data && this.script == script
    {
      this.data, this.script := data, script;
    }

    /** `read`: gives a prefix of what is left, at least one byte unless none is left. */
    method Read(cap: nat) returns (r: ReadResult)
      requires cap > 0
      modifies this
      ensures script == if old(script) == [] then [] else old(script)[1..]
      ensures r.Bytes? ==> |r.bytes| <= cap && r.bytes + data == old(data) && (r.bytes == [] ==> data == [])
      ensures !r.Bytes? ==> data == old(data) && old(script) != []
      ensures r.ReadError? <==> old(script) != [] && old(script)[0].Failure?
      ensures old(script) == [] ==> r.Bytes? && |r.bytes| == Min(cap, |old(data)|)
    {
      var most := Min(cap, |data|);
      if script != [] {
        var e := script[0];
        script := script[1..];
        match e
        case Interrupt => return ReadEintr;
        case Failure => return ReadError;
        case Moves(n) => most := Min(most, if n == 0 then 1 else n);
      }
      r := Bytes(data[..most]);
      data := data[most..];
    }
  }

  class Sink {
    var written: seq<byte>
    var script: seq<Event>

    constructor (script: seq<Event>)
      ensures written == [] && this.script == script
    {
      written, this.script := [], script;
    }

    /** `write`: takes a prefix, possibly an empty one. */
    method Write(bytes: seq<byte>) returns (r: WriteResult)
      modifies this
      ensures script == if old(script) == [] then [] else old(script)[1..]
      ensures r.Wrote? ==> r.n <= |bytes| && written == old(written) + bytes[..r.n]
      ensures !r.Wrote? ==> written == old(written) && old(script) != []
      ensures r.WriteError? || (r == Wrote(0) && bytes != []) <==>
        old(script) != [] && (old(script)[0].Failure? || (bytes != [] && old(script)[0] == Moves(0)))
    {
      var most := |bytes|;
      if script != [] {
        var e := script[0];
        script := script[1..];
        match e
        case Interrupt => return WriteEintr;
        case Failure => return WriteError;
        case Moves(n) => most := Min(most, n);
      }
      written := written + bytes[..most];
      r := Wrote(most);
    }
  }

  method StoreFront(buf: array<byte>, bytes: seq<byte>)
    requires |bytes| <= buf.Length
    modifies buf
    ensures buf[..] == bytes + old(buf[..])[|bytes|..]
  {
    forall i | 0 <= i < |bytes| {
      buf[i] := bytes[i];
    }
  }

  lemma PrefixGrows(all: seq<byte>, k: nat, bytes: seq<byte>, rest: seq<byte>)
    requires k <= |all| && bytes + rest == all[k..]
    ensures k + |bytes| <= |all|
    ensures all[..k] + bytes == all[..k + |bytes|] && rest == all[k + |bytes|..]
  {
    assert all == all[..k] + (bytes + rest);
  }

  /** Bytes that arrive as the next of `all` after the first `ptr`, which the buffer holds. */
  method Arrive(buf: array<byte>, ptr: nat, bytes: seq<byte>, ghost all: seq<byte>, ghost rest: seq<byte>, ghost before: seq<byte>)
    requires ptr <= |all| && bytes + rest == all[ptr..] && ptr + |bytes| <= |before|
    requires buf[..] == all[..ptr] + before[ptr..]
    modifies buf
    ensures ptr + |bytes| <= |all| && rest == all[ptr + |bytes|..]
    ensures buf[..] == all[..ptr + |bytes|] + before[ptr + |bytes|..]
  {
    PrefixGrows(all, ptr, bytes, rest);
    StoreAll(buf, ptr, bytes, all[..ptr], before);
  }

  /**
   Whatever the chunks and interrupts: without an error, exactly the first
   min(n, available) bytes. With one, the bytes read before it are in the buffer.
   */
  method ReadN(fd: Source, buf: array<byte>, n: nat) returns (r: int, ghost got: nat)
    requires n <= buf.Length
    modifies fd, buf
    ensures got <= n && got <= |old(fd.data)| && fd.data == old(fd.data)[got..]
    ensures buf[..] == old(fd.data)[..got] + old(buf[..])[got..]
    ensures r == -1 || r == got == Min(n, |old(fd.data)|)
    ensures r == -1 ==> Fails(old(fd.script))
  {
    ghost var all, before := fd.data, buf[..];
    var nleft, ptr := n, 0;
    while nleft > 0
      invariant 0 <= ptr <= |all| && 0 <= nleft && ptr + nleft == n
      invariant fd.data == all[ptr..]
      invariant buf[..] == all[..ptr] + before[ptr..]
      invariant Fails(fd.script) ==> Fails(old(fd.script))
      decreases nleft, |fd.script|
    {
      var res := fd.Read(nleft);
      match res
      case ReadError => return -1, ptr;
      case ReadEintr =>
      case Bytes(bytes) =>
        if bytes == [] {
          break;
        }
        Arrive(buf, ptr, bytes, all, fd.data, before);
        nleft, ptr := nleft - |bytes|, ptr + |bytes|;
    }
    return n - nleft, ptr;
  }

  /** Either every byte is written once and in order, or a prefix and then an error or an empty write. */
  method WriteN(fd: Sink, buf: array<byte>, n: nat) returns (r: int, ghost sent: nat)
    requires n <= buf.Length
    modifies fd
    ensures sent <= n && fd.written == old(fd.written) + buf[..sent]
    ensures if r == n then sent == n else r == -1 && sent < n
    ensures r != n ==> Refuses(old(fd.script))
    ensures Refuses(fd.script) ==> Refuses(old(fd.script))
  {
    var nleft, ptr := n, 0;
    while nleft > 0
      invariant 0 <= ptr && 0 <= nleft && ptr + nleft == n
      invariant fd.written == old(fd.written) + buf[..ptr]
      invariant Refuses(fd.script) ==> Refuses(old(fd.script))
      decreases nleft, |fd.script|
    {
      var res := fd.Write(buf[ptr..n]);
      match res
      case WriteError =>
        return -1, ptr;
      case WriteEintr =>
      case Wrote(k) =>
        if k == 0 {
          assert buf[ptr..n][..k] == [];
          return -1, ptr;
        }
        assert buf[ptr..n][..k] == buf[ptr..ptr + k];
        assert buf[..ptr] + buf[ptr..ptr + k] == buf[..ptr + k];
        nleft, ptr := nleft - k, ptr + k;
    }
    return n, n;
  }

  /** A chunk that arrived in the buffer, the next of `all` after `sent`, written back. */
  method Echo(to: Sink, buf: array<byte>, bytes: seq<byte>, ghost was: seq<byte>, ghost all: seq<byte>, ghost sent: nat)
    returns (w: int, ghost wrote: nat)
    requires |bytes| <= buf.Length
    requires sent <= |all| && bytes <= all[sent..] && to.written == was + all[..sent]
    modifies to, buf
    ensures wrote <= |bytes| && to.written == was + all[..sent + wrote]
    ensures w == |bytes| <==> wrote == |bytes|
    ensures w != |bytes| ==> Refuses(old(to.script))
    ensures Refuses(to.script) ==> Refuses(old(to.script))
  {
    StoreFront(buf, bytes);
    w, wrote := WriteN(to, buf, |bytes|);
    assert buf[..|bytes|] == bytes;
    assert buf[..wrote] == buf[..|bytes|][..wrote];
    assert bytes[..wrote] == all[sent..][..wrote];
    Regroup(was, all[..sent], bytes[..wrote]);
    assert all[..sent] + bytes[..wrote] == all[..sent + wrote];
  }

  datatype Ending = Clean | FailedRead | FailedWrite

  /** The server loop: what it has written is always a prefix of what it was sent, and all of it on a clean end. */
  method StrEcho(from: Source, to: Sink) returns (how: Ending, ghost sent: nat)
    modifies from, to
    ensures sent <= |old(from.data)| && to.written == old(to.written) + old(from.data)[..sent]
    ensures how.Clean? ==> sent == |old(from.data)| && from.data == []
    ensures how.FailedRead? ==> Fails(old(from.script))
    ensures how.FailedWrite? ==> Refuses(old(to.script))
  {
    var buf := new byte[MAXLINE];
    ghost var all := from.data;
    sent := 0;
    while true
      invariant sent <= |all| && from.data == all[sent..]
      invariant to.written == old(to.written) + all[..sent]
      invariant Fails(from.script) ==> Fails(old(from.script))
      invariant Refuses(to.script) ==> Refuses(old(to.script))
      decreases |from.data|, |from.script|
    {
      var res := from.Read(MAXLINE);
      match res
      case ReadError => return FailedRead, sent;
      case ReadEintr =>
      case Bytes(bytes) =>
        var n := |bytes|;
        if n == 0 {
          return Clean, sent;
        }
        PrefixGrows(all, sent, bytes, from.data);
        var w, wrote := Echo(to, buf, bytes, old(to.written), all, sent);
        sent := sent + wrote;
        if w != n {
          return FailedWrite, sent;
        }
    }
  }

  // ---------------------------------------------------------------- readline

  /** Up to and including the first newline, at most `room` bytes, at most what there is. */
  function Line(stream: seq<byte>, room: nat): (line: seq<byte>)
    ensures |line| <= room && line <= stream
  {
    if room == 0 || stream == [] then []
    else if stream[0] == NEWLINE then [NEWLINE]
    else [stream[0]] + Line(stream[1..], room - 1)
  }

  /** `maxlen` leaves room for the terminator. */
  function Room(maxlen: nat): nat { if maxlen == 0 then 0 else maxlen - 1 }

  /** The last byte is a line feed, byte 10. */
  predicate EndsLine(line: seq<byte>) { line != [] && line[|line| - 1] == 10 }

  /** A newline, if any, is the last byte. */
  predicate OneLine(line: seq<byte>) { forall i :: 0 <= i < |line| - 1 ==> line[i] != 10 }

  /** A line holds no newline before its end, and stops short of the room only at a newline or at the end of the stream. */
  lemma {:induction false} LineIsFirst(stream: seq<byte>, room: nat)
    ensures var line := Line(stream, room);
      OneLine(line) && (|line| == room || |line| == |stream| || EndsLine(line))
  {
    if room > 0 && stream != [] && stream[0] != NEWLINE {
      LineIsFirst(stream[1..], room - 1);
      var line, tail := Line(stream, room), Line(stream[1..], room - 1);
      assert forall i :: 1 <= i < |line| ==> line[i] == tail[i - 1];
    }
  }

  /** And nothing else is the line of a stream. */
  lemma {:induction false} LineIsUnique(line: seq<byte>, rest: seq<byte>, room: nat)
    requires |line| <= room && OneLine(line)
    requires |line| == room || rest == [] || EndsLine(line)
    ensures Line(line + rest, room) == line
  {
    if line == [] {
      assert line + rest == rest;
    } else {
      assert (line + rest)[1..] == line[1..] + rest;
      if line[0] == NEWLINE {
        assert |line| == 1;
      } else {
        LineIsUnique(line[1..], rest, room - 1);
      }
    }
  }

  datatype Stop = AtNewline | AtEof | AtFull | AtError

  /** `readline` and its static read-ahead buffer. */
  class LineReader {
    var readCnt: int
    var readPtr: nat
    const readBuf: array<byte>

    constructor ()
      ensures Valid() && Ahead() == [] && fresh(readBuf)
    {
      readCnt, readPtr := 0, 0;
      readBuf := new byte[MAXLINE](_ => 0);
    }

    ghost predicate Valid()
      reads this
    {
      readBuf.Length == 4096 && -1 <= readCnt <= 4096 && (readCnt > 0 ==> readPtr + readCnt <= 4096)
    }

    /** Bytes read from the descriptor and not yet handed out. */
    function Ahead(): seq<byte>
      requires Valid()
      reads this, readBuf
    {
      if readCnt <= 0 then [] else readBuf[readPtr..readPtr + readCnt]
    }

    /** Everything still to come from `fd`: the read-ahead, then the descriptor. */
    function Stream(fd: Source): seq<byte>
      requires Valid()
      reads this, readBuf, fd
    {
      Ahead() + fd.data
    }

    /** The `again` loop of `my_read`: fills an empty read-ahead, retrying interrupted reads. */
    method Refill(fd: Source) returns (rc: int)
      requires Valid() && readCnt <= 0
      modifies this, readBuf, fd
      ensures Valid() && Stream(fd) == old(fd.data)
      ensures rc == 1 || rc == 0 || rc == -1
      ensures rc == 1 <==> readCnt > 0
      ensures rc == -1 <==> readCnt == -1
      ensures rc == 0 ==> old(fd.data) == []
      ensures old(fd.script) == [] ==> readCnt == Min(4096, |old(fd.data)|)
      ensures rc == -1 ==> Fails(old(fd.script))
      ensures Fails(fd.script) ==> Fails(old(fd.script))
    {
      while true
        invariant Valid() && readCnt <= 0 && fd.data == old(fd.data)
        invariant Fails(fd.script) ==> Fails(old(fd.script))
        decreases |fd.script|
      {
        var res := fd.Read(MAXLINE);
        match res
        case ReadEintr => readCnt := -1;
        case ReadError =>
          readCnt := -1;
          return -1;
        case Bytes(bytes) =>
          readCnt := |bytes|;
          if readCnt == 0 {
            return 0;
          }
          forall i | 0 <= i < |bytes| {
            readBuf[i] := bytes[i];
          }
          readPtr := 0;
          assert readBuf[..readCnt] == bytes;
          return 1;
      }
    }

    /** One byte of the stream. */
    method MyRead(fd: Source) returns (rc: int, c: byte)
      requires Valid()
      modifies this, readBuf, fd
      ensures Valid()
      ensures rc == 1 || rc == 0 || rc == -1
      ensures rc == 1 ==> [c] + Stream(fd) == old(Stream(fd))
      ensures rc == 0 ==> Stream(fd) == old(Stream(fd)) == []
      ensures rc == -1 ==> Stream(fd) == old(Stream(fd)) && Fails(old(fd.script))
      ensures rc == -1 <==> readCnt == -1
      ensures Fails(fd.script) ==> Fails(old(fd.script))
    {
      c := 0;
      ghost var stream := Stream(fd);
      if readCnt <= 0 {
        assert stream == fd.data;
        rc := Refill(fd);
        if rc != 1 {
          return rc, c;
        }
      }
      assert Stream(fd) == stream;
      c := TakeAhead();
      Regroup([c], Ahead(), fd.data);
      return 1, c;
    }

    method TakeAhead() returns (c: byte)
      requires Valid() && readCnt > 0
      modifies this
      ensures Valid() && [c] + Ahead() == old(Ahead()) && readCnt == old(readCnt) - 1
    {
      readCnt := readCnt - 1;
      c := readBuf[readPtr];
      readPtr := readPtr + 1;
    }

    /** The loop of `readline`: bytes up to a newline, the end of the stream, a full buffer or an error. */
    method Collect(fd: Source, room: nat, ghost stream: seq<byte>) returns (line: seq<byte>, why: Stop)
      requires Valid() && Stream(fd) == stream
      modifies this, readBuf, fd
      ensures Valid() && line + Stream(fd) == stream
      ensures |line| <= room && OneLine(line)
      ensures why == AtNewline ==> EndsLine(line)
      ensures why == AtEof ==> |line| < room && Stream(fd) == [] && !EndsLine(line)
      ensures why == AtFull ==> |line| == room && !EndsLine(line)
      ensures why == AtError ==> |line| < room && Fails(old(fd.script))
      ensures if room == 0 then readCnt == old(readCnt) else readCnt == -1 <==> why == AtError
      ensures Fails(fd.script) ==> Fails(old(fd.script))
    {
      line := [];
      while |line| < room
        invariant Valid() && line + Stream(fd) == stream
        invariant |line| <= room && OneLine(line) && !EndsLine(line)
        invariant if line == [] then readCnt == old(readCnt) else readCnt >= 0
        invariant Fails(fd.script) ==> Fails(old(fd.script))
      {
        var rc, c := MyRead(fd);
        if rc == 0 {
          return line, AtEof;
        } else if rc < 0 {
          return line, AtError;
        }
        Regroup(line, [c], Stream(fd));
        line := line + [c];
        if c == NEWLINE {
          return line, AtNewline;
        }
      }
      return line, AtFull;
    }

    /** Bytes put at the front of the caller's buffer; the stream is unaffected. */
    method Deliver(fd: Source, ptr: array<byte>, bytes: seq<byte>)
      requires Valid() && ptr != readBuf && |bytes| <= ptr.Length
      modifies ptr
      ensures ptr[..] == bytes + old(ptr[..])[|bytes|..]
      ensures Stream(fd) == old(Stream(fd))
    {
      StoreFront(ptr, bytes);
    }

    /**
     Independent of chunking: the line of the stream, terminated, and the rest of
     the stream left to read. The count returned is the length of the line, except
     that a buffer filled without a newline counts one byte too many. After an
     error the bytes read are in the buffer, unterminated. A call that reads leaves
     the read-ahead count at -1 exactly when it fails.
     */
    method Readline(fd: Source, ptr: array<byte>, maxlen: nat) returns (r: int, ghost line: seq<byte>)
      requires Valid() && ptr != readBuf
      requires maxlen <= ptr.Length && ptr.Length > 0
      modifies this, readBuf, fd, ptr
      ensures Valid() && line + Stream(fd) == old(Stream(fd)) && |line| <= Room(maxlen)
      ensures r >= 0 ==> line == Line(old(Stream(fd)), Room(maxlen))
      ensures r >= 0 ==> ptr[..] == line + [0] + old(ptr[..])[|line| + 1..]
      ensures r >= 0 ==> r == if EndsLine(line) || |line| < Room(maxlen) then |line| else |line| + 1
      ensures r < 0 ==> r == -1 && Fails(old(fd.script)) && ptr[..] == line + old(ptr[..])[|line|..]
      ensures if maxlen <= 1 then readCnt == old(readCnt) else readCnt == -1 <==> r == -1
      ensures r >= 0 && maxlen > 0 ==>
        && OneLine(line) && |line| <= maxlen - 1
        && (|line| == maxlen - 1 || EndsLine(line) || Stream(fd) == [])
        && (r == maxlen <==> |line| == maxlen - 1 && !EndsLine(line))
        && (r != maxlen ==> r == |line|)
      ensures maxlen == 0 ==> r == 1 && line == []
      ensures Fails(fd.script) ==> Fails(old(fd.script))
    {
      ghost var stream := Stream(fd);
      var got, why := Collect(fd, Room(maxlen), stream);
      line := got;
      assert ptr[..] == old(ptr[..]);
      if why == AtError {
        Deliver(fd, ptr, got);
        return -1, line;
      }
      LineIsUnique(got, Stream(fd), Room(maxlen));
      Deliver(fd, ptr, got + [0]);
      r := if why == AtFull then |got| + 1 else |got|;
    }

    /** The read-ahead a caller can pick up after `readline`, with its count; -1 after a failed read. */
    method ReadlineBuf() returns (cnt: int, bytes: seq<byte>)
      requires Valid()
      ensures cnt == readCnt && bytes == Ahead()
      ensures |bytes| == if cnt == -1 then 0 else cnt
    {
      cnt := readCnt;
      bytes := [];
      if readCnt > 0 {
        bytes := readBuf[readPtr..readPtr + readCnt];
      }
    }

    /**
     A caller's loop: one `readline` for each length until one fails. The lines are
     those of the stream, what is left is left to read, and after a failed read the
     bytes it had collected are between the two.
     */
    method ReadLines(fd: Source, ptr: array<byte>, maxlens: seq<nat>)
      returns (calls: nat, ghost lines: seq<seq<byte>>, ghost partial: seq<byte>)
      requires Valid() && ptr != readBuf && ptr.Length > 0
      requires forall i :: 0 <= i < |maxlens| ==> maxlens[i] <= ptr.Length
      modifies this, readBuf, fd, ptr
      ensures Valid() && calls <= |maxlens|
      ensures lines == Lines(old(Stream(fd)), Rooms(maxlens[..calls]))
      ensures partial + Stream(fd) == Left(old(Stream(fd)), Rooms(maxlens[..calls]))
      ensures Joined(lines) + (partial + Stream(fd)) == old(Stream(fd))
      ensures calls == |maxlens| ==> partial == []
      ensures calls < |maxlens| ==> Fails(old(fd.script))
    {
      ghost var stream := Stream(fd);
      calls, lines, partial := 0, [], [];
      while calls < |maxlens|
        invariant Valid() && calls <= |maxlens| && partial == []
        invariant lines == Lines(stream, Rooms(maxlens[..calls]))
        invariant Stream(fd) == Left(stream, Rooms(maxlens[..calls]))
        invariant Fails(fd.script) ==> Fails(old(fd.script))
      {
        ghost var rest := Stream(fd);
        var r, line := Readline(fd, ptr, maxlens[calls]);
        if r < 0 {
          partial := line;
          break;
        }
        OneMoreLine(stream, maxlens, calls);
        assert rest[|line|..] == Stream(fd);
        lines := lines + [line];
        calls := calls + 1;
      }
      RunsConserve(stream, Rooms(maxlens[..calls]));
      assert [] + Stream(fd) == Stream(fd);
    }
  }

  // ---------------------------------------------------------------- runs of calls

  /** What a run of calls with the given rooms hands out, and what it leaves. */
  function Lines(stream: seq<byte>, rooms: seq<nat>): seq<seq<byte>> {
    if rooms == [] then []
    else
      var line := Line(stream, rooms[0]);
      [line] + Lines(stream[|line|..], rooms[1..])
  }

  function Left(stream: seq<byte>, rooms: seq<nat>): seq<byte> {
    if rooms == [] then stream else Left(stream[|Line(stream, rooms[0])|..], rooms[1..])
  }

  function Rooms(maxlens: seq<nat>): seq<nat> {
    seq(|maxlens|, i requires 0 <= i < |maxlens| => Room(maxlens[i]))
  }

  /** A call more adds the line of what the calls before it left. */
  lemma {:induction false} LinesGrow(stream: seq<byte>, rooms: seq<nat>, room: nat)
    ensures Lines(stream, rooms + [room]) == Lines(stream, rooms) + [Line(Left(stream, rooms), room)]
    ensures Left(stream, rooms + [room]) == Left(stream, rooms)[|Line(Left(stream, rooms), room)|..]
    decreases |rooms|
  {
    if rooms == [] {
      assert ([] + [room])[1..] == [];
    } else {
      assert (rooms + [room])[1..] == rooms[1..] + [room];
      LinesGrow(stream[|Line(stream, rooms[0])|..], rooms[1..], room);
    }
  }

  lemma OneMoreLine(stream: seq<byte>, maxlens: seq<nat>, k: nat)
    requires k < |maxlens|
    ensures var rooms, room := Rooms(maxlens[..k]), Room(maxlens[k]);
      var line := Line(Left(stream, rooms), room);
      && Lines(stream, Rooms(maxlens[..k + 1])) == Lines(stream, rooms) + [line]
      && Left(stream, Rooms(maxlens[..k + 1])) == Left(stream, rooms)[|line|..]
  {
    assert Rooms(maxlens[..k + 1]) == Rooms(maxlens[..k]) + [Room(maxlens[k])];
    LinesGrow(stream, Rooms(maxlens[..k]), Room(maxlens[k]));
  }

  /** No run of calls loses, repeats or reorders a byte. */
  lemma {:induction false} RunsConserve(stream: seq<byte>, rooms: seq<nat>)
    ensures Joined(Lines(stream, rooms)) + Left(stream, rooms) == stream
    decreases |rooms|
  {
    if rooms != [] {
      var line := Line(stream, rooms[0]);
      RunsConserve(stream[|line|..], rooms[1..]);
      assert Lines(stream, rooms)[1..] == Lines(stream[|line|..], rooms[1..]);
      assert line + stream[|line|..] == stream;
    }
  }

  /** Calls with room for a byte empty the stream: as many as it has bytes are enough. */
  lemma {:induction false} RunsFinish(stream: seq<byte>, rooms: seq<nat>)
    requires |stream| <= |rooms| && forall i :: 0 <= i < |rooms| ==> rooms[i] > 0
    ensures Left(stream, rooms) == []
    decreases |rooms|
  {
    if rooms != [] {
      RunsFinish(stream[|Line(stream, rooms[0])|..], rooms[1..]);
    }
  }
}
