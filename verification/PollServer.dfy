/**
 The client table and event round of network/echo/d4_poll_echo_server.cpp. One
 round takes what `poll` reported, accepts at most one connection and serves the
 readable clients, leaving the scan early when as many entries have been served as
 `poll` counted. Only entries 0..maxidx are polled, so the `revents` of an entry
 above them is whatever the uninitialised array held. A failed poll counts -1, leaves
 every `revents` as it was, and goes unnoticed.
 */
module PollServer {

  const MAX_POLL_SIZE := 4096

  /** `revents`: zero, with POLLRDNORM, or non-zero without it. */
  datatype Revents = Quiet | Readable | Other

  datatype Accept = Accepted(fd: int) | Interrupted | AcceptFailed

  datatype End = NextRound | TooManyClients | AcceptError

  /** The readable entries of lo..hi, in order. */
  function Ready(rev: seq<Revents>, lo: nat, hi: nat): seq<nat>
    requires lo <= hi <= |rev|
  {
    if lo == hi then [] else Ready(rev, lo, hi - 1) + if rev[hi - 1].Readable? then [hi - 1] else []
  }

  lemma {:induction false} ReadyMembers(rev: seq<Revents>, lo: nat, hi: nat)
    requires lo <= hi <= |rev|
    ensures forall i :: i in Ready(rev, lo, hi) <==> lo <= i < hi && rev[i].Readable?
  {
    if lo < hi {
      ReadyMembers(rev, lo, hi - 1);
    }
  }

  lemma {:induction false} ReadyOrdered(rev: seq<Revents>, lo: nat, hi: nat)
    requires lo <= hi <= |rev|
    ensures forall i, j :: 0 <= i < j < |Ready(rev, lo, hi)| ==> Ready(rev, lo, hi)[i] < Ready(rev, lo, hi)[j]
  {
    if lo < hi {
      ReadyOrdered(rev, lo, hi - 1);
      ReadyMembers(rev, lo, hi - 1);
      var before := Ready(rev, lo, hi - 1);
      forall i | 0 <= i < |before| ensures before[i] < hi - 1 {
        assert before[i] in before;
      }
    }
  }

  /** What `poll` returns: the number of entries with non-zero revents. */
  function Reported(rev: seq<Revents>, lo: nat, hi: nat): nat
    requires lo <= hi <= |rev|
  {
    if lo == hi then 0 else Reported(rev, lo, hi - 1) + if rev[hi - 1].Quiet? then 0 else 1
  }

  lemma {:induction false} ReportedCounts(rev: seq<Revents>, lo: nat, hi: nat)
    requires lo <= hi <= |rev|
    ensures Reported(rev, lo, hi) == |set i | lo <= i < hi && !rev[i].Quiet?|
  {
    var all := set i | lo <= i < hi && !rev[i].Quiet?;
    if lo == hi {
      assert all == {};
    } else {
      ReportedCounts(rev, lo, hi - 1);
      var front := set i | lo <= i < hi - 1 && !rev[i].Quiet?;
      assert all == if rev[hi - 1].Quiet? then front else front + {hi - 1};
    }
  }

  /** Some entry of lo..hi is reported without being readable. */
  predicate OtherIn(rev: seq<Revents>, lo: nat, hi: nat)
    requires lo <= hi <= |rev|
  {
    exists i :: lo <= i < hi && rev[i].Other?
  }

  lemma {:induction false} ReadyAreReported(rev: seq<Revents>, lo: nat, hi: nat)
    requires lo <= hi <= |rev|
    ensures |Ready(rev, lo, hi)| <= Reported(rev, lo, hi)
    ensures |Ready(rev, lo, hi)| < Reported(rev, lo, hi) <==> OtherIn(rev, lo, hi)
  {
    if lo < hi {
      ReadyAreReported(rev, lo, hi - 1);
      assert OtherIn(rev, lo, hi) <==> OtherIn(rev, lo, hi - 1) || rev[hi - 1].Other?;
    }
  }

  /** Ready splits at any point. */
  lemma {:induction false} ReadySplits(rev: seq<Revents>, lo: nat, mid: nat, hi: nat)
    requires lo <= mid <= hi <= |rev|
    ensures Ready(rev, lo, hi) == Ready(rev, lo, mid) + Ready(rev, mid, hi)
  {
    if mid < hi {
      ReadySplits(rev, lo, mid, hi - 1);
    }
  }

  lemma {:induction false} ReportedSplitsFirst(rev: seq<Revents>, hi: nat)
    requires 0 < hi <= |rev|
    ensures Reported(rev, 0, hi) == Reported(rev, 1, hi) + if rev[0].Quiet? then 0 else 1
  {
    if hi > 1 {
      ReportedSplitsFirst(rev, hi - 1);
    }
  }

  /** The table: the listener in slot 0, every client in one slot of 1..maxidx, nothing above. */
  predicate Table(client: seq<int>, maxidx: nat, listenfd: int) {
    && |client| == 4096 && maxidx < 4096
    && listenfd >= 0 && client[0] == listenfd
    && (forall i :: 0 <= i < |client| ==> client[i] >= -1)
    && (forall i :: maxidx < i < |client| ==> client[i] == -1)
    && (forall i, j :: 0 <= i < j < |client| && client[i] >= 0 ==> client[i] != client[j])
  }

  /** A successful poll of the first maxidx + 1 entries: closed slots are quiet, and the count is right. */
  predicate Polled(client: seq<int>, maxidx: nat, rev: seq<Revents>, nready: int)
    requires |client| == MAX_POLL_SIZE && maxidx < MAX_POLL_SIZE
  {
    && |rev| == MAX_POLL_SIZE
    && nready == Reported(rev, 0, maxidx + 1)
    && (forall i :: 0 <= i <= maxidx && client[i] < 0 ==> rev[i].Quiet?)
  }

  /** What the scan goes by: it passes over closed slots whatever their revents. */
  function Open(rev: seq<Revents>, client: seq<int>): (open: seq<Revents>)
    requires |rev| == |client|
    ensures |open| == |rev|
  {
    seq(|rev|, i requires 0 <= i < |rev| => if client[i] >= 0 then rev[i] else Quiet)
  }

  lemma {:induction false} SameReady(a: seq<Revents>, b: seq<Revents>, lo: nat, hi: nat)
    requires lo <= hi <= |a| && |a| == |b|
    requires forall i :: lo <= i < hi ==> a[i].Readable? == b[i].Readable?
    ensures Ready(a, lo, hi) == Ready(b, lo, hi)
  {
    if lo < hi {
      SameReady(a, b, lo, hi - 1);
    }
  }

  /** At most the first. */
  function First(s: seq<nat>): seq<nat> { if s == [] then [] else s[..1] }

  /** The slot a new connection gets: the first free one, or none. */
  predicate FirstFree(client: seq<int>, slot: nat) {
    && 1 <= slot <= |client|
    && (forall i :: 1 <= i < slot ==> client[i] >= 0)
    && (slot < |client| ==> client[slot] < 0)
  }

  /**
   A connection accepted into a fresh slot above the polled ones is served at once,
   unpolled, exactly when its leftover revents say readable and some polled entry
   was reported without being readable, which keeps the scan from stopping early.
   */
  predicate ServesUnpolled(rev: seq<Revents>, maxidx: nat, slot: nat)
    requires |rev| == MAX_POLL_SIZE && maxidx < MAX_POLL_SIZE
  {
    slot == maxidx + 1 && slot < MAX_POLL_SIZE && rev[slot].Readable? && OtherIn(rev, 1, maxidx + 1)
  }

  /** The slots below `hi` that were readable and whose read ended the connection are free; the rest is as before. */
  predicate Closed(before: seq<int>, after: seq<int>, rev: seq<Revents>, closes: seq<bool>, hi: nat) {
    && |before| == |after| == |rev| == |closes|
    && forall k :: 0 <= k < |after| ==>
         after[k] == if 1 <= k < hi && rev[k].Readable? && closes[k] then -1 else before[k]
  }

  /** One slot further. */
  lemma ClosedNext(first: seq<int>, before: seq<int>, after: seq<int>, rev: seq<Revents>, closes: seq<bool>, i: nat)
    requires Closed(first, before, rev, closes, i) && 1 <= i < |first|
    ensures after == before && !(rev[i].Readable? && closes[i]) ==> Closed(first, after, rev, closes, i + 1)
    ensures after == before[i := -1] && rev[i].Readable? && closes[i] ==> Closed(first, after, rev, closes, i + 1)
    ensures before[i] == first[i]
  {}

  class Server {
    const client: array<int>
    var maxidx: nat
    const listenfd: int

    constructor (listenfd: int)
      requires listenfd >= 0
      ensures Valid() && maxidx == 0 && fresh(client) && this.listenfd == listenfd
      ensures client[..] == [listenfd] + seq(4095, _ => -1)
    {
      this.listenfd, maxidx := listenfd, 0;
      client := new int[MAX_POLL_SIZE](i => if i == 0 then listenfd else -1);
    }

    ghost predicate Valid()
      reads this, client
    {
      Table(client[..], maxidx, listenfd)
    }

    /** Finds the slot and stores the connection in it. */
    method AddClient(connfd: int) returns (slot: nat)
      requires Valid() && connfd >= 0 && connfd !in client[..]
      modifies this, client
      ensures FirstFree(old(client[..]), slot) && slot <= old(maxidx) + 1
      ensures forall i :: 1 <= i < slot ==> old(client[i]) >= 0
      ensures slot < 4096 ==> old(client[slot]) == -1
      ensures slot == MAX_POLL_SIZE ==> client[..] == old(client[..]) && maxidx == old(maxidx)
      ensures slot < MAX_POLL_SIZE ==>
        && client[..] == old(client[..])[slot := connfd]
        && maxidx == if slot > old(maxidx) then slot else old(maxidx)
      ensures Valid()
    {
      slot := 1;
      while slot < MAX_POLL_SIZE
        invariant 1 <= slot <= MAX_POLL_SIZE
        invariant forall i :: 1 <= i < slot ==> client[i] >= 0
        invariant client[..] == old(client[..]) && slot <= maxidx + 1
      {
        if client[slot] < 0 {
          client[slot] := connfd;
          break;
        }
        slot := slot + 1;
      }
      if slot < MAX_POLL_SIZE && slot > maxidx {
        maxidx := slot;
      }
    }

    /**
     The scan loop: it stops before slot `stop`, early only when it has served a slot
     and as many as were counted. `closes[i]` says whether the read on slot i ends the
     connection.
     */
    method ScanLoop(rev: seq<Revents>, nready: int, closes: seq<bool>) returns (served: seq<nat>, stop: nat)
      requires Valid() && |rev| == |closes| == MAX_POLL_SIZE
      modifies client
      ensures 1 <= stop <= maxidx + 1
      ensures var open := Open(rev, old(client[..]));
        && served == Ready(open, 1, stop)
        && Closed(old(client[..]), client[..], open, closes, stop)
        && (stop <= maxidx ==> served != [] && |served| >= nready)
        && (stop == 1 || Ready(open, 1, stop - 1) == [] || |Ready(open, 1, stop - 1)| < nready)
    {
      ghost var open := Open(rev, client[..]);
      served, stop := [], 1;
      var left := nready;
      while stop <= maxidx
        invariant 1 <= stop <= maxidx + 1
        invariant served == Ready(open, 1, stop) && left == nready - |served|
        invariant served == [] || left > 0
        invariant stop == 1 || Ready(open, 1, stop - 1) == [] || |Ready(open, 1, stop - 1)| < nready
        invariant Closed(old(client[..]), client[..], open, closes, stop)
      {
        ghost var before := client[..];
        ClosedNext(old(client[..]), before, before, open, closes, stop);
        if client[stop] >= 0 && rev[stop].Readable? {
          if closes[stop] {
            client[stop] := -1;
          }
          ClosedNext(old(client[..]), before, client[..], open, closes, stop);
          served, left := served + [stop], left - 1;
          if left <= 0 {
            return served, stop + 1;
          }
        }
        stop := stop + 1;
      }
    }

    /**
     The scan after the poll of 0..polled, which is maxidx or, after an accept, perhaps
     one less. After a failed poll, one open slot at most is served: the first whose
     leftover revents say readable.
     */
    method Scan(rev: seq<Revents>, nready: int, closes: seq<bool>, ghost polled: nat) returns (served: seq<nat>)
      requires Valid() && |rev| == |closes| == MAX_POLL_SIZE
      requires CanScan(rev, client[..], nready, polled, maxidx)
      modifies client
      ensures Valid()
      ensures nready >= 0 ==> served == Ready(rev, 1, polled + 1) + Unpolled(rev, nready, polled, maxidx)
      ensures nready < 0 ==> served == First(Ready(Open(rev, old(client[..])), 1, maxidx + 1))
      ensures forall i :: 0 <= i < MAX_POLL_SIZE ==>
        client[i] == if i in served && closes[i] then -1 else old(client[i])
    {
      ghost var before := client[..];
      var stop;
      served, stop := ScanLoop(rev, nready, closes);
      ClosedAreServed(before, client[..], Open(rev, before), closes, stop, maxidx, listenfd);
      ScanServes(rev, before, nready, polled, maxidx, stop);
    }

    /**
     One round of the event loop. After a poll that succeeded, unless `accept` was
     interrupted, the served slots are exactly the clients `poll` reported readable, in
     slot order, plus possibly the slot of the connection just accepted. After one that
     failed, what the leftover revents say: an accept and nothing else, or at most one
     client served.
     */
    method Round(rev: seq<Revents>, nready: int, accept: Accept, closes: seq<bool>)
      returns (served: seq<nat>, slot: nat, end: End)
      requires Valid() && |rev| == |closes| == MAX_POLL_SIZE
      requires nready == -1 || Polled(client[..], maxidx, rev, nready)
      requires accept.Accepted? ==> accept.fd >= 0 && accept.fd !in client[..]
      modifies this, client
      ensures Valid()
      ensures !rev[0].Readable? ==> end == NextRound
      ensures !rev[0].Readable? && nready >= 0 ==> served == Ready(rev, 1, old(maxidx) + 1)
      ensures !rev[0].Readable? && nready < 0 ==> served == First(Ready(Open(rev, old(client[..])), 1, old(maxidx) + 1))
      ensures nready < 0 ==> |served| <= 1
      ensures rev[0].Readable? && accept.Accepted? ==>
        && FirstFree(old(client[..]), slot)
        && end == (if slot == MAX_POLL_SIZE then TooManyClients else NextRound)
        && served == if end != NextRound || nready < 0 then []
                     else Ready(rev, 1, old(maxidx) + 1) + if ServesUnpolled(rev, old(maxidx), slot) then [slot] else []
      ensures rev[0].Readable? && !accept.Accepted? ==>
        served == [] && end == if accept.Interrupted? then NextRound else AcceptError
      ensures forall i :: 0 <= i < MAX_POLL_SIZE ==>
        client[i] == if i in served && closes[i] then -1
                     else if rev[0].Readable? && accept.Accepted? && i == slot then accept.fd
                     else old(client[i])
    {
      ghost var polled := maxidx;
      var left := nready;
      served, slot := [], 0;
      ReadyAreReported(rev, 1, maxidx + 1);
      ReportedSplitsFirst(rev, maxidx + 1);
      if rev[0].Readable? {
        match accept {
          case Interrupted => return served, slot, NextRound;
          case AcceptFailed => return served, slot, AcceptError;
          case Accepted(connfd) =>
            slot := AddClient(connfd);
            if slot == MAX_POLL_SIZE {
              return served, slot, TooManyClients;
            }
        }
        left := left - 1;
        if left <= 0 {
          return served, slot, NextRound;
        }
      }
      served := Scan(rev, left, closes, polled);
      end := NextRound;
    }
  }

  lemma ClosingKeepsTable(before: seq<int>, after: seq<int>, maxidx: nat, listenfd: int)
    requires Table(before, maxidx, listenfd) && |after| == |before| && after[0] == before[0]
    requires forall k :: 0 <= k < |after| ==> after[k] == -1 || after[k] == before[k]
    ensures Table(after, maxidx, listenfd)
  {}

  lemma ClosedAreServed(before: seq<int>, after: seq<int>, open: seq<Revents>, closes: seq<bool>, stop: nat,
                        maxidx: nat, listenfd: int)
    requires Table(before, maxidx, listenfd) && 1 <= stop <= maxidx + 1 && Closed(before, after, open, closes, stop)
    ensures Table(after, maxidx, listenfd)
    ensures forall i :: 0 <= i < |after| ==>
      after[i] == if i in Ready(open, 1, stop) && closes[i] then -1 else before[i]
  {
    ReadyMembers(open, 1, stop);
    ClosingKeepsTable(before, after, maxidx, listenfd);
  }

  /** A slot above the polled ones, if the scan gets that far and finds its revents readable. */
  function Unpolled(rev: seq<Revents>, nready: nat, polled: nat, maxidx: nat): seq<nat>
    requires polled <= maxidx < |rev|
  {
    if polled < maxidx && rev[maxidx].Readable? && nready > |Ready(rev, 1, polled + 1)| then [maxidx] else []
  }

  /** However the scan stops, no polled slot that was readable is left unserved. */
  lemma ScanComplete(rev: seq<Revents>, nready: nat, polled: nat, maxidx: nat, stop: nat)
    requires polled <= maxidx <= polled + 1 && maxidx < |rev| && 1 <= stop <= maxidx + 1
    requires polled < maxidx ==> nready > 0
    requires nready >= |Ready(rev, 1, polled + 1)|
    requires stop <= maxidx ==> |Ready(rev, 1, stop)| >= nready
    requires stop == 1 || Ready(rev, 1, stop - 1) == [] || |Ready(rev, 1, stop - 1)| < nready
    ensures Ready(rev, 1, stop) == Ready(rev, 1, polled + 1) + Unpolled(rev, nready, polled, maxidx)
  {
    var all := Ready(rev, 1, polled + 1);
    if stop <= polled + 1 {
      ReadySplits(rev, 1, stop, polled + 1);
      if stop <= maxidx {
        assert |Ready(rev, 1, stop)| >= nready >= |all|;
        assert Ready(rev, stop, polled + 1) == [];
      }
      assert Ready(rev, 1, stop) == all == all + [];
    } else {
      assert stop - 1 == maxidx == polled + 1;
      assert Ready(rev, 1, stop) == all + if rev[maxidx].Readable? then [maxidx] else [];
    }
  }

  lemma StaleScanComplete(open: seq<Revents>, maxidx: nat, stop: nat)
    requires maxidx < |open| && 1 <= stop <= maxidx + 1
    requires stop <= maxidx ==> Ready(open, 1, stop) != []
    requires stop == 1 || Ready(open, 1, stop - 1) == []
    ensures Ready(open, 1, stop) == First(Ready(open, 1, maxidx + 1))
  {
    ReadySplits(open, 1, stop, maxidx + 1);
  }

  /** The two situations in which the scan begins. */
  predicate CanScan(rev: seq<Revents>, client: seq<int>, nready: int, polled: nat, maxidx: nat) {
    && maxidx < |rev| == |client|
    && if nready < 0 then polled == maxidx
       else
         && polled <= maxidx <= polled + 1
         && (forall i :: 1 <= i <= polled && client[i] < 0 ==> !rev[i].Readable?)
         && (polled < maxidx ==> client[maxidx] >= 0 && nready > 0)
         && nready >= |Ready(rev, 1, polled + 1)|
  }

  lemma ScanServes(rev: seq<Revents>, client: seq<int>, nready: int, polled: nat, maxidx: nat, stop: nat)
    requires CanScan(rev, client, nready, polled, maxidx) && 1 <= stop <= maxidx + 1
    requires var open := Open(rev, client);
      && (stop <= maxidx ==> Ready(open, 1, stop) != [] && |Ready(open, 1, stop)| >= nready)
      && (stop == 1 || Ready(open, 1, stop - 1) == [] || |Ready(open, 1, stop - 1)| < nready)
    ensures var served := Ready(Open(rev, client), 1, stop);
      if nready < 0 then served == First(Ready(Open(rev, client), 1, maxidx + 1))
      else served == Ready(rev, 1, polled + 1) + Unpolled(rev, nready, polled, maxidx)
  {
    if nready < 0 {
      StaleScanComplete(Open(rev, client), maxidx, stop);
    } else {
      SameReady(rev, Open(rev, client), 1, polled + 1);
      ScanComplete(Open(rev, client), nready, polled, maxidx, stop);
    }
  }

  /** A table and a poll of it after which a connection is served in the round that accepts it, without having been polled. */
  lemma UnpolledServiceHappens() returns (client: seq<int>, rev: seq<Revents>)
    ensures Table(client, 1, 3) && Polled(client, 1, rev, 2) && rev[0].Readable?
    ensures FirstFree(client, 2) && ServesUnpolled(rev, 1, 2)
  {
    client := seq(MAX_POLL_SIZE, i => if i == 0 then 3 else if i == 1 then 4 else -1);
    rev := seq(MAX_POLL_SIZE, i => if i == 0 || i == 2 then Readable else if i == 1 then Other else Quiet);
    assert rev[1].Other?;
    assert Reported(rev, 0, 1) == 1;
  }
}
