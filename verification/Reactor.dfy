/**
 The connection table and event handlers of network/demo4_c1000k_server.cpp. The
 table is a linked list of blocks of 1024 slots, grown on demand and never shrunk,
 that serves as an array indexed by descriptor. A pointer to a buffer is an
 address, 0 for null; `malloc` and `calloc` are told by a script whether they
 succeed, and succeed once the script is used up.
 */
module Reactor {
  import opened Bytes

  const ITEM_LENGTH := 1024
  const BUFFER_LENGTH := 128

  datatype SockItem = SockItem(fd: int, rbuf: int, rlen: int, wbuf: int, wlen: int)

  const ZeroItem := SockItem(0, 0, 0, 0, 0)

  /** What the two allocations of one resize do. */
  datatype Alloc = Succeeds | NoItems | NoBlock

  function Successes(script: seq<Alloc>): nat {
    if script == [] then 0 else Successes(script[..|script| - 1]) + if script[|script| - 1] == Succeeds then 1 else 0
  }

  lemma {:induction false} SuccessesGrow(script: seq<Alloc>, k: nat)
    requires k <= |script|
    ensures Successes(script[..k]) <= Successes(script)
    decreases |script| - k
  {
    if k == |script| {
      assert script[..k] == script;
    } else {
      SuccessesGrow(script, k + 1);
      assert script[..k + 1][..k] == script[..k];
    }
  }

  class EventBlock {
    const items: array<SockItem>
    var next: EventBlock?

    constructor (items: array<SockItem>)
      ensures this.items == items && next == null
    {
      this.items, next := items, null;
    }
  }

  ghost predicate Zeroed(items: array<SockItem>)
    reads items
  {
    forall k :: 0 <= k < items.Length ==> items[k] == SockItem(0, 0, 0, 0, 0)
  }

  /** A slot is a place in memory: a block's array and an index in it. */
  datatype Slot = Slot(items: array<SockItem>, index: nat)

  class Table {
    var blockCount: int
    var eventblocks: EventBlock?
    ghost var blocks: seq<EventBlock>

    constructor ()
      ensures Valid() && blocks == []
    {
      blockCount, eventblocks, blocks := 0, null, [];
    }

    /** The list is the blocks in order, ends, and no two blocks share their slots. */
    ghost predicate Valid()
      reads this, blocks
    {
      && blockCount == |blocks|
      && eventblocks == (if blocks == [] then null else blocks[0])
      && (forall i :: 0 <= i < |blocks| ==>
            && blocks[i].items.Length == 1024
            && (blocks[i].next == null <==> i + 1 == |blocks|)
            && (i + 1 < |blocks| ==> blocks[i].next == blocks[i + 1]))
      && (forall i, j :: 0 <= i < j < |blocks| ==> blocks[i] != blocks[j] && blocks[i].items != blocks[j].items)
    }

    ghost function SlotOf(fd: nat): Slot
      reads this, blocks
      requires Valid() && fd / 1024 < |blocks|
      ensures SlotOf(fd).index < SlotOf(fd).items.Length
    {
      Slot(blocks[fd / 1024].items, fd % 1024)
    }

    /** The tail of the list, found by walking it. */
    method Last() returns (cur: EventBlock?)
      requires Valid()
      ensures cur == if blocks == [] then null else blocks[|blocks| - 1]
    {
      cur := eventblocks;
      ghost var i := 0;
      while cur != null && cur.next != null
        invariant if blocks == [] then cur == null else 0 <= i < |blocks| && cur == blocks[i]
        decreases |blocks| - i
      {
        cur := cur.next;
        i := i + 1;
      }
    }

    /** Appends one block of zeroed slots, or changes nothing and says which allocation failed. */
    method Resize(alloc: Alloc) returns (r: int)
      requires Valid()
      modifies this, blocks
      ensures Valid()
      ensures alloc == NoItems ==> r == -4 && blocks == old(blocks)
      ensures alloc == NoBlock ==> r == -5 && blocks == old(blocks)
      ensures alloc == Succeeds ==> r == 0 && |blocks| == |old(blocks)| + 1
      ensures old(blocks) <= blocks
      ensures forall b :: b in blocks && b !in old(blocks) ==> fresh(b) && fresh(b.items) && Zeroed(b.items)
    {
      var cur := Last();
      if alloc == NoItems {
        return -4;
      }
      if alloc == NoBlock {
        return -5;
      }
      var items := new SockItem[ITEM_LENGTH](_ => ZeroItem);
      var block := new EventBlock(items);
      if cur == null {
        eventblocks := block;
      } else {
        cur.next := block;
      }
      blocks := blocks + [block];
      blockCount := blockCount + 1;
      return 0;
    }
  
    /** The walk to block number `index`. */
    method BlockAt(index: nat) returns (cur: EventBlock)
      requires Valid() && index < |blocks|
      ensures cur == blocks[index]
    {
      var i := 0;
      var p := eventblocks;
      while i < index && p != null
        invariant 0 <= i <= index && p == blocks[i]
      {
        p := p.next;
        i := i + 1;
      }
      cur := p;
    }

    /**
     The growth loop: one resize after another until the table reaches that block,
     however many fail. It is done within the script if and only if the script has as
     many successes as blocks are missing; with fewer it outlasts the script.
     */
    method Grow(blockIdx: nat, script: seq<Alloc>) returns (calls: nat)
      requires Valid()
      modifies this, blocks
      ensures Valid() && old(blocks) <= blocks
      ensures |blocks| == Max(|old(blocks)|, blockIdx + 1)
      ensures forall b :: b in blocks && b !in old(blocks) ==> fresh(b) && fresh(b.items) && Zeroed(b.items)
      ensures calls <= |script| <==> Successes(script) >= |blocks| - |old(blocks)|
    {
      calls := 0;
      while blockIdx >= blockCount
        invariant Valid() && old(blocks) <= blocks
        invariant |blocks| <= Max(|old(blocks)|, blockIdx + 1)
        invariant forall b :: b in blocks && b !in old(blocks) ==> fresh(b) && fresh(b.items) && Zeroed(b.items)
        invariant calls <= |script| ==> Successes(script[..calls]) == |blocks| - |old(blocks)|
        invariant calls > |script| ==> Successes(script) < |blocks| - |old(blocks)|
        decreases blockIdx - blockCount, if calls < |script| then |script| - calls else 0
      {
        var alloc := Succeeds;
        if calls < |script| {
          alloc := script[calls];
          assert script[..calls + 1][..calls] == script[..calls];
        } else if calls == |script| {
          assert script[..calls] == script;
        }
        calls := calls + 1;
        var _ := Resize(alloc);
      }
      if calls <= |script| {
        SuccessesGrow(script, calls);
      }
    }

    /**
     The slot of a descriptor, growing the table as far as needed through any number
     of failed allocations. Slots already there keep their place and contents.
     */
    method Lookup(fd: int, script: seq<Alloc>) returns (found: bool, items: array?<SockItem>, index: nat)
      requires Valid()
      modifies this, blocks
      ensures Valid() && old(blocks) <= blocks
      ensures forall b :: b in blocks && b !in old(blocks) ==> fresh(b) && fresh(b.items) && Zeroed(b.items)
      ensures forall g: nat :: g / 1024 < |old(blocks)| ==> SlotOf(g) == old(SlotOf(g))
      ensures found <==> fd > 0
      ensures !found ==> blocks == old(blocks)
      ensures found ==>
        && |blocks| == Max(|old(blocks)|, fd / 1024 + 1)
        && items == SlotOf(fd).items && index == SlotOf(fd).index
    {
      if fd <= 0 {
        return false, null, 0;
      }
      var blockIdx := fd / ITEM_LENGTH;
      var _ := Grow(blockIdx, script);
      var cur := BlockAt(blockIdx);
      return true, cur.items, fd % ITEM_LENGTH;
    }

    ghost function Arrays(): set<array<SockItem>>
      reads this, blocks
    {
      set b | b in blocks :: b.items
    }

    ghost predicate Covers(fd: int)
      reads this
    {
      fd > 0 && fd / 1024 < |blocks|
    }

    /** What the slot of a descriptor holds. */
    ghost function ItemAt(fd: int): SockItem
      requires Valid() && Covers(fd)
      reads this, blocks, Arrays()
    {
      var slot := SlotOf(fd);
      assert slot.items in Arrays();
      slot.items[slot.index]
    }

    /** The slots of these descriptors hold these items. */
    ghost predicate Shows(conns: Conns)
      requires Valid()
      reads this, blocks, Arrays()
    {
      forall fd :: fd in conns ==> Covers(fd) && ItemAt(fd) == conns[fd]
    }

    /** A write through the slot that `Lookup` returns changes what that descriptor holds and nothing else. */
    method Store(fd: int, item: SockItem, script: seq<Alloc>, ghost conns: Conns)
      requires Valid() && fd > 0 && Shows(conns)
      modifies this, blocks, Arrays()
      ensures Valid() && Shows(conns[fd := item]) && Shows(conns - {fd})
      ensures old(blocks) <= blocks
      ensures forall b :: b in blocks && b !in old(blocks) ==> fresh(b) && fresh(b.items)
    {
      var _, items, index := Lookup(fd, script);
      forall g | g in conns && g != fd
        ensures Covers(g) && SlotOf(g) != SlotOf(fd) && ItemAt(g) == conns[g]
      {
        SlotsAreDistinct(this, g, fd);
      }
      items[index] := item;
    }

    /** A read through the slot of a descriptor in the table. */
    method Load(fd: int, ghost conns: Conns) returns (item: SockItem)
      requires Valid() && Shows(conns) && fd in conns
      modifies this, blocks
      ensures Valid() && blocks == old(blocks) && Shows(conns) && item == conns[fd]
    {
      var _, items, index := Lookup(fd, []);
      item := items[index];
      assert item == ItemAt(fd);
    }
  }

  /** Different descriptors never share a slot. */
  lemma SlotsAreDistinct(t: Table, f: nat, g: nat)
    requires t.Valid() && f / 1024 < |t.blocks| && g / 1024 < |t.blocks|
    ensures t.SlotOf(f) == t.SlotOf(g) <==> f == g
  {
    if f / 1024 == g / 1024 && f % 1024 == g % 1024 {
      assert f == 1024 * (f / 1024) + f % 1024;
      assert g == 1024 * (g / 1024) + g % 1024;
    }
  }

  // ---------------------------------------------------------------- buffers of open connections

  type Conns = map<int, SockItem>

  predicate Uses(item: SockItem, a: int) { item.rbuf == a || item.wbuf == a }

  /**
   Every open connection's slot holds its descriptor and two buffers that it owns,
   and every allocated buffer is owned by the open connection that uses it.
   */
  predicate Owned(conns: Conns, owner: map<int, int>) {
    && (forall fd :: fd in conns ==> Holds(conns[fd], fd, owner))
    && (forall a :: a in owner ==> owner[a] in conns && Uses(conns[owner[a]], a))
  }

  predicate Holds(item: SockItem, fd: int, owner: map<int, int>) {
    && fd > 0 && item.fd == fd && item.rbuf != item.wbuf
    && item.rbuf in owner && owner[item.rbuf] == fd
    && item.wbuf in owner && owner[item.wbuf] == fd
  }

  /** So no buffer is shared. */
  lemma NoSharing(conns: Conns, owner: map<int, int>, f: int, g: int, a: int)
    requires Owned(conns, owner) && f in conns && g in conns && Uses(conns[f], a) && Uses(conns[g], a)
    ensures f == g
  {
    assert Holds(conns[f], f, owner) && Holds(conns[g], g, owner);
  }

  lemma OpenKeepsOwned(conns: Conns, owner: map<int, int>, fd: int, r: int, w: int)
    requires Owned(conns, owner) && fd > 0 && fd !in conns && r !in owner && w !in owner && r != w
    ensures Owned(conns[fd := SockItem(fd, r, 0, w, 0)], owner[r := fd][w := fd])
  {
  }

  lemma CloseKeepsOwned(conns: Conns, owner: map<int, int>, fd: int)
    requires Owned(conns, owner) && fd in conns
    ensures Owned(conns - {fd}, owner - {conns[fd].rbuf, conns[fd].wbuf})
  {
    var after, rest := conns - {fd}, owner - {conns[fd].rbuf, conns[fd].wbuf};
    forall g | g in after ensures Holds(after[g], g, rest) {
      assert Holds(conns[g], g, owner);
    }
  }

  lemma OneMore<K, V>(m: map<K, V>, k: K, v: V)
    requires k !in m
    ensures |m[k := v]| == |m| + 1
  {
    assert m[k := v].Keys == m.Keys + {k};
  }

  lemma OneLess<K, V>(m: map<K, V>, k: K)
    requires k in m
    ensures |m - {k}| == |m| - 1
  {
    assert m.Keys == (m - {k}).Keys + {k};
  }

  /**
   The exchange on one connection: the messages received, and of each reply the bytes
   that `send` accepted. While a reply is due the connection is registered for
   writing, otherwise for reading.
   */
  datatype Talk = Talk(replying: bool, received: seq<seq<byte>>, sent: seq<seq<byte>>)

  /** The open connections with what their slots hold, and everything `calloc` has handed out. */
  datatype Memory = Memory(
    conns: Conns,
    live: map<int, seq<byte>>,  // allocated buffers: address and contents
    owner: map<int, int>,       // history: the connection each was allocated for
    talks: map<int, Talk>,      // registration and history of each connection
    allocs: nat,
    frees: nat)

  datatype Event =
    | Accept(fd: int, r: int, w: int)     // calloc returns the addresses r and w
    | Receive(fd: int, data: seq<byte>)   // recv returned data
    | PeerClosed(fd: int)                 // recv returned 0
    | RecvFailed(fd: int)
    | Writable(fd: int, n: nat)           // send accepted n bytes; none if it failed

  function Zeros(): seq<byte> { seq(BUFFER_LENGTH, _ => 0) }

  /** Allocations minus frees is what is live, two buffers a connection, each owned by its one user. */
  predicate Sound(h: Memory) {
    && Owned(h.conns, h.owner)
    && h.owner.Keys == h.live.Keys
    && h.talks.Keys == h.conns.Keys
    && h.allocs - h.frees == |h.live| == 2 * |h.conns|
    && (forall a :: a in h.live ==> |h.live[a]| == 128)
  }

  /** The kernel reports events of open connections only, and accepts onto descriptors that are not open. */
  predicate Possible(h: Memory, e: Event) {
    match e
    case Accept(fd, r, w) => fd > 0 && fd !in h.conns && r !in h.live && w !in h.live && r != w
    case Receive(fd, data) => fd in h.conns && 0 < |data| <= BUFFER_LENGTH
    case PeerClosed(fd) => fd in h.conns
    case RecvFailed(fd) => fd in h.conns
    case Writable(fd, n) => fd in h.conns && n <= BUFFER_LENGTH
  }

  /** The event finds its connection's buffers allocated: nothing freed is read, written or freed again. */
  predicate Safe(h: Memory, e: Event) {
    e.Accept? || (e.fd in h.conns && e.fd in h.talks && h.conns[e.fd].fd == e.fd
                  && h.conns[e.fd].rbuf in h.live && |h.live[h.conns[e.fd].rbuf]| == 128
                  && h.conns[e.fd].wbuf in h.live && |h.live[h.conns[e.fd].wbuf]| == 128)
  }

  /** A receive lands in front of the buffer and leaves the older bytes behind it. */
  function Over(data: seq<byte>, buffer: seq<byte>): (whole: seq<byte>)
    requires |data| <= |buffer|
    ensures |whole| == |buffer| && data <= whole
  {
    data + buffer[|data|..]
  }

  /** What a writable connection's `send` is handed: always the whole buffer. */
  function Handed(h: Memory, fd: int): seq<byte>
    requires Safe(h, RecvFailed(fd))
  {
    h.live[h.conns[fd].wbuf]
  }

  /** The whole read buffer is copied for sending, older bytes behind the new ones included. */
  function Handle(h: Memory, e: Event): Memory
    requires Possible(h, e) && Safe(h, e)
  {
    match e
    case Accept(fd, r, w) =>
      Memory(h.conns[fd := SockItem(fd, r, 0, w, 0)], h.live[r := Zeros()][w := Zeros()],
             h.owner[r := fd][w := fd], h.talks[fd := Talk(false, [], [])], h.allocs + 2, h.frees)
    case Receive(fd, data) =>
      var item, talk := h.conns[fd], h.talks[fd];
      var whole := Over(data, h.live[item.rbuf]);
      h.(live := h.live[item.rbuf := whole][item.wbuf := whole],
         talks := h.talks[fd := Talk(true, talk.received + [data], talk.sent)])
    case PeerClosed(fd) =>
      var gone := {h.conns[fd].rbuf, h.conns[fd].wbuf};
      Memory(h.conns - {fd}, h.live - gone, h.owner - gone, h.talks - {fd}, h.allocs, h.frees + 2)
    case RecvFailed(_) => h
    case Writable(fd, n) =>
      var talk := h.talks[fd];
      h.(talks := h.talks[fd := Talk(false, talk.received, talk.sent + [Handed(h, fd)[..n]])])
  }

  lemma OpenKeepsSound(h: Memory, fd: int, r: int, w: int)
    requires Sound(h) && Possible(h, Accept(fd, r, w))
    ensures Sound(Handle(h, Accept(fd, r, w)))
  {
    assert r !in h.owner.Keys && w !in h.owner.Keys;
    OpenKeepsOwned(h.conns, h.owner, fd, r, w);
    OneMore(h.live, r, Zeros());
    OneMore(h.live[r := Zeros()], w, Zeros());
    OneMore(h.conns, fd, SockItem(fd, r, 0, w, 0));
    assert h.owner[r := fd][w := fd].Keys == h.live[r := Zeros()][w := Zeros()].Keys;
    assert Handle(h, Accept(fd, r, w)).talks.Keys == Handle(h, Accept(fd, r, w)).conns.Keys;
  }

  lemma CloseKeepsSound(h: Memory, fd: int)
    requires Sound(h) && fd in h.conns && Safe(h, PeerClosed(fd))
    ensures Sound(Handle(h, PeerClosed(fd)))
  {
    assert Holds(h.conns[fd], fd, h.owner);
    var r, w := h.conns[fd].rbuf, h.conns[fd].wbuf;
    CloseKeepsOwned(h.conns, h.owner, fd);
    OneLess(h.live, r);
    OneLess(h.live - {r}, w);
    OneLess(h.conns, fd);
    assert h.live - {r, w} == h.live - {r} - {w};
    assert (h.owner - {r, w}).Keys == (h.live - {r, w}).Keys;
    assert (h.talks - {fd}).Keys == (h.conns - {fd}).Keys;
  }

  lemma SoundIsSafe(h: Memory, e: Event)
    requires Sound(h) && Possible(h, e)
    ensures Safe(h, e)
  {
    if !e.Accept? {
      assert Holds(h.conns[e.fd], e.fd, h.owner);
      assert h.conns[e.fd].rbuf in h.owner.Keys && h.conns[e.fd].wbuf in h.owner.Keys;
      assert e.fd in h.conns.Keys;
    }
  }

  /** An event that opens and closes nothing. */
  lemma TalkKeepsSound(h: Memory, e: Event)
    requires Sound(h) && Possible(h, e) && Safe(h, e) && (e.Receive? || e.Writable?)
    ensures Sound(Handle(h, e))
  {
    assert Handle(h, e).live.Keys == h.live.Keys;
    assert e.fd in h.conns.Keys && Handle(h, e).talks.Keys == h.talks.Keys;
  }

  /** After a receive `send` is handed bytes that begin with the message, and are the message if and only if it filled the buffer. */
  lemma HandedIsMessage(h: Memory, fd: int, data: seq<byte>)
    requires Sound(h) && Possible(h, Receive(fd, data)) && Safe(h, Receive(fd, data))
    ensures Safe(Handle(h, Receive(fd, data)), RecvFailed(fd))
    ensures data <= Handed(Handle(h, Receive(fd, data)), fd)
    ensures Handed(Handle(h, Receive(fd, data)), fd) == data <==> |data| == 128
  {
    TalkKeepsSound(h, Receive(fd, data));
    SoundIsSafe(Handle(h, Receive(fd, data)), RecvFailed(fd));
  }

  lemma StepKeepsSound(h: Memory, e: Event)
    requires Sound(h) && Possible(h, e) && Safe(h, e)
    ensures Sound(Handle(h, e))
  {
    match e
    case Accept(fd, r, w) => OpenKeepsSound(h, fd, r, w);
    case PeerClosed(fd) => CloseKeepsSound(h, fd);
    case RecvFailed(_) =>
    case _ => TalkKeepsSound(h, e);
  }

  predicate Legal(h: Memory, events: seq<Event>)
    decreases |events|
  {
    events == [] || (Possible(h, events[0]) && (Safe(h, events[0]) ==> Legal(Handle(h, events[0]), events[1..])))
  }

  /** The memory after the events, as far as they are safe. */
  function Run(h: Memory, events: seq<Event>): Memory
    requires Legal(h, events)
    decreases |events|
  {
    if events == [] || !Safe(h, events[0]) then h else Run(Handle(h, events[0]), events[1..])
  }

  predicate AllSafe(h: Memory, events: seq<Event>)
    requires Legal(h, events)
    decreases |events|
  {
    events == [] || (Safe(h, events[0]) && AllSafe(Handle(h, events[0]), events[1..]))
  }

  /** Every run of events is safe and keeps the account, whatever descriptors the kernel reuses. */
  lemma {:induction false} EveryRunIsSound(h: Memory, events: seq<Event>)
    requires Sound(h) && Legal(h, events)
    ensures AllSafe(h, events) && Sound(Run(h, events))
    decreases |events|
  {
    if events != [] {
      var e := events[0];
      SoundIsSafe(h, e);
      StepKeepsSound(h, e);
      EveryRunIsSound(Handle(h, e), events[1..]);
    }
  }

  /** The connections an event opens and closes: an accept its own, the end of its stream its own, and nothing else any. */
  predicate OpenAfter(wasOpen: bool, e: Event, g: int) {
    if e.fd == g && e.Accept? then true else if e.fd == g && e.PeerClosed? then false else wasOpen
  }

  /** And what it does to the slot and the buffers of a connection that stays open: only its own receive does anything. */
  lemma OnlyOwnReceive(h: Memory, e: Event, g: int)
    requires Sound(h) && Possible(h, e) && Safe(h, e)
    ensures g in Handle(h, e).conns <==> OpenAfter(g in h.conns, e, g)
    ensures g in h.conns && g in Handle(h, e).conns ==>
      Safe(h, RecvFailed(g)) && Safe(Handle(h, e), RecvFailed(g)) && Handle(h, e).conns[g] == h.conns[g]
    ensures g in h.conns && g in Handle(h, e).conns ==>
      var r, w, live := h.conns[g].rbuf, h.conns[g].wbuf, Handle(h, e).live;
      if e.Receive? && e.fd == g then live[r] == live[w] == e.data + h.live[r][|e.data|..]
      else live[r] == h.live[r] && live[w] == h.live[w]
  {
    if g in h.conns {
      assert Holds(h.conns[g], g, h.owner);
      SoundIsSafe(h, RecvFailed(g));
      if e.fd in h.conns {
        assert Holds(h.conns[e.fd], e.fd, h.owner);
      }
    }
  }

  /** Open after these events, told from them alone. */
  predicate StillOpen(open: bool, events: seq<Event>, fd: int)
    decreases |events|
  {
    if events == [] then open else StillOpen(OpenAfter(open, events[0], fd), events[1..], fd)
  }

  lemma {:induction false} OpenExactly(h: Memory, events: seq<Event>, fd: int)
    requires Sound(h) && Legal(h, events)
    ensures fd in Run(h, events).conns <==> StillOpen(fd in h.conns, events, fd)
    decreases |events|
  {
    if events != [] {
      SoundIsSafe(h, events[0]);
      StepKeepsSound(h, events[0]);
      OnlyOwnReceive(h, events[0], fd);
      OpenExactly(Handle(h, events[0]), events[1..], fd);
    }
  }

  const NoMemory := Memory(map[], map[], map[], map[], 0, 0)

  /** In particular the server's, which starts with nothing. */
  lemma EveryServerRunIsSound(events: seq<Event>)
    requires Legal(NoMemory, events)
    ensures AllSafe(NoMemory, events) && Sound(Run(NoMemory, events))
  {
    EveryRunIsSound(NoMemory, events);
  }

  /** A server without connections, as it starts. */
  predicate Idle(h: Memory) { Sound(h) && h.conns == map[] }

  lemma StartsIdle()
    ensures Idle(NoMemory)
  {}

  /** What is open is what was accepted and has not been closed by its peer since. */
  lemma OpenIsAcceptedAndNotClosed(h: Memory, events: seq<Event>, fd: int)
    requires Idle(h) && Legal(h, events)
    ensures fd in Run(h, events).conns <==> StillOpen(false, events, fd)
  {
    OpenExactly(h, events, fd);
  }

  // ---------------------------------------------------------------- the echo

  /** The kernel reports a connection readable or writable, whichever it is registered for. */
  predicate Registered(h: Memory, e: Event) {
    e.Accept? || (e.fd in h.talks && h.talks[e.fd].replying == e.Writable?)
  }

  predicate AllRegistered(h: Memory, events: seq<Event>)
    requires Legal(h, events)
    decreases |events|
  {
    events == [] || (Registered(h, events[0]) && (Safe(h, events[0]) ==> AllRegistered(Handle(h, events[0]), events[1..])))
  }

  predicate Messages(received: seq<seq<byte>>) {
    forall i :: 0 <= i < |received| ==> 0 < |received[i]| <= 128
  }

  /** What the buffers of a connection hold after these messages: each over the ones before, and those over zeros. */
  function Layered(received: seq<seq<byte>>): (buffer: seq<byte>)
    requires Messages(received)
    ensures |buffer| == 128
    ensures received != [] ==> received[|received| - 1] <= buffer
  {
    if received == [] then Zeros()
    else Over(received[|received| - 1], Layered(received[..|received| - 1]))
  }

  /** One reply a message, the last perhaps due: the beginning of what the messages so far left in the buffer. */
  predicate Replies(talk: Talk) {
    && Messages(talk.received)
    && |talk.received| == |talk.sent| + (if talk.replying then 1 else 0)
    && forall i :: 0 <= i < |talk.sent| ==> IsReply(talk.sent[i], talk.received[..i + 1])
  }

  predicate IsReply(reply: seq<byte>, received: seq<seq<byte>>)
    requires Messages(received)
  {
    reply <= Layered(received)
  }

  /** The connection's buffers hold its own messages and nothing else. */
  predicate Echoing(h: Memory, fd: int) {
    && Safe(h, RecvFailed(fd)) && Replies(h.talks[fd])
    && h.live[h.conns[fd].rbuf] == h.live[h.conns[fd].wbuf] == Layered(h.talks[fd].received)
  }

  predicate AllEcho(h: Memory) { forall fd :: fd in h.conns ==> Echoing(h, fd) }

  lemma MessageKeepsReplies(talk: Talk, data: seq<byte>)
    requires Replies(talk) && !talk.replying && 0 < |data| <= 128
    ensures Replies(Talk(true, talk.received + [data], talk.sent))
    ensures Layered(talk.received + [data]) == Over(data, Layered(talk.received))
  {
    var was, now := talk.received, talk.received + [data];
    assert now[..|was|] == was && now[|was|] == data;
    forall i | 0 <= i < |talk.sent| ensures IsReply(talk.sent[i], now[..i + 1]) {
      assert now[..i + 1] == was[..i + 1];
    }
  }

  lemma ReceiveEchoes(h: Memory, fd: int, data: seq<byte>)
    requires Possible(h, Receive(fd, data)) && Registered(h, Receive(fd, data)) && Echoing(h, fd)
    ensures Echoing(Handle(h, Receive(fd, data)), fd)
  {
    MessageKeepsReplies(h.talks[fd], data);
  }

  lemma WritableEchoes(h: Memory, fd: int, n: nat)
    requires Possible(h, Writable(fd, n)) && Registered(h, Writable(fd, n)) && Echoing(h, fd)
    ensures Echoing(Handle(h, Writable(fd, n)), fd)
  {
    var talk := h.talks[fd];
    assert talk.received[..|talk.sent| + 1] == talk.received;
  }

  /** What happens to one connection leaves the others' buffers and exchanges alone. */
  lemma OthersEcho(h: Memory, e: Event, g: int)
    requires Sound(h) && Possible(h, e) && Safe(h, e) && g in h.conns && g != e.fd && Echoing(h, g)
    ensures Echoing(Handle(h, e), g)
  {
    assert Holds(h.conns[g], g, h.owner);
    if e.fd in h.conns {
      assert Holds(h.conns[e.fd], e.fd, h.owner);
    }
  }

  lemma StepEchoes(h: Memory, e: Event)
    requires Sound(h) && AllEcho(h) && Possible(h, e) && Safe(h, e) && Registered(h, e)
    ensures AllEcho(Handle(h, e))
  {
    var after := Handle(h, e);
    forall g | g in after.conns ensures Echoing(after, g) {
      if g != e.fd {
        OthersEcho(h, e, g);
      } else {
        match e
        case Receive(fd, data) => ReceiveEchoes(h, fd, data);
        case Writable(fd, n) => WritableEchoes(h, fd, n);
        case _ =>
      }
    }
  }

  lemma {:induction false} RunEchoes(h: Memory, events: seq<Event>)
    requires Sound(h) && AllEcho(h) && Legal(h, events) && AllRegistered(h, events)
    ensures AllEcho(Run(h, events))
    decreases |events|
  {
    if events != [] {
      SoundIsSafe(h, events[0]);
      StepKeepsSound(h, events[0]);
      StepEchoes(h, events[0]);
      RunEchoes(Handle(h, events[0]), events[1..]);
    }
  }

  /** Every part has n bytes. */
  predicate AllOf(parts: seq<seq<byte>>, n: nat) { forall i :: 0 <= i < |parts| ==> |parts[i]| == n }

  lemma {:induction false} JoinedLength(parts: seq<seq<byte>>, n: nat)
    requires forall i :: 0 <= i < |parts| ==> |parts[i]| <= n
    ensures |Joined(parts)| <= n * |parts|
    ensures |Joined(parts)| == n * |parts| <==> AllOf(parts, n)
  {
    if parts != [] {
      var rest := parts[1..];
      JoinedLength(rest, n);
      OneMoreTime(n, |rest|);
      assert AllOf(parts, n) <==> |parts[0]| == n && AllOf(rest, n);
    }
  }

  lemma OneMoreTime(n: nat, k: nat)
    ensures n * (k + 1) == n * k + n
  {}

  /** A reply is the message if and only if `send` accepted as many bytes as `recv` delivered. */
  lemma ReplyIsMessage(reply: seq<byte>, received: seq<seq<byte>>)
    requires Messages(received) && received != [] && IsReply(reply, received)
    ensures reply == received[|received| - 1] <==> |reply| == |received[|received| - 1]|
  {
    var buffer, last := Layered(received), received[|received| - 1];
    if |reply| == |last| {
      assert reply == buffer[..|reply|] == last;
    }
  }

  predicate SameLengths(a: seq<seq<byte>>, b: seq<seq<byte>>) {
    |a| == |b| && forall i :: 0 <= i < |a| ==> |a[i]| == |b[i]|
  }

  /**
   When an exchange gave the peer back what it sent. Reply by reply: if and only if
   each send accepted exactly as many bytes as its receive delivered. As streams: if
   every send takes the whole buffer, if and only if every receive filled it; and if
   every receive filled it, if and only if every send takes all of it.
   */
  predicate ExactlyEchoed(talk: Talk) {
    && (talk.sent == talk.received <==> SameLengths(talk.sent, talk.received))
    && (AllOf(talk.sent, 128) ==>
          (Joined(talk.sent) == Joined(talk.received) <==> AllOf(talk.received, 128)))
    && (AllOf(talk.received, 128) ==>
          (Joined(talk.sent) == Joined(talk.received) <==> AllOf(talk.sent, 128)))
  }

  lemma RepliesOneByOne(talk: Talk, i: nat)
    requires Replies(talk) && i < |talk.sent|
    ensures talk.sent[i] == talk.received[i] <==> |talk.sent[i]| == |talk.received[i]|
    ensures |talk.sent[i]| <= 128
  {
    var messages := talk.received[..i + 1];
    assert messages[|messages| - 1] == talk.received[i] && IsReply(talk.sent[i], messages);
    ReplyIsMessage(talk.sent[i], messages);
  }

  lemma RepliesEcho(talk: Talk)
    requires Replies(talk) && !talk.replying
    ensures ExactlyEchoed(talk)
  {
    forall i | 0 <= i < |talk.sent|
      ensures talk.sent[i] == talk.received[i] <==> |talk.sent[i]| == |talk.received[i]|
      ensures |talk.sent[i]| <= 128
    {
      RepliesOneByOne(talk, i);
    }
    JoinedLength(talk.sent, 128);
    JoinedLength(talk.received, 128);
    if SameLengths(talk.sent, talk.received) {
      assert talk.sent == talk.received;
    }
  }

  /** The messages of a connection since it was accepted, told from the events. */
  function HeardAfter(received: seq<seq<byte>>, e: Event, fd: int): seq<seq<byte>> {
    if e.fd != fd then received else if e.Accept? then [] else if e.Receive? then received + [e.data] else received
  }

  function Heard(received: seq<seq<byte>>, events: seq<Event>, fd: int): seq<seq<byte>>
    decreases |events|
  {
    if events == [] then received else Heard(HeardAfter(received, events[0], fd), events[1..], fd)
  }

  /** How much `send` accepted of each of its replies. */
  function TakenAfter(accepted: seq<nat>, e: Event, fd: int): seq<nat> {
    if e.fd != fd then accepted else if e.Accept? then [] else if e.Writable? then accepted + [e.n] else accepted
  }

  function Taken(accepted: seq<nat>, events: seq<Event>, fd: int): seq<nat>
    decreases |events|
  {
    if events == [] then accepted else Taken(TakenAfter(accepted, events[0], fd), events[1..], fd)
  }

  predicate Lengths(parts: seq<seq<byte>>, counts: seq<nat>) {
    |parts| == |counts| && forall i :: 0 <= i < |parts| ==> |parts[i]| == counts[i]
  }

  predicate Recorded(h: Memory, fd: int, received: seq<seq<byte>>, accepted: seq<nat>) {
    fd in h.conns ==> fd in h.talks && h.talks[fd].received == received && Lengths(h.talks[fd].sent, accepted)
  }

  lemma StepIsRecorded(h: Memory, e: Event, fd: int, received: seq<seq<byte>>, accepted: seq<nat>)
    requires Sound(h) && Possible(h, e) && Safe(h, e) && Recorded(h, fd, received, accepted)
    ensures Recorded(Handle(h, e), fd, HeardAfter(received, e, fd), TakenAfter(accepted, e, fd))
  {}

  /** The history is that of the events: each message as it was delivered, each reply as long as `send` said. */
  lemma {:induction false} RunIsRecorded(h: Memory, events: seq<Event>, fd: int, received: seq<seq<byte>>, accepted: seq<nat>)
    requires Sound(h) && Legal(h, events) && Recorded(h, fd, received, accepted)
    ensures Recorded(Run(h, events), fd, Heard(received, events, fd), Taken(accepted, events, fd))
    decreases |events|
  {
    if events != [] {
      var e := events[0];
      SoundIsSafe(h, e);
      StepKeepsSound(h, e);
      StepIsRecorded(h, e, fd, received, accepted);
      RunIsRecorded(Handle(h, e), events[1..], fd, HeardAfter(received, e, fd), TakenAfter(accepted, e, fd));
    }
  }

  /** What holds of a connection that is open. */
  predicate RepliesOn(h: Memory, fd: int) {
    fd in h.talks && Replies(h.talks[fd]) && (!h.talks[fd].replying ==> ExactlyEchoed(h.talks[fd]))
  }

  lemma OpenConnectionReplies(h: Memory, events: seq<Event>, fd: int)
    requires Sound(h) && AllEcho(h) && Legal(h, events) && AllRegistered(h, events) && fd in Run(h, events).conns
    ensures RepliesOn(Run(h, events), fd)
  {
    RunEchoes(h, events);
    var after := Run(h, events);
    assert Echoing(after, fd);
    if !after.talks[fd].replying {
      RepliesEcho(after.talks[fd]);
    }
  }

  /**
   In every run of the server, on every connection then open: each reply is the
   beginning of what that connection's own messages left in its buffer, never a byte
   of another's, and with no reply due the echo is exact under those conditions only.
   */
  lemma EveryReplyIsOwn(h: Memory, events: seq<Event>, fd: int)
    requires Idle(h) && Legal(h, events) && AllRegistered(h, events) && fd in Run(h, events).conns
    ensures RepliesOn(Run(h, events), fd)
    ensures Recorded(Run(h, events), fd, Heard([], events, fd), Taken([], events, fd))
  {
    OpenConnectionReplies(h, events, fd);
    RunIsRecorded(h, events, fd, [], []);
  }

  /**
   The first exchange of a connection. A short message comes back with zeros behind
   it, and a full one comes back short if `send` takes less of it.
   */
  lemma FirstExchange(fd: int, data: seq<byte>, n: nat)
    requires fd > 0 && 0 < |data| <= 128 && n <= 128
    ensures var events := [Accept(fd, 1, 2), Receive(fd, data), Writable(fd, n)];
      && Legal(NoMemory, events) && AllRegistered(NoMemory, events)
      && fd in Run(NoMemory, events).talks
      && Run(NoMemory, events).talks[fd] == Talk(false, [data], [(data + Zeros()[|data|..])[..n]])
  {
    var a, b, c := Accept(fd, 1, 2), Receive(fd, data), Writable(fd, n);
    var events := [a, b, c];
    var h1 := Handle(NoMemory, a);
    var h2 := Handle(h1, b);
    var h3 := Handle(h2, c);
    assert events[1..] == [b, c] && [b, c][1..] == [c] && [c][1..] == [];
    assert Legal(h3, []) && AllRegistered(h3, []) && Run(h3, []) == h3;
    assert Legal(h2, [c]) && AllRegistered(h2, [c]) && Run(h2, [c]) == h3;
    assert Legal(h1, [b, c]) && AllRegistered(h1, [b, c]) && Run(h1, [b, c]) == h3;
  }

  /** The event handlers over the real table: each does what `Handle` says. */
  class Server {
    const table: Table
    var memory: Memory

    constructor ()
      ensures Valid() && memory == NoMemory && fresh(table)
    {
      table := new Table();
      memory := NoMemory;
    }

    /** The slots of the open connections hold what the memory says. */
    ghost predicate Valid()
      reads this, table, table.blocks, table.Arrays()
    {
      table.Valid() && table.Shows(memory.conns)
    }

    method OnAccept(fd: int, script: seq<Alloc>, r: int, w: int)
      requires Valid() && Possible(memory, Accept(fd, r, w))
      modifies this, table, table.blocks, table.Arrays()
      ensures Valid() && memory == Handle(old(memory), Accept(fd, r, w))
      ensures memory.conns == old(memory.conns)[fd := SockItem(fd, r, 0, w, 0)]
      ensures memory.live == old(memory.live)[r := seq(128, _ => 0)][w := seq(128, _ => 0)]
    {
      table.Store(fd, SockItem(fd, r, 0, w, 0), script, memory.conns);
      memory := Memory(memory.conns[fd := SockItem(fd, r, 0, w, 0)], memory.live[r := Zeros()][w := Zeros()],
                       memory.owner[r := fd][w := fd], memory.talks[fd := Talk(false, [], [])],
                       memory.allocs + 2, memory.frees);
    }

    /** The bytes land in the read buffer, which is copied to the write buffer as a whole. */
    method Arrive(fd: int, item: SockItem, data: seq<byte>)
      requires Valid() && Possible(memory, Receive(fd, data)) && Safe(memory, Receive(fd, data)) && item == memory.conns[fd]
      modifies this`memory
      ensures Valid() && memory == Handle(old(memory), Receive(fd, data))
    {
      var live := memory.live[item.rbuf := data + memory.live[item.rbuf][|data|..]];
      live := live[item.wbuf := live[item.rbuf]];
      var talk := memory.talks[fd];
      memory := memory.(live := live, talks := memory.talks[fd := Talk(true, talk.received + [data], talk.sent)]);
    }

    /** Both buffers are freed and the slot's descriptor is cleared. */
    method Close(fd: int, item: SockItem)
      requires Valid() && Possible(memory, PeerClosed(fd)) && Safe(memory, PeerClosed(fd)) && item == memory.conns[fd]
      modifies this, table, table.blocks, table.Arrays()
      ensures Valid() && memory == Handle(old(memory), PeerClosed(fd))
    {
      var gone := {item.rbuf, item.wbuf};
      table.Store(fd, item.(fd := 0), [], memory.conns);
      memory := Memory(memory.conns - {fd}, memory.live - gone, memory.owner - gone, memory.talks - {fd},
                       memory.allocs, memory.frees + 2);
    }

    /** A readable connection: `recv` returned n, with that many bytes if n is positive. */
    method OnReadable(fd: int, n: int, data: seq<byte>)
      requires Valid() && fd in memory.conns && Safe(memory, PeerClosed(fd)) && n <= 128
      requires n > 0 ==> |data| == n
      modifies this, table, table.blocks, table.Arrays()
      ensures Valid() && memory == Handle(old(memory), ReadEvent(fd, n, data))
      ensures n < 0 ==> memory == old(memory)
      ensures n == 0 ==> memory.conns == old(memory.conns) - {fd}
      ensures n > 0 ==> memory.conns == old(memory.conns) && data <= Handed(memory, fd)
    {
      var item := table.Load(fd, memory.conns);
      if n > 0 {
        Arrive(fd, item, data);
      } else if n == 0 {
        Close(fd, item);
      }
    }

    /** A writable connection: the whole buffer is handed to `send`, and its result n is only printed. */
    method OnWritable(fd: int, n: int) returns (handed: seq<byte>)
      requires Valid() && Safe(memory, RecvFailed(fd)) && n <= 128
      modifies this, table, table.blocks
      ensures Valid() && memory == Handle(old(memory), Writable(fd, Max(n, 0)))
      ensures memory.conns == old(memory.conns) && memory.live == old(memory.live)
      ensures handed == Handed(memory, fd) && |handed| == 128
    {
      var item := table.Load(fd, memory.conns);
      handed := memory.live[item.wbuf];
      var talk := memory.talks[fd];
      memory := memory.(talks := memory.talks[fd := Talk(false, talk.received, talk.sent + [handed[..Max(n, 0)]])]);
    }
  }

  /** What the result of `recv` means. */
  function ReadEvent(fd: int, n: int, data: seq<byte>): Event {
    if n > 0 then Receive(fd, data) else if n == 0 then PeerClosed(fd) else RecvFailed(fd)
  }

  function Max(a: int, b: int): int { if a < b then b else a }
}
