/**
 Domain names on the wire: `is_pointer` and `dns_parse_name` of
 network/dns/sync_dns_client.cpp against section 4.1.4 of RFC 1035. The program
 follows only the low byte of a pointer and checks no bounds; a read outside the
 message, or a name that never ends, has no result.
 */
module DnsName {
  import opened Bytes

  datatype Option<+T> = None | Some(value: T)

  const DOT: byte := 46

  /** The two high bits set. */
  predicate IsPointer(b: byte) { b >= 192 }

  lemma HighBits(v: bv8)
    ensures v & 0xC0 == 0xC0 <==> v >= 192
  {}

  /** It is the mask test the program writes. */
  lemma PointerMask(b: byte)
    ensures (b as bv8) & 0xC0 == 0xC0 <==> IsPointer(b)
  {
    HighBits(b as bv8);
    assert (b as bv8) as int == b;
  }

  /** What the loop writes from position `p`, if it reaches a root byte within `fuel` turns. */
  function Text(msg: seq<byte>, p: nat, fuel: nat): Option<seq<byte>>
    decreases fuel
  {
    if fuel == 0 || p >= |msg| then None
    else if msg[p] == 0 then Some([])
    else if IsPointer(msg[p]) then
      if p + 1 >= |msg| then None else Text(msg, msg[p + 1], fuel - 1)
    else
      var q := p + 1 + msg[p];
      if q >= |msg| then None
      else
        var rest := Text(msg, q, fuel - 1);
        if rest.None? then None else Some(msg[p + 1..q] + Dot(msg[q]) + rest.value)
  }

  /** A dot goes between a label and anything but a root byte. */
  function Dot(next: byte): seq<byte> { if next == 0 then [] else [DOT] }

  /** The name at `p`; no message needs more turns than it has bytes. */
  function Name(msg: seq<byte>, p: nat): Option<seq<byte>> { Text(msg, p, |msg|) }

  // ---------------------------------------------------------------- termination

  lemma {:induction false} MoreFuel(msg: seq<byte>, p: nat, f: nat, g: nat)
    requires Text(msg, p, f).Some? && f <= g
    ensures Text(msg, p, g) == Text(msg, p, f)
    decreases f
  {
    if msg[p] != 0 {
      MoreFuel(msg, Next(msg, p), f - 1, g - 1);
    }
  }

  function Next(msg: seq<byte>, p: nat): nat
    requires p < |msg| && msg[p] != 0 && (IsPointer(msg[p]) ==> p + 1 < |msg|)
  {
    if IsPointer(msg[p]) then msg[p + 1] else p + 1 + msg[p]
  }

  /** The turns the loop takes. */
  function Turns(msg: seq<byte>, p: nat, fuel: nat): nat
    requires Text(msg, p, fuel).Some?
    decreases fuel
  {
    if msg[p] == 0 then 1 else 1 + Turns(msg, Next(msg, p), fuel - 1)
  }

  lemma {:induction false} TurnsSuffice(msg: seq<byte>, p: nat, fuel: nat)
    requires Text(msg, p, fuel).Some?
    ensures Turns(msg, p, fuel) <= fuel && Text(msg, p, Turns(msg, p, fuel)) == Text(msg, p, fuel)
    decreases fuel
  {
    if msg[p] != 0 {
      TurnsSuffice(msg, Next(msg, p), fuel - 1);
    }
  }

  lemma {:induction false} TurnsFixed(msg: seq<byte>, p: nat, f: nat, g: nat)
    requires Text(msg, p, f).Some? && Text(msg, p, g).Some?
    ensures Turns(msg, p, f) == Turns(msg, p, g)
    decreases f
  {
    if msg[p] != 0 {
      TurnsFixed(msg, Next(msg, p), f - 1, g - 1);
    }
  }

  /** The positions visited are all different: each has its own number of turns left. */
  lemma {:induction false} Visited(msg: seq<byte>, p: nat, fuel: nat) returns (s: set<nat>)
    requires Text(msg, p, fuel).Some?
    ensures |s| == Turns(msg, p, fuel)
    ensures forall x :: x in s ==> x < |msg| && Text(msg, x, fuel).Some? && Turns(msg, x, fuel) <= Turns(msg, p, fuel)
    decreases fuel
  {
    if msg[p] == 0 {
      s := {p};
    } else {
      var rest := Visited(msg, Next(msg, p), fuel - 1);
      var most := Turns(msg, p, fuel);
      forall x | x in rest ensures x < |msg| && Text(msg, x, fuel).Some? && Turns(msg, x, fuel) < most {
        MoreFuel(msg, x, fuel - 1, fuel);
        TurnsFixed(msg, x, fuel - 1, fuel);
      }
      assert p !in rest;
      s := {p} + rest;
    }
  }

  lemma {:induction false} AtMost(s: set<nat>, n: nat)
    requires forall x :: x in s ==> x < n
    ensures |s| <= n
  {
    if n == 0 {
      assert s == {};
    } else {
      AtMost(s - {n - 1}, n - 1);
      assert s <= (s - {n - 1}) + {n - 1};
    }
  }

  /** A name that has a result with any number of turns has it with one turn a byte. */
  lemma HaltsWithinLength(msg: seq<byte>, p: nat, fuel: nat)
    requires Text(msg, p, fuel).Some?
    ensures Name(msg, p) == Text(msg, p, fuel)
  {
    var s := Visited(msg, p, fuel);
    AtMost(s, |msg|);
    TurnsSuffice(msg, p, fuel);
    MoreFuel(msg, p, Turns(msg, p, fuel), |msg|);
  }

  /** Everything a turn at `p` reads is in the message, and so is the byte the next turn reads after a label. */
  predicate Readable(msg: seq<byte>, p: nat) {
    p < |msg| && (msg[p] != 0 ==> if IsPointer(msg[p]) then p + 1 < |msg| else p + 1 + msg[p] < |msg|)
  }

  /** Where the loop is after k turns, if it has not ended or read outside the message before. */
  function Visit(msg: seq<byte>, p: nat, k: nat): Option<nat>
    decreases k
  {
    if k == 0 then Some(p)
    else if !Readable(msg, p) || msg[p] == 0 then None
    else Visit(msg, Next(msg, p), k - 1)
  }

  /** No turn reads outside the message. */
  ghost predicate StaysInside(msg: seq<byte>, p: nat) {
    forall k: nat :: Visit(msg, p, k).Some? ==> Readable(msg, Visit(msg, p, k).value)
  }

  /** However many turns it has taken, it takes another. */
  ghost predicate NeverEnds(msg: seq<byte>, p: nat) {
    forall k: nat :: Visit(msg, p, k).Some?
  }

  /** The loop comes to a position for the second time, within as many turns as there are bytes. */
  ghost predicate Revisits(msg: seq<byte>, p: nat) {
    exists i: nat, j: nat :: i < j <= |msg| && Visit(msg, p, i).Some? && Visit(msg, p, i) == Visit(msg, p, j)
  }

  lemma {:induction false} VisitSplits(msg: seq<byte>, p: nat, a: nat, b: nat)
    ensures Visit(msg, p, a + b) == if Visit(msg, p, a).None? then None else Visit(msg, Visit(msg, p, a).value, b)
    decreases a
  {
    if a > 0 && Readable(msg, p) && msg[p] != 0 {
      VisitSplits(msg, Next(msg, p), a - 1, b);
    }
  }

  /** A loop that comes back to a position goes on for ever. */
  lemma {:induction false} CycleGoesOn(msg: seq<byte>, p: nat, d: nat, k: nat)
    requires d > 0 && Visit(msg, p, d) == Some(p)
    ensures Visit(msg, p, k).Some?
    decreases k
  {
    if k < d {
      VisitSplits(msg, p, k, d - k);
    } else {
      CycleGoesOn(msg, p, d, k - d);
      VisitSplits(msg, p, d, k - d);
    }
  }

  lemma RevisitsGoOn(msg: seq<byte>, p: nat, i: nat, j: nat, k: nat)
    requires i < j && Visit(msg, p, i).Some? && Visit(msg, p, i) == Visit(msg, p, j)
    ensures Visit(msg, p, k).Some?
  {
    var x := Visit(msg, p, i).value;
    VisitSplits(msg, p, i, j - i);
    CycleGoesOn(msg, x, j - i, k);
    VisitSplits(msg, p, i, k);
    VisitSplits(msg, p, k, i);
  }

  /** A name with a result is one the loop leaves. */
  lemma {:induction false} TextStops(msg: seq<byte>, p: nat, fuel: nat)
    requires Text(msg, p, fuel).Some?
    ensures Visit(msg, p, fuel).None? && StaysInside(msg, p)
    decreases fuel
  {
    if msg[p] != 0 {
      TextStops(msg, Next(msg, p), fuel - 1);
      forall k: nat | Visit(msg, p, k).Some? ensures Readable(msg, Visit(msg, p, k).value) {
        if k > 0 {
          assert Visit(msg, p, k) == Visit(msg, Next(msg, p), k - 1);
        }
      }
    }
  }

  /** And a root byte that it comes to gives a result. */
  lemma {:induction false} RootGivesText(msg: seq<byte>, p: nat, k: nat)
    requires Visit(msg, p, k).Some? && Visit(msg, p, k).value < |msg| && msg[Visit(msg, p, k).value] == 0
    ensures Text(msg, p, k + 1).Some?
    decreases k
  {
    if k > 0 {
      RootGivesText(msg, Next(msg, p), k - 1);
    }
  }

  /** While it neither ends nor leaves the message it takes another turn. */
  lemma {:induction false} NoEndGoesOn(msg: seq<byte>, p: nat, k: nat)
    requires StaysInside(msg, p) && Name(msg, p).None?
    ensures Visit(msg, p, k).Some?
  {
    if k > 0 {
      NoEndGoesOn(msg, p, k - 1);
      var x := Visit(msg, p, k - 1).value;
      assert Readable(msg, x);
      if msg[x] == 0 {
        RootGivesText(msg, p, k - 1);
        HaltsWithinLength(msg, p, k);
      }
      VisitSplits(msg, p, k - 1, 1);
    }
  }

  /** Of n + 1 numbers below n two are equal. */
  lemma {:induction false} Pigeonhole(xs: seq<nat>, n: nat) returns (i: nat, j: nat)
    requires |xs| > n && forall k :: 0 <= k < |xs| ==> xs[k] < n
    ensures i < j < |xs| && xs[i] == xs[j]
    decreases n
  {
    var last := |xs| - 1;
    if k :| 0 <= k < last && xs[k] == xs[last] {
      i, j := k, last;
    } else {
      // the value of the last one is free below: it takes the place of n - 1
      var front := seq(last, k requires 0 <= k < last => if xs[k] == n - 1 then xs[last] else xs[k]);
      i, j := Pigeonhole(front, n - 1);
    }
  }

  lemma LongRunRevisits(msg: seq<byte>, p: nat)
    requires NeverEnds(msg, p)
    ensures Revisits(msg, p)
  {
    forall k: nat ensures Visit(msg, p, k).value < |msg| {
      VisitSplits(msg, p, k, 1);
      assert Visit(msg, p, k + 1).Some?;
    }
    var xs := seq(|msg| + 1, (k: nat) requires Visit(msg, p, k).Some? => Visit(msg, p, k).value);
    var i, j := Pigeonhole(xs, |msg|);
    assert Visit(msg, p, i) == Visit(msg, p, j);
  }

  lemma NeverEndsRevisits(msg: seq<byte>, p: nat)
    requires StaysInside(msg, p) && Name(msg, p).None?
    ensures Revisits(msg, p)
  {
    forall k: nat ensures Visit(msg, p, k).Some? {
      NoEndGoesOn(msg, p, k);
    }
    LongRunRevisits(msg, p);
  }

  /** Once round a cycle, the loop stays in the message and ends with no number of turns. */
  lemma CycleNeverEnds(msg: seq<byte>, p: nat, i: nat, j: nat)
    requires i < j && Visit(msg, p, i).Some? && Visit(msg, p, i) == Visit(msg, p, j)
    ensures NeverEnds(msg, p)
    ensures StaysInside(msg, p)
    ensures forall fuel: nat :: Text(msg, p, fuel).None?
  {
    forall k: nat ensures Visit(msg, p, k).Some? && Readable(msg, Visit(msg, p, k).value) {
      RevisitsGoOn(msg, p, i, j, k);
      RevisitsGoOn(msg, p, i, j, k + 1);
      VisitSplits(msg, p, k, 1);
    }
    forall fuel: nat ensures Text(msg, p, fuel).None? {
      if Text(msg, p, fuel).Some? {
        TextStops(msg, p, fuel);
      }
    }
  }

  /**
   The three things that can happen, each excluding the others: the loop ends; it
   reads outside the message; it never ends. It never ends if and only if it comes
   to a position twice.
   */
  lemma NameOutcome(msg: seq<byte>, p: nat)
    ensures Name(msg, p).Some? <==> StaysInside(msg, p) && !Revisits(msg, p)
    ensures Revisits(msg, p) ==> StaysInside(msg, p)
    ensures Revisits(msg, p) <==> NeverEnds(msg, p)
  {
    if Revisits(msg, p) {
      var i: nat, j: nat :| i < j <= |msg| && Visit(msg, p, i).Some? && Visit(msg, p, i) == Visit(msg, p, j);
      CycleNeverEnds(msg, p, i, j);
    }
    if Name(msg, p).Some? {
      TextStops(msg, p, |msg|);
    } else if StaysInside(msg, p) {
      NeverEndsRevisits(msg, p);
    }
    if NeverEnds(msg, p) {
      LongRunRevisits(msg, p);
    }
  }

  /** A pointer to itself never ends. */
  lemma {:induction false} SelfPointerDiverges(msg: seq<byte>, p: nat, fuel: nat)
    requires p + 1 < |msg| && IsPointer(msg[p]) && msg[p + 1] == p
    ensures Text(msg, p, fuel).None?
  {
    assert Visit(msg, p, 1) == Visit(msg, p, 0);
    CycleNeverEnds(msg, p, 0, 1);
  }

  /**
   The run of labels that begins at `start` and has come to `q` stays in the message,
   and the byte followed at a pointer leads below `start`, where the same holds.
   */
  predicate RunsBack(msg: seq<byte>, start: nat, q: nat)
    decreases start, |msg| - q
  {
    && Readable(msg, q)
    && (msg[q] != 0 ==>
          if IsPointer(msg[q]) then msg[q + 1] < start && RunsBack(msg, msg[q + 1], msg[q + 1])
          else RunsBack(msg, start, q + 1 + msg[q]))
  }

  /** Pointers to what comes before, as the standard has them, are enough for the loop to end. */
  lemma BackwardPointersEnd(msg: seq<byte>, p: nat)
    requires RunsBack(msg, p, p)
    ensures Name(msg, p).Some?
  {
    var fuel := RunEnds(msg, p, p);
    HaltsWithinLength(msg, p, fuel);
  }

  lemma {:induction false} RunEnds(msg: seq<byte>, start: nat, q: nat) returns (fuel: nat)
    requires RunsBack(msg, start, q)
    ensures Text(msg, q, fuel).Some?
    decreases start, |msg| - q
  {
    fuel := 0;
    if msg[q] != 0 {
      fuel := RunEnds(msg, if IsPointer(msg[q]) then msg[q + 1] else start, Next(msg, q));
    }
    fuel := fuel + 1;
  }

  // ---------------------------------------------------------------- RFC 1035, section 4.1.4

  /** The low fourteen bits. */
  function Offset(hi: int, lo: int): nat
    requires hi >= 192 && lo >= 0
  {
    (hi - 192) * 256 + lo
  }

  /** The labels of the name at `p`: 14-bit pointers, labels of at most 63 bytes. */
  function Labels(msg: seq<byte>, p: nat, fuel: nat): Option<seq<seq<byte>>>
    decreases fuel
  {
    if fuel == 0 || p >= |msg| then None
    else if msg[p] == 0 then Some([])
    else if IsPointer(msg[p]) then
      if p + 1 >= |msg| then None else Labels(msg, Offset(msg[p], msg[p + 1]), fuel - 1)
    else if msg[p] >= 64 then None
    else
      var q := p + 1 + msg[p];
      if q >= |msg| then None
      else
        var rest := Labels(msg, q, fuel - 1);
        if rest.None? then None else Some([msg[p + 1..q]] + rest.value)
  }

  /** Every pointer followed has an offset below 256. */
  predicate LowPointers(msg: seq<byte>, p: nat, fuel: nat)
    requires Labels(msg, p, fuel).Some?
    decreases fuel
  {
    if msg[p] == 0 then true
    else if IsPointer(msg[p]) then msg[p] == 192 && LowPointers(msg, msg[p + 1], fuel - 1)
    else LowPointers(msg, p + 1 + msg[p], fuel - 1)
  }

  /** The last label is followed by a pointer that leads to a root byte instead of by the root byte itself. */
  predicate EndsByPointer(msg: seq<byte>, p: nat, fuel: nat)
    requires Labels(msg, p, fuel).Some?
    decreases fuel
  {
    if msg[p] == 0 then false
    else if IsPointer(msg[p]) then EndsByPointer(msg, Offset(msg[p], msg[p + 1]), fuel - 1)
    else
      var q := p + 1 + msg[p];
      if Labels(msg, q, fuel - 1).value == [] then msg[q] != 0 else EndsByPointer(msg, q, fuel - 1)
  }

  /** The labels with a full stop, byte 46, between them. */
  function Join(labels: seq<seq<byte>>): seq<byte> {
    if labels == [] then []
    else if |labels| == 1 then labels[0]
    else labels[0] + [46] + Join(labels[1..])
  }

  lemma {:induction false} NoLabelsNoEnd(msg: seq<byte>, p: nat, fuel: nat)
    requires Labels(msg, p, fuel) == Some([])
    ensures !EndsByPointer(msg, p, fuel)
    decreases fuel
  {
    if msg[p] != 0 {
      assert IsPointer(msg[p]);
      NoLabelsNoEnd(msg, Offset(msg[p], msg[p + 1]), fuel - 1);
    }
  }

  /** The dot too many. */
  function Extra(msg: seq<byte>, p: nat, fuel: nat): seq<byte>
    requires Labels(msg, p, fuel).Some?
  {
    if EndsByPointer(msg, p, fuel) then [DOT] else []
  }

  lemma LastLabel(first: seq<byte>, dot: seq<byte>)
    ensures first + dot + (Join([]) + []) == Join([first] + []) + dot
  {
    assert [first] + [] == [first];
    assert Join([]) + [] == [];
    assert first + dot + [] == first + dot;
  }

  lemma EarlierLabel(first: seq<byte>, rest: seq<seq<byte>>, tail: seq<byte>)
    requires rest != []
    ensures first + [DOT] + (Join(rest) + tail) == Join([first] + rest) + tail
  {
    assert ([first] + rest)[1..] == rest;
    Regroup(first + [DOT], Join(rest), tail);
  }

  /** One label more in front. */
  lemma LabelText(msg: seq<byte>, p: nat, fuel: nat)
    requires Labels(msg, p, fuel).Some? && msg[p] != 0 && !IsPointer(msg[p])
    ensures var q := p + 1 + msg[p];
      msg[p + 1..q] + Dot(msg[q]) + (Join(Labels(msg, q, fuel - 1).value) + Extra(msg, q, fuel - 1))
        == Join(Labels(msg, p, fuel).value) + Extra(msg, p, fuel)
  {
    var q := p + 1 + msg[p];
    var first, rest := msg[p + 1..q], Labels(msg, q, fuel - 1).value;
    if rest == [] {
      NoLabelsNoEnd(msg, q, fuel - 1);
      LastLabel(first, Dot(msg[q]));
    } else {
      assert msg[q] != 0;
      EarlierLabel(first, rest, Extra(msg, q, fuel - 1));
    }
  }

  /**
   On a name whose pointers all fit a byte the loop writes the labels joined by
   dots, and a dot too many exactly when the name ends by a pointer.
   */
  lemma {:induction false} TextIsJoinedLabels(msg: seq<byte>, p: nat, fuel: nat)
    requires Labels(msg, p, fuel).Some? && LowPointers(msg, p, fuel)
    ensures Text(msg, p, fuel) == Some(Join(Labels(msg, p, fuel).value) + Extra(msg, p, fuel))
    decreases fuel
  {
    if msg[p] == 0 {
      assert Join([]) + [] == [];
    } else if IsPointer(msg[p]) {
      TextIsJoinedLabels(msg, msg[p + 1], fuel - 1);
    } else {
      TextIsJoinedLabels(msg, p + 1 + msg[p], fuel - 1);
      LabelText(msg, p, fuel);
    }
  }

  /** So decompression agrees with the standard if and only if no label is followed by a pointer to the root. */
  lemma DecompressionAgrees(msg: seq<byte>, p: nat, fuel: nat)
    requires Labels(msg, p, fuel).Some? && LowPointers(msg, p, fuel)
    ensures Name(msg, p).Some?
    ensures Name(msg, p).value == Join(Labels(msg, p, fuel).value) <==> !EndsByPointer(msg, p, fuel)
  {
    TextIsJoinedLabels(msg, p, fuel);
    HaltsWithinLength(msg, p, fuel);
  }

  /** The same for a name that the standard allows, told from its bytes: short labels, and low pointers that lead back. */
  predicate Standard(msg: seq<byte>, start: nat, q: nat)
    decreases start, |msg| - q
  {
    && Readable(msg, q)
    && (msg[q] != 0 ==>
          if IsPointer(msg[q]) then msg[q] == 192 && msg[q + 1] < start && Standard(msg, msg[q + 1], msg[q + 1])
          else msg[q] < 64 && Standard(msg, start, q + 1 + msg[q]))
  }

  lemma {:induction false} StandardEnds(msg: seq<byte>, start: nat, q: nat) returns (fuel: nat)
    requires Standard(msg, start, q)
    ensures Labels(msg, q, fuel).Some? && LowPointers(msg, q, fuel)
    decreases start, |msg| - q
  {
    fuel := 0;
    if msg[q] != 0 {
      fuel := StandardEnds(msg, if IsPointer(msg[q]) then msg[q + 1] else start, Next(msg, q));
    }
    fuel := fuel + 1;
  }

  lemma StandardNamesAgree(msg: seq<byte>, p: nat) returns (fuel: nat)
    requires Standard(msg, p, p)
    ensures Labels(msg, p, fuel).Some? && Name(msg, p).Some?
    ensures Name(msg, p).value == Join(Labels(msg, p, fuel).value) <==> !EndsByPointer(msg, p, fuel)
  {
    fuel := StandardEnds(msg, p, p);
    DecompressionAgrees(msg, p, fuel);
  }

  /** It does not for the label "a" followed by a pointer to a root byte: the program writes "a.". */
  lemma TrailingDotHappens()
    ensures var msg: seq<byte> := [1, 97, 192, 4, 0];
      && Labels(msg, 0, 3) == Some([[97]]) && LowPointers(msg, 0, 3) && EndsByPointer(msg, 0, 3)
      && Name(msg, 0) == Some([97, 46])
  {
    var msg: seq<byte> := [1, 97, 192, 4, 0];
    assert Labels(msg, 4, 1) == Some([]) && Text(msg, 4, 1) == Some([]);
    assert Labels(msg, 2, 2) == Some([]) && Text(msg, 2, 2) == Some([]);
    assert msg[1..2] == [97] && [[97]] + [] == [[97]];
    assert Labels(msg, 0, 3) == Some([[97]]);
    assert [97] + [DOT] + [] == [97, DOT];
    assert Text(msg, 0, 3) == Some([97, DOT]);
    assert LowPointers(msg, 2, 2) && EndsByPointer(msg, 0, 3);
    HaltsWithinLength(msg, 0, 3);
  }

  /** Without low pointers it need not: the program drops the high bits and reads another name. */
  lemma HighPointerMisread(msg: seq<byte>, p: nat)
    requires |msg| > 258 && p + 1 < |msg| && msg[p] == 193 && msg[p + 1] == 0
    requires msg[0] == 0 && msg[256] == 1 && msg[258] == 0
    ensures Labels(msg, p, 3) == Some([[msg[257]]])
    ensures Name(msg, p) == Some([])
  {
    assert Labels(msg, 258, 1) == Some([]);
    assert msg[257..258] == [msg[257]];
    assert [[msg[257]]] + [] == [[msg[257]]];
    assert Labels(msg, 256, 2) == Some([[msg[257]]]);
    assert Text(msg, p, 2) == Text(msg, 0, 1) == Some([]);
    HaltsWithinLength(msg, p, 2);
  }

  // ---------------------------------------------------------------- the program's loop

  /** `is_pointer`. */
  method TestMask(b: byte) returns (pointer: bool)
    ensures pointer <==> IsPointer(b)
  {
    PointerMask(b);
    pointer := (b as bv8) & 0xC0 == 0xC0;
  }

  /** One label, and a dot unless the root follows. */
  method AppendLabel(chunk: seq<byte>, ptr: nat, out: array<byte>, pos: nat, ghost stored: seq<byte>, ghost before: seq<byte>)
    returns (len: nat)
    requires ptr < |chunk| && ptr + 1 + chunk[ptr] < |chunk|
    requires pos == |stored| <= |before| && out[..] == stored + before[pos..]
    requires pos + chunk[ptr] + |Dot(chunk[ptr + 1 + chunk[ptr]])| <= |before|
    modifies out
    ensures var piece := chunk[ptr + 1..ptr + 1 + chunk[ptr]] + Dot(chunk[ptr + 1 + chunk[ptr]]);
      len == pos + |piece| && out[..] == (stored + piece) + before[len..]
  {
    var flag := chunk[ptr];
    var bytes := chunk[ptr + 1..ptr + 1 + flag];
    StoreAll(out, pos, bytes, stored, before);
    len := pos + flag;
    if chunk[ptr + 1 + flag] != 0 {
      StoreAll(out, len, [DOT], stored + bytes, before);
      len := len + 1;
      Regroup(stored, bytes, [DOT]);
    } else {
      assert bytes + [] == bytes;
    }
  }

  /** A turn at a pointer writes nothing. */
  lemma PointerTurn(chunk: seq<byte>, ptr: nat, fuel: nat)
    requires Text(chunk, ptr, fuel).Some? && IsPointer(chunk[ptr])
    ensures ptr + 1 < |chunk| && Text(chunk, chunk[ptr + 1], fuel - 1) == Text(chunk, ptr, fuel)
  {}

  /** What a turn at a label leaves to be written. */
  lemma LabelTurn(chunk: seq<byte>, ptr: nat, fuel: nat, stored: seq<byte>, left: seq<byte>) returns (rest: seq<byte>)
    requires Text(chunk, ptr, fuel) == Some(left) && chunk[ptr] != 0 && !IsPointer(chunk[ptr])
    ensures var q := ptr + 1 + chunk[ptr];
      && q < |chunk| && Text(chunk, q, fuel - 1) == Some(rest)
      && |left| == |chunk[ptr + 1..q] + Dot(chunk[q])| + |rest|
      && stored + left == (stored + (chunk[ptr + 1..q] + Dot(chunk[q]))) + rest
  {
    var q := ptr + 1 + chunk[ptr];
    rest := Text(chunk, q, fuel - 1).value;
    Regroup(stored, chunk[ptr + 1..q] + Dot(chunk[q]), rest);
  }

  /** `dns_parse_name`: appends the name to the first `len0` bytes of the output and advances the length. */
  method ParseName(chunk: seq<byte>, start: nat, out: array<byte>, len0: nat) returns (len: nat)
    requires Name(chunk, start).Some?
    requires len0 + |Name(chunk, start).value| <= out.Length
    modifies out
    ensures len == len0 + |Name(chunk, start).value|
    ensures out[..] == old(out[..len0]) + Name(chunk, start).value + old(out[..])[len..]
  {
    ghost var before, left := out[..], Name(chunk, start).value;
    ghost var goal := before[..len0] + left;
    ghost var stored := before[..len0];
    ghost var fuel: nat := |chunk|;
    var ptr: nat := start;
    len := len0;
    while true
      invariant Text(chunk, ptr, fuel) == Some(left)
      invariant stored + left == goal
      invariant len == |stored| && len + |left| == |goal| <= |before| == out.Length
      invariant out[..] == stored + before[len..]
      decreases fuel
    {
      var flag := chunk[ptr];
      if flag == 0 {
        break;
      }
      var pointer := TestMask(flag);
      if pointer {
        PointerTurn(chunk, ptr, fuel);
        ptr := chunk[ptr + 1];
      } else {
        ghost var piece := chunk[ptr + 1..ptr + 1 + flag] + Dot(chunk[ptr + 1 + flag]);
        left := LabelTurn(chunk, ptr, fuel, stored, left);
        len := AppendLabel(chunk, ptr, out, len, stored, before);
        ptr := ptr + 1 + flag;
        stored := stored + piece;
      }
      fuel := fuel - 1;
    }
    assert stored + [] == stored;
  }
}
