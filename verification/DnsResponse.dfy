/**
 The response walker `dns_parse_response` of network/dns/sync_dns_client.cpp
 against the record format of section 4.1.3 of RFC 1035. The walker takes every
 owner name for two bytes and passes over the data of A and CNAME records only; it
 checks no bounds, and where it would read outside the message, follow a name that
 never ends or overrun its 128-byte name buffers it has no result.
 */
module DnsResponse {
  import opened Bytes
  import opened DnsName
  import opened DnsRequest

  const TYPE_HOST := 1
  const TYPE_CNAME := 5
  const NAME_BUFFER := 128

  function U16(msg: seq<byte>, p: nat): nat
    requires p + 1 < |msg|
  {
    var hi: int := msg[p];
    hi * 256 + msg[p + 1]
  }

  /** An entry of the result: the name as a C string, and the four address bytes. */
  datatype Item = Item(domain: seq<byte>, ip: seq<byte>)

  /** A buffer as a C string ends at its first zero byte. */
  function CString(s: seq<byte>): seq<byte> {
    if s == [] || s[0] == 0 then [] else [s[0]] + CString(s[1..])
  }

  predicate NameFits(msg: seq<byte>, p: nat, room: nat) {
    Name(msg, p).Some? && |Name(msg, p).value| <= room
  }

  // ---------------------------------------------------------------- the walk the program makes

  datatype Cursor = Cursor(items: seq<Item>, at: nat)

  /** One answer: what it adds and where it leaves the cursor. */
  function Step(msg: seq<byte>, c: Cursor): Option<Cursor> {
    var p := c.at;
    if !NameFits(msg, p, NAME_BUFFER - 1) || p + 12 > |msg| then None
    else
      var rtype, datalen, data := U16(msg, p + 2), U16(msg, p + 10), p + 12;
      if rtype == TYPE_CNAME then
        if NameFits(msg, data, NAME_BUFFER) then Some(Cursor(c.items, data + datalen)) else None
      else if rtype == TYPE_HOST then
        if datalen != 4 then Some(Cursor(c.items, data + datalen))
        else if data + 4 > |msg| then None
        else Some(Cursor(c.items + [Item(CString(Name(msg, p).value), msg[data..data + 4])], data + 4))
      else Some(Cursor(c.items, data))
  }

  function Walk(msg: seq<byte>, p: nat, answers: nat): Option<Cursor> {
    if answers == 0 then Some(Cursor([], p))
    else
      var before := Walk(msg, p, answers - 1);
      if before.None? then None else Step(msg, before.value)
  }

  function SkipQuestions(msg: seq<byte>, p: nat, n: nat): Option<nat> {
    if n == 0 then Some(p)
    else
      var before := SkipQuestions(msg, p, n - 1);
      if before.None? then None
      else
        var after := Skip(msg, before.value);
        if after.None? then None else Some(after.value + 4)
  }

  function Parse(msg: seq<byte>): Option<seq<Item>> {
    if |msg| < 12 then None
    else
      var start := SkipQuestions(msg, 12, U16(msg, 4));
      if start.None? then None
      else
        var end := Walk(msg, start.value, U16(msg, 6));
        if end.None? then None else Some(end.value.items)
  }

  method SkipName(msg: seq<byte>, p: nat) returns (after: nat)
    requires Skip(msg, p).Some?
    ensures Skip(msg, p) == Some(after)
  {
    after := p;
    while true
      invariant Skip(msg, after) == Skip(msg, p)
      decreases |msg| - after
    {
      var flag := msg[after];
      after := after + flag + 1;
      if flag == 0 {
        break;
      }
    }
  }

  /** `dns_parse_name` into a buffer of zeros, which end the name. */
  method ReadName(msg: seq<byte>, p: nat) returns (buffer: seq<byte>)
    requires NameFits(msg, p, NAME_BUFFER)
    ensures |buffer| == 128 && Name(msg, p).value <= buffer
    ensures forall i :: |Name(msg, p).value| <= i < 128 ==> buffer[i] == 0
  {
    var aname := new byte[NAME_BUFFER](_ => 0);
    var _ := ParseName(msg, p, aname, 0);
    buffer := aname[..];
  }

  /** What is behind the name does not show in the string. */
  lemma {:induction false} ZerosEnd(name: seq<byte>, buffer: seq<byte>)
    requires name <= buffer && forall i :: |name| <= i < |buffer| ==> buffer[i] == 0
    ensures CString(buffer) == CString(name)
    decreases |name|
  {
    if name != [] {
      ZerosEnd(name[1..], buffer[1..]);
    }
  }

  /** `strlen` and `memcpy`: the bytes before the first zero. */
  method CopyString(text: seq<byte>) returns (s: seq<byte>)
    ensures s == CString(text)
    ensures s <= text && 0 !in s && (|s| < |text| ==> text[|s|] == 0)
  {
    var n := 0;
    while n < |text| && text[n] != 0
      invariant 0 <= n <= |text|
      invariant text[..n] + CString(text[n..]) == CString(text)
      invariant 0 !in text[..n]
    {
      assert text[n..][1..] == text[n + 1..];
      assert text[..n] + ([text[n]] + CString(text[n + 1..])) == text[..n + 1] + CString(text[n + 1..]);
      n := n + 1;
    }
    s := text[..n];
    assert s + [] == s;
  }

  /** One turn of the answer loop. */
  method ParseAnswer(msg: seq<byte>, c: Cursor) returns (after: Cursor)
    requires Step(msg, c).Some?
    ensures Step(msg, c) == Some(after)
  {
    var buffer := ReadName(msg, c.at);
    var ptr := c.at + 2;
    var rtype := U16(msg, ptr);
    ptr := ptr + 8;
    var datalen := U16(msg, ptr);
    ptr := ptr + 2;
    var items := c.items;
    if rtype == TYPE_CNAME {
      var _ := ReadName(msg, ptr);
      ptr := ptr + datalen;
    } else if rtype == TYPE_HOST {
      if datalen == 4 {
        ZerosEnd(Name(msg, c.at).value, buffer);
        var domain := CopyString(buffer);
        items := items + [Item(domain, msg[ptr..ptr + datalen])];
      }
      ptr := ptr + datalen;
    }
    after := Cursor(items, ptr);
  }

  /** `dns_parse_response`. */
  method ParseResponse(msg: seq<byte>) returns (items: seq<Item>)
    requires Parse(msg).Some?
    ensures Parse(msg) == Some(items)
  {
    var querys, answers := U16(msg, 4), U16(msg, 6);
    var ptr := 12;
    SkipDefined(msg, 12, querys);
    for i := 0 to querys
      invariant SkipQuestions(msg, 12, i) == Some(ptr)
    {
      assert SkipQuestions(msg, 12, i + 1).Some?;
      ptr := SkipName(msg, ptr);
      ptr := ptr + 4;
    }
    var c := Cursor([], ptr);
    for i := 0 to answers
      invariant Walk(msg, ptr, i) == Some(c)
    {
      WalkDefined(msg, ptr, i + 1, answers);
      c := ParseAnswer(msg, c);
    }
    items := c.items;
  }

  /** A walk that has a result has one at every earlier record. */
  lemma {:induction false} WalkDefined(msg: seq<byte>, p: nat, i: nat, answers: nat)
    requires i <= answers && Walk(msg, p, answers).Some?
    ensures Walk(msg, p, i).Some?
    decreases answers
  {
    if i < answers {
      WalkDefined(msg, p, i, answers - 1);
    }
  }

  lemma {:induction false} SkipDefined(msg: seq<byte>, p: nat, n: nat)
    requires SkipQuestions(msg, p, n).Some?
    ensures forall i :: 0 <= i <= n ==> SkipQuestions(msg, p, i).Some?
  {
    if n > 0 {
      SkipDefined(msg, p, n - 1);
    }
  }

  // ---------------------------------------------------------------- the standard's records

  /** Where the name at `p` ends on the wire: behind its root byte or its pointer. */
  function NameEnd(msg: seq<byte>, p: nat): Option<nat>
    decreases |msg| - p
  {
    if p >= |msg| then None
    else if msg[p] == 0 then Some(p + 1)
    else if IsPointer(msg[p]) then Some(p + 2)
    else if msg[p] >= 64 then None
    else NameEnd(msg, p + 1 + msg[p])
  }

  datatype Record = Record(start: nat, fields: nat, rtype: nat, rdlength: nat) {
    function Data(): nat { fields + 10 }
    function End(): nat { fields + 10 + rdlength }
  }

  function RecordAt(msg: seq<byte>, p: nat): Option<Record> {
    var e := NameEnd(msg, p);
    if e.None? || e.value + 10 > |msg| then None
    else
      var r := Record(p, e.value, U16(msg, e.value), U16(msg, e.value + 8));
      if r.End() > |msg| then None else Some(r)
  }

  /** The first k records from `p`. */
  function Records(msg: seq<byte>, p: nat, k: nat): (rs: Option<seq<Record>>)
    ensures rs.Some? ==> |rs.value| == k
  {
    if k == 0 then Some([])
    else
      var before := Records(msg, p, k - 1);
      if before.None? then None
      else
        var r := RecordAt(msg, After(before.value, p));
        if r.None? then None else Some(before.value + [r.value])
  }

  function After(rs: seq<Record>, p: nat): nat { if rs == [] then p else rs[|rs| - 1].End() }

  predicate PointerOwner(r: Record) { r.fields == r.start + 2 }

  /** The data the walker passes over correctly. */
  predicate PassedOver(r: Record) { r.rtype == TYPE_HOST || r.rtype == TYPE_CNAME || r.rdlength == 0 }

  /** The same told from the bytes behind the owner: type 1 or 5, as in section 3.2.2 of RFC 1035, or length 0. */
  predicate PassedOverOnWire(msg: seq<byte>, r: Record)
    requires r.fields + 10 <= |msg|
  {
    || msg[r.fields..r.fields + 2] == [0, 1]
    || msg[r.fields..r.fields + 2] == [0, 5]
    || msg[r.fields + 8..r.fields + 10] == [0, 0]
  }

  /** The owner leaves room for a terminator in 128 bytes, and an alias fits as many. */
  predicate NamesFit(msg: seq<byte>, r: Record) {
    && Name(msg, r.start).Some? && |Name(msg, r.start).value| <= 127
    && (r.rtype == 5 ==> Name(msg, r.Data()).Some? && |Name(msg, r.Data()).value| <= 128)
  }

  lemma WireTypes(msg: seq<byte>, p: nat)
    requires RecordAt(msg, p).Some?
    ensures var r := RecordAt(msg, p).value; r.fields + 10 <= |msg| && (PassedOver(r) <==> PassedOverOnWire(msg, r))
  {
    var r := RecordAt(msg, p).value;
    var f := r.fields;
    assert msg[f..f + 2] == [msg[f], msg[f + 1]];
    assert msg[f + 8..f + 10] == [msg[f + 8], msg[f + 9]];
  }

  /** What an address record of four bytes contributes. */
  function Address(msg: seq<byte>, r: Record): seq<Item> {
    if r.rtype == TYPE_HOST && r.rdlength == 4 && r.fields + 14 <= |msg| && Name(msg, r.start).Some?
    then [Item(CString(Name(msg, r.start).value), msg[r.fields + 10..r.fields + 14])]
    else []
  }

  /** The address records, in order, each with its owner and its four bytes. */
  function Addresses(msg: seq<byte>, rs: seq<Record>): seq<Item> {
    if rs == [] then [] else Addresses(msg, rs[..|rs| - 1]) + Address(msg, rs[|rs| - 1])
  }

  /** A pointer owner is the only kind of name that takes two bytes. */
  lemma {:induction false} TwoByteNamesArePointers(msg: seq<byte>, p: nat)
    requires NameEnd(msg, p).Some?
    ensures NameEnd(msg, p).value == p + 2 <==> IsPointer(msg[p])
    ensures NameEnd(msg, p).value > p
    decreases |msg| - p
  {
    if 0 < msg[p] < 64 {
      TwoByteNamesArePointers(msg, p + 1 + msg[p]);
    }
  }

  predicate RootOwner(r: Record) { r.fields == r.start + 1 }

  /** The data length the walker goes by: what it reads ten bytes on, if it takes the record for an A or a CNAME. */
  function Taken(msg: seq<byte>, p: nat): nat
    requires p + 12 <= |msg|
  {
    if U16(msg, p + 2) == TYPE_HOST || U16(msg, p + 2) == TYPE_CNAME then U16(msg, p + 10) else 0
  }

  /** The walker goes on to the next record. */
  predicate InStep(msg: seq<byte>, items: seq<Item>, p: nat)
    requires RecordAt(msg, p).Some?
  {
    Step(msg, Cursor(items, p)).Some? && Step(msg, Cursor(items, p)).value.at == RecordAt(msg, p).value.End()
  }

  /**
   When the walker goes on from a record to the next one. Any record: exactly when
   twelve bytes and the length it goes by are the record. A record with a pointer
   owner: it has a result exactly when the names fit its buffers, and goes on exactly
   when the bytes of the type are 0, 1 or 0, 5 or there is no data. A record of class
   IN owned by the root, whose name takes one byte: exactly when the data is one byte.
   */
  lemma InStepExactly(msg: seq<byte>, items: seq<Item>, p: nat)
    requires RecordAt(msg, p).Some?
    ensures var r := RecordAt(msg, p).value;
      && r.fields + 10 <= |msg|
      && (PointerOwner(r) ==> (Step(msg, Cursor(items, p)).Some? <==> NamesFit(msg, r)))
      && (Step(msg, Cursor(items, p)).Some? ==>
            && p + 12 <= |msg|
            && (InStep(msg, items, p) <==> p + 12 + Taken(msg, p) == r.End())
            && (PointerOwner(r) ==> (InStep(msg, items, p) <==> PassedOverOnWire(msg, r)))
            && (RootOwner(r) && U16(msg, r.fields + 2) == 1 ==> (InStep(msg, items, p) <==> r.rdlength == 1)))
  {
    WireTypes(msg, p);
  }

  /** What a pointer-owned record adds to the result: an item if its type bytes are 0, 1 and its length bytes 0, 4. */
  lemma AddsExactly(msg: seq<byte>, items: seq<Item>, p: nat)
    requires RecordAt(msg, p).Some? && PointerOwner(RecordAt(msg, p).value) && Step(msg, Cursor(items, p)).Some?
    ensures p + 12 <= |msg| && Name(msg, p).Some?
    ensures var address := msg[p + 2..p + 4] == [0, 1] && msg[p + 10..p + 12] == [0, 4];
      && (address ==> p + 16 <= |msg|)
      && Step(msg, Cursor(items, p)).value.items ==
         if address then items + [Item(CString(Name(msg, p).value), msg[p + 12..p + 16])] else items
  {
    assert msg[p + 2..p + 4] == [msg[p + 2], msg[p + 3]];
    assert msg[p + 10..p + 12] == [msg[p + 10], msg[p + 11]];
  }

  /** Out of step behind an IPv6 address: a pointer owner, and data that is not passed over. */
  lemma Ipv6OutOfStep(address: seq<byte>)
    requires |address| == 16
    ensures var msg: seq<byte> := [0, 192, 0, 0, 28, 0, 1, 0, 0, 0, 0, 0, 16] + address;
      && RecordAt(msg, 1) == Some(Record(1, 3, 28, 16)) && PointerOwner(RecordAt(msg, 1).value)
      && RecordAt(msg, 1).value.End() == |msg| == 29
      && Step(msg, Cursor([], 1)) == Some(Cursor([], 13))
  {
    var msg: seq<byte> := [0, 192, 0, 0, 28, 0, 1, 0, 0, 0, 0, 0, 16] + address;
    assert Text(msg, 1, 2) == Text(msg, 0, 1) == Some([]);
    HaltsWithinLength(msg, 1, 2);
  }

  /** Out of step behind an address of the root: data that would be passed over, and an owner of one byte. */
  lemma RootOwnerOutOfStep(address: seq<byte>)
    requires |address| == 4
    ensures var msg: seq<byte> := [0, 0, 1, 0, 1, 0, 0, 0, 0, 0, 4] + address;
      && RecordAt(msg, 0) == Some(Record(0, 1, TYPE_HOST, 4)) && PassedOver(RecordAt(msg, 0).value)
      && RecordAt(msg, 0).value.End() == |msg| == 15
      && Step(msg, Cursor([], 0)) == Some(Cursor([], 12))
  {
    var msg: seq<byte> := [0, 0, 1, 0, 1, 0, 0, 0, 0, 0, 4] + address;
    assert Name(msg, 0) == Some([]);
  }

  /** The record a walker in step reads, and what it does to the cursor. */
  lemma RecordStep(msg: seq<byte>, items: seq<Item>, p: nat)
    requires RecordAt(msg, p).Some?
    requires var r := RecordAt(msg, p).value; PointerOwner(r) && NamesFit(msg, r) && PassedOver(r)
    ensures var r := RecordAt(msg, p).value;
      Step(msg, Cursor(items, p)) == Some(Cursor(items + Address(msg, r), r.End()))
  {
    assert items + [] == items;
  }

  ghost predicate Walkable(msg: seq<byte>, rs: seq<Record>) {
    forall i :: 0 <= i < |rs| ==> PointerOwner(rs[i]) && NamesFit(msg, rs[i]) && PassedOver(rs[i])
  }

  /**
   If every answer has a pointer for owner, fits the name buffers and is passed over,
   then after any number of turns the cursor is behind that many records, and the
   items are exactly their address records.
   */
  lemma {:induction false} WalkInStep(msg: seq<byte>, p: nat, rs: seq<Record>)
    requires Records(msg, p, |rs|) == Some(rs) && Walkable(msg, rs)
    ensures Walk(msg, p, |rs|) == Some(Cursor(Addresses(msg, rs), After(rs, p)))
    decreases |rs|
  {
    if rs != [] {
      var front, r := rs[..|rs| - 1], rs[|rs| - 1];
      assert Records(msg, p, |rs| - 1) == Some(front) && RecordAt(msg, After(front, p)) == Some(r);
      assert Walkable(msg, front);
      WalkInStep(msg, p, front);
      RecordStep(msg, Addresses(msg, front), After(front, p));
    }
  }

  lemma {:induction false} FirstRecords(msg: seq<byte>, p: nat, rs: seq<Record>, k: nat)
    requires Records(msg, p, |rs|) == Some(rs) && k <= |rs|
    ensures Records(msg, p, k) == Some(rs[..k])
    ensures k < |rs| ==> RecordAt(msg, After(rs[..k], p)) == Some(rs[k])
    decreases |rs| - k
  {
    if k == |rs| {
      assert rs[..k] == rs;
    } else {
      FirstRecords(msg, p, rs, k + 1);
      assert rs[..k + 1][..k] == rs[..k] && rs[..k + 1][k] == rs[k];
    }
  }

  /** After k turns the cursor is behind the first k records. */
  predicate AtRecord(msg: seq<byte>, p: nat, rs: seq<Record>, k: nat)
    requires k <= |rs|
  {
    Walk(msg, p, k).Some? && Walk(msg, p, k).value.at == After(rs[..k], p)
  }

  /**
   Over pointer-owned records whose names fit, the walker is in step throughout if and
   only if every one has type bytes 0, 1 or 0, 5 or no data.
   */
  lemma WalkInStepExactly(msg: seq<byte>, p: nat, rs: seq<Record>)
    requires Records(msg, p, |rs|) == Some(rs)
    requires forall i :: 0 <= i < |rs| ==> PointerOwner(rs[i]) && NamesFit(msg, rs[i])
    ensures forall i :: 0 <= i < |rs| ==> rs[i].fields + 10 <= |msg|
    ensures (forall k :: 0 <= k <= |rs| ==> AtRecord(msg, p, rs, k)) <==>
            (forall i :: 0 <= i < |rs| ==> PassedOverOnWire(msg, rs[i]))
  {
    forall i | 0 <= i < |rs| ensures rs[i].fields + 10 <= |msg| && (PassedOver(rs[i]) <==> PassedOverOnWire(msg, rs[i])) {
      FirstRecords(msg, p, rs, i);
      WireTypes(msg, After(rs[..i], p));
    }
    if Walkable(msg, rs) {
      forall k | 0 <= k <= |rs| ensures AtRecord(msg, p, rs, k) {
        FirstRecords(msg, p, rs, k);
        assert Walkable(msg, rs[..k]);
        WalkInStep(msg, p, rs[..k]);
      }
    }
    if forall k :: 0 <= k <= |rs| ==> AtRecord(msg, p, rs, k) {
      forall i | 0 <= i < |rs| ensures PassedOver(rs[i]) {
        assert AtRecord(msg, p, rs, i) && AtRecord(msg, p, rs, i + 1);
        FirstRecords(msg, p, rs, i);
        assert rs[..i + 1][i] == rs[i];
        InStepExactly(msg, Walk(msg, p, i).value.items, After(rs[..i], p));
      }
    }
  }

  /** So the whole response parses to its address records, in order. */
  lemma ResponseIsItsAddresses(msg: seq<byte>, start: nat, rs: seq<Record>)
    requires |msg| >= 12 && SkipQuestions(msg, 12, U16(msg, 4)) == Some(start)
    requires |rs| == U16(msg, 6) && Records(msg, start, |rs|) == Some(rs) && Walkable(msg, rs)
    ensures Parse(msg) == Some(Addresses(msg, rs))
  {
    WalkInStep(msg, start, rs);
  }

  lemma {:induction false} CStringWhole(s: seq<byte>)
    requires 0 !in s
    ensures CString(s) == s
  {
    if s != [] {
      CStringWhole(s[1..]);
    }
  }

  /** The owner reported is the standard's name, for low pointers, a name that does not end by one, and no zero byte. */
  lemma OwnerAgrees(msg: seq<byte>, p: nat, fuel: nat)
    requires Labels(msg, p, fuel).Some? && LowPointers(msg, p, fuel) && !EndsByPointer(msg, p, fuel)
    requires 0 !in Join(Labels(msg, p, fuel).value)
    ensures Name(msg, p).Some? && CString(Name(msg, p).value) == Join(Labels(msg, p, fuel).value)
  {
    DecompressionAgrees(msg, p, fuel);
    CStringWhole(Join(Labels(msg, p, fuel).value));
  }

  /** A pointer-owned record at `p` with these type bytes and this many bytes of data. */
  predicate WireRecord(msg: seq<byte>, p: nat, low: byte, length: (byte, byte)) {
    && p + 12 + 256 * length.0 + length.1 <= |msg|
    && msg[p] >= 192
    && msg[p + 2] == 0 && msg[p + 3] == low
    && msg[p + 10] == length.0 && msg[p + 11] == length.1
  }

  lemma WireRecordIsRecord(msg: seq<byte>, p: nat, low: byte, length: (byte, byte))
    requires WireRecord(msg, p, low, length)
    ensures RecordAt(msg, p) == Some(Record(p, p + 2, low, 256 * length.0 + length.1))
  {}

  lemma AliasStep(msg: seq<byte>, items: seq<Item>, p: nat, length: (byte, byte))
    requires WireRecord(msg, p, 5, length) && NameFits(msg, p, 127) && NameFits(msg, p + 12, 128)
    ensures Step(msg, Cursor(items, p)) == Some(Cursor(items, p + 12 + 256 * length.0 + length.1))
  {}

  lemma AddressStep(msg: seq<byte>, items: seq<Item>, p: nat)
    requires WireRecord(msg, p, 1, (0, 4)) && NameFits(msg, p, 127)
    ensures Step(msg, Cursor(items, p)) ==
      Some(Cursor(items + [Item(CString(Name(msg, p).value), msg[p + 12..p + 16])], p + 16))
  {}

  lemma TwoTurns(msg: seq<byte>, p: nat, c: Cursor, d: Cursor)
    requires |msg| >= 12 && SkipQuestions(msg, 12, U16(msg, 4)) == Some(p) && U16(msg, 6) == 2
    requires Step(msg, Cursor([], p)) == Some(c) && Step(msg, c) == Some(d)
    ensures Parse(msg) == Some(d.items)
  {
    assert Walk(msg, p, 0) == Some(Cursor([], p));
    assert Walk(msg, p, 1) == Some(c);
  }

  /**
   The usual answer to an aliased host: a CNAME record and a four-byte address behind
   it, both pointer-owned, parse to that one address under the second owner's name.
   */
  lemma AliasThenAddress(msg: seq<byte>, p: nat, length: (byte, byte))
    requires |msg| >= 12 && SkipQuestions(msg, 12, U16(msg, 4)) == Some(p) && msg[6] == 0 && msg[7] == 2
    requires WireRecord(msg, p, 5, length) && NameFits(msg, p, 127) && NameFits(msg, p + 12, 128)
    requires var q := p + 12 + 256 * length.0 + length.1; WireRecord(msg, q, 1, (0, 4)) && NameFits(msg, q, 127)
    ensures var q := p + 12 + 256 * length.0 + length.1;
      Parse(msg) == Some([Item(CString(Name(msg, q).value), msg[q + 12..q + 16])])
  {
    var q := p + 12 + 256 * length.0 + length.1;
    var item := Item(CString(Name(msg, q).value), msg[q + 12..q + 16]);
    AliasStep(msg, [], p, length);
    AddressStep(msg, [], q);
    assert [] + [item] == [item];
    TwoTurns(msg, p, Cursor([], q), Cursor([item], q + 16));
  }

  /**
   The client's parser on the client's own request, for every hostname: the identifier,
   no flags, one question, no records of any kind, and type 1 and class 1 behind the
   question's name. Where every length fits its byte the question is skipped to the end
   of the request if and only if no label of the hostname is empty.
   */
  lemma OwnRequest(msg: seq<byte>, id: (byte, byte), hostname: seq<byte>, junk: seq<byte>)
    requires |junk| == |hostname| + 2 && Request(id, hostname, junk) <= msg
    ensures |msg| >= |hostname| + 18 && msg[0] == id.0 && msg[1] == id.1
    ensures U16(msg, 2) == 0 && U16(msg, 4) == 1 && U16(msg, 6) == 0 && U16(msg, 8) == 0 && U16(msg, 10) == 0
    ensures U16(msg, |hostname| + 14) == 1 && U16(msg, |hostname| + 16) == 1
    ensures Tokens(hostname) != [] && ByteLabels(Tokens(hostname)) ==>
      && SkipQuestions(msg, 12, 1).Some?
      && (SkipQuestions(msg, 12, 1).value == |hostname| + 18 <==> NoEmptyLabel(hostname))
  {
    RequestFields(msg, id, hostname, junk);
    if Tokens(hostname) != [] && ByteLabels(Tokens(hostname)) {
      OwnQuestionSkipped(msg, id, hostname, junk);
    }
  }

  lemma OwnQuestionSkipped(msg: seq<byte>, id: (byte, byte), hostname: seq<byte>, junk: seq<byte>)
    requires |junk| == |hostname| + 2 && Request(id, hostname, junk) <= msg
    requires Tokens(hostname) != [] && ByteLabels(Tokens(hostname))
    ensures SkipQuestions(msg, 12, 1).Some?
    ensures SkipQuestions(msg, 12, 1).value == |hostname| + 18 <==> NoEmptyLabel(hostname)
  {
    RoundTrip(msg, id, hostname, junk);
    assert SkipQuestions(msg, 12, 0) == Some(12);
  }

  lemma RequestFields(msg: seq<byte>, id: (byte, byte), hostname: seq<byte>, junk: seq<byte>)
    requires |junk| == |hostname| + 2 && Request(id, hostname, junk) <= msg
    ensures |msg| >= |hostname| + 18
    ensures msg[..12] == [id.0, id.1, 0, 0, 0, 1, 0, 0, 0, 0, 0, 0]
    ensures msg[|hostname| + 14] == msg[|hostname| + 16] == 0 && msg[|hostname| + 15] == msg[|hostname| + 17] == 1
  {
    var request := Request(id, hostname, junk);
    assert msg[..|request|] == request;
    assert msg[..12] == request[..12] == Header(id);
    assert forall i :: 0 <= i < 4 ==> msg[|hostname| + 14 + i] == request[|hostname| + 14 + i] == (ONE + ONE)[i];
  }
}
