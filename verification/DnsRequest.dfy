/**
 The request side of network/dns/sync_dns_client.cpp: the question encoder, the
 request builder and the loop that skips a question, with their round trip. A
 hostname is a C string, so it holds no zero byte; `strtok` is the split into
 maximal runs of bytes other than dots; what `malloc` returns is arbitrary.
 */
module DnsRequest {
  import opened Bytes
  import opened DnsName

  // ---------------------------------------------------------------- strtok

  /** Length of the leading run without a dot. */
  function RunLength(s: seq<byte>): (n: nat)
    ensures n <= |s| && (n < |s| ==> s[n] == 46) && forall i :: 0 <= i < n ==> s[i] != 46
  {
    if s == [] || s[0] == DOT then 0 else 1 + RunLength(s[1..])
  }

  function Tokens(s: seq<byte>): seq<seq<byte>>
    decreases |s|
  {
    if s == [] then []
    else if s[0] == DOT then Tokens(s[1..])
    else
      var n := RunLength(s);
      [s[..n]] + Tokens(s[n..])
  }

  /** Not empty, no leading or trailing dot and no two dots in a row. */
  predicate NoEmptyLabel(s: seq<byte>) {
    && s != [] && s[0] != 46 && s[|s| - 1] != 46
    && forall i :: 0 <= i < |s| - 1 && s[i] == 46 ==> s[i + 1] != 46
  }

  /**
   What `strtok` makes of any string, wherever its dots are: a run of other bytes is
   one token, and a dot anywhere only parts what is before it from what is behind it.
   */
  lemma TokenOfRun(s: seq<byte>)
    requires 46 !in s
    ensures Tokens(s) == if s == [] then [] else [s]
  {
    if s != [] {
      assert RunLength(s) == |s|;
      assert s[..|s|] == s && s[|s|..] == [] && [s] + [] == [s];
    }
  }

  lemma {:induction false} TokensPart(s: seq<byte>, t: seq<byte>)
    ensures Tokens(s + [46] + t) == Tokens(s) + Tokens(t)
    decreases |s|
  {
    var all := s + [46] + t;
    if s == [] {
      assert all[1..] == t;
    } else if s[0] == DOT {
      assert all[1..] == s[1..] + [46] + t;
      TokensPart(s[1..], t);
    } else {
      var n := RunLength(s);
      RunStops(all, n);
      Cut(s, n, t);
      TokensPart(s[n..], t);
    }
  }

  lemma Cut(s: seq<byte>, n: nat, t: seq<byte>)
    requires n <= |s|
    ensures (s + [46] + t)[..n] == s[..n] && (s + [46] + t)[n..] == s[n..] + [46] + t
  {}

  lemma {:induction false} RunStops(s: seq<byte>, n: nat)
    requires n < |s| && s[n] == 46 && forall i :: 0 <= i < n ==> s[i] != 46
    ensures RunLength(s) == n
  {
    if n > 0 {
      RunStops(s[1..], n - 1);
    }
  }

  // ---------------------------------------------------------------- the wire format

  /** Each label behind its length, as the program truncates it to a byte. */
  function Encode(labels: seq<seq<byte>>): seq<byte> {
    if labels == [] then []
    else
      var front, last := labels[..|labels| - 1], labels[|labels| - 1];
      Encode(front) + [|last| % 256] + last
  }

  lemma {:induction false} EncodeFirst(first: seq<byte>, rest: seq<seq<byte>>)
    ensures Encode([first] + rest) == [|first| % 256] + first + Encode(rest)
  {
    var all := [first] + rest;
    if rest == [] {
      assert all[..|all| - 1] == [];
    } else {
      var front, last := rest[..|rest| - 1], rest[|rest| - 1];
      assert all[..|all| - 1] == [first] + front && all[|all| - 1] == last;
      EncodeFirst(first, front);
      var a, b := [|first| % 256] + first, [|last| % 256];
      assert (a + Encode(front)) + b + last == a + (Encode(front) + b + last);
    }
  }

  /** The decoder takes a length of 192 or more for a pointer. */
  predicate ShortLabels(labels: seq<seq<byte>>) { forall i :: 0 <= i < |labels| ==> 0 < |labels[i]| < 192 }

  /** A length fits the byte it is stored in. */
  predicate ByteLabels(labels: seq<seq<byte>>) { forall i :: 0 <= i < |labels| ==> 0 < |labels[i]| < 256 }

  /** How the labels of a hostname compare with it: they are all of it exactly when none is empty. */
  ghost predicate Fits(s: seq<byte>, labels: seq<seq<byte>>) {
    && (NoEmptyLabel(s) ==> |Encode(labels)| == |s| + 1 && Join(labels) == s)
    && (!NoEmptyLabel(s) ==> |Encode(labels)| <= |s|)
    && (forall i :: 0 <= i < |labels| ==> 0 < |labels[i]| <= |s|)
    && (if labels == [] then Encode(labels) == [] else |Join(labels)| == |Encode(labels)| - 1)
  }

  lemma {:induction false} TokensFit(s: seq<byte>)
    ensures Fits(s, Tokens(s))
    decreases |s|
  {
    if s == [] {
    } else if s[0] == DOT {
      TokensFit(s[1..]);
    } else {
      var n := RunLength(s);
      var first := s[..n];
      if n == |s| {
        assert s[n..] == [] && first == s;
        SingleFits(s);
        assert [first] + [] == [first];
      } else {
        var tail := s[n + 1..];
        assert s[n..][1..] == tail;
        TokensFit(tail);
        ConsFits(s, n, Tokens(tail));
      }
    }
  }

  lemma SingleFits(s: seq<byte>)
    requires s != [] && forall i :: 0 <= i < |s| ==> s[i] != DOT
    ensures Fits(s, [s])
  {
    EncodeFirst(s, []);
    assert [s] + [] == [s];
  }

  lemma ConsFits(s: seq<byte>, n: nat, labels: seq<seq<byte>>)
    requires 0 < n < |s| && s[n] == DOT && forall i :: 0 <= i < n ==> s[i] != DOT
    requires Fits(s[n + 1..], labels)
    ensures Fits(s, [s[..n]] + labels)
  {
    var first, tail := s[..n], s[n + 1..];
    var all := [first] + labels;
    EncodeFirst(first, labels);
    LabelsAfterDot(s, n);
    assert |Encode(all)| == n + 1 + |Encode(labels)|;
    assert all[1..] == labels;
    assert s == first + [DOT] + tail;
    if labels == [] {
      assert Join(all) == first;
      assert !NoEmptyLabel(tail);
    }
  }

  lemma LabelsAfterDot(s: seq<byte>, n: nat)
    requires 0 < n < |s| && s[n] == DOT && forall i :: 0 <= i < n ==> s[i] != DOT
    ensures NoEmptyLabel(s) <==> NoEmptyLabel(s[n + 1..])
  {
    var tail := s[n + 1..];
    assert forall i :: 0 <= i < |tail| ==> tail[i] == s[n + 1 + i];
    if NoEmptyLabel(tail) {
      forall i | 0 <= i < |s| - 1 && s[i] == DOT ensures s[i + 1] != DOT {
        if i > n {
          assert s[i] == tail[i - n - 1] && s[i + 1] == tail[i - n];
        }
      }
      assert s[|s| - 1] == tail[|tail| - 1];
    }
  }

  // ---------------------------------------------------------------- decoding what was encoded

  /** The loop that skips a question's name: it jumps from length to length, past the root byte. */
  function Skip(msg: seq<byte>, p: nat): Option<nat>
    decreases |msg| - p
  {
    if p >= |msg| then None
    else if msg[p] == 0 then Some(p + 1)
    else Skip(msg, p + msg[p] + 1)
  }

  predicate Holds(msg: seq<byte>, p: nat, part: seq<byte>) {
    p + |part| <= |msg| && msg[p..p + |part|] == part
  }

  lemma HoldsRest(msg: seq<byte>, p: nat, a: seq<byte>, b: seq<byte>)
    requires Holds(msg, p, a + b)
    ensures Holds(msg, p, a) && Holds(msg, p + |a|, b)
  {
    assert msg[p..p + |a + b|][..|a|] == a;
    assert msg[p..p + |a + b|][|a|..] == b;
  }

  lemma LabelOnWire(msg: seq<byte>, p: nat, first: seq<byte>, rest: seq<seq<byte>>)
    requires 0 < |first| < 256 && Holds(msg, p, Encode([first] + rest) + [0])
    ensures p + 1 + |first| < |msg| && msg[p] == |first| && msg[p + 1..p + 1 + |first|] == first
    ensures Holds(msg, p + 1 + |first|, Encode(rest) + [0])
  {
    EncodeFirst(first, rest);
    var a, b := [|first|] + first, Encode(rest) + [0];
    assert Encode([first] + rest) + [0] == a + b;
    HoldsRest(msg, p, a, b);
    HoldsRest(msg, p, [|first|], first);
    assert msg[p] == msg[p..p + 1][0];
  }

  lemma JoinNext(first: seq<byte>, rest: seq<seq<byte>>, next: byte)
    requires next == 0 <==> rest == []
    ensures first + Dot(next) + Join(rest) == Join([first] + rest)
  {
    assert ([first] + rest)[1..] == rest;
  }

  /** Wherever labels are encoded, the name loop reads them back. */
  lemma {:induction false} WireDecodes(msg: seq<byte>, p: nat, labels: seq<seq<byte>>)
    requires ShortLabels(labels) && Holds(msg, p, Encode(labels) + [0])
    ensures Text(msg, p, |labels| + 1) == Some(Join(labels))
    decreases |labels|
  {
    if labels == [] {
      assert msg[p] == msg[p..p + 1][0];
    } else {
      var first, rest := labels[0], labels[1..];
      assert labels == [first] + rest;
      LabelOnWire(msg, p, first, rest);
      var q := p + 1 + |first|;
      WireDecodes(msg, q, rest);
      NextIsRoot(msg, q, rest);
      JoinNext(first, rest, msg[q]);
    }
  }

  /** And the skip loop lands behind them: it does not look for pointers. */
  lemma {:induction false} WireSkips(msg: seq<byte>, p: nat, labels: seq<seq<byte>>)
    requires ByteLabels(labels) && Holds(msg, p, Encode(labels) + [0])
    ensures Skip(msg, p) == Some(p + |Encode(labels)| + 1)
    decreases |labels|
  {
    if labels == [] {
      assert msg[p] == msg[p..p + 1][0];
    } else {
      var first, rest := labels[0], labels[1..];
      assert labels == [first] + rest;
      LabelOnWire(msg, p, first, rest);
      WireSkips(msg, p + 1 + |first|, rest);
      EncodeFirst(first, rest);
    }
  }

  /** A length of 256 is stored as zero, which ends the skip at once. */
  lemma WrappedLengthEndsSkip(msg: seq<byte>, p: nat, first: seq<byte>, rest: seq<seq<byte>>)
    requires |first| == 256 && Holds(msg, p, Encode([first] + rest) + [0])
    ensures Skip(msg, p) == Some(p + 1)
  {
    EncodeFirst(first, rest);
    var part := Encode([first] + rest) + [0];
    assert msg[p] == msg[p..p + |part|][0] == part[0];
  }

  lemma NextIsRoot(msg: seq<byte>, q: nat, labels: seq<seq<byte>>)
    requires ByteLabels(labels) && Holds(msg, q, Encode(labels) + [0])
    ensures msg[q] == 0 <==> labels == []
  {
    var part := Encode(labels) + [0];
    assert msg[q] == msg[q..q + |part|][0] == part[0];
    if labels != [] {
      assert labels == [labels[0]] + labels[1..];
      EncodeFirst(labels[0], labels[1..]);
    }
  }

  // ---------------------------------------------------------------- labels too long for the decoder

  predicate DotWithin(s: seq<byte>, i: nat)
    requires i + 192 <= |s|
  {
    46 in s[i..i + 192]
  }

  /** Every stretch of 192 bytes holds a dot. */
  predicate DotsEvery(s: seq<byte>) {
    forall i :: 0 <= i <= |s| - 192 ==> DotWithin(s, i)
  }

  lemma DotsAcross(piece: seq<byte>, rest: seq<byte>)
    requires |piece| < 192 && DotsEvery(rest)
    ensures DotsEvery(piece + [DOT] + rest)
  {
    var s := piece + [DOT] + rest;
    forall i | 0 <= i <= |s| - 192 ensures DotWithin(s, i) {
      if i <= |piece| {
        assert s[i..i + 192][|piece| - i] == DOT;
      } else {
        var j := i - |piece| - 1;
        assert DotWithin(rest, j) && s[i..i + 192] == rest[j..j + 192];
      }
    }
  }

  /** Whatever the message, the name loop writes a dot at least that often. */
  lemma {:induction false} TextHasDots(msg: seq<byte>, p: nat, fuel: nat)
    requires Text(msg, p, fuel).Some?
    ensures DotsEvery(Text(msg, p, fuel).value)
    decreases fuel
  {
    if msg[p] == 0 {
    } else if IsPointer(msg[p]) {
      TextHasDots(msg, msg[p + 1], fuel - 1);
    } else {
      var q := p + 1 + msg[p];
      TextHasDots(msg, q, fuel - 1);
      if msg[q] == 0 {
        assert |Text(msg, p, fuel).value| < 192;
      } else {
        DotsAcross(msg[p + 1..q], Text(msg, q, fuel - 1).value);
      }
    }
  }

  lemma SliceOfRest(s: seq<byte>, n: nat, a: nat, len: nat)
    requires n + a + len <= |s|
    ensures s[n..][a..a + len] == s[a + n..a + n + len]
  {}

  /** A label is a stretch of the hostname without a dot. */
  lemma {:induction false} TokenIsStretch(s: seq<byte>, k: nat) returns (a: nat)
    requires k < |Tokens(s)|
    ensures 46 !in Tokens(s)[k]
    ensures a + |Tokens(s)[k]| <= |s| && s[a..a + |Tokens(s)[k]|] == Tokens(s)[k]
    decreases |s|
  {
    if s[0] == DOT {
      a := TokenIsStretch(s[1..], k);
      SliceOfRest(s, 1, a, |Tokens(s)[k]|);
      a := a + 1;
    } else if k == 0 {
      a := 0;
    } else {
      var n := RunLength(s);
      assert Tokens(s)[k] == Tokens(s[n..])[k - 1];
      a := TokenIsStretch(s[n..], k - 1);
      SliceOfRest(s, n, a, |Tokens(s)[k]|);
      a := a + n;
    }
  }

  /** So a hostname with a label of 192 bytes or more is not the name at any place in any message. */
  lemma LongLabelsMisread(msg: seq<byte>, p: nat, hostname: seq<byte>)
    requires !ShortLabels(Tokens(hostname))
    ensures Name(msg, p) != Some(hostname)
  {
    TokensFit(hostname);
    var k :| 0 <= k < |Tokens(hostname)| && |Tokens(hostname)[k]| >= 192;
    var a := TokenIsStretch(hostname, k);
    var token := Tokens(hostname)[k];
    assert hostname[a..a + 192] == token[..192];
    assert !DotWithin(hostname, a);
    if Name(msg, p).Some? {
      TextHasDots(msg, p, |msg|);
    }
  }

  /** There are such hostnames, without any empty label. */
  lemma LongLabelHappens(hostname: seq<byte>)
    requires |hostname| >= 192 && 46 !in hostname
    ensures NoEmptyLabel(hostname) && Tokens(hostname) == [hostname] && !ShortLabels(Tokens(hostname))
  {
    TokenOfRun(hostname);
    assert |Tokens(hostname)[0]| >= 192;
  }

  // ---------------------------------------------------------------- the program

  /** The bytes of the question's name: written up to the last label's terminator, and arbitrary behind it. */
  function Question(hostname: seq<byte>, junk: seq<byte>): (q: seq<byte>)
    requires |junk| == |hostname| + 2
    ensures |q| == |junk|
  {
    TokensFit(hostname);
    var e := Encode(Tokens(hostname));
    if Tokens(hostname) == [] then junk else e + [0] + junk[|e| + 1..]
  }

  lemma {:induction false} EncodeGrows(labels: seq<seq<byte>>, k: nat)
    requires k <= |labels|
    ensures |Encode(labels[..k])| <= |Encode(labels)|
    decreases |labels| - k
  {
    if k == |labels| {
      assert labels[..k] == labels;
    } else {
      EncodeGrows(labels, k + 1);
      assert labels[..k + 1][..k] == labels[..k];
    }
  }

  /** The buffer after some labels: they and a terminator, with the rest as allocated. */
  ghost predicate Laid(qname: seq<byte>, done: seq<byte>, junk: seq<byte>) {
    if done == [] then qname == junk
    else |done| < |junk| && qname == done + [0] + junk[|done| + 1..]
  }

  /** One turn of the loop: the length, the label and its terminator, over the previous terminator. */
  method AppendToken(qname: array<byte>, pos: nat, token: seq<byte>, ghost done: seq<byte>, ghost junk: seq<byte>)
    requires pos == |done| && pos + |token| + 2 <= |junk| && Laid(qname[..], done, junk)
    modifies qname
    ensures Laid(qname[..], done + [|token| % 256] + token, junk)
  {
    ghost var before := qname[..];
    var piece := [|token| % 256] + token + [0];
    assert before == done + before[pos..];
    StoreAll(qname, pos, piece, done, before);
    assert before[pos + |piece|..] == junk[pos + |piece|..];
  }

  /** `dns_create_question`: no hostname makes it write outside the buffer it allocates. */
  method CreateQuestion(hostname: seq<byte>, junk: seq<byte>) returns (qname: array<byte>)
    requires |junk| == |hostname| + 2
    ensures fresh(qname) && qname[..] == Question(hostname, junk)
    ensures Tokens(hostname) != [] ==>
      Encode(Tokens(hostname)) + [0] <= qname[..] && qname[|Encode(Tokens(hostname))| + 1..] == junk[|Encode(Tokens(hostname))| + 1..]
    ensures Tokens(hostname) == [] ==> qname[..] == junk
  {
    qname := new byte[|hostname| + 2](i requires 0 <= i < |junk| => junk[i]);
    assert qname[..] == junk;
    var tokens := Tokens(hostname);
    EncodeBound(hostname);
    var pos := 0;
    for k := 0 to |tokens|
      invariant pos == |Encode(tokens[..k])|
      invariant Laid(qname[..], Encode(tokens[..k]), junk)
    {
      EncodeGrows(tokens, k + 1);
      assert tokens[..k + 1][..k] == tokens[..k];
      AppendToken(qname, pos, tokens[k], Encode(tokens[..k]), junk);
      pos := pos + 1 + |tokens[k]|;
    }
    assert tokens[..|tokens|] == tokens;
    LaidIsQuestion(qname[..], hostname, junk);
  }

  lemma EncodeBound(hostname: seq<byte>)
    ensures |Encode(Tokens(hostname))| <= |hostname| + 1
  {
    TokensFit(hostname);
  }

  lemma LaidIsQuestion(qname: seq<byte>, hostname: seq<byte>, junk: seq<byte>)
    requires |junk| == |hostname| + 2 && Laid(qname, Encode(Tokens(hostname)), junk)
    ensures qname == Question(hostname, junk)
  {
    if Tokens(hostname) != [] {
      assert |Encode(Tokens(hostname))| > 0;
    }
  }

  /** The header: the recursion-desired flag is compared, not set, so the flags stay zero. */
  function Header(id: (byte, byte)): seq<byte> { [id.0, id.1, 0, 0, 0, 1, 0, 0, 0, 0, 0, 0] }

  /** Type A, and class IN. */
  const ONE: seq<byte> := [0, 1]

  /** `dns_build_request`: the parts in order, and their total length. */
  method BuildRequest(id: (byte, byte), qname: seq<byte>, request: array<byte>) returns (length: nat)
    requires 12 + |qname| + 4 <= request.Length
    modifies request
    ensures length == 12 + |qname| + 4
    ensures request[..] ==
      [id.0, id.1, 0, 0, 0, 1, 0, 0, 0, 0, 0, 0] + qname + [0, 1] + [0, 1] + old(request[..])[length..]
  {
    ghost var before := request[..];
    var header := Header(id);
    var offset := |header|;
    StoreAll(request, 0, header, [], before);
    assert [] + header == header;
    StoreAll(request, offset, qname, header, before);
    offset := offset + |qname|;
    StoreAll(request, offset, ONE, header + qname, before);
    offset := offset + 2;
    StoreAll(request, offset, ONE, header + qname + ONE, before);
    length := offset + 2;
  }

  /** The request for a hostname. */
  function Request(id: (byte, byte), hostname: seq<byte>, junk: seq<byte>): seq<byte>
    requires |junk| == |hostname| + 2
  {
    Header(id) + Question(hostname, junk) + ONE + ONE
  }

  lemma QuestionOnWire(msg: seq<byte>, id: (byte, byte), hostname: seq<byte>, junk: seq<byte>)
    requires |junk| == |hostname| + 2 && Tokens(hostname) != [] && Request(id, hostname, junk) <= msg
    ensures Holds(msg, 12, Encode(Tokens(hostname)) + [0])
  {
    TokensFit(hostname);
    var e := Encode(Tokens(hostname)) + [0];
    Middle(Header(id), e, junk[|e|..], ONE);
    HoldsInLonger(Request(id, hostname, junk), msg, 12, e);
  }

  lemma Middle(h: seq<byte>, e: seq<byte>, j: seq<byte>, t: seq<byte>)
    ensures Holds(h + (e + j) + t + t, |h|, e)
  {
    var msg := h + (e + j) + t + t;
    assert forall i :: 0 <= i < |e| ==> msg[|h| + i] == e[i];
  }

  lemma HoldsInLonger(a: seq<byte>, b: seq<byte>, p: nat, part: seq<byte>)
    requires a <= b && Holds(a, p, part)
    ensures Holds(b, p, part)
  {
    assert b[p..p + |part|] == a[p..p + |part|];
  }

  /**
   The round trip, in a buffer that begins with the request, for every hostname with
   a label. Decoding gives back the hostname if and only if none of its labels is
   empty or longer than 191 bytes. Where every length fits its byte, the question is
   skipped to the end of the request if and only if no label is empty.
   */
  lemma RoundTrip(msg: seq<byte>, id: (byte, byte), hostname: seq<byte>, junk: seq<byte>)
    requires |junk| == |hostname| + 2 && Tokens(hostname) != []
    requires Request(id, hostname, junk) <= msg
    ensures Name(msg, 12) == Some(hostname) <==> NoEmptyLabel(hostname) && ShortLabels(Tokens(hostname))
    ensures ShortLabels(Tokens(hostname)) ==> Name(msg, 12) == Some(Join(Tokens(hostname)))
    ensures ByteLabels(Tokens(hostname)) ==>
      && Skip(msg, 12).Some?
      && (Skip(msg, 12).value + 4 == 12 + |hostname| + 2 + 4 <==> NoEmptyLabel(hostname))
  {
    var labels := Tokens(hostname);
    QuestionOnWire(msg, id, hostname, junk);
    TokensFit(hostname);
    if ShortLabels(labels) {
      WireDecodes(msg, 12, labels);
      HaltsWithinLength(msg, 12, |labels| + 1);
    } else {
      LongLabelsMisread(msg, 12, hostname);
    }
    if ByteLabels(labels) {
      WireSkips(msg, 12, labels);
    }
  }

  /** Every hostname of fewer than 192 bytes has labels the decoder can tell from pointers. */
  lemma ShortHostname(hostname: seq<byte>)
    requires |hostname| < 192
    ensures ShortLabels(Tokens(hostname))
  {
    TokensFit(hostname);
  }
}
