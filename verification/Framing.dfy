/** What the incremental message parser computes, one byte at a time (src/net.h, src/net.cpp). */
module Framing {
  import opened Transactions
  import BigNum

  const HEADER_SIZE: nat := 24
  const MESSAGE_SIZE_OFFSET: nat := 16
  const MAX_SIZE: nat := 0x0200_0000

  /** A message being received: some header bytes, or a whole header and some of its data. A whole header that is
      still a Head announced too much data and was refused. */
  datatype Msg = Head(bytes: seq<Byte>) | Body(header: seq<Byte>, data: seq<Byte>)

  /** nMessageSize: a little-endian number in the header. */
  function MessageSize(header: seq<Byte>): nat
    requires |header| == HEADER_SIZE
  {
    var at := (i: nat) requires i < 4 => header[MESSAGE_SIZE_OFFSET + i] as int;
    at(0) + 256 * at(1) + 65536 * at(2) + 16777216 * at(3)
  }

  predicate WellFormedMsg(m: Msg) {
    match m
    case Head(bytes) => |bytes| <= HEADER_SIZE && (|bytes| == HEADER_SIZE ==> MessageSize(bytes) > MAX_SIZE)
    case Body(header, data) => |header| == HEADER_SIZE && MessageSize(header) <= MAX_SIZE && |data| <= MessageSize(header)
  }

  predicate Complete(m: Msg)
    requires WellFormedMsg(m)
  {
    m.Body? && |m.data| == MessageSize(m.header)
  }

  predicate Refused(m: Msg) {
    m.Head? && |m.bytes| == HEADER_SIZE
  }

  /** What one more byte makes of an incomplete message. */
  function Absorb(m: Msg, b: Byte): (r: Msg)
    requires WellFormedMsg(m) && !Complete(m)
    ensures WellFormedMsg(r)
  {
    match m
    case Head(bytes) =>
      if Refused(m) then m
      else if |bytes| + 1 == HEADER_SIZE && MessageSize(bytes + [b]) <= MAX_SIZE then Body(bytes + [b], [])
      else Head(bytes + [b])
    case Body(header, data) => Body(header, data + [b])
  }

  predicate WellFormedAll(ms: seq<Msg>) {
    forall i :: 0 <= i < |ms| ==> WellFormedMsg(ms[i])
  }

  /** The list with a message at the end that can take a byte. */
  function Opened(ms: seq<Msg>): (r: seq<Msg>)
    requires WellFormedAll(ms)
    ensures WellFormedAll(r) && r != [] && !Complete(r[|r| - 1])
  {
    if ms == [] || Complete(ms[|ms| - 1]) then ms + [Head([])] else ms
  }

  function WithLast(ms: seq<Msg>, m: Msg): (r: seq<Msg>)
    requires ms != []
  {
    ms[..|ms| - 1] + [m]
  }

  /** The messages after the bytes, and whether all of them were accepted; nothing is read after a refused header. */
  function Feed(ms: seq<Msg>, bytes: seq<Byte>): (r: (bool, seq<Msg>))
    requires WellFormedAll(ms)
    ensures WellFormedAll(r.1)
    decreases |bytes|
  {
    if bytes == [] then (true, ms)
    else
      var o := Opened(ms);
      var m := Absorb(o[|o| - 1], bytes[0]);
      if Refused(m) then (false, WithLast(o, m)) else Feed(WithLast(o, m), bytes[1..])
  }

  /** However the bytes are cut into chunks, the outcome is the same. */
  lemma {:induction false} FeedChunks(ms: seq<Msg>, a: seq<Byte>, b: seq<Byte>)
    requires WellFormedAll(ms)
    ensures var first := Feed(ms, a);
            Feed(ms, a + b) == if first.0 then Feed(first.1, b) else first
    decreases |a|
  {
    hide Absorb, WellFormedMsg, Complete;
    if a == [] {
      assert a + b == b;
    } else {
      var o := Opened(ms);
      var m := Absorb(o[|o| - 1], a[0]);
      assert (a + b)[1..] == a[1..] + b;
      if !Refused(m) {
        FeedChunks(WithLast(o, m), a[1..], b);
      }
    }
  }

  /** After a refusal every further byte is refused, and changes nothing. */
  lemma RefusalIsSticky(ms: seq<Msg>, b: seq<Byte>)
    requires WellFormedAll(ms) && ms != [] && Refused(ms[|ms| - 1]) && b != []
    ensures Feed(ms, b) == (false, ms)
  {
    assert WithLast(ms, ms[|ms| - 1]) == ms;
  }

  lemma {:induction false} FailureIsRefusal(ms: seq<Msg>, bytes: seq<Byte>)
    requires WellFormedAll(ms) && !Feed(ms, bytes).0
    ensures var r := Feed(ms, bytes).1; r != [] && Refused(r[|r| - 1])
    decreases |bytes|
  {
    hide Absorb, Opened, WellFormedMsg, Complete;
    var o := Opened(ms);
    var m := Absorb(o[|o| - 1], bytes[0]);
    if !Refused(m) {
      FailureIsRefusal(WithLast(o, m), bytes[1..]);
    }
  }

  /** A block of header bytes that does not go past the header. */
  lemma {:induction false} FeedHeader(ms: seq<Msg>, bytes: seq<Byte>, chunk: seq<Byte>)
    requires WellFormedAll(ms) && ms != [] && ms[|ms| - 1] == Head(bytes) && 0 < |chunk| && |bytes| + |chunk| <= HEADER_SIZE
    ensures var all := bytes + chunk;
            Feed(ms, chunk) ==
            if |all| < HEADER_SIZE then (true, WithLast(ms, Head(all)))
            else if MessageSize(all) > MAX_SIZE then (false, WithLast(ms, Head(all)))
            else (true, WithLast(ms, Body(all, [])))
    decreases |chunk|
  {
    var m := Absorb(Head(bytes), chunk[0]);
    var next := WithLast(ms, m);
    assert bytes + chunk == (bytes + [chunk[0]]) + chunk[1..];
    assert Opened(ms) == ms;
    if |chunk| == 1 {
      assert chunk == [chunk[0]];
      assert Feed(next, []) == (true, next);
    } else {
      FeedHeader(next, bytes + [chunk[0]], chunk[1..]);
      assert forall x :: WithLast(next, x) == WithLast(ms, x);
    }
  }

  /** A block of data bytes that does not go past the message. */
  lemma {:induction false} FeedData(ms: seq<Msg>, header: seq<Byte>, data: seq<Byte>, chunk: seq<Byte>)
    requires WellFormedAll(ms) && ms != [] && ms[|ms| - 1] == Body(header, data)
    requires |header| == HEADER_SIZE && |data| + |chunk| <= MessageSize(header)
    ensures Feed(ms, chunk) == (true, WithLast(ms, Body(header, data + chunk)))
    decreases |chunk|
  {
    if chunk == [] {
      assert data + chunk == data && WithLast(ms, Body(header, data)) == ms;
    } else {
      var next := WithLast(ms, Body(header, data + [chunk[0]]));
      assert data + chunk == (data + [chunk[0]]) + chunk[1..];
      assert Opened(ms) == ms;
      FeedData(next, header, data + [chunk[0]], chunk[1..]);
      assert forall x :: WithLast(next, x) == WithLast(ms, x);
    }
  }

  /** Opening a message early changes nothing. */
  lemma FeedOpened(ms: seq<Msg>, bytes: seq<Byte>)
    requires WellFormedAll(ms) && bytes != []
    ensures Feed(Opened(ms), bytes) == Feed(ms, bytes)
  {
    assert Opened(Opened(ms)) == Opened(ms);
  }

  predicate AllComplete(ms: seq<Msg>) {
    WellFormedAll(ms) && forall i :: 0 <= i < |ms| ==> Complete(ms[i])
  }

  /** The bytes of a list of whole messages. */
  function Wire(ms: seq<Msg>): seq<Byte>
    requires AllComplete(ms)
  {
    if ms == [] then []
    else
      CompleteFront(ms);
      Wire(ms[..|ms| - 1]) + (ms[|ms| - 1].header + ms[|ms| - 1].data)
  }

  lemma CompleteFront(ms: seq<Msg>)
    requires AllComplete(ms) && ms != []
    ensures var front, m := ms[..|ms| - 1], ms[|ms| - 1];
            && AllComplete(front) && WellFormedAll(front) && (front != [] ==> Complete(front[|front| - 1]))
            && WellFormedMsg(m) && Complete(m) && m.Body?
  {
    assert Complete(ms[|ms| - 1]);
  }

  lemma FeedMessage(ms: seq<Msg>, m: Msg)
    requires WellFormedAll(ms) && (ms == [] || Complete(ms[|ms| - 1])) && WellFormedMsg(m) && Complete(m)
    ensures Feed(ms, m.header + m.data) == (true, ms + [m])
  {
    hide Feed, MessageSize, Absorb;
    var o := ms + [Head([])];
    assert Opened(ms) == o;
    FeedOpened(ms, m.header + m.data);
    FeedChunks(o, m.header, m.data);
    assert [] + m.header == m.header;
    FeedHeader(o, [], m.header);
    assert WithLast(o, Body(m.header, [])) == ms + [Body(m.header, [])];
    FeedData(ms + [Body(m.header, [])], m.header, [], m.data);
    assert [] + m.data == m.data;
    assert WithLast(ms + [Body(m.header, [])], m) == ms + [m];
  }

  /** A stream of messages is received as exactly those messages. */
  lemma {:induction false} StreamIsReceived(ms: seq<Msg>)
    requires AllComplete(ms)
    ensures Feed([], Wire(ms)) == (true, ms)
  {
    hide AllComplete, Feed, WellFormedMsg, Complete, MessageSize;
    if ms == [] {
      FeedEmpty();
    } else {
      var front, m := ms[..|ms| - 1], ms[|ms| - 1];
      CompleteFront(ms);
      StreamIsReceived(front);
      FeedChunks([], Wire(front), m.header + m.data);
      FeedMessage(front, m);
      assert front + [m] == ms;
    }
  }

  lemma FeedEmpty()
    ensures Feed([], []) == (true, [])
  {
  }

  // ------------------------------------------------------------------ what a sender sends

  /** The announced size is the little-endian number in bytes 16 to 19 of the header. */
  lemma SizeIsLittleEndian(header: seq<Byte>)
    requires |header| == HEADER_SIZE
    ensures MessageSize(header) == BigNum.VchValue(header[16..20])
  {
    FourBytesAre(header[16..20]);
  }

  lemma FourBytesAre(s: seq<Byte>)
    requires |s| == 4
    ensures BigNum.VchValue(s) == s[0] as int + 256 * (s[1] as int) + 65536 * (s[2] as int) + 16777216 * (s[3] as int)
  {
    var b, c, d: int := s[1], s[2], s[3];
    assert s[1..] == [s[1], s[2], s[3]] && s[1..][1..] == [s[2], s[3]] && s[1..][1..][1..] == [s[3]];
    assert BigNum.VchValue([s[3]]) == d;
    assert BigNum.VchValue([s[2], s[3]]) == c + 256 * d;
    assert BigNum.VchValue([s[1], s[2], s[3]]) == b + 256 * c + 65536 * d;
  }

  /** A number as four bytes, the lowest first. */
  function FourBytes(n: nat): (s: seq<Byte>)
    requires n < 0x1_0000_0000
    ensures |s| == 4
  {
    [n % 256, n / 256 % 256, n / 65536 % 256, n / 16777216]
  }

  lemma FourBytesValue(n: nat)
    requires n < 0x1_0000_0000
    ensures BigNum.VchValue(FourBytes(n)) == n
  {
    FourBytesAre(FourBytes(n));
    hide BigNum.VchValue;
    var m, k := n / 256, n / 65536;
    assert m / 256 == k && n / 16777216 == k / 256;
    assert n == 256 * m + n % 256 && m == 256 * k + m % 256 && k == 256 * (k / 256) + k % 256;
  }

  /** A message to be sent: four start bytes, twelve of the command, the checksum, and data of any size up to the limit. */
  datatype Packet = Packet(start: seq<Byte>, command: seq<Byte>, checksum: seq<Byte>, data: seq<Byte>) {
    predicate Valid() {
      |start| == 4 && |command| == 12 && |checksum| == 4 && |data| <= MAX_SIZE
    }

    function Header(): (h: seq<Byte>)
      requires Valid()
      ensures |h| == HEADER_SIZE
    {
      start + command + FourBytes(|data|) + checksum
    }

    /** What the receiver has once it is complete. */
    function Message(): Msg
      requires Valid()
    {
      Body(Header(), data)
    }

    lemma IsComplete()
      requires Valid()
      ensures WellFormedMsg(Message()) && Complete(Message())
    {
      SizeIsLittleEndian(Header());
      assert Header()[16..20] == FourBytes(|data|);
      FourBytesValue(|data|);
      hide MessageSize;
    }
  }

  /** The bytes of the packets, one after another. */
  function Sent(ps: seq<Packet>): seq<Byte>
    requires forall i :: 0 <= i < |ps| ==> ps[i].Valid()
  {
    if ps == [] then [] else Sent(ps[..|ps| - 1]) + (ps[|ps| - 1].Header() + ps[|ps| - 1].data)
  }

  function Arrived(ps: seq<Packet>): (ms: seq<Msg>)
    requires forall i :: 0 <= i < |ps| ==> ps[i].Valid()
    ensures |ms| == |ps| && forall i :: 0 <= i < |ps| ==> ms[i] == ps[i].Message()
  {
    hide Packet.Valid, Packet.Message;
    if ps == [] then [] else Arrived(ps[..|ps| - 1]) + [ps[|ps| - 1].Message()]
  }

  /** What is sent arrives, whatever the data: as many messages, with the same headers and data. */
  lemma {:induction false} SentArrives(ps: seq<Packet>)
    requires forall i :: 0 <= i < |ps| ==> ps[i].Valid()
    ensures WellFormedAll(Arrived(ps)) && Feed([], Sent(ps)) == (true, Arrived(ps))
    ensures ps != [] ==> Complete(Arrived(ps)[|ps| - 1])
  {
    hide Feed, WellFormedMsg, Complete, MessageSize, Packet.Header, Packet.Valid;
    if ps == [] {
      FeedEmpty();
    } else {
      var n := |ps| - 1;
      SentArrives(ps[..n]);
      ps[n].IsComplete();
      LastSent(ps);
      hide Arrived, Sent;
      FeedChunks([], Sent(ps[..n]), ps[n].Header() + ps[n].data);
      FeedMessage(Arrived(ps[..n]), ps[n].Message());
    }
  }

  lemma LastSent(ps: seq<Packet>)
    requires ps != [] && forall i :: 0 <= i < |ps| ==> ps[i].Valid()
    ensures Sent(ps) == Sent(ps[..|ps| - 1]) + (ps[|ps| - 1].Header() + ps[|ps| - 1].data)
    ensures Arrived(ps) == Arrived(ps[..|ps| - 1]) + [ps[|ps| - 1].Message()]
  {
    hide Packet.Header, Packet.Valid, Packet.Message;
  }

  lemma HeaderIsRefused(ms: seq<Msg>, header: seq<Byte>)
    requires WellFormedAll(ms) && (ms == [] || Complete(ms[|ms| - 1])) && |header| == HEADER_SIZE && MessageSize(header) > MAX_SIZE
    ensures Feed(ms, header) == (false, ms + [Head(header)])
  {
    hide Feed, MessageSize, Absorb;
    var o := ms + [Head([])];
    assert Opened(ms) == o;
    FeedOpened(ms, header);
    assert [] + header == header;
    FeedHeader(o, [], header);
    assert WithLast(o, Head(header)) == ms + [Head(header)];
  }

  /** A header that announces more than the limit is refused, and nothing after it is read. */
  lemma TooMuchIsRefused(ps: seq<Packet>, header: seq<Byte>, rest: seq<Byte>)
    requires (forall i :: 0 <= i < |ps| ==> ps[i].Valid()) && |header| == HEADER_SIZE && BigNum.VchValue(header[16..20]) > MAX_SIZE
    ensures Feed([], Sent(ps) + (header + rest)) == (false, Arrived(ps) + [Head(header)])
  {
    SizeIsLittleEndian(header);
    SentArrives(ps);
    hide *;
    HeaderIsRefused(Arrived(ps), header);
    NothingYet();
    FeedChunks(Arrived(ps), header, rest);
    FeedChunks([], Sent(ps), header + rest);
  }

  lemma NothingYet()
    ensures WellFormedAll([])
  {
  }
}
