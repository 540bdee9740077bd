/** CNetMessage and the receiving side of CNode, with their fields updated in place (src/net.h, src/net.cpp). */
module NetNode {
  import opened Wrappers
  import opened Transactions
  import opened Framing

  const LOOKAHEAD: nat := 512 * 1024

  /** resize: cut off or fill up with zeros. */
  function Resized(v: seq<Byte>, n: nat): (r: seq<Byte>)
    ensures |r| == n && forall i :: 0 <= i < n && i < |v| ==> r[i] == v[i]
  {
    if |v| >= n then v[..n] else v + seq(n - |v|, _ => 0)
  }

  class CNetMessage {
    var in_data: bool
    var hdrbuf: seq<Byte>
    var hdr: seq<Byte>
    var nHdrPos: nat
    var vRecv: seq<Byte>
    var nDataPos: nat

    predicate Valid()
      reads this
    {
      if in_data then
        && |hdr| == HEADER_SIZE && MessageSize(hdr) <= MAX_SIZE
        && nDataPos <= |vRecv| <= MessageSize(hdr)
      else if nHdrPos < HEADER_SIZE then
        |hdrbuf| == HEADER_SIZE && vRecv == [] && nDataPos == 0
      else
        nHdrPos == HEADER_SIZE && hdrbuf == [] && |hdr| == HEADER_SIZE && MessageSize(hdr) > MAX_SIZE
    }

    /** The message received so far, without the slack of the buffers. */
    function State(): (m: Msg)
      requires Valid()
      reads this
      ensures WellFormedMsg(m)
    {
      if in_data then Body(hdr, vRecv[..nDataPos])
      else if nHdrPos < HEADER_SIZE then Head(hdrbuf[..nHdrPos])
      else Head(hdr)
    }

    constructor ()
      ensures Valid() && State() == Head([])
    {
      in_data, nHdrPos, nDataPos := false, 0, 0;
      hdrbuf, hdr, vRecv := seq(HEADER_SIZE, _ => 0), [], [];
    }

    /** A complete message has exactly its data in the buffer. */
    predicate IsComplete()
      requires Valid()
      reads this
      ensures IsComplete() <==> Complete(State())
      ensures IsComplete() ==> |vRecv| == MessageSize(hdr) && State() == Body(hdr, vRecv)
    {
      assert nDataPos == |vRecv| ==> vRecv[..nDataPos] == vRecv;
      in_data && MessageSize(hdr) == nDataPos
    }

    /** readHeader; -1 is a refusal. */
    method ReadHeader(pch: seq<Byte>) returns (handled: int)
      requires Valid() && !in_data && pch != []
      modifies this
      ensures Valid()
      ensures old(nHdrPos) == HEADER_SIZE ==> handled == -1 && State() == old(State())
      ensures old(nHdrPos) < HEADER_SIZE ==>
                var n := Min(HEADER_SIZE - old(nHdrPos), |pch|);
                var all := old(State()).bytes + pch[..n];
                && n > 0
                && handled == (if |all| == HEADER_SIZE && MessageSize(all) > MAX_SIZE then -1 else n)
                && State() == if |all| < HEADER_SIZE || MessageSize(all) > MAX_SIZE then Head(all) else Body(all, [])
    {
      var nRemaining := HEADER_SIZE - nHdrPos;
      var nCopy := Min(nRemaining, |pch|);
      if nCopy > 0 {
        hdrbuf := hdrbuf[..nHdrPos] + pch[..nCopy] + hdrbuf[nHdrPos + nCopy..];
        assert hdrbuf[..nHdrPos + nCopy] == old(hdrbuf)[..nHdrPos] + pch[..nCopy];
      }
      nHdrPos := nHdrPos + nCopy;
      if nHdrPos < HEADER_SIZE {
        return nCopy;
      }
      if |hdrbuf| < HEADER_SIZE {
        return -1;
      }
      assert hdrbuf[..HEADER_SIZE] == hdrbuf;
      hdr := hdrbuf;
      hdrbuf := [];
      if MessageSize(hdr) > MAX_SIZE {
        return -1;
      }
      in_data := true;
      assert vRecv[..0] == [];
      return nCopy;
    }

    method ReadData(pch: seq<Byte>) returns (handled: int)
      requires Valid() && in_data && pch != []
      modifies this
      ensures Valid() && in_data && hdr == old(hdr)
      ensures var n := Min(MessageSize(hdr) - old(nDataPos), |pch|);
              handled == n && State() == Body(hdr, old(State()).data + pch[..n])
    {
      var nRemaining := MessageSize(hdr) - nDataPos;
      var nCopy := Min(nRemaining, |pch|);
      if |vRecv| < nDataPos + nCopy {
        vRecv := Resized(vRecv, Min(MessageSize(hdr), nDataPos + nCopy + LOOKAHEAD));
      }
      assert vRecv[..nDataPos] == old(vRecv)[..nDataPos];
      vRecv := vRecv[..nDataPos] + pch[..nCopy] + vRecv[nDataPos + nCopy..];
      nDataPos := nDataPos + nCopy;
      assert vRecv[..nDataPos] == old(vRecv)[..old(nDataPos)] + pch[..nCopy];
      return nCopy;
    }
  }

  predicate AllValid(v: seq<CNetMessage>)
    reads v
  {
    forall i :: 0 <= i < |v| ==> v[i].Valid()
  }

  function States(v: seq<CNetMessage>): (ms: seq<Msg>)
    requires AllValid(v)
    reads v
    ensures |ms| == |v| && forall i :: 0 <= i < |v| ==> ms[i] == v[i].State()
    ensures WellFormedAll(ms)
  {
    if v == [] then [] else States(v[..|v| - 1]) + [v[|v| - 1].State()]
  }

  class CNode {
    var vRecvMsg: seq<CNetMessage>

    predicate Valid()
      reads this, vRecvMsg
    {
      AllValid(vRecvMsg) && forall i, j :: 0 <= i < j < |vRecvMsg| ==> vRecvMsg[i] != vRecvMsg[j]
    }

    function Messages(): seq<Msg>
      requires Valid()
      reads this, vRecvMsg
    {
      States(vRecvMsg)
    }

    constructor ()
      ensures Valid() && Messages() == []
    {
      vRecvMsg := [];
    }

    /** ReceiveMsgBytes takes in whole blocks what Feed takes byte by byte. */
    method ReceiveMsgBytes(pch: seq<Byte>) returns (ok: bool)
      requires Valid()
      modifies this, vRecvMsg
      ensures Valid() && (ok, Messages()) == Feed(old(Messages()), pch)
      ensures fresh(set m | m in vRecvMsg && m !in old(vRecvMsg))
    {
      hide Feed, States, AllValid, Opened, WellFormedAll, Complete, CNetMessage.Valid, CNetMessage.IsComplete, MessageSize;
      var rest := pch;
      ghost var ms := Messages();
      FeedNothing(ms);
      while rest != []
        invariant Valid() && Feed(Messages(), rest) == Feed(ms, pch)
        invariant fresh(set m | m in vRecvMsg && m !in old(vRecvMsg))
        decreases |rest|
      {
        FeedOpened(Messages(), rest);
        OpenMessage();
        var handled := ReadInto(rest);
        if handled < 0 {
          return false;
        }
        rest := rest[handled..];
      }
      FeedNothing(Messages());
      return true;
    }

    /** Afterwards the last message is one that still lacks bytes. */
    method OpenMessage()
      requires Valid()
      modifies this
      ensures Valid() && Messages() == Opened(old(Messages()))
      ensures vRecvMsg != [] && vRecvMsg[|vRecvMsg| - 1].Valid() && !vRecvMsg[|vRecvMsg| - 1].IsComplete()
      ensures fresh(set m | m in vRecvMsg && m !in old(vRecvMsg))
    {
      hide MessageSize, WellFormedMsg, Complete;
      ghost var before := Messages();
      if vRecvMsg == [] || vRecvMsg[|vRecvMsg| - 1].IsComplete() {
        var msg := new CNetMessage();
        ghost var others := vRecvMsg;
        vRecvMsg := vRecvMsg + [msg];
        assert vRecvMsg[..|others|] == others && States(others) == before;
      }
    }

    /** What is left of the block goes on into the last message: at least one byte is taken, or the message refused. */
    method ReadInto(rest: seq<Byte>) returns (handled: int)
      requires Valid() && vRecvMsg != [] && !vRecvMsg[|vRecvMsg| - 1].IsComplete() && rest != []
      modifies vRecvMsg[|vRecvMsg| - 1]
      ensures Valid()
      ensures handled < 0 ==> Feed(old(Messages()), rest) == (false, Messages())
      ensures handled >= 0 ==> 0 < handled <= |rest| && Feed(old(Messages()), rest) == Feed(Messages(), rest[handled..])
    {
      hide Feed, MessageSize, WellFormedMsg, WellFormedAll, Complete, States;
      var msg := vRecvMsg[|vRecvMsg| - 1];
      ghost var others := vRecvMsg[..|vRecvMsg| - 1];
      ghost var ms, was, before := Messages(), msg.State(), States(others);
      StatesLast(vRecvMsg);
      if !msg.in_data {
        handled := msg.ReadHeader(rest);
        HeaderRead(ms, was, rest, handled, msg.State());
      } else {
        handled := msg.ReadData(rest);
        DataRead(ms, was, rest, handled, msg.State());
      }
      assert States(others) == before;
      StatesLast(vRecvMsg);
    }
  }

  lemma StatesLast(v: seq<CNetMessage>)
    requires AllValid(v) && v != []
    ensures AllValid(v[..|v| - 1]) && States(v) == States(v[..|v| - 1]) + [v[|v| - 1].State()]
  {
  }

  lemma DataRead(ms: seq<Msg>, was: Msg, rest: seq<Byte>, handled: int, now: Msg)
    requires WellFormedAll(ms) && ms != [] && ms[|ms| - 1] == was && was.Body? && rest != []
    requires |was.header| == HEADER_SIZE && |was.data| < MessageSize(was.header)
    requires handled == Min(MessageSize(was.header) - |was.data|, |rest|) && now == Body(was.header, was.data + rest[..handled])
    ensures WellFormedAll(WithLast(ms, now)) && 0 < handled <= |rest| && Feed(ms, rest) == Feed(WithLast(ms, now), rest[handled..])
  {
    hide Feed, MessageSize, WellFormedMsg, WellFormedAll, WithLast;
    FeedData(ms, was.header, was.data, rest[..handled]);
    FeedChunks(ms, rest[..handled], rest[handled..]);
    assert rest[..handled] + rest[handled..] == rest;
  }

  lemma FeedNothing(ms: seq<Msg>)
    requires WellFormedAll(ms)
    ensures Feed(ms, []) == (true, ms)
  {
  }

  lemma HeaderRead(ms: seq<Msg>, was: Msg, rest: seq<Byte>, handled: int, now: Msg)
    requires WellFormedAll(ms) && ms != [] && ms[|ms| - 1] == was && was.Head? && rest != []
    requires Refused(was) ==> handled == -1 && now == was
    requires !Refused(was) ==>
               var n := Min(HEADER_SIZE - |was.bytes|, |rest|);
               var all := was.bytes + rest[..n];
               && handled == (if |all| == HEADER_SIZE && MessageSize(all) > MAX_SIZE then -1 else n)
               && now == if |all| < HEADER_SIZE || MessageSize(all) > MAX_SIZE then Head(all) else Body(all, [])
    ensures handled < 0 ==> Feed(ms, rest) == (false, WithLast(ms, now))
    ensures handled >= 0 ==> WellFormedAll(WithLast(ms, now)) && 0 < handled <= |rest| && Feed(ms, rest) == Feed(WithLast(ms, now), rest[handled..])
  {
    assert |was.bytes| <= HEADER_SIZE;
    hide Feed, MessageSize, WellFormedMsg, WellFormedAll;
    if Refused(was) {
      RefusalIsSticky(ms, rest);
      assert WithLast(ms, was) == ms;
    } else {
      HeaderTaken(ms, was.bytes, rest, Min(HEADER_SIZE - |was.bytes|, |rest|));
    }
  }

  lemma HeaderTaken(ms: seq<Msg>, bytes: seq<Byte>, rest: seq<Byte>, n: nat)
    requires WellFormedAll(ms) && ms != [] && ms[|ms| - 1] == Head(bytes) && 0 < n <= |rest| && |bytes| + n <= HEADER_SIZE
    ensures var all := bytes + rest[..n];
            if |all| == HEADER_SIZE && MessageSize(all) > MAX_SIZE then Feed(ms, rest) == (false, WithLast(ms, Head(all)))
            else
              var now := WithLast(ms, if |all| < HEADER_SIZE then Head(all) else Body(all, []));
              WellFormedAll(now) && Feed(ms, rest) == Feed(now, rest[n..])
  {
    hide Feed, MessageSize, WellFormedMsg, WellFormedAll, WithLast;
    FeedHeader(ms, bytes, rest[..n]);
    FeedChunks(ms, rest[..n], rest[n..]);
    assert rest[..n] + rest[n..] == rest;
  }
}
