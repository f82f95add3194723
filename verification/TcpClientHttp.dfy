/** `ParseHttpHeaders` and `TcpClient::SplitHttpPacket` of Netlib/TcpClientHttp.cpp over the receive buffer.

    The buffer has one byte more than a packet may have, and that byte is zero, so that searches in it end.
    What the pool hands out is not cleared, so the bytes behind the received ones are arbitrary.  Whether a
    buffer can be had, and what the callback answers, is not determined here. */
module TcpClientHttp {

  import opened Chars
  import opened Http

  const OK: int := 0
  const NSE_RECV_QUEUE_FULL: int := 1
  const NSE_ILLEGAL_RECV_PACKET: int := 2
  const NSE_BE_CLOSED: int := 3

  /** `ParseHttpHeaders`. */
  method ParseHttpHeaders(data: array<char>) returns (ok: bool, hs: seq<Header>, headerSize: nat)
    ensures ok <==> BlockEnd(data[..]) >= 0
    ensures ok ==> headerSize == BlockEnd(data[..]) + 4 && hs == HeadersOf(data[..])
  {
    hide StrStr, HeaderLines, LineHeader, At;
    var d := data[..];
    var end := StrStr(d, 0, BLOCK_END);
    if end < 0 {
      return false, [], 0;
    }
    headerSize := end + 4;
    var p := SecondLine(d);
    hs := [];
    while p < end
      invariant 0 <= p <= |d| && hs + HeaderLines(d, p, end) == HeadersOf(d)
      decreases |d| - p
    {
      LinesStep(hs, d, p, end);
      var lineEnd := StrStr(d, p, LINE_END);
      if lineEnd < 0 {
        break;
      }
      var h := ParseLine(data, p, lineEnd);
      hs := hs + h;
      p := lineEnd + 2;
    }
    LinesDone(d, p, end);
    return true, hs, headerSize;
  }

  /** The part of `ParseHttpHeaders` for one line. */
  method ParseLine(data: array<char>, p: nat, lineEnd: nat) returns (h: seq<Header>)
    requires p <= lineEnd <= data.Length
    ensures h == LineHeader(data[..], p, lineEnd)
  {
    h := [];
    var colon := MemChr(data[..], p, lineEnd, ':');
    if colon >= 0 {
      var v := colon + 1;
      while v < lineEnd && data[v] == ' '
        invariant colon < v <= lineEnd && SkipBlanks(data[..], v, lineEnd) == SkipBlanks(data[..], colon + 1, lineEnd)
      {
        v := v + 1;
      }
      h := [Header(p, colon - p, v, lineEnd - v)];
    }
  }

  lemma LinesStep(hs: seq<Header>, d: string, p: nat, e: nat)
    requires p < e && p <= |d|
    ensures var n := StrStr(d, p, LINE_END);
            n >= 0 ==> n + 2 <= |d| && hs + HeaderLines(d, p, e) == (hs + LineHeader(d, p, n)) + HeaderLines(d, n + 2, e)
  {
    hide StrStr, LineHeader;
  }

  lemma LinesDone(d: string, p: nat, e: nat)
    requires p <= |d| && (p >= e || StrStr(d, p, LINE_END) < 0)
    ensures HeaderLines(d, p, e) == []
  {
  }

  /** `GetContentLength`. */
  method GetContentLength(data: array<char>, hs: seq<Header>) returns (n: int)
    requires forall h :: h in hs ==> h.value <= data.Length
    ensures n == ContentLength(data[..], hs)
  {
    var i := 0;
    while i < |hs|
      invariant 0 <= i <= |hs| && forall j :: 0 <= j < i ==> !KeyEqual(data[..], hs[j], "Content-Length")
    {
      if KeyEqual(data[..], hs[i], "Content-Length") {
        assert FirstWith(data[..], hs, "Content-Length") == i;
        return Atoi(data[..], hs[i].value);
      }
      i := i + 1;
    }
    return 0;
  }

  /** `IsConnectionClose`. */
  method IsConnectionClose(data: array<char>, hs: seq<Header>) returns (close: bool)
    ensures close == ConnectionClose(data[..], hs)
  {
    var i := 0;
    while i < |hs|
      invariant 0 <= i <= |hs| && forall j :: 0 <= j < i ==> !Closing(data[..], hs[j])
    {
      if KeyEqual(data[..], hs[i], "Connection") {
        if SameText(data[..], hs[i].value, "close") {
          assert Closing(data[..], hs[i]);
          return true;
        }
      }
      i := i + 1;
    }
    return false;
  }

  function Min(a: int, b: int): int {
    if a < b then a else b
  }

  class TcpClient {
    const mMaxPacketSize: nat
    var mRecvPacketBuffer: array?<char>
    var mRecvBytes: nat
    var mCloseAfterSend: bool
    /** The packets that have been handed to the callback. */
    ghost var delivered: seq<string>

    ghost predicate Valid()
      reads this, mRecvPacketBuffer
    {
      && 0 < mMaxPacketSize < 0x7fff_ffff
      && (mRecvPacketBuffer != null ==> IsBuffer(mRecvPacketBuffer) && mRecvBytes <= mMaxPacketSize)
    }

    ghost predicate IsBuffer(b: array<char>)
      reads this, b
    {
      b.Length == mMaxPacketSize + 1 && b[mMaxPacketSize] == NUL
    }

    /** The bytes that have been received and not yet been handed over. */
    ghost function Received(): string
      requires Valid()
      reads this, mRecvPacketBuffer
    {
      if mRecvPacketBuffer == null then "" else mRecvPacketBuffer[..mRecvBytes]
    }

    /** The stream, as far as a caller of `SplitHttpPacket` can see it. */
    ghost function View(): Receiver
      requires Valid()
      reads this, mRecvPacketBuffer
    {
      Receiver(delivered, Received())
    }

    constructor (maxPacketSize: nat)
      requires 0 < maxPacketSize < 0x7fff_ffff
      ensures Valid() && View() == Receiver([], "") && mMaxPacketSize == maxPacketSize && mRecvPacketBuffer == null && !mCloseAfterSend
    {
      mMaxPacketSize := maxPacketSize;
      mRecvPacketBuffer := null;
      mRecvBytes := 0;
      mCloseAfterSend := false;
      delivered := [];
    }

    /** `AllocRecvPacket` of the service: a buffer with arbitrary content, or none. */
    method AllocRecvPacket() returns (b: array?<char>)
      requires Valid()
      ensures b != null ==> fresh(b) && IsBuffer(b)
    {
      if * {
        b := null;
      } else {
        b := new char[mMaxPacketSize + 1];
        b[mMaxPacketSize] := NUL;
      }
    }

    /** `OnReceived` of the callback. */
    method OnReceived(packetSize: nat) returns (ret: int)
      requires Valid() && mRecvPacketBuffer != null && packetSize <= mRecvBytes
      modifies this`delivered
      ensures delivered == old(delivered) + [Received()[..packetSize]]
    {
      delivered := delivered + [Received()[..packetSize]];
      ret := *;
    }

    /** The stream once what is still to come has been received, when no call reports an error. */
    ghost function Outlook(more: string): Receiver
      requires Valid()
      reads this, mRecvPacketBuffer
    {
      Take(View(), more, mMaxPacketSize)
    }

    /** The flag tells whether the last of the packets delivered since asked for the connection to be closed. */
    ghost predicate CloseFlag(flag: bool, before: nat)
      reads this
    {
      mCloseAfterSend == if |delivered| > before then Closes(delivered[|delivered| - 1]) else flag
    }

    /** No whole packet is left in the buffer. */
    ghost predicate Settled()
      requires Valid()
      reads this, mRecvPacketBuffer
    {
      First(Received(), mMaxPacketSize) == Wait
    }

    /** What the code makes of the buffer, the bytes behind the received ones included. */
    ghost function Decision(): Frame
      requires Valid() && mRecvPacketBuffer != null
      reads this, mRecvPacketBuffer
    {
      Decide(mRecvPacketBuffer[..], mRecvBytes, mMaxPacketSize)
    }

    /** Everything that has been received, delivered or not. */
    ghost function Stream(): string
      requires Valid()
      reads this, mRecvPacketBuffer
    {
      Concat(delivered) + Received()
    }

    /** `SplitHttpPacket`.  Whatever arrives, what has been delivered and what is kept make up the stream; no packet
        that the code finds is left in the buffer.  When every frame of the stream gives its length and no error is
        reported, the frames have been delivered and what follows them is kept, whatever the buffer held behind the
        received bytes; when an error is reported, what has been delivered are still the first of those frames. */
    method SplitHttpPacket(pData: string) returns (ret: int)
      requires Valid()
      modifies this, mRecvPacketBuffer
      ensures Valid() && old(delivered) <= delivered && ret in {OK, NSE_RECV_QUEUE_FULL, NSE_ILLEGAL_RECV_PACKET, NSE_BE_CLOSED}
      ensures ret == OK ==> Stream() == old(Stream()) + pData && CloseFlag(old(mCloseAfterSend), |old(delivered)|)
      ensures ret == OK && pData != "" ==> mRecvPacketBuffer != null && Decision() == Wait
      ensures ret != NSE_BE_CLOSED ==> Stream() <= old(Stream()) + pData
      ensures ret == NSE_BE_CLOSED ==> old(delivered) < delivered
      ensures ret == NSE_RECV_QUEUE_FULL ==> pData != "" && old(mRecvPacketBuffer) == null && View() == old(View())
      ensures ret == NSE_ILLEGAL_RECV_PACKET ==> mRecvPacketBuffer != null && (Decision() == Illegal || mRecvBytes == mMaxPacketSize)
      ensures old(Promised(pData)) ==>
                && delivered <= old(Outlook(pData)).delivered
                && (ret == OK ==> View() == old(Outlook(pData)) && Settled())
                && (ret == NSE_ILLEGAL_RECV_PACKET ==> Refused())
    {
      hide First, Sound, Packets, Rest, StaleIllegal, Closes, BlockEnd, Take, Decide, Concat;
      ghost var sound := Promised(pData);
      var pTemp := 0;
      assert pData[0..] == pData && Stream() + pData[0..] == Stream() + pData;
      TakeGrows(View(), pData, mMaxPacketSize);
      while pTemp < |pData|
        invariant 0 <= pTemp <= |pData| && Valid() && old(delivered) <= delivered && Stream() + pData[pTemp..] == old(Stream()) + pData
        invariant sound ==> Promised(pData[pTemp..]) && Outlook(pData[pTemp..]) == old(Outlook(pData))
        invariant CloseFlag(old(mCloseAfterSend), |old(delivered)|)
        invariant mRecvPacketBuffer != null && mRecvPacketBuffer != old(mRecvPacketBuffer) ==> fresh(mRecvPacketBuffer)
        invariant mRecvPacketBuffer == null ==> old(mRecvPacketBuffer) == null && View() == old(View())
        invariant pTemp > 0 ==> mRecvPacketBuffer != null && Decision() == Wait
      {
        TakeGrows(View(), pData[pTemp..], mMaxPacketSize);
        Prefix(Stream(), pData[pTemp..]);
        ret, pTemp := Collect(pData, pTemp);
        if ret != OK {
          return;
        }
      }
      if sound { TakeNone(View(), mMaxPacketSize); }
      assert Stream() + pData[pTemp..] == Stream();
      return OK;
    }

    /** No whole packet is left, and every frame of what is there and still to come gives its length. */
    ghost predicate Promised(more: string)
      requires Valid()
      reads this, mRecvPacketBuffer
    {
      Settled() && Sound(Received() + more, mMaxPacketSize)
    }

    /** One turn of the loop of `SplitHttpPacket`: as many bytes as fit are copied, and every packet is taken. */
    method Collect(pData: string, pTemp: nat) returns (ret: int, next: nat)
      requires Valid() && pTemp < |pData|
      modifies this, mRecvPacketBuffer
      ensures Valid() && old(delivered) <= delivered && ret in {OK, NSE_RECV_QUEUE_FULL, NSE_ILLEGAL_RECV_PACKET, NSE_BE_CLOSED}
      ensures pTemp <= next <= |pData| && (ret == OK ==> pTemp < next)
      ensures ret != NSE_BE_CLOSED ==> Stream() + pData[next..] == old(Stream()) + pData[pTemp..]
      ensures ret == NSE_BE_CLOSED ==> old(delivered) < delivered
      ensures ret == NSE_RECV_QUEUE_FULL ==> old(mRecvPacketBuffer) == null && View() == old(View())
      ensures ret != NSE_RECV_QUEUE_FULL ==> mRecvPacketBuffer != null && (mRecvPacketBuffer == old(mRecvPacketBuffer) || fresh(mRecvPacketBuffer))
      ensures ret == OK ==> CloseFlag(old(mCloseAfterSend), |old(delivered)|) && Decision() == Wait
      ensures ret == NSE_ILLEGAL_RECV_PACKET ==> Decision() == Illegal || mRecvBytes == mMaxPacketSize
      ensures old(Promised(pData[pTemp..])) ==>
                && delivered <= old(Outlook(pData[pTemp..])).delivered
                && (ret == OK ==> Promised(pData[next..]) && Outlook(pData[next..]) == old(Outlook(pData[pTemp..])))
                && (ret == NSE_ILLEGAL_RECV_PACKET ==> Refused())
    {
      hide First, Sound, Packets, Rest, StaleIllegal, Closes, BlockEnd, Take, Decide, Concat;
      ghost var sound := Promised(pData[pTemp..]);
      TakeGrows(View(), pData[pTemp..], mMaxPacketSize);
      next := pTemp;
      var ok := HaveBuffer();
      if !ok {
        return NSE_RECV_QUEUE_FULL, next;
      }
      var copySize := Min(|pData| - pTemp, mMaxPacketSize - mRecvBytes);
      if copySize <= 0 {
        if sound { FullNoBlock(Received(), mMaxPacketSize); }
        return NSE_ILLEGAL_RECV_PACKET, next;
      }
      ghost var v := Received();
      CopyIn(pData, pTemp, copySize);
      TakeSame(delivered, Received(), pData[pTemp + copySize..], v, pData[pTemp..], mMaxPacketSize);
      Shifted(Concat(delivered), Received(), pData[pTemp + copySize..], v, pData[pTemp..]);
      next := pTemp + copySize;
      ret := TakePackets(pData[next..]);
    }

    /** Why a packet is refused: the front of the stream is not legal, or stale bytes complete an illegal block
        with it, or the buffer is full and no header block has ended. */
    ghost predicate Refused()
      requires Valid() && mRecvPacketBuffer != null
      reads this, mRecvPacketBuffer
    {
      || First(Received(), mMaxPacketSize) == Illegal
      || StaleIllegal(mRecvPacketBuffer[..], mRecvBytes, mMaxPacketSize)
      || (mRecvBytes == mMaxPacketSize && BlockEnd(Received()) < 0)
    }

    /** The part of `SplitHttpPacket` that sees to it that there is a buffer. */
    method HaveBuffer() returns (ok: bool)
      requires Valid()
      modifies this`mRecvPacketBuffer, this`mRecvBytes
      ensures Valid() && View() == old(View()) && ok == (mRecvPacketBuffer != null)
      ensures old(mRecvPacketBuffer) != null ==> mRecvPacketBuffer == old(mRecvPacketBuffer) && mRecvBytes == old(mRecvBytes)
      ensures mRecvPacketBuffer != null && mRecvPacketBuffer != old(mRecvPacketBuffer) ==> fresh(mRecvPacketBuffer)
    {
      ok := true;
      if mRecvPacketBuffer == null {
        var b := AllocRecvPacket();
        if b == null {
          return false;
        }
        mRecvPacketBuffer := b;
        mRecvBytes := 0;
        assert Received() == "";
      }
    }

    /** `memcpy` to the end of the received bytes. */
    method CopyIn(pData: string, pTemp: nat, copySize: nat)
      requires Valid() && mRecvPacketBuffer != null && pTemp + copySize <= |pData| && mRecvBytes + copySize <= mMaxPacketSize
      modifies this`mRecvBytes, mRecvPacketBuffer
      ensures Valid() && Received() + pData[pTemp + copySize..] == old(Received()) + pData[pTemp..]
    {
      ghost var v := Received();
      forall i | 0 <= i < copySize { mRecvPacketBuffer[mRecvBytes + i] := pData[pTemp + i]; }
      mRecvBytes := mRecvBytes + copySize;
      assert Received() == v + pData[pTemp..pTemp + copySize];
    }

    /** The inner loop of `SplitHttpPacket`: every whole packet is taken out of the buffer.  `more` is what the
        stream holds behind the received bytes. */
    method TakePackets(ghost more: string) returns (ret: int)
      requires Valid() && mRecvPacketBuffer != null
      modifies this`mRecvBytes, this`mCloseAfterSend, this`delivered, mRecvPacketBuffer
      ensures Valid() && old(delivered) <= delivered && ret in {OK, NSE_ILLEGAL_RECV_PACKET, NSE_BE_CLOSED}
      ensures ret == OK ==> CloseFlag(old(mCloseAfterSend), |old(delivered)|) && Decision() == Wait
      ensures ret != NSE_BE_CLOSED ==> Stream() == old(Stream())
      ensures ret == NSE_BE_CLOSED ==> old(delivered) < delivered
      ensures ret == NSE_ILLEGAL_RECV_PACKET ==> Decision() == Illegal
      ensures old(Sound(Received() + more, mMaxPacketSize)) ==>
                && delivered <= old(Outlook(more)).delivered
                && (ret == OK ==> Outlook(more) == old(Outlook(more)) && First(Received(), mMaxPacketSize) == Wait && Sound(Received() + more, mMaxPacketSize))
                && (ret == NSE_ILLEGAL_RECV_PACKET ==> First(Received(), mMaxPacketSize) == Illegal ||
                                                       StaleIllegal(mRecvPacketBuffer[..], mRecvBytes, mMaxPacketSize))
    {
      hide First, Sound, Packets, Rest, StaleIllegal, Closes, Decide, Concat, Take;
      ghost var sound := Sound(Received() + more, mMaxPacketSize);
      TakeGrows(View(), more, mMaxPacketSize);
      var again := true;
      ret := OK;
      while again
        invariant Valid() && mRecvPacketBuffer != null && old(delivered) <= delivered && Stream() == old(Stream())
        invariant sound ==> Sound(Received() + more, mMaxPacketSize) && Outlook(more) == old(Outlook(more))
        invariant sound ==> delivered <= old(Outlook(more)).delivered
        invariant CloseFlag(old(mCloseAfterSend), |old(delivered)|)
        invariant ret == OK && (!again ==> Decision() == Wait && (sound ==> First(Received(), mMaxPacketSize) == Wait))
        decreases again, mRecvBytes
      {
        ghost var v, ds, d := Received(), delivered, mRecvPacketBuffer[..];
        if sound { Decided(d, mRecvBytes, v, more, mMaxPacketSize); }
        if Decision().Packet? { OneOut(ds, v, Decision().size); }
        if sound && Decision().Packet? {
          PacketTaken(ds, v, more, mMaxPacketSize);
        }
        ret, again := TakePacket();
        if ret != OK {
          return;
        }
      }
    }

    /** One turn of that loop; `again` tells whether a packet has been taken. */
    method TakePacket() returns (ret: int, again: bool)
      requires Valid() && mRecvPacketBuffer != null
      modifies this`mRecvBytes, this`mCloseAfterSend, this`delivered, mRecvPacketBuffer
      ensures Valid() && ret in {OK, NSE_ILLEGAL_RECV_PACKET, NSE_BE_CLOSED}
      ensures again || ret == NSE_BE_CLOSED ==> var n := old(Decision());
                                                n.Packet? && n.size <= |old(Received())| && delivered == old(delivered) + [old(Received())[..n.size]]
      ensures again ==> var n := old(Decision()).size;
                        ret == OK && Received() == old(Received())[n..] && |Received()| < |old(Received())| && mCloseAfterSend == Closes(old(Received())[..n])
      ensures !again ==> mRecvPacketBuffer[..] == old(mRecvPacketBuffer[..]) && mRecvBytes == old(mRecvBytes) && mCloseAfterSend == old(mCloseAfterSend)
      ensures !again && ret != NSE_BE_CLOSED ==> delivered == old(delivered) && Decision() == if ret == OK then Wait else Illegal
    {
      hide Decide, HeadersOf, ConnectionClose, Closes, BlockEnd;
      ghost var d, v := mRecvPacketBuffer[..], Received();
      var f, hs := FindPacket();
      match f
      case Wait => return OK, false;
      case Illegal => return NSE_ILLEGAL_RECV_PACKET, false;
      case Packet(packetSize) =>
        ret := OnReceived(packetSize);
        if ret != 0 {
          return NSE_BE_CLOSED, false;
        }
        mCloseAfterSend := IsConnectionClose(mRecvPacketBuffer, hs);
        CloseOf(d, v, packetSize);
        DropFront(packetSize);
        return OK, true;
    }

    /** What `SplitHttpPacket` finds at the front of the buffer. */
    method FindPacket() returns (f: Frame, hs: seq<Header>)
      requires Valid() && mRecvPacketBuffer != null
      ensures f == Decision()
      ensures f.Packet? ==> var d := mRecvPacketBuffer[..];
                            BlockEnd(d) >= 0 && BlockEnd(d) + 4 <= f.size <= mRecvBytes && hs == HeadersOf(d)
    {
      hide HeadersOf, ContentLength, Wrap, BlockEnd;
      hs := [];
      ghost var d := mRecvPacketBuffer[..];
      var ok, headers, headerSize := ParseHttpHeaders(mRecvPacketBuffer);
      if !ok {
        return Wait, hs;
      }
      HeadersInside(d);
      var contentLength := GetContentLength(mRecvPacketBuffer, headers);
      if contentLength < 0 {
        return Illegal, hs;
      }
      BlockFits(d);
      WrapIs(headerSize + contentLength);
      var packetSize := Wrap(headerSize + contentLength);
      if packetSize <= 0 || packetSize > mMaxPacketSize {
        return Illegal, hs;
      }
      if mRecvBytes < packetSize {
        return Wait, hs;
      }
      return Packet(packetSize), headers;
    }

    /** The bytes behind the first `packetSize` received ones are moved to the front. */
    method DropFront(packetSize: nat)
      requires Valid() && mRecvPacketBuffer != null && 0 < packetSize <= mRecvBytes
      modifies this`mRecvBytes, mRecvPacketBuffer
      ensures Valid() && mRecvBytes < old(mRecvBytes) && Received() == old(Received())[packetSize..]
    {
      mRecvBytes := mRecvBytes - packetSize;
      if mRecvBytes > 0 {
        forall i | 0 <= i < mRecvBytes { mRecvPacketBuffer[i] := mRecvPacketBuffer[packetSize + i]; }
      }
    }
  }

  lemma FullNoBlock(v: string, max: nat)
    requires |v| == max && First(v, max) == Wait
    ensures BlockEnd(v) < 0
  {
  }

  lemma TakeGrows(r: Receiver, x: string, max: nat)
    ensures r.delivered <= Take(r, x, max).delivered
  {
  }

  lemma TakeSame(ds: seq<string>, a: string, x: string, b: string, y: string, max: nat)
    requires a + x == b + y
    ensures Take(Receiver(ds, a), x, max) == Take(Receiver(ds, b), y, max)
  {
  }

  lemma TakeNone(r: Receiver, max: nat)
    requires First(r.kept, max) == Wait
    ensures Take(r, "", max) == r
  {
    assert r.kept + "" == r.kept;
    NoPacket(r.kept, max);
  }

  /** On a stream whose frames give their lengths the decision is that for the received bytes, unless stale bytes
      complete an illegal block. */
  lemma Decided(d: string, n: nat, v: string, more: string, max: nat)
    requires Sound(v + more, max) && n <= |d| <= max + 1 < 0x8000_0000 && v == d[..n]
    ensures Decide(d, n, max) == First(v, max) || (Decide(d, n, max) == Illegal && StaleIllegal(d, n, max))
  {
    hide First, Given, Decide, StaleIllegal;
    FirstStays(v, v + more, max);
    DecideIff(d, n, max);
  }

  lemma Prefix(a: string, b: string)
    ensures a <= a + b
  {
  }

  lemma Shifted(c: string, a: string, x: string, b: string, y: string)
    requires a + x == b + y
    ensures (c + a) + x == (c + b) + y
  {
    assert (c + a) + x == c + (a + x);
    assert (c + b) + y == c + (b + y);
  }

  /** A packet that is taken out of the buffer stays in the stream. */
  lemma {:induction false} ConcatOne(ds: seq<string>, p: string)
    ensures Concat(ds + [p]) == Concat(ds) + p
  {
    if ds == [] {
      assert ds + [p] == [p] && [p][1..] == [];
      assert Concat([p]) == p + Concat([]);
    } else {
      assert (ds + [p])[1..] == ds[1..] + [p] && (ds + [p])[0] == ds[0];
      ConcatOne(ds[1..], p);
      assert ds[0] + (Concat(ds[1..]) + p) == (ds[0] + Concat(ds[1..])) + p;
    }
  }

  lemma OneOut(ds: seq<string>, v: string, n: nat)
    ensures n <= |v| ==> Concat(ds + [v[..n]]) + v[n..] == Concat(ds) + v
  {
    hide Concat;
    if n <= |v| {
      ConcatOne(ds, v[..n]);
      assert v == v[..n] + v[n..];
      assert (Concat(ds) + v[..n]) + v[n..] == Concat(ds) + (v[..n] + v[n..]);
    }
  }

  lemma PacketTaken(ds: seq<string>, v: string, more: string, max: nat)
    requires Sound(v + more, max) && First(v, max).Packet?
    ensures var n := First(v, max).size;
            && Sound(v[n..] + more, max) && Take(Receiver(ds, v), more, max) == Take(Receiver(ds + [v[..n]], v[n..]), more, max)
            && ds + [v[..n]] <= Take(Receiver(ds, v), more, max).delivered
  {
    hide First, Sound, Packets, Rest;
    PacketOut(ds, v, more, max);
    TakeGrows(Receiver(ds + [v[..First(v, max).size]], v[First(v, max).size..]), more, max);
  }

  lemma HeadersInside(d: string)
    requires BlockEnd(d) >= 0
    ensures forall h :: h in HeadersOf(d) ==> h.value <= |d|
  {
    LinesLocal(d, d, |d|, SecondLine(d), BlockEnd(d));
  }

  /** Handing over the frame at the front does not change what the stream amounts to. */
  lemma PacketOut(ds: seq<string>, v: string, more: string, max: nat)
    requires Sound(v + more, max) && First(v, max).Packet?
    ensures var n := First(v, max).size; var u := v[n..];
            && Sound(u + more, max) && Rest(v + more, max) == Rest(u + more, max)
            && ds + Packets(v + more, max) == (ds + [v[..n]]) + Packets(u + more, max)
  {
    hide First, Given;
    FirstStays(v, v + more, max);
    var n := First(v, max).size;
    assert (v + more)[n..] == v[n..] + more && (v + more)[..n] == v[..n];
  }

  lemma CloseOf(d: string, v: string, n: nat)
    requires v <= d && n <= |v| && BlockEnd(d) >= 0 && BlockEnd(d) + 4 <= n
    ensures Closes(v[..n]) == ConnectionClose(d, HeadersOf(d))
  {
    hide BlockEnd, ContentLength, ConnectionClose;
    var p := v[..n];
    assert p[..n] == d[..n];
    BlockLocal(d, p, n);
  }
}
