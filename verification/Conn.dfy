/** The buffered connection of gwlib/conn.c, for a plain socket whose poll set is used from the poll
    thread. What the operating system returns from read() and write() is an argument. */
module Connections {
  import opened Common
  import opened PollSet

  /** What read() delivers: would block, an error, end of file, or up to 4096 bytes. */
  datatype ReadResult = Again | Failed | Eof | Got(bytes: seq<Byte>)

  function BytesOf(r: ReadResult): seq<Byte> { if r.Got? then r.bytes else [] }

  const POLL_CALLBACK: int := 1

  /** The event word that the cached flags stand for. */
  function Listening(pollin: bool, pollout: bool): Bits {
    (if pollin then {POLLIN} else {}) + (if pollout then {POLLOUT} else {})
  }

  ghost predicate SameElsewhere(a: Regs, b: Regs, fd: int) {
    forall f :: f != fd ==> (f in a <==> f in b) && (f in a ==> a[f] == b[f])
  }

  // ---------------------------------------------------------------------------
  // Length-prefixed framing
  // ---------------------------------------------------------------------------

  const TWO31: int := 0x8000_0000

  function Encode32(n: int): (b: seq<Byte>)
    requires 0 <= n < 2 * TWO31
    ensures |b| == 4
  {
    [n / 0x100_0000, n / 0x1_0000 % 256, n / 256 % 256, n % 256]
  }

  /** decode_network_long: big-endian, signed. */
  function Decode32(b: seq<Byte>): int
    requires |b| == 4
  {
    var b3: int, b2: int, b1: int, b0: int := b[0], b[1], b[2], b[3];
    var word := ((b3 * 256 + b2) * 256 + b1) * 256 + b0;
    if word < TWO31 then word else word - 2 * TWO31
  }

  lemma DecodeEncode(n: int)
    requires 0 <= n < TWO31
    ensures Decode32(Encode32(n)) == n
  {
    var b := Encode32(n);
    assert n / 0x1_0000 == n / 256 / 256 && n / 0x100_0000 == n / 0x1_0000 / 256;
  }

  /** Network order: the most significant byte comes first. */
  lemma EncodePositional(n: int)
    requires 0 <= n < 2 * TWO31
    ensures var b := Encode32(n);
            b[0] as int * 0x100_0000 + b[1] as int * 0x1_0000 + b[2] as int * 0x100 + b[3] as int == n
  {
    assert n / 0x1_0000 == n / 256 / 256 && n / 0x100_0000 == n / 0x1_0000 / 256;
  }

  /** Any four bytes are read in network order, as a number in two's complement. */
  lemma DecodePositional(b: seq<Byte>)
    requires |b| == 4
    ensures var word := b[0] as int * 0x100_0000 + b[1] as int * 0x1_0000 + b[2] as int * 0x100 + b[3] as int;
            Decode32(b) == if b[0] < 0x80 then word else word - 0x1_0000_0000
  {
  }

  type Packet = seq<Byte>

  ghost predicate Short(ms: seq<Packet>) { forall i :: 0 <= i < |ms| ==> |ms[i]| < TWO31 }

  ghost function Frame(m: Packet): seq<Byte>
    requires |m| < TWO31
  {
    Encode32(|m|) + m
  }

  lemma FrameIs(before: seq<Byte>, m: Packet)
    requires |m| < TWO31
    ensures var w, k := before + Frame(m), |before|;
            && |w| == k + 4 + |m| && w[..k] == before && w[k + 4..] == m
            && w[k] == Encode32(|m|)[0] && w[k + 1] == Encode32(|m|)[1] && w[k + 2] == Encode32(|m|)[2] && w[k + 3] == Encode32(|m|)[3]
  {
    hide Encode32;
  }

  ghost function Frames(ms: seq<Packet>): seq<Byte>
    requires Short(ms)
  {
    if ms == [] then [] else Frame(ms[0]) + Frames(ms[1..])
  }

  lemma Regroup(a: seq<Byte>, b: seq<Byte>, c: seq<Byte>)
    ensures a + (b + c) == a + b + c
  {
  }

  lemma {:induction false} FramesAppend(ms: seq<Packet>, m: Packet)
    requires Short(ms) && |m| < TWO31
    ensures Short(ms + [m]) && Frames(ms + [m]) == Frames(ms) + Frame(m)
  {
    if ms == [] {
      assert (ms + [m])[1..] == [];
    } else {
      assert (ms + [m])[1..] == ms[1..] + [m];
      FramesAppend(ms[1..], m);
      hide Frame;
      Regroup(Frame(ms[0]), Frames(ms[1..]), Frame(m));
    }
  }

  lemma NoFrames(ms: seq<Packet>)
    ensures Frames(ms[..0]) == []
  {
  }

  lemma {:induction false} FramesSplit(ms: seq<Packet>, k: nat)
    requires Short(ms) && k <= |ms|
    ensures Frames(ms) == Frames(ms[..k]) + Frames(ms[k..])
  {
    if k == 0 {
      assert ms[..0] == [] && ms[0..] == ms;
    } else {
      FramesSplit(ms[1..], k - 1);
      assert ms[..k][1..] == ms[1..][..k - 1] && ms[1..][k - 1..] == ms[k..];
      hide Frame;
      Regroup(Frame(ms[0]), Frames(ms[1..k]), Frames(ms[k..]));
      assert ms[1..][..k - 1] == ms[1..k];
    }
  }

  lemma FrameHead(m: Packet, rest: seq<Byte>, unread: seq<Byte>)
    requires |m| < TWO31 && unread <= Frame(m) + rest
    ensures 4 <= |unread| ==> unread[..4] == Encode32(|m|) && Decode32(unread[..4]) == |m|
    ensures 4 + |m| <= |unread| ==> unread[4..4 + |m|] == m
  {
    DecodeEncode(|m|);
    if 4 <= |unread| {
      assert unread[..4] == Encode32(|m|);
    }
  }

  lemma PrefixTail(done: seq<Byte>, unread: seq<Byte>, rest: seq<Byte>)
    requires done + unread <= done + rest
    ensures unread <= rest
  {
    assert unread == (done + unread)[|done|..];
    assert rest == (done + rest)[|done|..];
  }

  ghost function Joined(chunks: seq<ReadResult>): seq<Byte> {
    if chunks == [] then [] else BytesOf(chunks[0]) + Joined(chunks[1..])
  }

  lemma PrefixOfSum(a: seq<Byte>, b: seq<Byte>, all: seq<Byte>)
    requires a + b <= all
    ensures a <= all
  {
  }

  lemma JoinedNext(chunks: seq<ReadResult>, got: seq<Byte>, all: seq<Byte>)
    requires got + Joined(chunks) <= all
    ensures got <= all
    ensures chunks != [] ==>
              && got + BytesOf(chunks[0]) <= all
              && (got + BytesOf(chunks[0])) + Joined(chunks[1..]) == got + Joined(chunks)
  {
    hide BytesOf;
    if chunks != [] {
      Regroup(got, BytesOf(chunks[0]), Joined(chunks[1..]));
      PrefixOfSum(got + BytesOf(chunks[0]), Joined(chunks[1..]), all);
    }
    PrefixOfSum(got, Joined(chunks), all);
  }

  lemma {:induction false} FramesGrow(ms: seq<Packet>, j: nat, k: nat)
    requires Short(ms) && j <= k <= |ms|
    ensures |Frames(ms[..j])| <= |Frames(ms[..k])|
  {
    var t := ms[..k];
    assert Short(t);
    FramesSplit(t, j);
    assert t[..j] == ms[..j];
  }

  /** Frames can be told apart: a frame stream that begins like another is that of its first packets. */
  lemma {:induction false} FramesPrefix(rs: seq<Packet>, ms: seq<Packet>)
    requires Short(rs) && Short(ms) && Frames(rs) <= Frames(ms)
    ensures rs <= ms
  {
    hide Encode32;
    if rs != [] {
      assert Frames(rs) == Frame(rs[0]) + Frames(rs[1..]);
      assert ms != [];
      assert Frames(ms) == Frame(ms[0]) + Frames(ms[1..]);
      SameHead(rs[0], Frames(rs[1..]), ms[0], Frames(ms[1..]));
      FramesPrefix(rs[1..], ms[1..]);
      assert rs == [rs[0]] + rs[1..] && ms == [ms[0]] + ms[1..];
    }
  }

  lemma SameHead(x: Packet, xs: seq<Byte>, y: Packet, ys: seq<Byte>)
    requires |x| < TWO31 && |y| < TWO31 && Frame(x) + xs <= Frame(y) + ys
    ensures x == y && xs <= ys
  {
    var s, t := Frame(x) + xs, Frame(y) + ys;
    DecodeEncode(|x|);
    DecodeEncode(|y|);
    assert s[..4] == Encode32(|x|) && t[..4] == Encode32(|y|);
    assert s[4..4 + |x|] == x && t[4..4 + |y|] == y;
    assert s[4 + |x|..] == xs && t[4 + |y|..] == ys;
  }

  /** If k packets have been taken from a prefix of a frame stream and the unread bytes hold a length
      word, it is that of the next packet; if the next frame is there in full, so is the packet. */
  lemma NextFrame(ms: seq<Packet>, k: nat, unread: seq<Byte>)
    requires Short(ms) && k <= |ms|
    requires Frames(ms[..k]) + unread <= Frames(ms)
    ensures k == |ms| ==> unread == []
    ensures k < |ms| ==>
              && (4 <= |unread| ==> unread[..4] == Encode32(|ms[k]|) && Decode32(unread[..4]) == |ms[k]|)
              && (4 + |ms[k]| <= |unread| ==> unread[4..4 + |ms[k]|] == ms[k])
              && Frames(ms[..k + 1]) == Frames(ms[..k]) + Frame(ms[k])
  {
    FramesSplit(ms, k);
    PrefixTail(Frames(ms[..k]), unread, Frames(ms[k..]));
    if k < |ms| {
      assert ms[k..][0] == ms[k] && ms[..k + 1] == ms[..k] + [ms[k]];
      FramesAppend(ms[..k], ms[k]);
      FrameHead(ms[k], Frames(ms[k..][1..]), unread);
    }
  }

  /** Whether so many unsent bytes are offered to write() under a buffering threshold. */
  predicate Attempts(unsent: nat, threshold: nat) { unsent > 0 && unsent >= threshold }

  /** Whether activity is passed on to the upper layer: errors, input, or the last of the output gone. */
  ghost predicate Notable(revents: Bits, unsent: seq<Byte>) {
    POLLERR in revents || POLLHUP in revents || POLLIN in revents || (POLLOUT in revents && unsent == [])
  }

  /** How many of them go out, when write() would return ret. */
  ghost function Accepted(unsent: nat, threshold: nat, ret: int): (n: nat)
    requires ret <= unsent
    ensures n <= unsent
  {
    if Attempts(unsent, threshold) && ret > 0 then ret else 0
  }

  // ---------------------------------------------------------------------------
  // The connection
  // ---------------------------------------------------------------------------

  class Connection {
    const fd: int
    const self: int
    var connected: bool
    var outbuf: seq<Byte>
    var outbufpos: nat
    var outputBuffering: nat
    var inbuf: seq<Byte>
    var inbufpos: nat
    var readEof: bool
    var ioError: bool
    var registered: FDSet?
    var callback: int
    var listeningPollin: bool
    var listeningPollout: bool

    /** What the system has taken in write(), for the peer to read. */
    var sent: seq<Byte>
    /** Every byte given to conn_write, delivered by read(), handed to a reader. */
    ghost var written: seq<Byte>
    ghost var received: seq<Byte>
    ghost var consumed: seq<Byte>
    /** Was the socket connected when it was registered? */
    ghost var regular: bool

    ghost function Unsent(): seq<Byte>
      requires outbufpos <= |outbuf|
      reads this
    {
      outbuf[outbufpos..]
    }

    ghost function Unread(): seq<Byte>
      requires inbufpos <= |inbuf|
      reads this
    {
      inbuf[inbufpos..]
    }

    /** No byte is lost, repeated or reordered on either side. */
    ghost predicate Streams()
      reads this
    {
      && outbufpos <= |outbuf| && sent + Unsent() == written
      && inbufpos <= |inbuf| && consumed + Unread() == received
    }

    /** The cached flags are the event bits of this connection's slot in the poll set. */
    ghost predicate Synced()
      reads this, registered
    {
      && fd >= 0
      && (registered == null ==> !listeningPollin && !listeningPollout)
      && (registered != null ==>
         && registered.Valid()
         && fd in registered.regs
         && registered.regs[fd] == Reg(Listening(listeningPollin, listeningPollout), POLL_CALLBACK, self))
    }

    /** What holds even while written data waits for its first write(). */
    ghost predicate Settling()
      requires outbufpos <= |outbuf|
      reads this
    {
      registered != null && regular ==>
        && (listeningPollout ==> Unsent() != [])
        && (readEof ==> !listeningPollin)
        && (!readEof && !ioError ==> listeningPollin)
    }

    /** The general rule of conn.c:157-163: poll for input unless at end of file, and for output only
        with data to send; unbuffered and without error, always when there is data to send. */
    ghost predicate Policy()
      requires outbufpos <= |outbuf|
      reads this
    {
      && Settling()
      && (registered != null && regular && outputBuffering == 0 && !ioError && Unsent() != [] ==> listeningPollout)
    }

    ghost predicate Valid()
      reads this, registered
    {
      Streams() && Synced() && Policy()
    }

    ghost function Footprint(): set<object>
      reads this
    {
      if registered == null then {this} else {this, registered}
    }

    /** The slots of all other descriptors are as they were. */
    twostate predicate OthersKept()
      reads this, registered
    {
      registered == old(registered) &&
      (registered != null ==> SameElsewhere(old(registered.regs), registered.regs, fd))
    }

    constructor WrapFd(descriptor: int, id: int)
      requires descriptor >= 0
      ensures Valid() && registered == null && connected && outputBuffering == 0
      ensures fd == descriptor && self == id && written == sent == received == consumed == []
    {
      fd, self := descriptor, id;
      connected, readEof, ioError := true, false, false;
      outbuf, outbufpos, inbuf, inbufpos, outputBuffering := [], 0, [], 0, 0;
      registered, callback, listeningPollin, listeningPollout := null, 0, false, false;
      written, sent, received, consumed, regular := [], [], [], [], false;
    }

    method RegisterPollin(onoff: bool, at: int)
      requires registered != null && Synced()
      modifies `listeningPollin, registered
      ensures Synced() && listeningPollin == onoff && OthersKept()
    {
      hide FDSet.Valid;
      if onoff && !listeningPollin {
        listeningPollin := true;
        registered.FdsetListen(fd, {POLLIN}, {POLLIN}, at);
        assert Copied(Listening(false, listeningPollout), {POLLIN}, {POLLIN}) == Listening(true, listeningPollout);
      } else if !onoff && listeningPollin {
        listeningPollin := false;
        registered.FdsetListen(fd, {POLLIN}, {}, at);
        assert Copied(Listening(true, listeningPollout), {POLLIN}, {}) == Listening(false, listeningPollout);
      }
    }

    method RegisterPollout(onoff: bool, at: int)
      requires registered != null && Synced()
      modifies `listeningPollout, registered
      ensures Synced() && listeningPollout == onoff && OthersKept()
    {
      hide FDSet.Valid;
      if onoff && !listeningPollout {
        listeningPollout := true;
        registered.FdsetListen(fd, {POLLOUT}, {POLLOUT}, at);
        assert Copied(Listening(listeningPollin, false), {POLLOUT}, {POLLOUT}) == Listening(listeningPollin, true);
      } else if !onoff && listeningPollout {
        listeningPollout := false;
        registered.FdsetListen(fd, {POLLOUT}, {}, at);
        assert Copied(Listening(listeningPollin, true), {POLLOUT}, {}) == Listening(listeningPollin, false);
      }
    }

    /** write() took n bytes; drop them from the buffer once they are more than half of it. */
    method Advance(n: nat)
      requires Streams() && n <= |Unsent()|
      modifies `outbuf, `outbufpos, `sent
      ensures Streams() && Unsent() == old(Unsent())[n..] && sent == old(sent) + old(Unsent())[..n]
    {
      ghost var unsent := Unsent();
      sent := sent + outbuf[outbufpos..outbufpos + n];
      assert outbuf[outbufpos..outbufpos + n] == unsent[..n];
      outbufpos := outbufpos + n;
      assert Unsent() == unsent[n..];
      if outbufpos > |outbuf| / 2 {
        outbuf := outbuf[outbufpos..];
        outbufpos := 0;
      }
      assert unsent[..n] + unsent[n..] == unsent;
    }

    /** Send what write() takes; ret is its result, -1 for an error. */
    method UnlockedWrite(ret: int, at: int) returns (r: int)
      requires Streams() && Synced() && -1 <= ret <= |Unsent()|
      modifies Footprint()
      ensures Streams() && Synced() && OthersKept()
      ensures r == ret && ioError == (old(ioError) || ret < 0)
      ensures Unsent() == if ret < 0 then old(Unsent()) else old(Unsent())[ret..]
      ensures sent == if ret < 0 then old(sent) else old(sent) + old(Unsent())[..ret]
      ensures registered != null ==> listeningPollout == if ret < 0 then old(listeningPollout) else Unsent() != []
      ensures old(Settling()) ==> Policy()
      ensures unchanged(`written, `received, `consumed, `inbuf, `inbufpos, `readEof, `listeningPollin)
      ensures unchanged(`outputBuffering, `regular, `connected, `callback)
    {
      hide FDSet.Valid;
      if ret < 0 {
        ioError := true;
        return -1;
      }
      Advance(ret);
      if registered != null {
        RegisterPollout(|outbuf| - outbufpos > 0, at);
      }
      r := ret;
    }

    /** Write unless there is nothing to send or less than the buffering threshold. */
    method TryWrite(ret: int, at: int) returns (r: int)
      requires Streams() && Synced() && -1 <= ret <= |Unsent()|
      requires Settling()
      modifies Footprint()
      ensures Valid() && OthersKept()
      ensures sent == old(sent) + old(Unsent())[..Accepted(|old(Unsent())|, outputBuffering, ret)]
      ensures r == -1 <==> old(Unsent()) != [] && |old(Unsent())| >= outputBuffering && ret < 0
      ensures old(Unsent()) == [] || |old(Unsent())| < outputBuffering || ret < 0 ==> sent == old(sent)
      ensures old(Unsent()) != [] && |old(Unsent())| >= outputBuffering && ret >= 0 ==> sent == old(sent) + old(Unsent())[..ret]
      ensures r != -1 ==> r == if Unsent() == [] then 0 else 1
      ensures ioError == (old(ioError) || r == -1)
      ensures unchanged(`written, `received, `consumed, `inbuf, `inbufpos, `readEof, `listeningPollin)
      ensures unchanged(`outputBuffering, `regular, `connected, `callback)
    {
      hide FDSet.Valid;
      var len := |outbuf| - outbufpos;
      if len == 0 {
        return 0;
      }
      if len < outputBuffering {
        return 1;
      }
      var w := UnlockedWrite(ret, at);
      if w < 0 {
        return -1;
      }
      r := if |outbuf| - outbufpos > 0 then 1 else 0;
    }

    method ConnWrite(data: seq<Byte>, ret: int, at: int) returns (r: int)
      requires Valid() && -1 <= ret <= |Unsent()| + |data|
      modifies Footprint()
      ensures Valid() && OthersKept() && written == old(written) + data
      ensures var all := old(Unsent()) + data;
              && sent == old(sent) + all[..Accepted(|all|, outputBuffering, ret)]
              && (r == -1 <==> Attempts(|all|, outputBuffering) && ret < 0)
      ensures r != -1 ==> r == if sent == written then 0 else 1
      ensures unchanged(`received, `consumed, `inbuf, `inbufpos)
    {
      outbuf := outbuf + data;
      written := written + data;
      assert Unsent() == old(Unsent()) + data;
      r := TryWrite(ret, at);
    }

    method ConnWriteWithlen(data: Packet, ret: int, at: int) returns (r: int)
      requires Valid() && |data| < TWO31 && -1 <= ret <= |Unsent()| + 4 + |data|
      modifies Footprint()
      ensures Valid() && OthersKept() && written == old(written) + Frame(data)
      ensures var k := |old(written)|;
              && |written| == k + 4 + |data| && written[..k] == old(written) && written[k + 4..] == data
              && written[k] as int * 0x100_0000 + written[k + 1] as int * 0x1_0000 + written[k + 2] as int * 0x100
                 + written[k + 3] as int == |data|
      ensures var all := old(Unsent()) + Frame(data);
              && sent == old(sent) + all[..Accepted(|all|, outputBuffering, ret)]
              && (r == -1 <==> Attempts(|all|, outputBuffering) && ret < 0)
      ensures unchanged(`received, `consumed, `inbuf, `inbufpos)
    {
      hide Encode32, FDSet.Valid;
      EncodePositional(|data|);
      FrameIs(old(written), data);
      var lengthbuf := Encode32(|data|);
      outbuf := outbuf + lengthbuf;
      outbuf := outbuf + data;
      written := written + Frame(data);
      assert Unsent() == old(Unsent()) + Frame(data);
      r := TryWrite(ret, at);
    }

    method SetOutputBuffering(size: nat, ret: int, at: int)
      requires Valid() && -1 <= ret <= |Unsent()|
      modifies Footprint()
      ensures Valid() && OthersKept() && outputBuffering == size && written == old(written)
      ensures sent == old(sent) + old(Unsent())[..Accepted(|old(Unsent())|, size, ret)]
    {
      outputBuffering := size;
      var _ := TryWrite(ret, at);
    }

    /** Drop the bytes already handed out. */
    method Compact()
      requires Streams()
      modifies `inbuf, `inbufpos
      ensures Streams() && Unread() == old(Unread())
    {
      if inbufpos > 0 {
        inbuf := inbuf[inbufpos..];
        inbufpos := 0;
      }
    }

    /** End of file or an error: no more polling for input. */
    method StopReading(eof: bool, at: int)
      requires Streams() && Synced()
      modifies `readEof, `ioError, `listeningPollin, registered
      ensures Streams() && Synced() && OthersKept()
      ensures readEof == (old(readEof) || eof) && ioError == (old(ioError) || !eof)
      ensures registered != null ==> !listeningPollin
      ensures old(Policy()) ==> Policy()
    {
      hide FDSet.Valid;
      if eof {
        readEof := true;
      } else {
        ioError := true;
      }
      if registered != null {
        RegisterPollin(false, at);
      }
    }

    method Deliver(bytes: seq<Byte>)
      requires Streams()
      modifies `inbuf, `received
      ensures Streams() && Unread() == old(Unread()) + bytes && received == old(received) + bytes
    {
      inbuf := inbuf + bytes;
      received := received + bytes;
    }

    method UnlockedRead(res: ReadResult, at: int)
      requires Streams() && Synced()
      modifies Footprint()
      ensures Streams() && Synced() && OthersKept()
      ensures received == old(received) + BytesOf(res) && consumed == old(consumed)
      ensures Unread() == old(Unread()) + BytesOf(res)
      ensures readEof == (old(readEof) || res.Eof?) && ioError == (old(ioError) || res.Failed?)
      ensures registered != null ==> listeningPollin == (old(listeningPollin) && !res.Eof? && !res.Failed?)
      ensures old(Policy()) ==> Policy()
      ensures unchanged(`written, `sent, `outbuf, `outbufpos, `listeningPollout)
      ensures unchanged(`outputBuffering, `regular, `connected, `callback)
    {
      hide FDSet.Valid, Listening;
      Compact();
      match res
      case Again => return;
      case Failed =>
        StopReading(false, at);
      case Eof =>
        StopReading(true, at);
      case Got(bytes) =>
        Deliver(bytes);
    }

    method UnlockedGet(length: nat) returns (result: seq<Byte>)
      requires Streams() && length <= |Unread()|
      modifies `inbufpos, `consumed
      ensures Streams() && result == old(Unread())[..length]
      ensures consumed == old(consumed) + result && Unread() == old(Unread())[length..]
    {
      result := inbuf[inbufpos..inbufpos + length];
      inbufpos := inbufpos + length;
      consumed := consumed + result;
    }

    /** POLLERR or POLLHUP: stop listening and let the upper layer close the connection. */
    method Disable(at: int)
      requires Valid()
      modifies Footprint()
      ensures Valid() && OthersKept() && ioError && !listeningPollin && !listeningPollout
      ensures unchanged(`written, `sent, `outbuf, `outbufpos, `received, `consumed, `inbuf, `inbufpos)
      ensures unchanged(`outputBuffering, `regular, `connected, `callback, `readEof)
    {
      hide FDSet.Valid;
      if listeningPollin {
        RegisterPollin(false, at);
      }
      if listeningPollout {
        RegisterPollout(false, at);
      }
      ioError := true;
    }

    /** The poll set reports activity. A call meant for another descriptor, such as -1, is ignored. */
    method PollCallback(calledFd: int, revents: Bits, ret: int, res: ReadResult, at: int) returns (doCallback: bool)
      requires Valid() && -1 <= ret <= |Unsent()|
      modifies Footprint()
      ensures Valid() && OthersKept() && written == old(written) && consumed == old(consumed) && callback == old(callback)
      ensures calledFd != fd ==> !doCallback && unchanged(this) && (registered != null ==> unchanged(registered))
      ensures received == old(received) + if calledFd == fd && connected && POLLIN in revents then BytesOf(res) else []
      ensures sent == old(sent) + if calledFd == fd && connected && POLLOUT in revents && ret > 0 then old(Unsent())[..ret] else []
      ensures calledFd == fd ==> (doCallback <==> callback != 0 && (!connected || Notable(revents, Unsent())))
    {
      hide FDSet.Valid, Connection.Policy, Connection.Synced;
      doCallback := false;
      if fd != calledFd {
        return;
      }
      if !connected {
        return callback != 0;
      }
      doCallback := Serve(revents, ret, res, at);
      doCallback := doCallback && callback != 0;
    }

    method Serve(revents: Bits, ret: int, res: ReadResult, at: int) returns (notable: bool)
      requires Valid() && -1 <= ret <= |Unsent()|
      modifies Footprint()
      ensures Valid() && OthersKept() && unchanged(`written, `consumed, `callback, `connected)
      ensures received == old(received) + if POLLIN in revents then BytesOf(res) else []
      ensures sent == old(sent) + if POLLOUT in revents && ret > 0 then old(Unsent())[..ret] else []
      ensures notable <==> Notable(revents, Unsent())
    {
      hide FDSet.Valid;
      notable := false;
      if POLLERR in revents || POLLHUP in revents {
        Disable(at);
        notable := true;
      }
      if POLLOUT in revents {
        var emptied := Flush(ret, at);
        notable := notable || emptied;
      }
      if POLLIN in revents {
        UnlockedRead(res, at);
        notable := true;
      }
    }

    method Flush(ret: int, at: int) returns (emptied: bool)
      requires Valid() && -1 <= ret <= |Unsent()|
      modifies Footprint()
      ensures Valid() && OthersKept() && unchanged(`written, `consumed, `received, `callback, `connected)
      ensures sent == old(sent) + if ret > 0 then old(Unsent())[..ret] else []
      ensures emptied <==> Unsent() == []
    {
      hide FDSet.Valid;
      var _ := UnlockedWrite(ret, at);
      emptied := |outbuf| - outbufpos == 0;
    }

    /** First registration: a socket still connecting listens both ways. */
    method Attach(pollSet: FDSet, userCallback: int, at: int)
      requires Valid() && registered == null && pollSet.Valid() && fd !in pollSet.regs
      modifies this, pollSet
      ensures Valid() && registered == pollSet && callback == userCallback && regular == connected
      ensures listeningPollin == (!connected || (!readEof && !ioError))
      ensures listeningPollout == (!connected || Unsent() != [])
      ensures pollSet.regs == old(pollSet.regs)[fd := pollSet.regs[fd]]
      ensures unchanged(`written, `sent, `received, `consumed)
    {
      hide FDSet.Valid, Listening;
      var pollin, pollout := true, true;
      if connected {
        pollin := !readEof && !ioError;
        pollout := |outbuf| - outbufpos > 0;
      }
      registered, callback, regular := pollSet, userCallback, connected;
      listeningPollin, listeningPollout := pollin, pollout;
      Enter(pollSet, Listening(pollin, pollout), at);
    }

    method Enter(pollSet: FDSet, word: Bits, at: int)
      requires pollSet.Valid() && fd >= 0 && fd !in pollSet.regs
      modifies pollSet
      ensures pollSet.Valid() && pollSet.regs == old(pollSet.regs)[fd := Reg(word, POLL_CALLBACK, self)]
    {
      hide FDSet.Valid, FDSet.Slots, Step;
      pollSet.FdsetRegister(fd, word, POLL_CALLBACK, self, at);
    }

    method ConnRegister(pollSet: FDSet, userCallback: int, at: int) returns (r: int)
      requires Valid() && pollSet.Valid()
      requires registered == null ==> fd !in pollSet.regs
      modifies Footprint(), pollSet
      ensures Valid() && unchanged(`written, `sent, `received, `consumed)
      ensures r == 0 <==> old(registered) == null || old(registered) == pollSet
      ensures r == 0 ==> registered == pollSet && callback == userCallback && SameElsewhere(old(pollSet.regs), pollSet.regs, fd)
      ensures old(registered) == null ==> regular == connected
      ensures old(registered) == null ==> listeningPollin == (!connected || (!readEof && !ioError))
      ensures old(registered) == null ==> listeningPollout == (!connected || Unsent() != [])
      ensures r != 0 ==> unchanged(this) && unchanged(pollSet)
    {
      hide FDSet.Valid;
      if registered == pollSet {
        callback := userCallback;
        return 0;
      }
      if registered != null {
        return -1;
      }
      Attach(pollSet, userCallback, at);
      r := 0;
    }

    method ConnUnregister()
      requires Valid()
      modifies Footprint()
      ensures Valid() && registered == null && unchanged(`written, `sent, `received, `consumed)
      ensures var s := old(registered); s != null ==> s.Valid() && s.regs == old(s.regs) - {fd}
    {
      var s := registered;
      if registered != null {
        registered, callback := null, 0;
        listeningPollin, listeningPollout := false, false;
      }
      if s != null {
        s.FdsetUnregister(fd);
      }
    }

    method ConnReadFixed(length: int, res: ReadResult, at: int) returns (result: Option<seq<Byte>>)
      requires Valid()
      modifies Footprint()
      ensures Valid() && OthersKept()
      ensures result.Some? ==> |result.value| == length && consumed == old(consumed) + result.value
      ensures result.None? ==> consumed == old(consumed)
      ensures received == old(received) + if 1 <= length && |old(Unread())| < length then BytesOf(res) else []
      ensures result.None? <==> length < 1 || |old(Unread()) + BytesOf(res)| < length
    {
      if length < 1 {
        return None;
      }
      if |inbuf| - inbufpos < length {
        UnlockedRead(res, at);
        if |inbuf| - inbufpos < length {
          return None;
        }
      }
      var s := UnlockedGet(length);
      result := Some(s);
    }

    /** One try at the next frame: first the length, then the data. */
    method TakeFrame(ghost ms: seq<Packet>, ghost k: nat) returns (result: Option<Packet>)
      requires Streams() && Short(ms) && k <= |ms| && consumed == Frames(ms[..k]) && received <= Frames(ms)
      modifies `inbufpos, `consumed
      ensures Streams()
      ensures result.Some? ==> k < |ms| && result.value == ms[k] && consumed == Frames(ms[..k + 1])
      ensures result.None? ==> consumed == old(consumed) && Unread() == old(Unread())
      ensures result.Some? <==> k < |ms| && |Frames(ms[..k + 1])| <= |received|
    {
      NextFrame(ms, k, Unread());
      if |inbuf| - inbufpos < 4 {
        return None;
      }
      var length := Decode32(inbuf[inbufpos..inbufpos + 4]);
      assert inbuf[inbufpos..inbufpos + 4] == Unread()[..4];
      if |inbuf| - inbufpos - 4 < length {
        return None;
      }
      var header := UnlockedGet(4);
      var data := UnlockedGet(length);
      assert consumed == Frames(ms[..k]) + (header + data);
      return Some(data);
    }

    /** Take the next packet of a frame stream of which k packets have been taken. NULL takes nothing,
        and is returned exactly when the next frame has not arrived in full. */
    method ConnReadWithlen(res: ReadResult, at: int, ghost ms: seq<Packet>, ghost k: nat)
      returns (result: Option<Packet>, used: bool)
      requires Valid() && Short(ms) && k <= |ms|
      requires consumed == Frames(ms[..k]) && received + BytesOf(res) <= Frames(ms)
      modifies Footprint()
      ensures Valid() && OthersKept()
      ensures result.Some? ==> k < |ms| && result.value == ms[k] && consumed == Frames(ms[..k + 1])
      ensures result.None? ==> consumed == old(consumed) && used
      ensures result.Some? <==> k < |ms| && |Frames(ms[..k + 1])| <= |old(received) + BytesOf(res)|
      ensures received == if used then old(received) + BytesOf(res) else old(received)
    {
      hide FDSet.Valid, Frames;
      result, used := None, false;
      for attempt := 1 to 3
        invariant Valid() && OthersKept() && consumed == old(consumed) && result.None?
        invariant used == (attempt == 3)
        invariant received == old(received) + (if used then BytesOf(res) else [])
        invariant attempt > 1 && k < |ms| ==> |received| < |Frames(ms[..k + 1])|
      {
        if attempt > 1 {
          UnlockedRead(res, at);
          used := true;
        }
        result := TakeFrame(ms, k);
        if result.Some? {
          return;
        }
      }
    }

    /** However the stream is cut into chunks, the packets that n calls return are the first ones written, in order;
        and enough calls return every packet that arrives in full. A chunk stays with the operating system until a
        call reads it. */
    method ReadMany(n: nat, chunks: seq<ReadResult>, ghost ms: seq<Packet>) returns (results: seq<Packet>)
      requires Valid() && Short(ms) && consumed == [] && received + Joined(chunks) <= Frames(ms)
      modifies Footprint()
      ensures Valid() && results <= ms && consumed == Frames(results)
      ensures n >= |chunks| + |ms| ==>
                forall k :: 0 <= k <= |ms| && |Frames(ms[..k])| <= |old(received) + Joined(chunks)| ==> k <= |results|
    {
      hide Frames, Joined, Connection.Valid, SameElsewhere, Complete;
      results := [];
      var waiting := chunks;
      ghost var total, idle := received + Joined(chunks), false;
      NoFrames(ms);
      for i := 0 to n
        invariant Valid() && registered == old(registered) && results <= ms
        invariant consumed == Frames(ms[..|results|])
        invariant received + Joined(waiting) == total <= Frames(ms)
        invariant if idle then Complete(ms, total, |results|) && waiting == [] else i <= |results| + |chunks| - |waiting|
      {
        var chunk := if waiting == [] then Again else waiting[0];
        JoinedNext(waiting, received, Frames(ms));
        assert received + BytesOf(Again) == received;
        ghost var before := received;
        var r, used := ConnReadWithlen(chunk, 0, ms, |results|);
        if waiting == [] {
          LastCall(ms, before, total, |results|, r.Some?, idle);
          idle := idle || r.None?;
        }
        if used && waiting != [] {
          waiting := waiting[1..];
        }
        if r.Some? {
          results := results + [r.value];
        }
      }
      assert ms[..|results|] == results;
      Finished(ms, total, |results|, idle);
    }
  }

  /** Beyond the first k packets none has arrived in full. */
  ghost predicate Complete(ms: seq<Packet>, total: seq<Byte>, k: nat)
    requires Short(ms)
  {
    forall j :: 0 <= j <= |ms| && |Frames(ms[..j])| <= |total| ==> j <= k
  }

  /** With no chunk waiting, a call that returns NULL finds nothing more to return. */
  lemma LastCall(ms: seq<Packet>, received: seq<Byte>, total: seq<Byte>, k: nat, some: bool, idle: bool)
    requires Short(ms) && k <= |ms| && received + Joined([]) == total
    requires some <==> k < |ms| && |Frames(ms[..k + 1])| <= |received + BytesOf(Again)|
    requires idle ==> Complete(ms, total, k)
    ensures !some ==> Complete(ms, total, k)
    ensures idle ==> !some
  {
    hide Frames;
    assert received == total;
    if !some {
      forall j | 0 <= j <= |ms| && |Frames(ms[..j])| <= |total|
        ensures j <= k
      {
        if k < j {
          FramesGrow(ms, k + 1, j);
        }
      }
    }
  }

  lemma Finished(ms: seq<Packet>, total: seq<Byte>, k: nat, idle: bool)
    requires Short(ms) && k <= |ms| && (idle ==> Complete(ms, total, k))
    ensures idle || k == |ms| ==>
              forall j :: 0 <= j <= |ms| && |Frames(ms[..j])| <= |total| ==> j <= k
  {
  }

  /** A run of conn_write_withlen, whatever write() does: at its i-th use it takes pick(i, u) of u unsent bytes, or
      fails. */
  method WriteMany(w: Connection, ms: seq<Packet>, pick: (nat, nat) -> int)
    requires w.Valid() && Short(ms) && forall i: nat, u: nat :: -1 <= pick(i, u) <= u
    modifies w.Footprint()
    ensures w.Valid() && w.OthersKept() && w.written == old(w.written) + Frames(ms)
  {
    hide FDSet.Valid, Frames, Frame;
    NoFrames(ms);
    for i := 0 to |ms|
      invariant w.Valid() && w.OthersKept() && w.written == old(w.written) + Frames(ms[..i])
    {
      FramesAppend(ms[..i], ms[i]);
      assert ms[..i] + [ms[i]] == ms[..i + 1];
      ghost var before := w.written;
      var unsent := |w.outbuf| - w.outbufpos + 4 + |ms[i]|;
      var _ := w.ConnWriteWithlen(ms[i], pick(i, unsent), 0);
      Regroup(old(w.written), Frames(ms[..i]), Frame(ms[i]));
    }
    assert ms[..|ms|] == ms;
  }

  /** Two ends of a stream that loses and reorders nothing. Whatever has been taken out in whole frames at one end is
      a prefix of what was written at the other. */
  lemma EndToEnd(w: Connection, r: Connection, ms: seq<Packet>, results: seq<Packet>)
    requires w.Streams() && r.Streams() && Short(ms) && Short(results)
    requires w.written == Frames(ms) && r.received <= w.sent && r.consumed == Frames(results)
    ensures results <= ms
    ensures w.Unsent() == [] && r.received == w.sent && r.Unread() == [] ==> results == ms
  {
    hide Frames;
    assert r.consumed <= r.received && w.sent <= w.written;
    FramesPrefix(results, ms);
    if w.Unsent() == [] && r.received == w.sent && r.Unread() == [] {
      assert Frames(results) == Frames(ms);
      FramesPrefix(ms, results);
    }
  }

  /** A conversation: w writes the packets, the stream delivers some of what the system took, in any chunks, and r
      makes n calls. What r returns is the first packets, in order; and all of them if everything was sent and
      delivered and r calls often enough. */
  method Converse(w: Connection, r: Connection, ms: seq<Packet>, pick: (nat, nat) -> int,
    deliver: seq<Byte> -> seq<ReadResult>, n: nat) returns (results: seq<Packet>)
    requires w.Valid() && r.Valid() && w.Footprint() !! r.Footprint() && Short(ms)
    requires w.written == [] && r.received == [] && r.consumed == []
    requires forall i: nat, u: nat :: -1 <= pick(i, u) <= u
    requires forall s :: Joined(deliver(s)) <= s
    modifies w.Footprint(), r.Footprint()
    ensures w.Valid() && r.Valid() && results <= ms
    ensures w.sent == w.written && Joined(deliver(w.sent)) == w.sent && n >= |deliver(w.sent)| + |ms| ==> results == ms
  {
    hide FDSet.Valid, Frames, Joined;
    WriteMany(w, ms, pick);
    assert w.sent + w.Unsent() == w.written == [] + Frames(ms);
    Delivered(w.sent, w.Unsent(), deliver(w.sent), ms);
    results := r.ReadMany(n, deliver(w.sent), ms);
    assert ms[..|ms|] == ms;
  }

  lemma Delivered(sent: seq<Byte>, unsent: seq<Byte>, chunks: seq<ReadResult>, ms: seq<Packet>)
    requires Short(ms) && sent + unsent == [] + Frames(ms) && Joined(chunks) <= sent
    ensures [] + Joined(chunks) == Joined(chunks) && sent <= Frames(ms) && Joined(chunks) <= Frames(ms)
  {
    hide Frames, Joined;
    assert sent + unsent == Frames(ms);
  }
}
