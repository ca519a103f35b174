/** Packet framing of server/engine/network/TcpConnection.cpp: Send puts a header in front
    of a body, conn_readcb cuts the received bytes into packets again. */
module Framing {
  type Bytes = seq<nat>

  datatype Packet = Packet(id: nat, body: Bytes)

  const HEAD_SIZE := 7
  const PKG_MAX_SIZE := 1024

  /** What Send can describe: all header fields are 16 bits wide. */
  predicate Sendable(p: Packet) {
    p.id < 0x1_0000 && HEAD_SIZE + |p.body| < 0x1_0000
  }

  predicate AllSendable(ps: seq<Packet>) {
    forall i :: 0 <= i < |ps| ==> Sendable(ps[i])
  }

  /** A frame the receiver accepts. */
  predicate Fits(p: Packet) {
    HEAD_SIZE + |p.body| <= PKG_MAX_SIZE
  }

  /** htons, as the two bytes that are sent. */
  function Net16(n: nat): (r: Bytes)
    requires n < 0x1_0000
    ensures |r| == 2
  {
    [n / 256, n % 256]
  }

  /** ntohs of the two bytes at i. */
  function Host16(b: Bytes, i: nat): nat
    requires i + 2 <= |b|
  {
    256 * b[i] + b[i + 1]
  }

  function Frame(p: Packet): (r: Bytes)
    requires Sendable(p)
    ensures |r| == HEAD_SIZE + |p.body|
  {
    [1] + Net16(p.id) + Net16(|p.body|) + Net16(HEAD_SIZE + |p.body|) + p.body
  }

  /** The bytes of a frame one by one: header fields have their high byte first. */
  lemma FrameBytes(p: Packet)
    requires Sendable(p)
    ensures var f := Frame(p);
      && |f| == HEAD_SIZE + |p.body| && f[0] == 1 && f[HEAD_SIZE..] == p.body
      && (forall i :: 0 <= i < HEAD_SIZE ==> f[i] < 256)
      && 256 * f[1] + f[2] == p.id && 256 * f[3] + f[4] == |p.body| && 256 * f[5] + f[6] == |f|
  {
    var f := Frame(p);
    assert f[1] == Net16(p.id)[0] && f[2] == Net16(p.id)[1];
    assert f[3] == Net16(|p.body|)[0] && f[4] == Net16(|p.body|)[1];
    assert f[5] == Net16(|f|)[0] && f[6] == Net16(|f|)[1];
  }

  function Frames(ps: seq<Packet>): Bytes
    requires AllSendable(ps)
  {
    if ps == [] then [] else Frame(ps[0]) + Frames(ps[1..])
  }

  lemma {:induction false} FramesSplit(ps: seq<Packet>, k: nat)
    requires AllSendable(ps) && k <= |ps|
    ensures Frames(ps) == Frames(ps[..k]) + Frames(ps[k..])
  {
    if k > 0 {
      FramesSplit(ps[1..], k - 1);
      assert ps[..k][1..] == ps[1..][..k - 1] && ps[1..][k - 1..] == ps[k..];
    } else {
      assert ps[..0] == [] && ps[0..] == ps;
    }
  }

  /** The fields of a header are read back, and the body behind it. */
  lemma HeaderBack(p: Packet, b: Bytes)
    requires Sendable(p) && |b| >= HEAD_SIZE
    requires forall i :: 0 <= i < |b| && i < |Frame(p)| ==> b[i] == Frame(p)[i]
    ensures Host16(b, 1) == p.id && Host16(b, 3) == |p.body| && Host16(b, 5) == |Frame(p)|
    ensures |b| >= |Frame(p)| ==> b[..|Frame(p)|] == Frame(p) && b[HEAD_SIZE..|Frame(p)|] == p.body
  {
    var f := Frame(p);
    FrameBytes(p);
    if |b| >= |f| {
      assert b[..|f|] == f;
      assert f[HEAD_SIZE..] == p.body && b[HEAD_SIZE..|f|] == b[..|f|][HEAD_SIZE..];
    }
  }

  /** How many packets one run of the callback delivers when n bytes of the frames are
      there: all that are complete, up to the first that is too long. */
  function Whole(n: nat, ps: seq<Packet>): (k: nat)
    requires AllSendable(ps)
    ensures k <= |ps|
  {
    if ps == [] || n < |Frame(ps[0])| || !Fits(ps[0]) then 0 else 1 + Whole(n - |Frame(ps[0])|, ps[1..])
  }

  /** The low watermark that the run leaves. */
  function LowAfter(n: nat, ps: seq<Packet>, low: nat): nat
    requires AllSendable(ps)
  {
    if n < HEAD_SIZE then HEAD_SIZE
    else if ps == [] then low
    else if n < |Frame(ps[0])| then |Frame(ps[0])|
    else if !Fits(ps[0]) || n == |Frame(ps[0])| then low
    else LowAfter(n - |Frame(ps[0])|, ps[1..], low)
  }

  /** Whole takes the longest run of complete, fitting frames. */
  lemma {:induction false} WholeIsLongest(n: nat, ps: seq<Packet>)
    requires AllSendable(ps)
    ensures var k := Whole(n, ps);
      && |Frames(ps[..k])| <= n
      && (forall i :: 0 <= i < k ==> Fits(ps[i]))
      && (k < |ps| && Fits(ps[k]) ==> n < |Frames(ps[..k])| + |Frame(ps[k])|)
  {
    var k := Whole(n, ps);
    if k > 0 {
      WholeIsLongest(n - |Frame(ps[0])|, ps[1..]);
      assert ps[..k][1..] == ps[1..][..k - 1];
    } else {
      assert ps[..k] == [];
    }
  }

  /** With all bytes there, everything is delivered if and only if no body is over 1017 bytes. */
  lemma {:induction false} AllDelivered(ps: seq<Packet>)
    requires AllSendable(ps)
    ensures Whole(|Frames(ps)|, ps) == |ps| <==> forall i :: 0 <= i < |ps| ==> |ps[i].body| <= PKG_MAX_SIZE - HEAD_SIZE
  {
    if ps != [] {
      AllDelivered(ps[1..]);
      assert |Frames(ps)| == |Frame(ps[0])| + |Frames(ps[1..])|;
      assert forall i :: 0 <= i < |ps[1..]| ==> ps[1..][i] == ps[i + 1];
      assert forall i :: 0 < i < |ps| ==> ps[i] == ps[1..][i - 1];
    }
  }

  lemma Tail(a: Bytes, b: Bytes, c: Bytes)
    requires a + b <= a + c
    ensures b <= c
  {
    assert (a + c)[..|a + b|] == a + c[..|b|];
    assert b == (a + b)[|a|..] == (a + c[..|b|])[|a|..];
  }

  lemma FramesEmpty()
    ensures Frames([]) == []
  {
  }

  /** Seven bytes of the stream show the first frame's length; the whole frame, its packet. */
  lemma FirstFrame(input: Bytes, sent: seq<Packet>)
    requires AllSendable(sent) && input <= Frames(sent) && |input| >= HEAD_SIZE
    ensures |sent| > 0 && Host16(input, 5) == |Frame(sent[0])|
    ensures var n := |Frame(sent[0])|; |input| >= n ==>
      && Host16(input[..n], 3) == n - HEAD_SIZE
      && Packet(Host16(input[..n], 1), input[..n][HEAD_SIZE..n]) == sent[0]
      && input == Frame(sent[0]) + input[n..] && input[n..] <= Frames(sent[1..])
  {
    var f := Frame(sent[0]);
    assert forall i :: 0 <= i < |input| ==> input[i] == Frames(sent)[i];
    HeaderBack(sent[0], input);
    if |input| >= |f| {
      HeaderBack(sent[0], input[..|f|]);
      assert input == f + input[|f|..];
      Tail(f, input[|f|..], Frames(sent[1..]));
    }
  }

  lemma OneMore(sent: seq<Packet>, k: nat)
    requires AllSendable(sent) && 0 < k <= |sent|
    ensures sent[..k] == [sent[0]] + sent[1..][..k - 1]
    ensures Frames(sent[..k]) == Frame(sent[0]) + Frames(sent[1..][..k - 1])
  {
    assert sent[..k][1..] == sent[1..][..k - 1];
  }

  /** Above the low watermark only a packet that is too long is kept complete in the buffer. */
  ghost predicate Clear(low: nat, n: nat, rest: seq<Packet>)
    requires AllSendable(rest)
  {
    low <= n && rest != [] && |Frame(rest[0])| <= n ==> !Fits(rest[0])
  }

  // ----- any bytes

  /** What a run of the callback makes of the bytes: packets delivered, bytes that stay
      buffered, low watermark. */
  datatype Outcome = Outcome(packets: seq<Packet>, rest: Bytes, low: nat)

  /** The bytes f are one frame the receiver accepts, with the packet p in it: number, size
      of the body and size of the frame stand in the header with the high byte first. */
  predicate IsFrame(f: Bytes, p: Packet) {
    && HEAD_SIZE <= |f| <= PKG_MAX_SIZE && 256 * f[5] + f[6] == |f| && 256 * f[1] + f[2] == p.id
    && 256 * f[3] + f[4] == |p.body| && HEAD_SIZE + |p.body| <= |f| && f[HEAD_SIZE..HEAD_SIZE + |p.body|] == p.body
  }

  /** A complete frame stands at the front, and it is not too long. */
  predicate CanTake(input: Bytes) {
    |input| >= HEAD_SIZE && Host16(input, 5) <= |input| && Host16(input, 5) <= PKG_MAX_SIZE
  }

  /** Every frame that can be taken is as long as a header and holds its body.  Others make
      the callback read behind its copy of the frame. */
  predicate Sized(input: Bytes)
    decreases |input|
  {
    CanTake(input) ==> HEAD_SIZE + Host16(input, 3) <= Host16(input, 5) && Sized(input[Host16(input, 5)..])
  }

  function First(input: Bytes): Packet
    requires |input| >= HEAD_SIZE && |input| >= HEAD_SIZE + Host16(input, 3)
  {
    Packet(Host16(input, 1), input[HEAD_SIZE..HEAD_SIZE + Host16(input, 3)])
  }

  function Cut(input: Bytes, low: nat): Outcome
    requires Sized(input)
    decreases |input|
  {
    if |input| < HEAD_SIZE then Outcome([], input, HEAD_SIZE)
    else if |input| < Host16(input, 5) then Outcome([], input, Host16(input, 5))
    else if Host16(input, 5) > PKG_MAX_SIZE then Outcome([], input, low)
    else if |input| == Host16(input, 5) then Outcome([First(input)], [], low)
    else var r := Cut(input[Host16(input, 5)..], low); r.(packets := [First(input)] + r.packets)
  }

  /** The header of a copy is the header in the buffer. */
  lemma HeadSame(input: Bytes, n: nat)
    requires HEAD_SIZE <= n <= |input|
    ensures forall i :: 0 <= i < HEAD_SIZE - 1 ==> Host16(input[..n], i) == Host16(input, i)
    ensures forall m :: HEAD_SIZE <= m <= n ==> input[..n][HEAD_SIZE..m] == input[HEAD_SIZE..m]
  {
  }

  /** The first n bytes are an accepted frame exactly when they can be taken. */
  lemma TakesFrame(input: Bytes, n: nat, p: Packet)
    requires n <= |input| && (CanTake(input) ==> HEAD_SIZE + Host16(input, 3) <= Host16(input, 5))
    ensures IsFrame(input[..n], p) <==> CanTake(input) && n == Host16(input, 5) && p == First(input)
  {
    if n >= HEAD_SIZE {
      HeadSame(input, n);
      HostIs(input[..n]);
      hide Host16;
      if IsFrame(input[..n], p) { assert p.body == input[HEAD_SIZE..HEAD_SIZE + |p.body|]; }
    }
  }

  /** The packets are those of a run of accepted frames at the front of the input, and behind
      them no complete accepted frame begins. */
  ghost predicate Takes(input: Bytes, packets: seq<Packet>, rest: Bytes) {
    && (exists fs: seq<Bytes> ::
          |fs| == |packets| && input == Flat(fs) + rest && forall i :: 0 <= i < |fs| ==> IsFrame(fs[i], packets[i]))
    && (forall n, p :: 0 <= n <= |rest| ==> !IsFrame(rest[..n], p))
  }

  /** The low watermark when `rest` stays of the input: a whole header, or the whole frame
      whose header is there; unchanged when nothing stays or the frame is too long. */
  function Wanted(input: Bytes, rest: Bytes, low: nat): nat {
    if |rest| >= HEAD_SIZE then
      if 256 * rest[5] + rest[6] > |rest| then 256 * rest[5] + rest[6] else low
    else if rest != [] || input == [] then HEAD_SIZE
    else low
  }

  function Flat(fs: seq<Bytes>): Bytes {
    if fs == [] then [] else fs[0] + Flat(fs[1..])
  }

  /** For any bytes: the packets delivered are those of a run of accepted frames at their
      front, and behind these frames no complete accepted frame begins. */
  lemma {:induction false} CutMeans(input: Bytes, low: nat)
    requires Sized(input)
    ensures var r := Cut(input, low);
      Takes(input, r.packets, r.rest) && r.low == Wanted(input, r.rest, low)
    decreases |input|
  {
    hide Host16, IsFrame, First;
    var r := Cut(input, low);
    var fs := CutFrom(input, low);
    HostIs(r.rest);
    if CanTake(input) && |input| > Host16(input, 5) { CutMeans(input[Host16(input, 5)..], low); }
  }

  lemma HostIs(b: Bytes)
    ensures |b| >= HEAD_SIZE ==>
        Host16(b, 1) == 256 * b[1] + b[2] && Host16(b, 3) == 256 * b[3] + b[4] && Host16(b, 5) == 256 * b[5] + b[6]
  {
  }

  lemma {:induction false} CutFrom(input: Bytes, low: nat) returns (fs: seq<Bytes>)
    requires Sized(input)
    ensures var r := Cut(input, low);
      && |fs| == |r.packets| && input == Flat(fs) + r.rest
      && (forall i :: 0 <= i < |fs| ==> IsFrame(fs[i], r.packets[i]))
      && (forall n, p :: 0 <= n <= |r.rest| ==> !IsFrame(r.rest[..n], p))
    decreases |input|
  {
    hide Host16, IsFrame, First;
    fs := [];
    if CanTake(input) {
      var n := Host16(input, 5);
      TakesFrame(input, n, First(input));
      var gs := [];
      if |input| == n { NoFrame([]); } else { gs := CutFrom(input[n..], low); }
      fs := [input[..n]] + gs;
      assert fs[1..] == gs && input == input[..n] + input[n..];
    } else {
      NoFrame(input);
    }
  }

  lemma NoFrame(input: Bytes)
    requires !CanTake(input)
    ensures forall n, p :: 0 <= n <= |input| ==> !IsFrame(input[..n], p)
  {
    forall n, p | 0 <= n <= |input|
      ensures !IsFrame(input[..n], p)
    {
      TakesFrame(input, n, p);
    }
  }

  /** Of the bytes that Send makes the whole acceptable frames are taken, in order. */
  lemma {:induction false} CutFrames(input: Bytes, sent: seq<Packet>, low: nat)
    requires AllSendable(sent) && input <= Frames(sent)
    ensures Sized(input)
    ensures var k, r := Whole(|input|, sent), Cut(input, low);
      r.packets == sent[..k] && Frames(sent[..k]) + r.rest == input && r.low == LowAfter(|input|, sent, low)
    decreases |input|
  {
    hide Frame, Frames, Host16;
    FramesEmpty();
    if |input| >= HEAD_SIZE { FirstFrame(input, sent); }
    if CanTake(input) {
      var n := Host16(input, 5);
      HeadSame(input, n);
      CutFrames(input[n..], sent[1..], low);
      OneMore(sent, Whole(|input|, sent));
    }
  }

  class Connection {
    var input: Bytes
    var low: nat
    /** The calls of cb_recv_. */
    var received: seq<Packet>

    constructor ()
      ensures input == [] && low == HEAD_SIZE && received == []
    {
      input, low, received := [], HEAD_SIZE, [];
    }

    /** conn_readcb. */
    method ReadCb()
      requires Sized(input)
      modifies this
      ensures var r := Cut(old(input), old(low));
        && received == old(received) + r.packets && input == r.rest && low == r.low
        && Takes(old(input), r.packets, input) && Wanted(old(input), input, old(low)) == low
      decreases |input|
    {
      hide Host16, Takes;
      CutMeans(input, low);
      if |input| < HEAD_SIZE {
        low := HEAD_SIZE;
        return;
      }
      var pkgSize := Host16(input, 5);
      if |input| < pkgSize {
        low := pkgSize;
        return;
      }
      if pkgSize > PKG_MAX_SIZE { return; }
      HeadSame(input, pkgSize);
      var buf := input[..pkgSize];
      input := input[pkgSize..];
      var bodySize := Host16(buf, 3);
      received := received + [Packet(Host16(buf, 1), buf[HEAD_SIZE..HEAD_SIZE + bodySize])];
      if |input| > 0 {
        ReadCb();
      }
    }

    /** Bytes arrive; libevent runs the callback when the low watermark is reached. */
    method Arrive(chunk: Bytes, ghost sent: seq<Packet>)
      requires AllSendable(sent) && received <= sent && Frames(received) + input + chunk <= Frames(sent)
      modifies this
      ensures received <= sent && Frames(received) + input == old(Frames(received) + input) + chunk
      ensures Clear(low, |input|, sent[|received|..])
      ensures Conn(|Frames(sent[..|received|])| + |input|, |received|, low) ==
        Arrived(old(Conn(|Frames(sent[..|received|])| + |input|, |received|, low)), |chunk|, sent)
    {
      hide Frame, Frames, Whole, LowAfter, Host16, Cut, Sized, Takes;
      input := input + chunk;
      ghost var d := |received|;
      assert sent[..d] == received;
      FramesSplit(sent, d);
      Tail(Frames(received), input, Frames(sent[d..]));
      if |input| >= low {
        ghost var input0, k := input, Whole(|input|, sent[d..]);
        CutFrames(input, sent[d..], low);
        ReadCb();
        assert received == sent[..d + k];
        FramesSplit(received, d);
        assert received[..d] == sent[..d] && received[d..] == sent[d..][..k];
        WholeIsLongest(|input0|, sent[d..]);
        assert sent[d..][k..] == sent[d + k..];
      }
    }
  }

  /** Send: the buffer handed to libevent. */
  method Send(p: Packet) returns (buf: array<nat>)
    requires Sendable(p)
    ensures fresh(buf) && buf[..] == Frame(p) && buf.Length == HEAD_SIZE + |p.body|
    ensures buf[0] == 1 && buf[HEAD_SIZE..] == p.body && forall i :: 0 <= i < HEAD_SIZE ==> buf[i] < 256
    ensures 256 * buf[1] + buf[2] == p.id && 256 * buf[3] + buf[4] == |p.body|
    ensures 256 * buf[5] + buf[6] == HEAD_SIZE + |p.body|
  {
    FrameBytes(p);
    var total := HEAD_SIZE + |p.body|;
    buf := new nat[total];
    buf[0] := 1;
    buf[1], buf[2] := p.id / 256, p.id % 256;
    buf[3], buf[4] := |p.body| / 256, |p.body| % 256;
    buf[5], buf[6] := total / 256, total % 256;
    for i := 0 to |p.body|
      invariant buf[..HEAD_SIZE + i] == Frame(p)[..HEAD_SIZE + i]
    {
      buf[HEAD_SIZE + i] := p.body[i];
    }
    assert Frame(p)[..total] == Frame(p) && buf[..] == buf[..total];
  }

  /** A receiver as numbers: bytes arrived, packets delivered, low watermark. */
  datatype Conn = Conn(got: nat, count: nat, low: nat)

  ghost predicate Sane(c: Conn, ps: seq<Packet>) {
    AllSendable(ps) && c.count <= |ps| && |Frames(ps[..c.count])| <= c.got
  }

  function Arrived(c: Conn, n: nat, ps: seq<Packet>): Conn
    requires Sane(c, ps)
  {
    var pending := c.got + n - |Frames(ps[..c.count])|;
    if pending < c.low then Conn(c.got + n, c.count, c.low)
    else Conn(c.got + n, c.count + Whole(pending, ps[c.count..]), LowAfter(pending, ps[c.count..], c.low))
  }

  /** The next packet lies complete in the buffer. */
  ghost predicate Waiting(c: Conn, ps: seq<Packet>)
    requires Sane(c, ps)
  {
    c.count < |ps| && |Frames(ps[..c.count])| + |Frame(ps[c.count])| <= c.got
  }

  /** After bytes have arrived a complete packet waits in the buffer if and only if it
      waited or was completed while the low watermark was above what was there, or it is
      the first that is too long. */
  lemma WaitsIff(c: Conn, n: nat, ps: seq<Packet>)
    requires Sane(c, ps)
    ensures var d := Arrived(c, n, ps); var held := Conn(c.got + n, c.count, c.low);
      && Sane(d, ps) && Sane(held, ps)
      && (Waiting(d, ps) <==>
           if c.got + n - |Frames(ps[..c.count])| < c.low then Waiting(held, ps)
           else d.count < |ps| && !Fits(ps[d.count]) && |Frames(ps[..d.count + 1])| <= c.got + n)
  {
    hide Frames, Frame, Whole, LowAfter, Fits;
    var rest := ps[c.count..];
    var pending: nat := c.got + n - |Frames(ps[..c.count])|;
    WholeIsLongest(pending, rest);
    var k := Whole(pending, rest);
    FramesTo(ps, c.count, k);
    if c.count + k < |ps| { FramesNext(ps, c.count + k); }
  }

  lemma FramesTo(ps: seq<Packet>, m: nat, k: nat)
    requires AllSendable(ps) && m + k <= |ps|
    ensures |Frames(ps[..m + k])| == |Frames(ps[..m])| + |Frames(ps[m..][..k])|
  {
    FramesSplit(ps[..m + k], m);
    assert ps[..m + k][..m] == ps[..m] && ps[..m + k][m..] == ps[m..][..k];
  }

  lemma FramesNext(ps: seq<Packet>, m: nat)
    requires AllSendable(ps) && m < |ps|
    ensures |Frames(ps[..m + 1])| == |Frames(ps[..m])| + |Frame(ps[m])|
  {
    FramesTo(ps, m, 1);
    assert ps[m..][..1] == [ps[m]];
    OneFrame(ps[m]);
  }

  lemma OneFrame(p: Packet)
    requires Sendable(p)
    ensures Frames([p]) == Frame(p)
  {
    assert [p][1..] == [];
  }

  function Joined(chunks: seq<Bytes>): Bytes {
    if chunks == [] then [] else Joined(chunks[..|chunks| - 1]) + chunks[|chunks| - 1]
  }

  lemma {:induction false} JoinedPrefix(chunks: seq<Bytes>, i: nat)
    requires i <= |chunks|
    ensures Joined(chunks[..i]) <= Joined(chunks)
    decreases |chunks| - i
  {
    if i == |chunks| {
      assert chunks[..i] == chunks;
    } else {
      assert chunks[..i + 1][..i] == chunks[..i];
      JoinedPrefix(chunks, i + 1);
    }
  }

  /** A whole connection: what was sent arrives in chunks of any size.  What has been
      delivered is always a prefix of what was sent, nothing is lost or changed, and a
      complete packet is only held back by the watermark or by being too long. */
  method Receive(sent: seq<Packet>, chunks: seq<Bytes>) returns (conn: Connection)
    requires AllSendable(sent) && Joined(chunks) <= Frames(sent)
    ensures fresh(conn) && conn.received <= sent && Frames(conn.received) + conn.input == Joined(chunks)
    ensures conn.low <= |conn.input| && |conn.received| < |sent| && |Frame(sent[|conn.received|])| <= |conn.input| ==>
        !Fits(sent[|conn.received|])
  {
    hide Frame, Frames, Whole, LowAfter, Host16, Fits, Arrived;
    conn := new Connection();
    FramesEmpty();
    for i := 0 to |chunks|
      invariant fresh(conn) && conn.received <= sent && Frames(conn.received) + conn.input == Joined(chunks[..i])
      invariant Clear(conn.low, |conn.input|, sent[|conn.received|..])
    {
      assert chunks[..i + 1][..i] == chunks[..i];
      JoinedPrefix(chunks, i + 1);
      conn.Arrive(chunks[i], sent);
    }
    assert chunks[..|chunks|] == chunks;
  }

  /** The watermark of a long packet stays when the packet has been delivered: a short one
      that follows is complete and waits. */
  lemma ShortPacketWaits()
    ensures var ps := [Packet(1, seq(100, _ => 0)), Packet(2, [])];
      var c := Arrived(Arrived(Conn(0, 0, HEAD_SIZE), 7, ps), 100, ps);
      c == Conn(107, 1, 107) && Arrived(c, 7, ps) == Conn(114, 1, 107) && |Frames(ps)| == 114
  {
    var a, b := Packet(1, seq(100, _ => 0)), Packet(2, []);
    var ps := [a, b];
    assert ps[..0] == [] && ps[0..] == ps && ps[..1] == [a] && ps[1..] == [b] && [a][1..] == [] && [b][1..] == [];
    assert Frames([b]) == Frame(b) + [] && Frames([a]) == Frame(a) + [];
    assert Arrived(Conn(0, 0, HEAD_SIZE), 7, ps) == Conn(7, 0, 107);
    assert Whole(107, ps) == 1 + Whole(0, [b]);
    assert Arrived(Conn(7, 0, 107), 100, ps) == Conn(107, 1, 107);
  }
}
