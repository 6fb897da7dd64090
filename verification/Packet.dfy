/** Packets between two ends that share a Shannon key: src/lib/packet.c.

    The writer takes a nonce from its counter, encrypts header and payload in one call and
    appends a four-byte tag.  The reader decrypts three bytes to learn the length, then the
    payload and the tag together.  Nothing but the counters keeps the two in step. */
module PacketLayer {
  import opened Words
  import opened Shannon

  /** The unsigned short of the length field. */
  datatype Length = Length(bits: bv16)

  function Size(len: Length): nat {
    len.bits as nat
  }

  datatype Packet = Packet(cmd: Byte, len: Length, payload: seq<Byte>) {
    predicate Valid() {
      |payload| == Size(len)
    }
  }

  const MAC_SIZE := 4

  function NextIv(iv: Word): Word {
    Word(iv.bits + 1)
  }

  function High(len: Length): Byte {
    Byte((len.bits >> 8) as bv8)
  }

  function Low(len: Length): Byte {
    Byte((len.bits & 0xFF) as bv8)
  }

  /** The length of a header that has been decrypted. */
  function HeaderLength(high: Byte, low: Byte): Length {
    Length(((high.bits as bv16) << 8) | (low.bits as bv16))
  }

  lemma LengthRoundTrip(len: Length)
    ensures HeaderLength(High(len), Low(len)) == len
  {
  }

  function Header(p: Packet): (h: seq<Byte>)
    ensures |h| == 3
  {
    [p.cmd, High(p.len), Low(p.len)]
  }

  /** What goes over the wire for packet `p` when the counter stands at `iv`. */
  function OnWire(initR: Register, iv: Word, p: Packet): seq<Byte> {
    var st := Start(initR, BigBytes(iv));
    var plain := Header(p) + p.payload;
    Encrypted(st, plain) + Tag(Absorbed(st, plain), MAC_SIZE)
  }

  /** Outcome of reading one packet: `body` is the payload followed by the decrypted tag. */
  datatype ReadResult =
    | ShortHeader
    | ShortBody
    | Got(cmd: Byte, len: Length, body: seq<Byte>, rest: seq<Byte>)

  function ReadFrom(initR: Register, iv: Word, wire: seq<Byte>): (r: ReadResult)
    ensures r.Got? ==> |r.body| == Size(r.len) + MAC_SIZE
  {
    if |wire| < 3 then ShortHeader else
      var st := Start(initR, BigBytes(iv));
      var h := Decrypted(st, wire[..3]);
      var len := HeaderLength(h[1], h[2]);
      var n := Size(len) + MAC_SIZE;
      if |wire| - 3 < n then ShortBody
      else Got(h[0], len, Decrypted(Absorbed(st, h), wire[3..3 + n]), wire[3 + n..])
  }

  lemma HeadOfThree<T>(a: seq<T>, b: seq<T>, c: seq<T>, rest: seq<T>)
    ensures var wire := a + b + c + rest;
            && wire[..|a|] == a
            && wire[|a|..|a| + (|b| + |c|)] == b + c
            && wire[|a| + (|b| + |c|)..] == rest
  {
  }

  /** One packet: the reader recovers exactly what the writer was given, and leaves the
      bytes of the next packet alone. */
  lemma ReadInvertsWrite(initR: Register, iv: Word, p: Packet, rest: seq<Byte>)
    requires p.Valid()
    ensures var r := ReadFrom(initR, iv, OnWire(initR, iv, p) + rest);
            && r.Got? && r.cmd == p.cmd && r.len == p.len && r.rest == rest
            && r.body[..|p.payload|] == p.payload
  {
    hide Start, Absorbed, Encrypted, Decrypted, Tag, HeaderLength, High, Low, Size;
    var st := Start(initR, BigBytes(iv));
    var h := Header(p);
    var next := Absorbed(st, h);
    var eh, ep := Encrypted(st, h), Encrypted(next, p.payload);
    var tag := Tag(Absorbed(st, h + p.payload), MAC_SIZE);
    ChunksAgree(st, h, p.payload);
    var wire := OnWire(initR, iv, p) + rest;
    assert wire == eh + ep + tag + rest;
    HeadOfThree(eh, ep, tag, rest);
    DecryptInvertsEncrypt(st, h);
    LengthRoundTrip(p.len);
    BodyReads(next, p.payload, tag);
  }

  lemma BodyReads(st: State, payload: seq<Byte>, tag: seq<Byte>)
    requires Ok(st)
    ensures Decrypted(st, Encrypted(st, payload) + tag)[..|payload|] == payload
  {
    hide Absorbed, Encrypted, Decrypted;
    DecryptChunksAgree(st, Encrypted(st, payload), tag);
    DecryptInvertsEncrypt(st, payload);
  }

  // ------------------------------------------------------------------ a run of one link

  /** One direction of a connection: what the writer was given, what the reader returned,
      both counters, and the bytes that are on their way. */
  datatype Link = Link(initR: Register, sendIV: Word, recvIV: Word, wire: seq<Byte>,
                       sent: seq<Packet>, received: seq<Packet>)

  datatype Event = Send(p: Packet) | Receive

  function Idle(initR: Register): Link {
    Link(initR, Word(0), Word(0), [], [], [])
  }

  /** A reader that finds too few bytes waits: the state does not change. */
  function Step(l: Link, e: Event): Link {
    match e
    case Send(p) =>
      l.(sendIV := NextIv(l.sendIV), wire := l.wire + OnWire(l.initR, l.sendIV, p), sent := l.sent + [p])
    case Receive =>
      match ReadFrom(l.initR, l.recvIV, l.wire)
      case Got(cmd, len, body, rest) =>
        l.(recvIV := NextIv(l.recvIV), wire := rest,
           received := l.received + [Packet(cmd, len, body[..Size(len)])])
      case _ => l
  }

  function Run(l: Link, events: seq<Event>): Link {
    if events == [] then l else Step(Run(l, events[..|events| - 1]), events[|events| - 1])
  }

  function IvAfter(n: nat): Word {
    if n == 0 then Word(0) else NextIv(IvAfter(n - 1))
  }

  /** The encodings of `ps`, the first of them under the counter value `n`. */
  function InFlight(initR: Register, n: nat, ps: seq<Packet>): seq<Byte>
    decreases |ps|
  {
    if ps == [] then [] else OnWire(initR, IvAfter(n), ps[0]) + InFlight(initR, n + 1, ps[1..])
  }

  lemma {:induction false} InFlightAppend(initR: Register, n: nat, ps: seq<Packet>, p: Packet)
    ensures InFlight(initR, n, ps + [p]) == InFlight(initR, n, ps) + OnWire(initR, IvAfter(n + |ps|), p)
    decreases |ps|
  {
    hide OnWire;
    if ps == [] {
      assert (ps + [p])[1..] == [];
    } else {
      assert (ps + [p])[1..] == ps[1..] + [p];
      InFlightAppend(initR, n + 1, ps[1..], p);
      assert n + 1 + |ps[1..]| == n + |ps|;
    }
  }

  ghost predicate InStep(l: Link, initR: Register) {
    && l.initR == initR
    && (forall p <- l.sent :: p.Valid())
    && |l.received| <= |l.sent| && l.received == l.sent[..|l.received|]
    && l.sendIV == IvAfter(|l.sent|) && l.recvIV == IvAfter(|l.received|)
    && l.wire == InFlight(initR, |l.received|, l.sent[|l.received|..])
  }

  lemma SendKeepsInStep(l: Link, initR: Register, p: Packet)
    requires InStep(l, initR) && p.Valid()
    ensures InStep(Step(l, Send(p)), initR)
  {
    hide OnWire, NextIv;
    var k := |l.received|;
    assert (l.sent + [p])[k..] == l.sent[k..] + [p];
    assert (l.sent + [p])[..k] == l.sent[..k];
    InFlightAppend(initR, k, l.sent[k..], p);
    assert k + |l.sent[k..]| == |l.sent|;
    assert IvAfter(|l.sent| + 1) == NextIv(IvAfter(|l.sent|));
  }

  /** With a packet on its way, a read takes the oldest one. */
  lemma ReceiveTakesOldest(l: Link, p: Packet, rest: seq<Byte>)
    requires p.Valid() && l.wire == OnWire(l.initR, l.recvIV, p) + rest
    ensures Step(l, Receive) == l.(recvIV := NextIv(l.recvIV), wire := rest, received := l.received + [p])
  {
    hide ReadFrom, OnWire, NextIv, Size;
    ReadInvertsWrite(l.initR, l.recvIV, p, rest);
    var r := ReadFrom(l.initR, l.recvIV, l.wire);
    assert Size(r.len) == |p.payload|;
    assert Packet(r.cmd, r.len, r.body[..Size(r.len)]) == p;
  }

  lemma ReceiveKeepsInStep(l: Link, initR: Register)
    requires InStep(l, initR)
    ensures InStep(Step(l, Receive), initR)
    ensures |l.received| < |l.sent| ==> Step(l, Receive).received == l.sent[..|l.received| + 1]
  {
    hide OnWire, NextIv, Step, Size;
    var k := |l.received|;
    var waiting := l.sent[k..];
    if waiting == [] {
      EmptyWireWaits(l);
    } else {
      var p := waiting[0];
      assert p in l.sent;
      ReceiveTakesOldest(l, p, InFlight(initR, k + 1, waiting[1..]));
      assert waiting[1..] == l.sent[k + 1..];
      assert l.sent[..k + 1] == l.sent[..k] + [p];
    }
  }

  lemma EmptyWireWaits(l: Link)
    requires l.wire == []
    ensures Step(l, Receive) == l
  {
    hide Start, Decrypted;
  }

  /** Over any run: the packets returned are the first packets written, with command,
      length and payload unchanged; both counters count packets; and once everything sent
      has been received the counters are equal and the wire is empty. */
  lemma {:induction false} RunDelivers(initR: Register, events: seq<Event>)
    requires forall e <- events :: e.Send? ==> e.p.Valid()
    ensures var l := Run(Idle(initR), events);
            && InStep(l, initR)
            && (|l.received| == |l.sent| ==> l.received == l.sent && l.recvIV == l.sendIV && l.wire == [])
  {
    hide Step, OnWire;
    if events != [] {
      var front, last := events[..|events| - 1], events[|events| - 1];
      RunDelivers(initR, front);
      var l := Run(Idle(initR), front);
      match last
      case Send(p) => SendKeepsInStep(l, initR, p);
      case Receive => ReceiveKeepsInStep(l, initR);
    }
    var l := Run(Idle(initR), events);
    assert InStep(l, initR);
    if |l.received| == |l.sent| {
      assert l.sent[|l.received|..] == [] && l.sent[..|l.received|] == l.sent;
    }
  }

  function Outstanding(l: Link): (n: int) {
    |l.sent| - |l.received|
  }

  /** A reader that keeps reading gets everything: with packets outstanding, the next read
      succeeds and leaves one fewer. */
  lemma ReadProgresses(initR: Register, events: seq<Event>)
    requires forall e <- events :: e.Send? ==> e.p.Valid()
    ensures var l := Run(Idle(initR), events);
            Outstanding(l) > 0 ==> Outstanding(Step(l, Receive)) == Outstanding(l) - 1
  {
    hide OnWire, Step;
    RunDelivers(initR, events);
    var l := Run(Idle(initR), events);
    ReceiveKeepsInStep(l, initR);
    if Outstanding(l) > 0 {
      StepKeepsSent(l);
    }
  }

  lemma StepKeepsSent(l: Link)
    ensures Step(l, Receive).sent == l.sent
  {
    hide ReadFrom, NextIv;
  }

  // ------------------------------------------------------------------------ the session

  /** A connected socket: what will still arrive before the peer closes, what has been
      written, and how many more bytes it accepts before it fails. */
  class Socket {
    var incoming: seq<Byte>
    var outgoing: seq<Byte>
    var room: nat

    constructor (incoming: seq<Byte>, room: nat)
      ensures this.incoming == incoming && outgoing == [] && this.room == room
    {
      this.incoming, this.outgoing, this.room := incoming, [], room;
    }

    method BlockRead(buf: array<Byte>) returns (ret: nat)
      modifies this`incoming, buf
      ensures ret == if |old(incoming)| < buf.Length then |old(incoming)| else buf.Length
      ensures buf[..ret] == old(incoming)[..ret] && incoming == old(incoming)[ret..]
    {
      ret := if |incoming| < buf.Length then |incoming| else buf.Length;
      forall i | 0 <= i < ret {
        buf[i] := incoming[i];
      }
      incoming := incoming[ret..];
    }

    method BlockWrite(buf: array<Byte>) returns (ret: nat)
      modifies this`outgoing, this`room
      ensures ret == if old(room) < buf.Length then old(room) else buf.Length
      ensures outgoing == old(outgoing) + buf[..ret] && room == old(room) - ret
    {
      ret := if room < buf.Length then room else buf.Length;
      outgoing := outgoing + buf[..ret];
      room := room - ret;
    }
  }

  class Session {
    const apSock: Socket
    const shnSend: Shn
    const shnRecv: Shn
    var keySendIV: Word
    var keyRecvIV: Word

    ghost predicate Valid()
      reads this, shnSend, shnRecv
    {
      && shnSend != shnRecv && shnSend.Valid() && shnRecv.Valid()
      && {shnSend.R, shnSend.CRC, shnSend.initR} !! {shnRecv.R, shnRecv.CRC, shnRecv.initR}
    }

    constructor (apSock: Socket)
      ensures Valid() && this.apSock == apSock && keySendIV == Word(0) == keyRecvIV
    {
      this.apSock := apSock;
      shnSend := new Shn();
      shnRecv := new Shn();
      keySendIV, keyRecvIV := Word(0), Word(0);
    }

    /** A fresh buffer with header and payload, and room for the tag.  Without a payload
        pointer the payload is whatever the fresh buffer holds. */
    method Frame(cmd: Byte, payload: array?<Byte>, len: Length) returns (buf: array<Byte>, ghost sent: Packet)
      requires payload != null ==> Size(len) <= payload.Length
      ensures fresh(buf) && buf.Length == 3 + Size(len) + MAC_SIZE
      ensures sent.Valid() && sent.cmd == cmd && sent.len == len
      ensures payload != null ==> sent.payload == payload[..Size(len)]
      ensures buf[..3 + Size(len)] == Header(sent) + sent.payload
    {
      hide High, Low, Size;
      var n := Size(len);
      buf := new Byte[3 + n + MAC_SIZE];
      buf[0], buf[1], buf[2] := cmd, High(len), Low(len);
      if payload != null {
        forall i | 0 <= i < n {
          buf[3 + i] := payload[i];
        }
      }
      sent := Packet(cmd, len, buf[3..3 + n]);
      assert buf[..3 + n] == buf[..3] + buf[3..3 + n];
    }

    /** Encrypt all but the last four bytes and put the tag there. */
    method Seal(buf: array<Byte>, n: nat)
      requires Valid() && buf.Length == n + MAC_SIZE
      modifies shnSend, shnSend.R, shnSend.CRC, buf
      ensures Valid()
      ensures var st := Start(shnSend.initR[..], BigBytes(keySendIV));
              var plain := old(buf[..n]);
              buf[..] == Encrypted(st, plain) + Tag(Absorbed(st, plain), MAC_SIZE)
    {
      hide Start, Absorbed, Encrypted, Tag, BigBytes;
      shnSend.Nonce(BigBytes(keySendIV));
      ghost var st, plain := shnSend.Abs(), buf[..n];
      assert buf[0..0 + n] == plain;
      shnSend.Encrypt(buf, 0, n);
      shnSend.Finish(buf, n, MAC_SIZE);
    }

    /** Write one packet; `sent` is the packet that goes out. */
    method PacketWrite(cmd: Byte, payload: array?<Byte>, len: Length) returns (ret: int, ghost sent: Packet)
      requires Valid() && (payload != null ==> Size(len) <= payload.Length)
      modifies this`keySendIV, shnSend, shnSend.R, shnSend.CRC, apSock
      ensures Valid()
      ensures sent.Valid() && sent.cmd == cmd && sent.len == len
      ensures payload != null ==> sent.payload == payload[..Size(len)]
      ensures var wire := OnWire(shnSend.initR[..], old(keySendIV), sent);
              var n := if old(apSock.room) < |wire| then old(apSock.room) else |wire|;
              && apSock.outgoing == old(apSock.outgoing) + wire[..n]
              && ret == (if n == |wire| then 0 else -1)
      ensures keySendIV == NextIv(old(keySendIV)) && apSock.incoming == old(apSock.incoming)
    {
      hide Start, Absorbed, Encrypted, Tag, BigBytes, NextIv, Header, Size;
      var buf;
      buf, sent := Frame(cmd, payload, len);
      Seal(buf, buf.Length - MAC_SIZE);
      var written := apSock.BlockWrite(buf);
      keySendIV := NextIv(keySendIV);
      ret := if written != buf.Length then -1 else 0;
    }

    /** Decrypt a header with the register started from the receive counter. */
    method OpenHeader(h: array<Byte>)
      requires Valid() && h.Length == 3
      modifies shnRecv, shnRecv.R, shnRecv.CRC, h
      ensures Valid()
      ensures var st := Start(shnRecv.initR[..], BigBytes(keyRecvIV));
              h[..] == Decrypted(st, old(h[..])) && shnRecv.Abs() == Absorbed(st, h[..])
    {
      hide Start, Absorbed, Decrypted, BigBytes;
      shnRecv.Nonce(BigBytes(keyRecvIV));
      assert h[0..0 + 3] == h[..];
      shnRecv.Decrypt(h, 0, 3);
    }

    /** Decrypt a whole buffer, going on from the header. */
    method OpenBody(b: array<Byte>)
      requires Valid()
      modifies shnRecv, shnRecv.R, shnRecv.CRC, b
      ensures Valid() && b[..] == Decrypted(old(shnRecv.Abs()), old(b[..]))
    {
      hide Absorbed, Decrypted;
      assert b[0..0 + b.Length] == b[..];
      shnRecv.Decrypt(b, 0, b.Length);
    }

    /** Read one packet; the payload is returned with its four tag bytes behind it. */
    method PacketRead() returns (ret: int, cmd: Byte, len: Length, payload: array?<Byte>)
      requires Valid()
      modifies this`keyRecvIV, shnRecv, shnRecv.R, shnRecv.CRC, apSock
      ensures Valid()
      ensures var r := ReadFrom(shnRecv.initR[..], old(keyRecvIV), old(apSock.incoming));
              && ret == (if r.Got? then 0 else -1)
              && keyRecvIV == (if r.Got? then NextIv(old(keyRecvIV)) else old(keyRecvIV))
              && (r.Got? ==> && cmd == r.cmd && len == r.len && apSock.incoming == r.rest
                             && payload != null && payload[..] == r.body)
      ensures apSock.outgoing == old(apSock.outgoing) && apSock.room == old(apSock.room)
    {
      hide Start, Absorbed, Decrypted, BigBytes, NextIv, HeaderLength, Size;
      ghost var wire := apSock.incoming;
      ghost var r := ReadFrom(shnRecv.initR[..], keyRecvIV, wire);
      ret, cmd, len, payload := -1, Byte(0), Length(0), null;
      var h := new Byte[3];
      var got := apSock.BlockRead(h);
      if got != 3 {
        assert !r.Got?;
        return;
      }
      assert h[..] == h[..3] == wire[..3];
      OpenHeader(h);
      cmd, len := h[0], HeaderLength(h[1], h[2]);
      assert r.Got? ==> cmd == r.cmd && len == r.len;
      var n := Size(len) + MAC_SIZE;
      payload := new Byte[n];
      var body := apSock.BlockRead(payload);
      if body != n {
        assert !r.Got?;
        return;
      }
      assert payload[..] == payload[..n] == wire[3..3 + n];
      OpenBody(payload);
      assert r.Got? && payload[..] == r.body && apSock.incoming == r.rest;
      hide ReadFrom;
      keyRecvIV := NextIv(keyRecvIV);
      ret := 0;
    }
  }
}
