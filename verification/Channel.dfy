/** The channel registry and framing of src/lib/channel.c. */
module ChannelRegistry {
  import Words

  type Octet = b: int | 0 <= b < 256
  type Count = n: int | 0 <= n < 0x1_0000_0000

  datatype Phase = Header | Data | End | Error

  /** A channel; `serial` tells apart channels that get the same id one after the other. */
  datatype Chan = Chan(serial: nat, id: int, headerId: Count, phase: Phase, headerLen: Count, dataLen: Count)

  /** One call of a channel's callback: the state it finds, and the bytes it gets. */
  datatype Event = Event(serial: nat, phase: Phase, bytes: seq<Octet>)

  /** The registry: the list from its head, the next id to hand out, how many channels there
      were, and all calls so far. */
  datatype Reg = Reg(chans: seq<Chan>, next: int, serials: nat, log: seq<Event>)

  /** An unsigned int counter. */
  function Counted(total: Count, n: nat): Count {
    (total + n) % 0x1_0000_0000
  }

  // ------------------------------------------------------------- register and unregister

  /** The loop that lifts the next id above every channel of the list. */
  function Raised(chans: seq<Chan>, next: int): int {
    if chans == [] then next
    else Raised(chans[1..], if chans[0].id >= next then chans[0].id + 1 else next)
  }

  function Registered(r: Reg): Reg {
    Reg([Chan(r.serials, r.next, 0, Header, 0, 0)] + r.chans, Raised(r.chans, r.next + 1), r.serials + 1, r.log)
  }

  /** `spawn` registrations, one after the other. */
  function Spawned(r: Reg, spawn: nat): (s: Reg)
    ensures |s.chans| == spawn + |r.chans| && s.log == r.log && s.serials == r.serials + spawn
  {
    if spawn == 0 then r else Registered(Spawned(r, spawn - 1))
  }

  /** The new channels come in front. */
  lemma {:induction false} SpawnedIs(r: Reg, spawn: nat)
    ensures var s := Spawned(r, spawn);
      s.chans[spawn..] == r.chans && forall i :: 0 <= i < spawn ==> s.chans[i].serial >= r.serials
  {
    hide Raised;
    if spawn > 0 {
      SpawnedIs(r, spawn - 1);
      var s, t := Spawned(r, spawn - 1), Spawned(r, spawn);
      assert t.chans[spawn..] == s.chans[spawn - 1..];
    }
  }

  function Without(chans: seq<Chan>, i: nat): seq<Chan>
    requires i < |chans|
  {
    chans[..i] + chans[i + 1..]
  }

  function Unregistered(r: Reg, i: nat): Reg
    requires i < |r.chans|
  {
    var id := r.chans[i].id;
    r.(chans := Without(r.chans, i), next := if id < r.next then id else r.next)
  }

  /** The first channel with an id, or the length of the list. */
  function Find(chans: seq<Chan>, id: int): (i: nat)
    ensures i <= |chans|
    ensures i < |chans| ==> chans[i].id == id
    ensures forall k :: 0 <= k < i ==> chans[k].id != id
  {
    if chans == [] || chans[0].id == id then 0 else Find(chans[1..], id) + 1
  }

  predicate Distinct(chans: seq<Chan>) {
    forall i, j :: 0 <= i < j < |chans| ==> chans[i].id != chans[j].id && chans[i].serial != chans[j].serial
  }

  predicate NotLive(chans: seq<Chan>, id: int) {
    forall i :: 0 <= i < |chans| ==> chans[i].id != id
  }

  predicate Numbered(chans: seq<Chan>, serials: nat) {
    forall i :: 0 <= i < |chans| ==> 0 <= chans[i].id && chans[i].serial < serials
  }

  /** Live channels have different ids, and the next id to hand out is not live. */
  predicate Sound(r: Reg) {
    Distinct(r.chans) && NotLive(r.chans, r.next) && Numbered(r.chans, r.serials) && 0 <= r.next
  }

  lemma {:induction false} RaisedAbove(chans: seq<Chan>, next: int)
    ensures next <= Raised(chans, next)
    ensures forall i :: 0 <= i < |chans| ==> chans[i].id < Raised(chans, next)
  {
    if chans != [] {
      var raised := if chans[0].id >= next then chans[0].id + 1 else next;
      RaisedAbove(chans[1..], raised);
      forall i | 0 <= i < |chans|
        ensures chans[i].id < Raised(chans, next)
      {
        if i > 0 {
          assert chans[i] == chans[1..][i - 1];
        }
      }
    }
  }

  lemma RegisterSound(r: Reg)
    requires Sound(r)
    ensures Sound(Registered(r))
    ensures Registered(r).chans[0].id == r.next && NotLive(r.chans, Registered(r).chans[0].id)
  {
    hide Raised;
    RaisedAbove(r.chans, r.next + 1);
    var r' := Registered(r);
    forall i, j | 0 <= i < j < |r'.chans|
      ensures r'.chans[i].id != r'.chans[j].id && r'.chans[i].serial != r'.chans[j].serial
    {
      assert r'.chans[j] == r.chans[j - 1];
    }
  }

  lemma {:induction false} SpawnSound(r: Reg, spawn: nat)
    requires Sound(r)
    ensures Sound(Spawned(r, spawn))
  {
    if spawn > 0 {
      SpawnSound(r, spawn - 1);
      RegisterSound(Spawned(r, spawn - 1));
    }
  }

  lemma UnregisterSound(r: Reg, i: nat)
    requires Sound(r) && i < |r.chans|
    ensures Sound(Unregistered(r, i))
    ensures NotLive(Unregistered(r, i).chans, r.chans[i].id)
  {
    var rest := Without(r.chans, i);
    forall k | 0 <= k < |rest|
      ensures rest[k] == r.chans[if k < i then k else k + 1]
    {
    }
  }

  lemma {:induction false} RaisedReaches(chans: seq<Chan>, next: int)
    ensures Raised(chans, next) == next || exists i :: 0 <= i < |chans| && Raised(chans, next) == chans[i].id + 1
  {
    if chans != [] {
      var c := chans[0];
      var raised := if c.id >= next then c.id + 1 else next;
      RaisedReaches(chans[1..], raised);
      if Raised(chans, next) != raised {
        var i :| 0 <= i < |chans| - 1 && Raised(chans[1..], raised) == chans[1..][i].id + 1;
        assert chans[i + 1] == chans[1..][i];
      }
    }
  }

  /** What a registration leaves behind: the new channel has the id that was next and is at the
      head of the list, and the next id is the least above this one and every other live id. */
  lemma RegisterExactly(r: Reg, next: int)
    ensures var s := Registered(r);
      && s.chans == [Chan(r.serials, r.next, 0, Header, 0, 0)] + r.chans && s.log == r.log
      && s.serials == r.serials + 1
      && (s.next == next <==>
          && r.next < next && (forall i :: 0 <= i < |r.chans| ==> r.chans[i].id < next)
          && (next == r.next + 1 || exists i :: 0 <= i < |r.chans| && r.chans[i].id == next - 1))
  {
    hide Raised;
    RaisedAbove(r.chans, r.next + 1);
    RaisedReaches(r.chans, r.next + 1);
  }

  /** A removal takes the channel out of the list, and its id is handed out next when it is lower
      than the one that was next. */
  lemma FreedIdReused(r: Reg, i: nat)
    requires Sound(r) && i < |r.chans|
    ensures var s := Registered(Unregistered(r, i));
      s.chans[0].id == if r.chans[i].id < r.next then r.chans[i].id else r.next
    ensures |Unregistered(r, i).chans| == |r.chans| - 1
    ensures forall k :: 0 <= k < |r.chans| - 1 ==> Unregistered(r, i).chans[k] == r.chans[if k < i then k else k + 1]
  {
    hide Raised;
  }

  // ---------------------------------------------------------------------------- framing

  datatype Outcome = More | Last | Short | Abort

  /** The headers that one packet delivers, and how their loop ends: with the packet, at the
      header of size zero, for lack of bytes, or in a failed assertion. */
  datatype Headers = Headers(headers: seq<seq<Octet>>, outcome: Outcome)

  /** A big-endian size; behind an odd byte at the end of the packet the code reads the byte
      that follows the packet. */
  function SizeAt(body: seq<Octet>, at: nat): nat
    requires at + 2 <= |body|
  {
    var high: nat, low: nat := body[at], body[at + 1];
    high * 256 + low
  }

  function HeadersFrom(body: seq<Octet>, at: nat, len: nat): Headers
    requires len < |body|
    decreases len + 2 - at
  {
    if at >= len then Headers([], if at == len then More else Abort)
    else
      var size, start := SizeAt(body, at), at + 2;
      if size == 0 then Headers([], if start == len then Last else Abort)
      else if start + size > len then Headers([], Short)
      else
        var rest := HeadersFrom(body, start + size, len);
        rest.(headers := [body[start..start + size]] + rest.headers)
  }

  /** What a packet does to its channel. */
  datatype Delivery = Delivery(chan: Chan, events: seq<Event>, gone: bool, aborted: bool)

  function HeaderEvents(serial: nat, headers: seq<seq<Octet>>): (e: seq<Event>)
    ensures |e| == |headers|
  {
    seq(|headers|, i requires 0 <= i < |headers| => Event(serial, Header, headers[i]))
  }

  function TotalLength(pieces: seq<seq<Octet>>): nat {
    if pieces == [] then 0 else TotalLength(pieces[..|pieces| - 1]) + |pieces[|pieces| - 1]|
  }

  function CountHeaders(c: Chan, headers: seq<seq<Octet>>): Chan {
    c.(headerId := Counted(c.headerId, |headers|), headerLen := Counted(c.headerLen, TotalLength(headers)))
  }

  /** `len` is the size of the packet behind its id, `body` what is there, with what follows
      it in memory. */
  function Delivered(c: Chan, body: seq<Octet>, len: nat, error: bool): Delivery
    requires len < |body|
  {
    if !error && c.phase == Header then
      if len < 2 then Delivery(c, [], false, true)
      else
        var h := HeadersFrom(body, 0, len);
        var c' := CountHeaders(c, h.headers);
        Delivery(if h.outcome == Last then c'.(phase := Data) else c', HeaderEvents(c.serial, h.headers),
                 false, h.outcome == Abort)
    else
      var phase := if len == 0 then End else if error then Error else c.phase;
      Delivery(c.(phase := phase, dataLen := Counted(c.dataLen, len)), [Event(c.serial, phase, body[..len])],
               phase == End || phase == Error, false)
  }

  /** The id at the head of a packet. */
  function IdOf(buf: seq<Octet>): nat
    requires |buf| >= 2
  {
    SizeAt(buf, 0)
  }

  /** A packet that is headed by the two bytes of an id, most significant first, is for it. */
  lemma IdRead(id: nat, bytes: seq<Octet>)
    requires id < 0x1_0000
    ensures IdOf([id / 256, id % 256] + bytes) == id
  {
  }

  /** A packet: `len` bytes of `buf`, which goes on behind them. */
  predicate Packet(buf: seq<Octet>, len: nat) {
    2 <= len < |buf| && len < 0x1_0000
  }

  /** The channel at `i` has changed, and its callback was called. */
  function Noted(r: Reg, i: nat, d: Delivery): (n: Reg)
    requires i < |r.chans|
    ensures |n.chans| == |r.chans|
  {
    r.(chans := r.chans[i := d.chan], log := r.log + d.events)
  }

  /** `channel_process`; the callback may register `spawn` channels of its own. */
  function Processed(r: Reg, buf: seq<Octet>, len: nat, error: bool, spawn: nat): Reg
    requires Packet(buf, len)
  {
    var i := Find(r.chans, IdOf(buf));
    if i == |r.chans| then r else
      var d := Delivered(r.chans[i], buf[2..], len - 2, error);
      if !error && r.chans[i].phase == Header then Noted(r, i, d)
      else
        var r' := Spawned(Noted(r, i, d), spawn);
        if d.gone then Unregistered(r', spawn + i) else r'
  }

  // ----------------------------------------------------------------------------- every run

  /** `Process` carries what the packet's callback registers. */
  datatype Step =
    | Register
    | Unregister(at: nat)
    | Process(buf: seq<Octet>, len: nat, error: bool, spawn: nat)

  /** The channel that is unregistered is registered, a packet has an id, and its processing
      meets no failed assertion. */
  predicate Enabled(r: Reg, step: Step) {
    match step
    case Register => true
    case Unregister(at) => at < |r.chans|
    case Process(buf, len, error, _) =>
      && Packet(buf, len)
      && var i := Find(r.chans, IdOf(buf));
      i < |r.chans| ==> !Delivered(r.chans[i], buf[2..], len - 2, error).aborted
  }

  function Next(r: Reg, step: Step): Reg
    requires Enabled(r, step)
  {
    match step
    case Register => Registered(r)
    case Unregister(at) => Unregistered(r, at)
    case Process(buf, len, error, spawn) => Processed(r, buf, len, error, spawn)
  }

  predicate Legal(r: Reg, steps: seq<Step>)
    decreases |steps|
  {
    steps == [] || (Enabled(r, steps[0]) && Legal(Next(r, steps[0]), steps[1..]))
  }

  function Run(r: Reg, steps: seq<Step>): Reg
    requires Legal(r, steps)
    decreases |steps|
  {
    if steps == [] then r else Run(Next(r, steps[0]), steps[1..])
  }

  lemma UpdateSound(r: Reg, i: nat, c: Chan, log: seq<Event>)
    requires Sound(r) && i < |r.chans| && c.id == r.chans[i].id && c.serial == r.chans[i].serial
    ensures Sound(r.(chans := r.chans[i := c], log := log))
  {
  }

  lemma ProcessSound(r: Reg, buf: seq<Octet>, len: nat, error: bool, spawn: nat)
    requires Sound(r) && Packet(buf, len)
    ensures Sound(Processed(r, buf, len, error, spawn))
  {
    hide Sound, HeadersFrom;
    var i := Find(r.chans, IdOf(buf));
    if i < |r.chans| {
      var d := Delivered(r.chans[i], buf[2..], len - 2, error);
      UpdateSound(r, i, d.chan, r.log + d.events);
      var r1 := r.(chans := r.chans[i := d.chan], log := r.log + d.events);
      SpawnSound(r1, spawn);
      if d.gone {
        UnregisterSound(Spawned(r1, spawn), spawn + i);
      }
    }
  }

  lemma NextSound(r: Reg, step: Step)
    requires Sound(r) && Enabled(r, step)
    ensures Sound(Next(r, step))
  {
    hide Sound, Registered, Unregistered, Processed, Delivered;
    match step
    case Register => RegisterSound(r);
    case Unregister(at) => UnregisterSound(r, at);
    case Process(buf, len, error, spawn) => ProcessSound(r, buf, len, error, spawn);
  }

  /** In every run, live ids are distinct, and the next id to hand out is never live. */
  lemma {:induction false} RunSound(r: Reg, steps: seq<Step>)
    requires Sound(r) && Legal(r, steps)
    ensures Sound(Run(r, steps))
    decreases |steps|
  {
    hide Sound, Next, Enabled;
    if steps != [] {
      NextSound(r, steps[0]);
      RunSound(Next(r, steps[0]), steps[1..]);
    }
  }

  // --------------------------------------------------------------- what one channel sees

  /** The calls of one channel's callback. */
  function Mine(log: seq<Event>, serial: nat): seq<Event> {
    if log == [] then []
    else Mine(log[..|log| - 1], serial) + if log[|log| - 1].serial == serial then [log[|log| - 1]] else []
  }

  predicate AllOf(log: seq<Event>, serial: nat) {
    forall i :: 0 <= i < |log| ==> log[i].serial == serial
  }

  lemma {:induction false} MineAppend(log: seq<Event>, events: seq<Event>, owner: nat, serial: nat)
    requires AllOf(events, owner)
    ensures Mine(log + events, serial) == Mine(log, serial) + if owner == serial then events else []
  {
    if events == [] {
      assert log + events == log;
    } else {
      var n := |events| - 1;
      var all := log + events;
      assert all[..|all| - 1] == log + events[..n] && all[|all| - 1] == events[n];
      MineAppend(log, events[..n], owner, serial);
      assert events == events[..n] + [events[n]];
    }
  }

  predicate Gone(r: Reg, serial: nat) {
    forall i :: 0 <= i < |r.chans| ==> r.chans[i].serial != serial
  }

  /** The packet of a step is for a channel. */
  predicate For(step: Step, c: Chan) {
    step.Process? && Packet(step.buf, step.len) && IdOf(step.buf) == c.id
  }

  function Effect(c: Chan, step: Step): Delivery
    requires For(step, c)
  {
    Delivered(c, step.buf[2..], step.len - 2, step.error)
  }

  lemma FindLive(r: Reg, c: Chan)
    requires Sound(r) && c in r.chans
    ensures Find(r.chans, c.id) < |r.chans| && r.chans[Find(r.chans, c.id)] == c
  {
  }

  lemma DeliveryIsOwn(c: Chan, body: seq<Octet>, len: nat, error: bool)
    requires len < |body|
    ensures var d := Delivered(c, body, len, error);
      AllOf(d.events, c.serial) && d.chan.serial == c.serial && d.chan.id == c.id
  {
    hide HeadersFrom;
  }

  /** A packet for another channel: the list keeps what is at `k`, the log what is its own. */
  lemma PacketForAnother(r: Reg, step: Step, c: Chan, k: nat)
    requires Sound(r) && step.Process? && Enabled(r, step) && k < |r.chans| && r.chans[k] == c && !For(step, c)
    ensures c in Next(r, step).chans && Mine(Next(r, step).log, c.serial) == Mine(r.log, c.serial)
  {
    hide Delivered, Mine;
    var i := Find(r.chans, IdOf(step.buf));
    if i < |r.chans| {
      var d := Effect(r.chans[i], step);
      DeliveryIsOwn(r.chans[i], step.buf[2..], step.len - 2, step.error);
      MineAppend(r.log, d.events, r.chans[i].serial, c.serial);
      assert i != k && r.chans[i].serial != c.serial;
      var r1 := r.(chans := r.chans[i := d.chan], log := r.log + d.events);
      assert r1.chans[k] == c;
      if step.error || r.chans[i].phase != Header {
        var r2 := Spawned(r1, step.spawn);
        SpawnedIs(r1, step.spawn);
        assert r2.chans[step.spawn..][k] == c;
        if d.gone {
          OthersRemain(r2.chans, step.spawn + i, step.spawn + k);
        }
      }
    }
  }

  lemma OthersRemain(chans: seq<Chan>, i: nat, k: nat)
    requires i < |chans| && k < |chans| && i != k
    ensures chans[k] in Without(chans, i)
  {
    assert Without(chans, i)[if k < i then k else k - 1] == chans[k];
  }

  lemma PacketForMe(r: Reg, step: Step, c: Chan)
    requires Sound(r) && Enabled(r, step) && c in r.chans && For(step, c)
    ensures var r', d := Next(r, step), Effect(c, step);
      && Mine(r'.log, c.serial) == Mine(r.log, c.serial) + d.events
      && (if d.gone then Gone(r', c.serial) else d.chan in r'.chans)
  {
    hide Delivered, Mine;
    FindLive(r, c);
    var i := Find(r.chans, c.id);
    var d := Effect(c, step);
    DeliveryIsOwn(c, step.buf[2..], step.len - 2, step.error);
    MineAppend(r.log, d.events, c.serial, c.serial);
    var r1 := r.(chans := r.chans[i := d.chan], log := r.log + d.events);
    UpdateSound(r, i, d.chan, r1.log);
    assert r1.chans[i] == d.chan;
    if step.error || c.phase != Header {
      var r2 := Spawned(r1, step.spawn);
      SpawnSound(r1, step.spawn);
      SpawnedIs(r1, step.spawn);
      assert r2.chans[step.spawn..][i] == d.chan;
      if d.gone {
        RemovedIsGone(r2, step.spawn + i);
      }
    } else {
      NotGoneInHeader(c, step);
    }
  }

  lemma NotGoneInHeader(c: Chan, step: Step)
    requires For(step, c) && !step.error && c.phase == Header
    ensures !Effect(c, step).gone
  {
    hide HeadersFrom;
  }

  lemma RemovedIsGone(r: Reg, i: nat)
    requires Sound(r) && i < |r.chans|
    ensures Gone(Unregistered(r, i), r.chans[i].serial)
  {
    var rest := Without(r.chans, i);
    forall k | 0 <= k < |rest|
      ensures rest[k] == r.chans[if k < i then k else k + 1]
    {
    }
  }

  /** No step but its own packets and its own removal touches a channel. */
  lemma OthersLeaveIt(r: Reg, step: Step, c: Chan)
    requires Sound(r) && Enabled(r, step) && c in r.chans && !For(step, c)
    ensures Mine(Next(r, step).log, c.serial) == Mine(r.log, c.serial)
    ensures if step.Unregister? && r.chans[step.at] == c then Gone(Next(r, step), c.serial)
            else c in Next(r, step).chans
  {
    var k :| 0 <= k < |r.chans| && r.chans[k] == c;
    match step
    case Process(_, _, _, _) => PacketForAnother(r, step, c, k);
    case Register => assert Next(r, step).chans[k + 1] == c;
    case Unregister(at) =>
      if r.chans[at] == c {
        RemovedIsGone(r, at);
      } else {
        assert Without(r.chans, at)[if k < at then k else k - 1] == c;
      }
  }

  lemma PacketStaysGone(r: Reg, step: Step, serial: nat)
    requires Sound(r) && step.Process? && Enabled(r, step) && Gone(r, serial) && serial < r.serials
    ensures Gone(Next(r, step), serial) && serial < Next(r, step).serials
    ensures Mine(Next(r, step).log, serial) == Mine(r.log, serial)
  {
    hide Sound, Delivered, Mine, Gone, Spawned, Unregistered;
    var i := Find(r.chans, IdOf(step.buf));
    if i < |r.chans| {
      var d := Effect(r.chans[i], step);
      DeliveryIsOwn(r.chans[i], step.buf[2..], step.len - 2, step.error);
      UpdateStaysGone(r, i, d.chan, r.log + d.events, serial);
      MineAppend(r.log, d.events, r.chans[i].serial, serial);
      var r1 := r.(chans := r.chans[i := d.chan], log := r.log + d.events);
      SpawnStaysGone(r1, step.spawn, serial);
      if d.gone {
        RemovalStaysGone(Spawned(r1, step.spawn), step.spawn + i, serial);
      }
    }
  }

  lemma UpdateStaysGone(r: Reg, i: nat, c: Chan, log: seq<Event>, serial: nat)
    requires Gone(r, serial) && i < |r.chans| && c.serial == r.chans[i].serial
    ensures Gone(r.(chans := r.chans[i := c], log := log), serial) && c.serial != serial
  {
  }

  /** Once gone, a channel is never seen again. */
  lemma StaysGone(r: Reg, step: Step, serial: nat)
    requires Sound(r) && Enabled(r, step) && Gone(r, serial) && serial < r.serials
    ensures Gone(Next(r, step), serial) && serial < Next(r, step).serials
    ensures Mine(Next(r, step).log, serial) == Mine(r.log, serial)
  {
    match step
    case Process(_, _, _, _) =>
      hide Processed, Mine, Gone;
      PacketStaysGone(r, step, serial);
    case Register =>
    case Unregister(at) => RemovalStaysGone(r, at, serial);
  }

  lemma SpawnStaysGone(r: Reg, spawn: nat, serial: nat)
    requires Gone(r, serial) && serial < r.serials
    ensures Gone(Spawned(r, spawn), serial)
  {
    var s := Spawned(r, spawn);
    SpawnedIs(r, spawn);
    forall i | 0 <= i < |s.chans|
      ensures s.chans[i].serial != serial
    {
      if i >= spawn {
        assert s.chans[i] == s.chans[spawn..][i - spawn];
      }
    }
  }

  lemma RemovalStaysGone(r: Reg, i: nat, serial: nat)
    requires Gone(r, serial) && i < |r.chans|
    ensures Gone(Unregistered(r, i), serial) && Unregistered(r, i).serials == r.serials
    ensures Unregistered(r, i).log == r.log
  {
    var rest := Without(r.chans, i);
    forall k | 0 <= k < |rest|
      ensures rest[k] == r.chans[if k < i then k else k + 1]
    {
    }
  }

  /** What a packet brings to its channel, without the id. */
  datatype Input = Input(body: seq<Octet>, len: nat, error: bool)

  predicate AllValid(inputs: seq<Input>) {
    forall i :: 0 <= i < |inputs| ==> inputs[i].len < |inputs[i].body|
  }

  datatype Fate = Fate(chan: Chan, events: seq<Event>, gone: bool)

  /** A channel and its packets, by themselves. */
  function Fed(c: Chan, inputs: seq<Input>): Fate
    requires AllValid(inputs)
    decreases |inputs|
  {
    if inputs == [] then Fate(c, [], false)
    else
      var d := Delivered(c, inputs[0].body, inputs[0].len, inputs[0].error);
      if d.gone then Fate(d.chan, d.events, true)
      else
        var rest := Fed(d.chan, inputs[1..]);
        rest.(events := d.events + rest.events)
  }

  /** The packets of a run that reach a channel, until it goes. */
  function Inbox(r: Reg, steps: seq<Step>, c: Chan): (inputs: seq<Input>)
    requires Sound(r) && Legal(r, steps) && c in r.chans
    ensures AllValid(inputs)
    decreases |steps|
  {
    if steps == [] then []
    else
      var step := steps[0];
      NextSound(r, step);
      hide Sound, Processed, Registered, Unregistered, Delivered;
      if For(step, c) then
        PacketForMe(r, step, c);
        [Input(step.buf[2..], step.len - 2, step.error)]
        + (if Effect(c, step).gone then [] else Inbox(Next(r, step), steps[1..], Effect(c, step).chan))
      else
        OthersLeaveIt(r, step, c);
        if step.Unregister? && r.chans[step.at] == c then [] else Inbox(Next(r, step), steps[1..], c)
  }

  lemma {:induction false} RunStaysGone(r: Reg, steps: seq<Step>, serial: nat)
    requires Sound(r) && Legal(r, steps) && Gone(r, serial) && serial < r.serials
    ensures Gone(Run(r, steps), serial) && Mine(Run(r, steps).log, serial) == Mine(r.log, serial)
    decreases |steps|
  {
    hide Sound, Enabled, Next, Gone, Mine;
    if steps != [] {
      NextSound(r, steps[0]);
      StaysGone(r, steps[0], serial);
      RunStaysGone(Next(r, steps[0]), steps[1..], serial);
    }
  }

  /** Whatever else happens in a run, a channel's callback sees exactly what its own packets
      make of it; when they remove it, it is gone for good. */
  lemma {:induction false} RunSees(r: Reg, steps: seq<Step>, c: Chan)
    requires Sound(r) && Legal(r, steps) && c in r.chans
    ensures var fate := Fed(c, Inbox(r, steps, c));
      && Mine(Run(r, steps).log, c.serial) == Mine(r.log, c.serial) + fate.events
      && (fate.gone ==> Gone(Run(r, steps), c.serial))
    decreases |steps|
  {
    hide Enabled, Next, Gone, Mine, Delivered;
    if steps != [] {
      var step := steps[0];
      var r' := Next(r, step);
      NextSound(r, step);
      SerialBelow(r, step, c);
      assert step.Unregister? ==> step.at < |r.chans| by { RemovesLive(r, step); }
      hide Sound;
      if For(step, c) {
        PacketForMe(r, step, c);
        DeliveryIsOwn(c, step.buf[2..], step.len - 2, step.error);
        var d := Effect(c, step);
        FedStep(c, step, if d.gone then [] else Inbox(r', steps[1..], d.chan));
        if d.gone {
          RunStaysGone(r', steps[1..], c.serial);
        } else {
          RunSees(r', steps[1..], d.chan);
          Assoc(Mine(r.log, c.serial), d.events, Fed(d.chan, Inbox(r', steps[1..], d.chan)).events);
        }
      } else {
        OthersLeaveIt(r, step, c);
        if step.Unregister? && r.chans[step.at] == c {
          RunStaysGone(r', steps[1..], c.serial);
        } else {
          RunSees(r', steps[1..], c);
        }
      }
    }
  }

  lemma Assoc<T>(a: seq<T>, b: seq<T>, c: seq<T>)
    ensures a + b + c == a + (b + c) && a + [] == a
  {
  }

  lemma RemovesLive(r: Reg, step: Step)
    requires Enabled(r, step)
    ensures step.Unregister? ==> step.at < |r.chans|
  {
  }

  lemma SerialBelow(r: Reg, step: Step, c: Chan)
    requires Sound(r) && Enabled(r, step) && c in r.chans
    ensures c.serial < r.serials <= Next(r, step).serials
  {
  }

  lemma FedStep(c: Chan, step: Step, rest: seq<Input>)
    requires For(step, c) && AllValid(rest)
    ensures var d, fed := Effect(c, step), Fed(Effect(c, step).chan, rest);
      Fed(c, [Input(step.buf[2..], step.len - 2, step.error)] + rest)
      == if d.gone then Fate(d.chan, d.events, true) else Fate(fed.chan, d.events + fed.events, fed.gone)
  {
    var input := Input(step.buf[2..], step.len - 2, step.error);
    FedFirst(c, input, rest);
  }

  lemma FedFirst(c: Chan, input: Input, rest: seq<Input>)
    requires input.len < |input.body| && AllValid(rest)
    ensures var d := Delivered(c, input.body, input.len, input.error);
      Fed(c, [input] + rest)
      == if d.gone then Fate(d.chan, d.events, true)
         else Fate(Fed(d.chan, rest).chan, d.events + Fed(d.chan, rest).events, Fed(d.chan, rest).gone)
  {
    hide Delivered;
    assert ([input] + rest)[1..] == rest && ([input] + rest)[0] == input;
  }

  // -------------------------------------------------------------------- well-formed streams

  function EncodedHeader(h: seq<Octet>): seq<Octet>
    requires |h| < 0x1_0000
  {
    [|h| / 256, |h| % 256] + h
  }

  predicate Headed(headers: seq<seq<Octet>>) {
    forall i :: 0 <= i < |headers| ==> 0 < |headers[i]| < 0x1_0000
  }

  function Encoded(headers: seq<seq<Octet>>): seq<Octet>
    requires Headed(headers)
  {
    if headers == [] then [] else EncodedHeader(headers[0]) + Encoded(headers[1..])
  }

  function Closing(last: bool): seq<Octet> {
    if last then [0, 0] else []
  }

  lemma HeaderAt(body: seq<Octet>, at: nat, next: nat, len: nat, h: seq<Octet>, tail: seq<Octet>)
    requires at <= len < |body| && 0 < |h| < 0x1_0000 && body[at..len] == EncodedHeader(h) + tail
    requires next == at + 2 + |h|
    ensures next <= len && SizeAt(body, at) == |h| && body[at + 2..next] == h && body[next..len] == tail
  {
    var rest := body[at..len];
    var size := |h|;
    assert |rest| == len - at == 2 + size + |tail|;
    assert body[at] == rest[0] && body[at + 1] == rest[1];
    Words.SliceOfSlice(body, at, len, 2, 2 + size);
    Words.SliceOfSlice(body, at, len, 2 + size, len - at);
    assert rest[2..2 + size] == h && rest[2 + size..len - at] == tail;
  }

  lemma ClosedAt(body: seq<Octet>, at: nat, len: nat, last: bool)
    requires at <= len < |body| && body[at..len] == Closing(last)
    ensures HeadersFrom(body, at, len) == Headers([], if last then Last else More)
  {
    var rest := body[at..len];
    if last {
      assert body[at] == rest[0] && body[at + 1] == rest[1];
    }
  }

  /** The loop finds the headers that were written, up to the end of the packet or to the
      header of size zero that closes them. */
  lemma {:induction false} HeadersFound(body: seq<Octet>, at: nat, len: nat, headers: seq<seq<Octet>>, last: bool)
    requires at <= len < |body| && Headed(headers) && body[at..len] == Encoded(headers) + Closing(last)
    ensures HeadersFrom(body, at, len) == Headers(headers, if last then Last else More)
    decreases |headers|
  {
    if headers == [] {
      assert Encoded(headers) + Closing(last) == Closing(last);
      ClosedAt(body, at, len, last);
    } else {
      var h, next := headers[0], at + 2 + |headers[0]|;
      FirstEncoded(headers, last);
      hide EncodedHeader, SizeAt, Closing, HeadersFrom, Encoded;
      HeaderAt(body, at, next, len, h, Encoded(headers[1..]) + Closing(last));
      HeadersFound(body, next, len, headers[1..], last);
      HeadersStep(body, at, next, len, h, headers[1..], if last then Last else More);
      assert [h] + headers[1..] == headers;
    }
  }

  lemma FirstEncoded(headers: seq<seq<Octet>>, last: bool)
    requires Headed(headers) && headers != []
    ensures Encoded(headers) + Closing(last)
         == EncodedHeader(headers[0]) + (Encoded(headers[1..]) + Closing(last))
  {
    hide EncodedHeader, Closing;
    Assoc(EncodedHeader(headers[0]), Encoded(headers[1..]), Closing(last));
  }

  lemma HeadersStep(body: seq<Octet>, at: nat, next: nat, len: nat, h: seq<Octet>, rest: seq<seq<Octet>>,
                    outcome: Outcome)
    requires next == at + 2 + |h| <= len < |body| && SizeAt(body, at) == |h| > 0 && body[at + 2..next] == h
    requires HeadersFrom(body, next, len) == Headers(rest, outcome)
    ensures HeadersFrom(body, at, len) == Headers([h] + rest, outcome)
  {
    hide SizeAt;
  }

  /** A packet without error whose bytes behind the id are these. */
  predicate Carries(input: Input, bytes: seq<Octet>) {
    !input.error && input.len < |input.body| && input.body[..input.len] == bytes
  }

  /** A packet with the error flag, and these bytes behind the id. */
  predicate Fails(input: Input, bytes: seq<Octet>) {
    input.error && input.len < |input.body| && input.body[..input.len] == bytes
  }

  /** How a channel's packets end: with an empty packet, or with an error among the data or
      already among the headers. */
  datatype Ending = AtEnd | InData(bytes: seq<Octet>) | InHeaders(bytes: seq<Octet>) {
    function Bytes(): seq<Octet> {
      if AtEnd? then [] else bytes
    }
  }

  predicate Ends(input: Input, ending: Ending) {
    if ending.AtEnd? then Carries(input, []) else Fails(input, ending.bytes)
  }

  /** The last call: an error without bytes looks like an end. */
  function LastEvent(serial: nat, ending: Ending): Event {
    Event(serial, if ending.Bytes() == [] then End else Error, ending.Bytes())
  }

  predicate CarriesPieces(inputs: seq<Input>, pieces: seq<seq<Octet>>, ending: Ending) {
    && |inputs| == |pieces| + 1 && Ends(inputs[|pieces|], ending)
    && forall i :: 0 <= i < |pieces| ==> pieces[i] != [] && Carries(inputs[i], pieces[i])
  }

  /** A channel's packets: groups of headers, the last group closed by a header of size zero,
      then pieces of data that are not empty, then the last packet.  An error can take the
      place of any of them, and is the last packet then. */
  predicate Stream(inputs: seq<Input>, groups: seq<seq<seq<Octet>>>, pieces: seq<seq<Octet>>, ending: Ending)
    decreases |groups|
  {
    if ending.InHeaders? && groups == [] then pieces == [] && |inputs| == 1 && Ends(inputs[0], ending)
    else
      var closed := |groups| == 1 && !ending.InHeaders?;
      && groups != [] && inputs != [] && Headed(groups[0])
      && Carries(inputs[0], Encoded(groups[0]) + Closing(closed))
      && (if closed then CarriesPieces(inputs[1..], pieces, ending)
          else groups[0] != [] && Stream(inputs[1..], groups[1..], pieces, ending))
  }

  function Flat(groups: seq<seq<seq<Octet>>>): seq<seq<Octet>> {
    if groups == [] then [] else groups[0] + Flat(groups[1..])
  }

  function DataEvents(serial: nat, pieces: seq<seq<Octet>>): (e: seq<Event>)
    ensures |e| == |pieces|
  {
    seq(|pieces|, i requires 0 <= i < |pieces| => Event(serial, Data, pieces[i]))
  }

  lemma CountedTwice(total: Count, a: nat, b: nat)
    ensures Counted(Counted(total, a), b) == Counted(total, a + b)
  {
  }

  lemma {:induction false} TotalFirst(piece: seq<Octet>, rest: seq<seq<Octet>>)
    ensures TotalLength([piece] + rest) == |piece| + TotalLength(rest)
  {
    var all := [piece] + rest;
    if rest == [] {
      assert all[..0] == [];
    } else {
      assert all[..|all| - 1] == [piece] + rest[..|rest| - 1];
      TotalFirst(piece, rest[..|rest| - 1]);
    }
  }

  lemma {:induction false} StreamValid(inputs: seq<Input>, groups: seq<seq<seq<Octet>>>, pieces: seq<seq<Octet>>,
                                       ending: Ending)
    requires Stream(inputs, groups, pieces, ending)
    ensures AllValid(inputs)
    decreases |groups|
  {
    var closed := |groups| == 1 && !ending.InHeaders?;
    if groups != [] && !closed {
      StreamValid(inputs[1..], groups[1..], pieces, ending);
    }
    forall i | 0 <= i < |inputs|
      ensures inputs[i].len < |inputs[i].body|
    {
      if i > 0 {
        assert inputs[i] == inputs[1..][i - 1];
        if closed && i - 1 < |pieces| {
          assert Carries(inputs[1..][i - 1], pieces[i - 1]);
        }
      }
    }
  }

  lemma PieceSeen(c: Chan, input: Input, piece: seq<Octet>)
    requires c.phase == Data && Carries(input, piece) && piece != []
    ensures var d := Delivered(c, input.body, input.len, input.error);
      && !d.gone && d.events == [Event(c.serial, Data, piece)]
      && d.chan == c.(dataLen := Counted(c.dataLen, |piece|))
  {
    hide Counted;
  }

  lemma EndingSeen(c: Chan, input: Input, ending: Ending)
    requires (c.phase == Data || (c.phase == Header && !ending.AtEnd?)) && Ends(input, ending)
    ensures var d := Delivered(c, input.body, input.len, input.error);
      && d.gone && d.events == [LastEvent(c.serial, ending)]
      && d.chan == c.(phase := LastEvent(c.serial, ending).phase, dataLen := Counted(c.dataLen, |ending.Bytes()|))
  {
    hide Counted;
  }

  lemma PiecesFirst(c: Chan, inputs: seq<Input>, pieces: seq<seq<Octet>>, ending: Ending)
    requires CarriesPieces(inputs, pieces, ending) && pieces != []
    ensures pieces[0] != [] && Carries(inputs[0], pieces[0]) && CarriesPieces(inputs[1..], pieces[1..], ending)
    ensures Counted(Counted(c.dataLen, |pieces[0]|), TotalLength(pieces[1..]) + |ending.Bytes()|)
         == Counted(c.dataLen, TotalLength(pieces) + |ending.Bytes()|)
    ensures DataEvents(c.serial, pieces) == [Event(c.serial, Data, pieces[0])] + DataEvents(c.serial, pieces[1..])
  {
    hide Carries, Counted, Ends, Ending.Bytes;
    CountedTwice(c.dataLen, |pieces[0]|, TotalLength(pieces[1..]) + |ending.Bytes()|);
    TotalFirst(pieces[0], pieces[1..]);
    assert pieces == [pieces[0]] + pieces[1..];
  }

  lemma {:induction false} DataSeen(c: Chan, inputs: seq<Input>, pieces: seq<seq<Octet>>, ending: Ending)
    requires c.phase == Data && CarriesPieces(inputs, pieces, ending) && AllValid(inputs)
    ensures var fate := Fed(c, inputs);
      && fate.gone && fate.events == DataEvents(c.serial, pieces) + [LastEvent(c.serial, ending)]
      && fate.chan == c.(phase := LastEvent(c.serial, ending).phase,
                         dataLen := Counted(c.dataLen, TotalLength(pieces) + |ending.Bytes()|))
    decreases |pieces|
  {
    assert inputs == [inputs[0]] + inputs[1..];
    FedFirst(c, inputs[0], inputs[1..]);
    hide Fed, Delivered, Carries, Counted, Ends, LastEvent, Ending.Bytes;
    if pieces == [] {
      EndingSeen(c, inputs[0], ending);
      assert DataEvents(c.serial, pieces) == [];
    } else {
      PiecesFirst(c, inputs, pieces, ending);
      PieceSeen(c, inputs[0], pieces[0]);
      hide CarriesPieces, TotalLength;
      var d := Delivered(c, inputs[0].body, inputs[0].len, inputs[0].error);
      DataSeen(d.chan, inputs[1..], pieces[1..], ending);
      Assoc([Event(c.serial, Data, pieces[0])], DataEvents(c.serial, pieces[1..]), [LastEvent(c.serial, ending)]);
    }
  }

  lemma FlatFirst(groups: seq<seq<seq<Octet>>>)
    requires groups != []
    ensures Flat(groups) == groups[0] + Flat(groups[1..])
    ensures |groups| == 1 ==> Flat(groups) == groups[0]
  {
  }

  lemma {:induction false} TotalConcat(a: seq<seq<Octet>>, b: seq<seq<Octet>>)
    ensures TotalLength(a + b) == TotalLength(a) + TotalLength(b)
  {
    if b == [] {
      assert a + b == a;
    } else {
      assert (a + b)[..|a + b| - 1] == a + b[..|b| - 1];
      TotalConcat(a, b[..|b| - 1]);
    }
  }

  lemma CountConcat(c: Chan, a: seq<seq<Octet>>, b: seq<seq<Octet>>)
    ensures CountHeaders(CountHeaders(c, a), b) == CountHeaders(c, a + b)
    ensures HeaderEvents(c.serial, a + b) == HeaderEvents(c.serial, a) + HeaderEvents(c.serial, b)
  {
    TotalConcat(a, b);
    CountedTwice(c.headerId, |a|, |b|);
    CountedTwice(c.headerLen, TotalLength(a), TotalLength(b));
  }

  lemma GroupSeen(c: Chan, input: Input, headers: seq<seq<Octet>>, last: bool)
    requires c.phase == Header && Headed(headers) && (headers != [] || last)
    requires Carries(input, Encoded(headers) + Closing(last))
    ensures var d := Delivered(c, input.body, input.len, input.error);
      && !d.gone && !d.aborted && d.events == HeaderEvents(c.serial, headers)
      && d.chan == CountHeaders(c, headers).(phase := if last then Data else Header)
  {
    assert |Encoded(headers) + Closing(last)| >= 2;
    assert input.body[0..input.len] == input.body[..input.len];
    HeadersFound(input.body, 0, input.len, headers, last);
  }

  lemma NoGroups(c: Chan)
    ensures CountHeaders(c, Flat([])) == c && HeaderEvents(c.serial, Flat([])) == []
    ensures DataEvents(c.serial, []) == [] && TotalLength([]) == 0
  {
  }

  /** A well-formed stream is seen as it was written: every header and every piece of data
      once and in order, then the end or the error; the totals add up, and the channel is
      gone. */
  lemma {:induction false} StreamSeen(c: Chan, inputs: seq<Input>, groups: seq<seq<seq<Octet>>>,
                                      pieces: seq<seq<Octet>>, ending: Ending)
    requires c.phase == Header && Stream(inputs, groups, pieces, ending) && AllValid(inputs)
    ensures var fate := Fed(c, inputs);
      && fate.gone
      && fate.events
         == HeaderEvents(c.serial, Flat(groups)) + (DataEvents(c.serial, pieces) + [LastEvent(c.serial, ending)])
      && fate.chan
         == CountHeaders(c, Flat(groups)).(phase := LastEvent(c.serial, ending).phase,
                                           dataLen := Counted(c.dataLen, TotalLength(pieces) + |ending.Bytes()|))
    decreases |groups|
  {
    assert inputs == [inputs[0]] + inputs[1..];
    FedFirst(c, inputs[0], inputs[1..]);
    var d := Delivered(c, inputs[0].body, inputs[0].len, inputs[0].error);
    if groups == [] {
      NoGroups(c);
      EndingSeen(c, inputs[0], ending);
      hide Delivered, Fed, Flat, Counted, Ends, CountHeaders, LastEvent, Ending.Bytes;
    } else {
      var closed := |groups| == 1 && !ending.InHeaders?;
      GroupSeen(c, inputs[0], groups[0], closed);
      FlatFirst(groups);
      hide Delivered, Fed, Flat, CarriesPieces, TotalLength, Counted, Ends, LastEvent, Ending.Bytes;
      if closed {
        DataSeen(d.chan, inputs[1..], pieces, ending);
      } else {
        StreamSeen(d.chan, inputs[1..], groups[1..], pieces, ending);
        CountConcat(c, groups[0], Flat(groups[1..]));
        Assoc(HeaderEvents(c.serial, groups[0]), HeaderEvents(c.serial, Flat(groups[1..])),
              DataEvents(c.serial, pieces) + [LastEvent(c.serial, ending)]);
      }
    }
  }

  /** The totals of a new channel's stream, as numbers modulo 2^32: how many headers, how many
      bytes of headers, and how many bytes of data. */
  lemma StreamCounted(c: Chan, inputs: seq<Input>, groups: seq<seq<seq<Octet>>>, pieces: seq<seq<Octet>>,
                      ending: Ending)
    requires c.phase == Header && c.headerId == c.headerLen == c.dataLen == 0
    requires Stream(inputs, groups, pieces, ending) && AllValid(inputs)
    ensures var chan := Fed(c, inputs).chan;
      && chan.headerId == |Flat(groups)| % 0x1_0000_0000
      && chan.headerLen == TotalLength(Flat(groups)) % 0x1_0000_0000
      && chan.dataLen == (TotalLength(pieces) + |ending.Bytes()|) % 0x1_0000_0000
  {
    hide Fed, Stream, TotalLength, LastEvent, Ending.Bytes;
    StreamSeen(c, inputs, groups, pieces, ending);
  }

  /** The calls so far are those of channels that were registered. */
  predicate LogBelow(r: Reg) {
    forall i :: 0 <= i < |r.log| ==> r.log[i].serial < r.serials
  }

  lemma LogStaysBelow(r: Reg, step: Step)
    requires Sound(r) && Enabled(r, step) && LogBelow(r)
    ensures LogBelow(Next(r, step))
  {
    hide Delivered, Raised;
    if step.Process? {
      var i := Find(r.chans, IdOf(step.buf));
      if i < |r.chans| {
        DeliveryIsOwn(r.chans[i], step.buf[2..], step.len - 2, step.error);
      }
    }
  }

  lemma {:induction false} RunLogBelow(r: Reg, steps: seq<Step>)
    requires Sound(r) && Legal(r, steps) && LogBelow(r)
    ensures LogBelow(Run(r, steps))
    decreases |steps|
  {
    hide Sound, Next, Enabled, LogBelow;
    if steps != [] {
      NextSound(r, steps[0]);
      LogStaysBelow(r, steps[0]);
      RunLogBelow(Next(r, steps[0]), steps[1..]);
    }
  }

  lemma {:induction false} NoneOfMine(log: seq<Event>, serial: nat)
    requires forall i :: 0 <= i < |log| ==> log[i].serial < serial
    ensures Mine(log, serial) == []
    decreases |log|
  {
    if log != [] {
      NoneOfMine(log[..|log| - 1], serial);
    }
  }

  const EMPTY: Reg := Reg([], 0, 0, [])

  /** Of a channel that is registered at any time of any run, and whose packets are a
      well-formed stream, the log holds exactly the headers, the data and one end or error, in
      order, whatever other channels do in between; and the channel is gone. */
  lemma StreamDelivered(before: seq<Step>, later: seq<Step>, groups: seq<seq<seq<Octet>>>, pieces: seq<seq<Octet>>,
                        ending: Ending)
    requires Legal(EMPTY, before) && Sound(Run(EMPTY, before))
    requires Sound(Registered(Run(EMPTY, before))) && Legal(Registered(Run(EMPTY, before)), later)
    requires var r := Registered(Run(EMPTY, before)); Stream(Inbox(r, later, r.chans[0]), groups, pieces, ending)
    ensures var r := Registered(Run(EMPTY, before));
      var serial := r.chans[0].serial;
      && Mine(Run(r, later).log, serial)
         == HeaderEvents(serial, Flat(groups)) + (DataEvents(serial, pieces) + [LastEvent(serial, ending)])
      && Gone(Run(r, later), serial)
  {
    hide Sound, Stream, Mine, Gone, Legal, Inbox, Fed, LastEvent;
    var r := Registered(Run(EMPTY, before));
    NothingYet(before);
    var c := r.chans[0];
    RunSees(r, later, c);
    StreamSeen(c, Inbox(r, later, c), groups, pieces, ending);
    Assoc([], Fed(c, Inbox(r, later, c)).events, []);
  }

  /** A channel that is registered after a run has had no call. */
  lemma NothingYet(before: seq<Step>)
    requires Legal(EMPTY, before)
    ensures var r := Registered(Run(EMPTY, before)); Mine(r.log, r.chans[0].serial) == []
  {
    hide Sound, Legal, Run, Mine;
    EmptySound();
    RunLogBelow(EMPTY, before);
    var r := Registered(Run(EMPTY, before));
    NoneOfMine(r.log, r.chans[0].serial);
  }

  lemma EmptySound()
    ensures Sound(EMPTY) && LogBelow(EMPTY)
  {
  }

  // ------------------------------------------------------------------------- the last call

  predicate Terminal(e: Event) {
    e.phase == End || e.phase == Error
  }

  predicate EndsWithTerminal(log: seq<Event>) {
    log != [] && Terminal(log[|log| - 1])
  }

  predicate OnlyLastTerminal(log: seq<Event>) {
    forall i :: 0 <= i < |log| - 1 ==> !Terminal(log[i])
  }

  lemma DeliveryEndsOnce(c: Chan, body: seq<Octet>, len: nat, error: bool)
    requires len < |body|
    ensures var d := Delivered(c, body, len, error);
      && (d.gone <==> EndsWithTerminal(d.events)) && OnlyLastTerminal(d.events)
  {
    hide HeadersFrom, Counted;
  }

  /** Whatever packets a channel gets, it goes exactly when its last call is an end or an
      error, and no call before is one. */
  lemma {:induction false} EndsOnce(c: Chan, inputs: seq<Input>)
    requires AllValid(inputs)
    ensures var fate := Fed(c, inputs);
      && (fate.gone <==> EndsWithTerminal(fate.events)) && OnlyLastTerminal(fate.events)
    decreases |inputs|
  {
    if inputs != [] {
      var d := Delivered(c, inputs[0].body, inputs[0].len, inputs[0].error);
      DeliveryEndsOnce(c, inputs[0].body, inputs[0].len, inputs[0].error);
      hide Delivered, Terminal;
      if !d.gone {
        EndsOnce(d.chan, inputs[1..]);
      }
    }
  }

  /** A step of the run unregisters the channel otherwise than by its packets. */
  predicate Dropped(r: Reg, steps: seq<Step>, c: Chan)
    requires Sound(r) && Legal(r, steps) && c in r.chans
    decreases |steps|
  {
    steps != []
    && (
      var step := steps[0];
      NextSound(r, step);
      hide Sound, Processed, Registered, Unregistered, Delivered;
      if For(step, c) then
        PacketForMe(r, step, c);
        !Effect(c, step).gone && Dropped(Next(r, step), steps[1..], Effect(c, step).chan)
      else
        OthersLeaveIt(r, step, c);
        (step.Unregister? && r.chans[step.at] == c) || Dropped(Next(r, step), steps[1..], c))
  }

  lemma {:induction false} GoneExactly(r: Reg, steps: seq<Step>, c: Chan)
    requires Sound(r) && Legal(r, steps) && c in r.chans
    ensures var fate := Fed(c, Inbox(r, steps, c));
      && (Gone(Run(r, steps), c.serial) <==> fate.gone || Dropped(r, steps, c))
      && !(fate.gone && Dropped(r, steps, c))
    decreases |steps|
  {
    hide Enabled, Next, Mine, Delivered;
    if steps != [] {
      var step := steps[0];
      var r' := Next(r, step);
      NextSound(r, step);
      SerialBelow(r, step, c);
      assert step.Unregister? ==> step.at < |r.chans| by { RemovesLive(r, step); }
      hide Sound, Gone;
      if For(step, c) {
        PacketForMe(r, step, c);
        DeliveryIsOwn(c, step.buf[2..], step.len - 2, step.error);
        var d := Effect(c, step);
        FedStep(c, step, if d.gone then [] else Inbox(r', steps[1..], d.chan));
        if d.gone {
          RunStaysGone(r', steps[1..], c.serial);
        } else {
          GoneExactly(r', steps[1..], d.chan);
        }
      } else {
        OthersLeaveIt(r, step, c);
        if step.Unregister? && r.chans[step.at] == c {
          RunStaysGone(r', steps[1..], c.serial);
        } else {
          GoneExactly(r', steps[1..], c);
        }
      }
    }
  }

  /** Of a channel that is registered at any time of any run: at most one call is an end or an
      error, and it is the last; and the channel is gone exactly when there was that call, or
      when something else unregistered it, never both. */
  lemma TerminalCallOnce(before: seq<Step>, later: seq<Step>)
    requires Legal(EMPTY, before) && Sound(Run(EMPTY, before))
    requires Sound(Registered(Run(EMPTY, before))) && Legal(Registered(Run(EMPTY, before)), later)
    ensures var r := Registered(Run(EMPTY, before));
      var c := r.chans[0];
      var calls := Mine(Run(r, later).log, c.serial);
      && OnlyLastTerminal(calls)
      && (Gone(Run(r, later), c.serial) <==> EndsWithTerminal(calls) || Dropped(r, later, c))
      && !(EndsWithTerminal(calls) && Dropped(r, later, c))
  {
    hide Sound, Mine, Gone, Legal, Inbox, Fed, Dropped, Terminal;
    var r := Registered(Run(EMPTY, before));
    NothingYet(before);
    var c := r.chans[0];
    RunSees(r, later, c);
    EndsOnce(c, Inbox(r, later, c));
    GoneExactly(r, later, c);
    assert [] + Fed(c, Inbox(r, later, c)).events == Fed(c, Inbox(r, later, c)).events;
  }

  /** A packet with the error flag makes exactly one call and removes its channel.  The callback
      is told of an error exactly when the packet has bytes behind the id, and of an ordinary end
      otherwise. */
  lemma ErrorSeenExactly(r: Reg, step: Step, c: Chan)
    requires Sound(r) && Enabled(r, step) && c in r.chans && For(step, c) && step.error
    ensures Gone(Next(r, step), c.serial)
    ensures var before, calls := Mine(r.log, c.serial), Mine(Next(r, step).log, c.serial);
      && |calls| == |before| + 1 && calls[..|before|] == before
      && (calls[|before|].phase == Error <==> step.len > 2)
      && (calls[|before|].phase == End <==> step.len == 2)
      && calls[|before|].bytes == step.buf[2..step.len]
  {
    PacketForMe(r, step, c);
    ErrorCall(c, step);
    hide Sound, Mine, Gone, Next, Enabled, Effect, For;
  }

  lemma ErrorCall(c: Chan, step: Step)
    requires For(step, c) && step.error
    ensures Effect(c, step).gone
    ensures Effect(c, step).events
         == [Event(c.serial, if step.len == 2 then End else Error, step.buf[2..step.len])]
  {
    hide HeadersFrom, Counted, IdOf;
    assert step.buf[2..][..step.len - 2] == step.buf[2..step.len];
  }

  /** A channel is registered, and the server answers with an error that has no bytes. */
  const EMPTY_ERROR: seq<Step> := [Register, Process([0, 0, 0], 2, true, 0)]

  /** Its callback sees one call, an end without data: what a complete empty answer looks like
      to it as well. */
  lemma EmptyErrorLooksLikeEnd()
    ensures Legal(EMPTY, EMPTY_ERROR) && Run(EMPTY, EMPTY_ERROR) == Reg([], 0, 1, [Event(0, End, [])])
  {
    var one := Registered(EMPTY);
    var step := EMPTY_ERROR[1];
    assert one == Reg([Chan(0, 0, 0, Header, 0, 0)], 1, 1, []);
    assert IdOf(step.buf) == 0 && Find(one.chans, 0) == 0;
    assert EMPTY_ERROR[1..] == [step] && [step][1..] == [];
    assert step.buf[2..][..0] == [];
    assert Without(one.chans, 0) == [];
  }

  // ------------------------------------------------------------------------------ the code

  class Channel {
    const id: int
    ghost const serial: nat
    var headerId: Count
    var phase: Phase
    var headerLen: Count
    var dataLen: Count

    ghost function View(): Chan
      reads this
    {
      Chan(serial, id, headerId, phase, headerLen, dataLen)
    }

    constructor (id: int, ghost serial: nat)
      ensures View() == Chan(serial, id, 0, Header, 0, 0)
    {
      this.id, this.serial := id, serial;
      headerId, phase, headerLen, dataLen := 0, Header, 0, 0;
    }
  }

  ghost function Views(list: seq<Channel>): (v: seq<Chan>)
    reads list
    ensures |v| == |list| && forall i :: 0 <= i < |list| ==> v[i] == list[i].View()
  {
    seq(|list|, i requires 0 <= i < |list| reads list => list[i].View())
  }

  function Behind(list: seq<Channel>, spawn: nat): (rest: seq<Channel>)
    requires spawn <= |list|
  {
    list[spawn..]
  }

  lemma BehindMore(list: seq<Channel>, spawn: nat, ch: Channel)
    requires spawn <= |list|
    ensures Behind([ch] + list, spawn + 1) == Behind(list, spawn)
  {
  }

  lemma BehindAt(list: seq<Channel>, spawn: nat, i: nat)
    requires spawn + i < |list|
    ensures i < |Behind(list, spawn)| && Behind(list, spawn)[i] == list[spawn + i]
  {
  }

  lemma ViewsWithout(list: seq<Channel>, i: nat)
    requires i < |list|
    ensures Views(list[..i] + list[i + 1..]) == Without(Views(list), i)
  {
  }

  class Registry {
    var list: seq<Channel>
    var next: int
    ghost var serials: nat
    ghost var log: seq<Event>

    /** No channel is in the list twice. */
    ghost predicate Valid()
      reads this
    {
      forall i, j :: 0 <= i < j < |list| ==> list[i] != list[j]
    }

    ghost function View(): Reg
      reads this, list
    {
      Reg(Views(list), next, serials, log)
    }

    constructor ()
      ensures Valid() && View() == Reg([], 0, 0, []) && Sound(View()) && fresh(list)
    {
      list, next, serials, log := [], 0, 0, [];
    }

    /** The loop that lifts the next id. */
    method LiftNext()
      requires Valid()
      modifies this`next
      ensures next == Raised(View().chans, old(next))
    {
      ghost var chans := View().chans;
      assert chans[0..] == chans;
      for i := 0 to |list|
        invariant Raised(chans[i..], next) == Raised(chans, old(next))
      {
        assert chans[i..][1..] == chans[i + 1..];
        if list[i].id >= next {
          next := list[i].id + 1;
        }
      }
      assert chans[|list|..] == [];
    }

    method Register() returns (ch: Channel)
      requires Valid()
      modifies this
      ensures Valid() && View() == Registered(old(View()))
      ensures fresh(ch) && list == [ch] + old(list)
    {
      hide Raised;
      var id := next;
      next := next + 1;
      LiftNext();
      ch := new Channel(id, serials);
      serials := serials + 1;
      list := [ch] + list;
      assert Views(list) == [ch.View()] + old(View()).chans;
    }

    /** The place of a channel in the list. */
    method IndexOf(ch: Channel) returns (at: nat)
      requires Valid() && ch in list
      ensures at < |list| && list[at] == ch
    {
      at := 0;
      while list[at] != ch
        invariant at < |list| && ch in list[at..]
        decreases |list| - at
      {
        at := at + 1;
      }
    }

    method Unregister(ch: Channel, ghost i: nat)
      requires Valid() && i < |list| && list[i] == ch
      modifies this
      ensures Valid() && View() == Unregistered(old(View()), i)
      ensures list == old(list[..i] + list[i + 1..])
    {
      ghost var r := View();
      var at := IndexOf(ch);
      ViewsWithout(list, i);
      hide Without;
      list := list[..at] + list[at + 1..];
      assert Views(list) == Without(r.chans, i);
      if ch.id < next {
        next := ch.id;
      }
    }

    method ById(id: int) returns (ch: Channel?)
      requires Valid()
      ensures var i := Find(View().chans, id); if i == |list| then ch == null else ch == list[i]
    {
      ch := null;
      for i := 0 to |list|
        invariant Find(View().chans, id) >= i
      {
        FindFrom(View().chans, id, i);
        if list[i].id == id {
          return list[i];
        }
      }
    }

    /** The call of a channel's callback. */
    method Call(ch: Channel, bytes: seq<Octet>)
      modifies this`log
      ensures log == old(log) + [Event(ch.serial, ch.phase, bytes)]
    {
      log := log + [Event(ch.serial, ch.phase, bytes)];
    }

    /** One header goes to the callback and is counted. */
    method HandOver(ch: Channel, header: seq<Octet>, ghost c: Chan, ghost done: seq<seq<Octet>>)
      requires ch.phase == Header && ch.View() == CountHeaders(c, done)
      modifies this`log, ch`headerId, ch`headerLen
      ensures ch.View() == CountHeaders(c, done + [header])
      ensures log == old(log) + [Event(ch.serial, Header, header)]
    {
      CountOne(c, done, header);
      hide CountHeaders;
      ch.headerId := Counted(ch.headerId, 1);
      Call(ch, header);
      ch.headerLen := Counted(ch.headerLen, |header|);
    }

    /** The loop over the headers of a packet; `outcome` tells how it ends. */
    method HeaderLoop(ch: Channel, body: seq<Octet>, len: nat) returns (outcome: Outcome)
      requires len < |body| && ch.phase == Header
      modifies this`log, ch`headerId, ch`headerLen
      ensures var h := HeadersFrom(body, 0, len);
        && outcome == h.outcome
        && ch.View() == CountHeaders(old(ch.View()), h.headers)
        && log == old(log) + HeaderEvents(ch.serial, h.headers)
    {
      var consumed := 0;
      ghost var h, done, c, before := HeadersFrom(body, 0, len), [], ch.View(), log;
      CountNothing(c, log);
      AllLeft(body, len);
      hide HeadersFrom, CountHeaders, SizeAt, Remaining, HeaderEvents, Counted, TotalLength;
      while consumed < len
        invariant ch.View() == CountHeaders(c, done) && log == before + HeaderEvents(ch.serial, done)
        invariant Remaining(h, body, len, done, consumed)
        decreases len - consumed
      {
        hide HeadersFrom, CountHeaders, SizeAt, HeaderEvents, Remaining, Counted, TotalLength;
        var headerLen := SizeAt(body, consumed);
        LessLeft(h, body, len, done, consumed, consumed + 2, consumed + 2 + headerLen);
        consumed := consumed + 2;
        if headerLen == 0 {
          return if consumed == len then Last else Abort;
        }
        if consumed + headerLen > len {
          return Short;
        }
        var header := body[consumed..consumed + headerLen];
        HandOver(ch, header, c, done);
        consumed := consumed + headerLen;
        EventsOne(before, c, done, header);
        done := done + [header];
      }
      NoneLeft(h, body, len, done, consumed);
      outcome := if consumed == len then More else Abort;
    }

    /** The registrations that a callback makes of its own. */
    method Spawn(spawn: nat)
      requires Valid()
      modifies this
      ensures Valid() && View() == Spawned(old(View()), spawn)
      ensures |list| == spawn + old(|list|) && Behind(list, spawn) == old(list)
    {
      for i := 0 to spawn
        invariant Valid() && View() == Spawned(old(View()), i)
        invariant |list| == i + old(|list|) && Behind(list, i) == old(list)
      {
        hide Registered, Behind, View, Valid;
        ghost var before := list;
        var ch := Register();
        BehindMore(before, i, ch);
      }
    }

    /** A packet for a channel that awaits headers */
    method ProcessHeaders(ch: Channel, ghost i: nat, body: seq<Octet>, len: nat) returns (aborted: bool)
      requires Valid() && i < |list| && list[i] == ch && len < |body| && ch.phase == Header
      modifies this`log, ch
      ensures Valid() && var d := Delivered(old(ch.View()), body, len, false);
        aborted == d.aborted && View() == Noted(old(View()), i, d)
    {
      if len < 2 {
        assert View().chans == old(View()).chans[i := ch.View()];
        assert log == old(log) + [];
        return true;
      }
      hide HeadersFrom, CountHeaders;
      var outcome := HeaderLoop(ch, body, len);
      if outcome == Last {
        ch.phase := Data;
      }
      aborted := outcome == Abort;
      assert View().chans == old(View()).chans[i := ch.View()];
    }

    /** The state, the call and the count of a packet that is not one of headers */
    method NoteData(ch: Channel, ghost i: nat, body: seq<Octet>, len: nat, error: bool)
      requires Valid() && i < |list| && list[i] == ch && len < |body| && (error || ch.phase != Header)
      modifies this`log, ch
      ensures Valid() && var d := Delivered(old(ch.View()), body, len, error);
        && View() == Noted(old(View()), i, d)
        && ch.View() == d.chan && d.gone == (ch.phase == End || ch.phase == Error)
    {
      hide Counted;
      if error {
        ch.phase := Error;
      }
      if len == 0 {
        ch.phase := End;
      }
      Call(ch, body[..len]);
      ch.dataLen := Counted(ch.dataLen, len);
      assert View().chans == old(View()).chans[i := ch.View()];
    }

    /** The registrations of the callback, and the removal of a channel that has ended; `at` is
        its place then. */
    method SpawnAndRemove(ch: Channel, ghost i: nat, spawn: nat, ghost at: nat)
      requires Valid() && i < |list| && list[i] == ch && at == spawn + i
      modifies this
      ensures Valid() && var r' := Spawned(old(View()), spawn);
        View() == if ch.phase == End || ch.phase == Error then Unregistered(r', at) else r'
    {
      hide Spawned, Unregistered, Behind, View, Valid;
      Spawn(spawn);
      if ch.phase == End || ch.phase == Error {
        BehindAt(list, spawn, i);
        Unregister(ch, at);
      }
    }

    /** A packet for a channel that awaits data, or with an error */
    method ProcessData(ch: Channel, ghost i: nat, body: seq<Octet>, len: nat, error: bool, spawn: nat)
      requires Valid() && i < |list| && list[i] == ch && len < |body| && (error || ch.phase != Header)
      modifies this, ch
      ensures Valid() && var d := Delivered(old(ch.View()), body, len, error);
        var r' := Spawned(Noted(old(View()), i, d), spawn);
        View() == if d.gone then Unregistered(r', spawn + i) else r'
    {
      hide Delivered, Spawned, Unregistered, Noted;
      NoteData(ch, i, body, len, error);
      SpawnAndRemove(ch, i, spawn, spawn + i);
    }

    lemma ViewAt(i: nat)
      requires i < |list|
      ensures |View().chans| == |list| && View().chans[i] == list[i].View()
    {
    }

    /** `channel_process`; the callback makes `spawn` registrations of its own. */
    method Process(buf: seq<Octet>, len: nat, error: bool, spawn: nat) returns (aborted: bool)
      requires Valid() && Packet(buf, len)
      modifies this, list
      ensures Valid() && View() == Processed(old(View()), buf, len, error, spawn)
      ensures var i := Find(old(View()).chans, IdOf(buf));
        aborted <==> i < old(|list|) && Delivered(old(View()).chans[i], buf[2..], len - 2, error).aborted
    {
      ghost var r, i := View(), Find(View().chans, IdOf(buf));
      assert |r.chans| == |list|;
      hide Delivered, Spawned, Unregistered, Processed, Find, Noted, View, Valid, IdOf;
      var ch := ById(IdOf(buf));
      if ch == null {
        ForNobody(r, buf, len, error, spawn);
        return false;
      }
      ViewAt(i);
      NotAborted(ch.View(), buf[2..], len - 2, error);
      if !error && ch.phase == Header {
        ForHeaders(r, buf, len, error, spawn, i);
        aborted := ProcessHeaders(ch, i, buf[2..], len - 2);
      } else {
        ForData(r, buf, len, error, spawn, i);
        aborted := false;
        ProcessData(ch, i, buf[2..], len - 2, error, spawn);
      }
    }
  }

  // The three things that a packet can be

  lemma ForNobody(r: Reg, buf: seq<Octet>, len: nat, error: bool, spawn: nat)
    requires Packet(buf, len) && Find(r.chans, IdOf(buf)) == |r.chans|
    ensures Processed(r, buf, len, error, spawn) == r
  {
  }

  lemma ForHeaders(r: Reg, buf: seq<Octet>, len: nat, error: bool, spawn: nat, i: nat)
    requires Packet(buf, len) && i == Find(r.chans, IdOf(buf)) < |r.chans| && !error && r.chans[i].phase == Header
    ensures Processed(r, buf, len, error, spawn) == Noted(r, i, Delivered(r.chans[i], buf[2..], len - 2, error))
  {
    hide Find, Delivered, Noted;
  }

  lemma ForData(r: Reg, buf: seq<Octet>, len: nat, error: bool, spawn: nat, i: nat)
    requires Packet(buf, len) && i == Find(r.chans, IdOf(buf)) < |r.chans| && (error || r.chans[i].phase != Header)
    ensures var d := Delivered(r.chans[i], buf[2..], len - 2, error);
      var r' := Spawned(Noted(r, i, d), spawn);
      Processed(r, buf, len, error, spawn) == if d.gone then Unregistered(r', spawn + i) else r'
  {
    hide Find, Delivered, Noted, Unregistered, Spawned;
  }

  lemma NotAborted(c: Chan, body: seq<Octet>, len: nat, error: bool)
    requires len < |body|
    ensures error || c.phase != Header ==> !Delivered(c, body, len, error).aborted
  {
  }

  lemma CountNothing(c: Chan, log: seq<Event>)
    ensures CountHeaders(c, []) == c && log + HeaderEvents(c.serial, []) == log
  {
  }

  lemma CountOne(c: Chan, done: seq<seq<Octet>>, header: seq<Octet>)
    ensures var d := CountHeaders(c, done);
      CountHeaders(c, done + [header])
      == d.(headerId := Counted(d.headerId, 1), headerLen := Counted(d.headerLen, |header|))
    ensures HeaderEvents(c.serial, done + [header]) == HeaderEvents(c.serial, done) + [Event(c.serial, Header, header)]
  {
    CountConcat(c, done, [header]);
    assert TotalLength([header]) == |header|;
  }

  lemma EventsOne(log: seq<Event>, c: Chan, done: seq<seq<Octet>>, header: seq<Octet>)
    ensures log + HeaderEvents(c.serial, done) + [Event(c.serial, Header, header)]
         == log + HeaderEvents(c.serial, done + [header])
  {
    CountOne(c, done, header);
    hide HeaderEvents, CountHeaders, Counted;
    Assoc(log, HeaderEvents(c.serial, done), [Event(c.serial, Header, header)]);
  }

  /** The headers `done` have been found in front of the place `at`. */
  ghost predicate Remaining(h: Headers, body: seq<Octet>, len: nat, done: seq<seq<Octet>>, at: nat)
    requires len < |body|
  {
    HeadersFrom(body, at, len).outcome == h.outcome && h.headers == done + HeadersFrom(body, at, len).headers
  }

  lemma AllLeft(body: seq<Octet>, len: nat)
    requires len < |body|
    ensures Remaining(HeadersFrom(body, 0, len), body, len, [], 0)
  {
    hide HeadersFrom;
  }

  lemma LessLeft(h: Headers, body: seq<Octet>, len: nat, done: seq<seq<Octet>>, at: nat, start: nat, next: nat)
    requires at < len < |body| && Remaining(h, body, len, done, at)
    requires start == at + 2 && next == start + SizeAt(body, at)
    ensures
      if next == start then h == Headers(done, if start == len then Last else Abort)
      else if next > len then h == Headers(done, Short)
      else Remaining(h, body, len, done + [body[start..next]], next)
  {
    HeadersTurn(body, at, len);
    hide HeadersFrom, SizeAt;
    Assoc(done, [], []);
    if start < next <= len {
      Assoc(done, [body[start..next]], HeadersFrom(body, next, len).headers);
    }
  }

  lemma NoneLeft(h: Headers, body: seq<Octet>, len: nat, done: seq<seq<Octet>>, at: nat)
    requires len < |body| && at >= len && Remaining(h, body, len, done, at)
    ensures h == Headers(done, if at == len then More else Abort)
  {
    HeadersEnd(body, at, len);
    Assoc(done, [], []);
  }

  lemma HeadersTurn(body: seq<Octet>, at: nat, len: nat)
    requires at < len < |body|
    ensures var size, start := SizeAt(body, at), at + 2;
      HeadersFrom(body, at, len)
      == if size == 0 then Headers([], if start == len then Last else Abort)
         else if start + size > len then Headers([], Short)
         else Headers([body[start..start + size]] + HeadersFrom(body, start + size, len).headers,
                      HeadersFrom(body, start + size, len).outcome)
  {
  }

  lemma HeadersEnd(body: seq<Octet>, at: nat, len: nat)
    requires len < |body| && at >= len
    ensures HeadersFrom(body, at, len) == Headers([], if at == len then More else Abort)
  {
  }

  lemma FindFrom(chans: seq<Chan>, id: int, i: nat)
    requires i < |chans| && Find(chans, id) >= i
    ensures if chans[i].id == id then Find(chans, id) == i else Find(chans, id) > i
  {
  }
}
