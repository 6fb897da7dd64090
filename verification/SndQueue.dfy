/** The sound queue of src/lib/sndqueue.c and the download controller that drives it from
    src/lib/despotify.c.  The network thread, the decoder thread and the user's thread share
    one session.  A step is what one of them does under the queue's lock: a whole network
    callback, one fill, one half of a stop, or a stretch of a consume call between two waits;
    a loop that sleeps while a request is outstanding is a guard. */
module SndQueue {
  type Octet = b: int | 0 <= b < 256

  /** DL_FILLING, DL_FILLING_BUSY, DL_DRAINING, DL_END_OF_LIST */
  datatype Dl = Filling | FillingBusy | Draining | EndOfList

  datatype Cmd = Start | Data | End

  /** An entry of the queue; `length` bytes of `ptr` count. */
  datatype Buffer = Buffer(cmd: Cmd, length: nat, consumed: nat, ptr: seq<Octet>) {
    predicate Valid() {
      consumed <= length <= |ptr| && (cmd != Data ==> length == 0)
    }

    function Unread(): seq<Octet>
      requires Valid()
    {
      ptr[consumed..length]
    }
  }

  datatype Track = Track(copy: seq<Octet>, playable: bool)

  /** What the server is asked for: a stretch of the file of a track. */
  datatype Request = Request(track: Track, offset: nat, length: nat)

  /** Where the decoder thread stands in its consume call; `out` is what the call has copied.
      A call whose END was the last entry stops the download before it returns: `Ended` in
      front of that stop, `Stopping` in its wait. */
  datatype Reader =
    | Idle
    | Loop(req: nat, out: seq<Octet>)
    | Asleep(req: nat, out: seq<Octet>)
    | Ended
    | Stopping

  /** `tracks` is the current track and those that follow it, empty for none; `outstanding`
      counts the substream requests without an answer, and `received` the bytes answered to
      the last one.  `pushed` and `handed` are the history of the data bytes, `asked` that of the
      requests. */
  datatype Snd = Snd(dl: Dl, abort: bool, queue: seq<Buffer>, totbytes: int, maxbytes: int, watermark: int,
                     lastcmd: Cmd, tracks: seq<Track>, offset: nat, errors: nat,
                     outstanding: nat, received: nat, reader: Reader, pushed: seq<Octet>, handed: seq<Octet>,
                     asked: seq<Request>)

  const SUBSTREAM := 204800

  // ------------------------------------------------------------------------- the queue

  predicate AllValid(q: seq<Buffer>) {
    forall i :: 0 <= i < |q| ==> q[i].Valid()
  }

  function Sum(q: seq<Buffer>): nat {
    if q == [] then 0 else q[0].length + Sum(q[1..])
  }

  /** The data bytes of the queue that have not been read. */
  function Unread(q: seq<Buffer>): seq<Octet>
    requires AllValid(q)
  {
    if q == [] then [] else q[0].Unread() + Unread(q[1..])
  }

  /** Those in front of the first END. */
  function UntilEnd(q: seq<Buffer>): seq<Octet>
    requires AllValid(q)
  {
    if q == [] || q[0].cmd == End then [] else q[0].Unread() + UntilEnd(q[1..])
  }

  function Ends(q: seq<Buffer>): nat {
    if q == [] then 0 else (if q[0].cmd == End then 1 else 0) + Ends(q[1..])
  }

  lemma {:induction false} SumPush(q: seq<Buffer>, b: Buffer)
    ensures Sum(q + [b]) == Sum(q) + b.length
  {
    if q == [] {
      assert [b][1..] == [] && [] + [b] == [b];
    } else {
      assert (q + [b])[1..] == q[1..] + [b];
      SumPush(q[1..], b);
    }
  }

  lemma {:induction false} UnreadPush(q: seq<Buffer>, b: Buffer)
    requires AllValid(q) && b.Valid()
    ensures Unread(q + [b]) == Unread(q) + b.Unread()
  {
    if q == [] {
      assert [b][1..] == [] && [] + [b] == [b];
    } else {
      assert (q + [b])[1..] == q[1..] + [b];
      UnreadPush(q[1..], b);
    }
  }

  // -------------------------------------------------- one stretch of snd_consume_data

  datatype Outcome = Waits | Returns(ended: bool)

  datatype Progress = Progress(queue: seq<Buffer>, bytes: seq<Octet>, outcome: Outcome)

  /** How much of a buffer goes into what is still asked for. */
  function Share(b: Buffer, req: nat, total: nat): (n: nat)
    requires b.Valid() && total <= req
    ensures n <= b.length - b.consumed && total + n <= req
  {
    var remaining := b.length - b.consumed;
    if total + remaining < req then remaining else req - total
  }

  function Piece(b: Buffer, n: nat): (p: seq<Octet>)
    requires b.Valid() && n <= b.length - b.consumed
    ensures |p| == n
  {
    b.ptr[b.consumed..b.consumed + n]
  }

  /** The queue after `n` bytes of its first buffer were read. */
  function AfterTaking(q: seq<Buffer>, n: nat): (rest: seq<Buffer>)
    requires q != [] && AllValid(q) && n <= q[0].length - q[0].consumed
    ensures AllValid(rest)
  {
    var b := q[0].(consumed := q[0].consumed + n);
    if b.consumed == b.length then q[1..] else [b] + q[1..]
  }

  /** What the loop does from a queue, with `total` bytes already copied, until it returns
      or finds the queue empty. */
  function Consumed(q: seq<Buffer>, req: nat, total: nat): (p: Progress)
    requires AllValid(q) && total <= req
    ensures AllValid(p.queue) && total + |p.bytes| <= req
    decreases |q|
  {
    if q == [] then Progress(q, [], Waits)
    else if q[0].cmd == Start then Consumed(q[1..], req, total)
    else if q[0].cmd == End then
      if total > 0 then Progress(q, [], Returns(false)) else Progress(q[1..], [], Returns(true))
    else
      var n := Share(q[0], req, total);
      var piece := Piece(q[0], n);
      var rest := AfterTaking(q, n);
      if rest == [] || total + n == req then Progress(rest, piece, Returns(false))
      else
        var p := Consumed(rest, req, total + n);
        p.(bytes := piece + p.bytes)
  }

  predicate NonEmpty(q: seq<Buffer>) {
    forall i :: 0 <= i < |q| && q[i].cmd == Data ==> q[i].consumed < q[i].length
  }

  lemma Assoc<T>(a: seq<T>, b: seq<T>, c: seq<T>)
    ensures (a + b) + c == a + (b + c)
  {
  }

  lemma UnreadSplits(b: Buffer, n: nat)
    requires b.Valid() && n <= b.length - b.consumed
    ensures b.Unread() == Piece(b, n) + b.(consumed := b.consumed + n).Unread()
  {
  }

  lemma FrontUnread(b: Buffer, tail: seq<Buffer>)
    requires b.Valid() && AllValid(tail)
    ensures AllValid([b] + tail) && Unread([b] + tail) == b.Unread() + Unread(tail)
    ensures UntilEnd([b] + tail) == if b.cmd == End then [] else b.Unread() + UntilEnd(tail)
    ensures Ends([b] + tail) == (if b.cmd == End then 1 else 0) + Ends(tail)
  {
    assert ([b] + tail)[1..] == tail;
    hide Ends, Unread, UntilEnd;
    FrontParts([b] + tail);
  }

  lemma FrontParts(q: seq<Buffer>)
    requires q != [] && AllValid(q)
    ensures Unread(q) == q[0].Unread() + Unread(q[1..])
    ensures UntilEnd(q) == if q[0].cmd == End then [] else q[0].Unread() + UntilEnd(q[1..])
    ensures Ends(q) == (if q[0].cmd == End then 1 else 0) + Ends(q[1..])
  {
  }

  lemma Regroup(whole: seq<Octet>, a: seq<Octet>, b: seq<Octet>, tail: seq<Octet>)
    requires whole == a + b
    ensures whole + tail == a + (b + tail)
  {
  }

  lemma AllTaken(b: Buffer)
    requires b.Valid() && b.cmd == Data
    ensures Piece(b, b.length - b.consumed) == b.Unread()
  {
  }

  /** The bytes `n` of the first buffer, and those of the queue behind them */
  ghost predicate Takes(q: seq<Buffer>, n: nat, rest: seq<Buffer>)
    requires q != [] && AllValid(q) && AllValid(rest) && n <= q[0].length - q[0].consumed
  {
    && Unread(q) == Piece(q[0], n) + Unread(rest) && UntilEnd(q) == Piece(q[0], n) + UntilEnd(rest)
    && Ends(q) == Ends(rest)
  }

  lemma TakesAll(q: seq<Buffer>)
    requires q != [] && AllValid(q) && q[0].cmd == Data
    ensures Takes(q, q[0].length - q[0].consumed, q[1..])
  {
    AllTaken(q[0]);
    FrontParts(q);
    hide Piece, Unread, UntilEnd, Ends, Buffer.Unread, AllValid;
  }

  lemma TakesSome(q: seq<Buffer>, n: nat, b: Buffer)
    requires q != [] && AllValid(q) && q[0].cmd == Data && n <= q[0].length - q[0].consumed
    requires b == q[0].(consumed := q[0].consumed + n)
    ensures AllValid([b] + q[1..]) && Takes(q, n, [b] + q[1..])
  {
    FrontParts(q);
    UnreadSplits(q[0], n);
    FrontUnread(b, q[1..]);
    hide Piece, Unread, UntilEnd, Ends, Buffer.Unread, AllValid;
    Regroup(q[0].Unread(), Piece(q[0], n), b.Unread(), Unread(q[1..]));
    Regroup(q[0].Unread(), Piece(q[0], n), b.Unread(), UntilEnd(q[1..]));
  }

  lemma TakingKeeps(q: seq<Buffer>, n: nat)
    requires q != [] && AllValid(q) && q[0].cmd == Data && n <= q[0].length - q[0].consumed
    ensures Takes(q, n, AfterTaking(q, n))
  {
    hide Takes, AllValid;
    if q[0].consumed + n == q[0].length {
      TakesAll(q);
    } else {
      TakesSome(q, n, q[0].(consumed := q[0].consumed + n));
    }
  }

  ghost predicate LosesNothing(q: seq<Buffer>, req: nat, total: nat)
    requires AllValid(q) && total <= req
  {
    Unread(q) == Consumed(q, req, total).bytes + Unread(Consumed(q, req, total).queue)
  }

  /** A stretch loses no byte. */
  lemma {:induction false} ConsumedKeeps(q: seq<Buffer>, req: nat, total: nat)
    requires AllValid(q) && total <= req
    ensures LosesNothing(q, req, total)
    decreases |q|
  {
    hide LosesNothing, Piece, AfterTaking;
    if q == [] || q[0].cmd != Data {
      if q != [] {
        ConsumedKeeps(q[1..], req, total);
      }
      OtherLosesNothing(q, req, total);
    } else {
      var n := Share(q[0], req, total);
      ShareExactly(q, req, total);
      if AfterTaking(q, n) != [] && total + n != req {
        ConsumedKeeps(AfterTaking(q, n), req, total + n);
      }
      DataLosesNothing(q, req, total);
    }
  }

  lemma OtherLosesNothing(q: seq<Buffer>, req: nat, total: nat)
    requires AllValid(q) && total <= req && (q == [] || (q[0].cmd != Data && LosesNothing(q[1..], req, total)))
    ensures LosesNothing(q, req, total)
  {
    if q != [] {
      assert q[0].Unread() == [] && [] + Unread(q[1..]) == Unread(q[1..]);
    }
  }

  lemma DataLosesNothing(q: seq<Buffer>, req: nat, total: nat)
    requires AllValid(q) && q != [] && q[0].cmd == Data && total <= req
    requires var n := Share(q[0], req, total); var rest := AfterTaking(q, n);
      rest != [] && total + n != req ==> LosesNothing(rest, req, total + n)
    ensures LosesNothing(q, req, total)
  {
    hide UntilEnd, Unread, Piece, AfterTaking;
    var n := Share(q[0], req, total);
    TakingKeeps(q, n);
    var rest := AfterTaking(q, n);
    if rest != [] && total + n != req {
      var p := Consumed(rest, req, total + n);
      Assoc(Piece(q[0], n), p.bytes, Unread(p.queue));
    }
  }

  /** An END goes only when nothing is returned, and a wait means that the queue is empty. */
  ghost predicate EndsAlone(q: seq<Buffer>, req: nat, total: nat)
    requires AllValid(q) && total <= req
  {
    var p := Consumed(q, req, total);
    && Ends(q) == Ends(p.queue) + (if p.outcome == Returns(true) then 1 else 0)
    && (p.outcome == Returns(true) ==> total == 0 && p.bytes == [])
    && (p.outcome == Waits ==> p.queue == [])
  }

  lemma {:induction false} ConsumedEnds(q: seq<Buffer>, req: nat, total: nat)
    requires AllValid(q) && total <= req
    ensures EndsAlone(q, req, total)
    decreases |q|
  {
    hide EndsAlone, Piece, AfterTaking;
    if q == [] || q[0].cmd != Data {
      if q != [] {
        ConsumedEnds(q[1..], req, total);
      }
      OtherEndsAlone(q, req, total);
    } else {
      var n := Share(q[0], req, total);
      ShareExactly(q, req, total);
      if AfterTaking(q, n) != [] && total + n != req {
        ConsumedEnds(AfterTaking(q, n), req, total + n);
      }
      DataEndsAlone(q, req, total);
    }
  }

  lemma OtherEndsAlone(q: seq<Buffer>, req: nat, total: nat)
    requires AllValid(q) && total <= req && (q == [] || (q[0].cmd != Data && EndsAlone(q[1..], req, total)))
    ensures EndsAlone(q, req, total)
  {
  }

  lemma DataEndsAlone(q: seq<Buffer>, req: nat, total: nat)
    requires AllValid(q) && q != [] && q[0].cmd == Data && total <= req
    requires var n := Share(q[0], req, total); var rest := AfterTaking(q, n);
      rest != [] && total + n != req ==> EndsAlone(rest, req, total + n)
    ensures EndsAlone(q, req, total)
  {
    TakingKeeps(q, Share(q[0], req, total));
    hide UntilEnd, Unread, Piece, AfterTaking;
  }

  /** What is still to come in front of an END that was not taken. */
  function Ahead(p: Progress): seq<Octet>
    requires AllValid(p.queue)
  {
    if p.outcome == Returns(true) then [] else UntilEnd(p.queue)
  }

  ghost predicate UpToEnd(q: seq<Buffer>, req: nat, total: nat)
    requires AllValid(q) && total <= req
  {
    UntilEnd(q) == Consumed(q, req, total).bytes + Ahead(Consumed(q, req, total))
  }

  /** A stretch hands over bytes in front of the first END only. */
  lemma {:induction false} ConsumedUpToEnd(q: seq<Buffer>, req: nat, total: nat)
    requires AllValid(q) && total <= req
    ensures UpToEnd(q, req, total)
    decreases |q|
  {
    hide UpToEnd, Piece, AfterTaking;
    if q == [] || q[0].cmd != Data {
      if q != [] {
        ConsumedUpToEnd(q[1..], req, total);
      }
      OtherUpToEnd(q, req, total);
    } else {
      var n := Share(q[0], req, total);
      ShareExactly(q, req, total);
      if AfterTaking(q, n) != [] && total + n != req {
        ConsumedUpToEnd(AfterTaking(q, n), req, total + n);
      }
      DataUpToEnd(q, req, total);
    }
  }

  lemma OtherUpToEnd(q: seq<Buffer>, req: nat, total: nat)
    requires AllValid(q) && total <= req && (q == [] || (q[0].cmd != Data && UpToEnd(q[1..], req, total)))
    ensures UpToEnd(q, req, total)
  {
    hide Unread;
    if q != [] && q[0].cmd == Start {
      assert q[0].Unread() == [] && [] + UntilEnd(q[1..]) == UntilEnd(q[1..]);
    }
  }

  lemma DataUpToEnd(q: seq<Buffer>, req: nat, total: nat)
    requires AllValid(q) && q != [] && q[0].cmd == Data && total <= req
    requires var n := Share(q[0], req, total); var rest := AfterTaking(q, n);
      rest != [] && total + n != req ==> UpToEnd(rest, req, total + n)
    ensures UpToEnd(q, req, total)
  {
    hide UntilEnd, Unread, Piece, AfterTaking;
    var n := Share(q[0], req, total);
    TakingKeeps(q, n);
    if AfterTaking(q, n) != [] && total + n != req {
      hide Consumed, Ahead;
      TakingThen(q, req, total);
    }
  }

  lemma TakingThen(q: seq<Buffer>, req: nat, total: nat)
    requires AllValid(q) && total <= req && q != [] && q[0].cmd == Data
    requires AfterTaking(q, Share(q[0], req, total)) != [] && total + Share(q[0], req, total) != req
    ensures var n := Share(q[0], req, total); var p' := Consumed(AfterTaking(q, n), req, total + n);
      var p := Consumed(q, req, total);
      p.bytes + Ahead(p) == Piece(q[0], n) + (p'.bytes + Ahead(p'))
  {
    hide UntilEnd, Unread, Piece;
    var n := Share(q[0], req, total);
    var p, p' := Consumed(q, req, total), Consumed(AfterTaking(q, n), req, total + n);
    SameAhead(p, p');
    hide Ahead;
    Assoc(Piece(q[0], n), p'.bytes, Ahead(p'));
  }

  lemma SameAhead(p: Progress, p': Progress)
    requires AllValid(p.queue) && p.queue == p'.queue && p.outcome == p'.outcome
    ensures Ahead(p) == Ahead(p')
  {
  }

  ghost predicate TookAll(q: seq<Buffer>, req: nat, total: nat)
    requires AllValid(q) && total <= req
  {
    var p := Consumed(q, req, total);
    total + |p.bytes| == req || Ahead(p) == []
  }

  /** And as many of them as were asked for. */
  lemma {:induction false} ConsumedAll(q: seq<Buffer>, req: nat, total: nat)
    requires AllValid(q) && total <= req
    ensures TookAll(q, req, total)
    decreases |q|
  {
    hide TookAll, AfterTaking;
    if q == [] || q[0].cmd != Data {
      if q != [] {
        ConsumedAll(q[1..], req, total);
      }
      OtherTookAll(q, req, total);
    } else {
      var n := Share(q[0], req, total);
      ShareExactly(q, req, total);
      if AfterTaking(q, n) != [] && total + n != req {
        ConsumedAll(AfterTaking(q, n), req, total + n);
      }
      DataTookAll(q, req, total);
    }
  }

  lemma OtherTookAll(q: seq<Buffer>, req: nat, total: nat)
    requires AllValid(q) && total <= req && (q == [] || (q[0].cmd != Data && TookAll(q[1..], req, total)))
    ensures TookAll(q, req, total)
  {
    hide Unread;
  }

  lemma DataTookAll(q: seq<Buffer>, req: nat, total: nat)
    requires AllValid(q) && q != [] && q[0].cmd == Data && total <= req
    requires var n := Share(q[0], req, total); var rest := AfterTaking(q, n);
      rest != [] && total + n != req ==> TookAll(rest, req, total + n)
    ensures TookAll(q, req, total)
  {
    hide Unread, Piece, AfterTaking, UntilEnd;
    NoneLeft(AfterTaking(q, Share(q[0], req, total)));
  }

  lemma NoneLeft(rest: seq<Buffer>)
    requires AllValid(rest)
    ensures rest == [] ==> Unread(rest) == [] && UntilEnd(rest) == [] && Ends(rest) == 0
  {
  }

  lemma ShareExactly(q: seq<Buffer>, req: nat, total: nat)
    requires q != [] && AllValid(q) && total <= req && q[0].cmd == Data
    ensures var n := Share(q[0], req, total); AfterTaking(q, n) != [] && total + n != req ==> |AfterTaking(q, n)| < |q|
  {
  }

  /** With no empty buffer in the queue, a positive request is answered with nothing
      exactly when it took an END. */
  lemma {:induction false} ReturnsNothingExactly(q: seq<Buffer>, req: nat, total: nat)
    requires AllValid(q) && NonEmpty(q) && total <= req && req > 0
    ensures var p := Consumed(q, req, total); p.outcome.Returns? ==> (p.outcome.ended <==> total + |p.bytes| == 0)
    ensures NonEmpty(Consumed(q, req, total).queue)
    decreases |q|
  {
    if q != [] && q[0].cmd == Start {
      ReturnsNothingExactly(q[1..], req, total);
    } else if q != [] && q[0].cmd == Data && AfterTaking(q, Share(q[0], req, total)) != []
              && total + Share(q[0], req, total) != req {
      ReturnsNothingExactly(q[1..], req, total + Share(q[0], req, total));
    }
  }

  // ------------------------------------------------------------------------ the pushes

  /** The bytes that the look at the first Ogg page reads are there. */
  predicate Readable(ptr: seq<Octet>) {
    |ptr| > 5 && (ptr[5] == 6 ==> |ptr| > 26 && 27 + ptr[26] <= |ptr|)
  }

  function Lacing(ptr: seq<Octet>, n: nat): nat
    requires 27 + n <= |ptr|
  {
    if n == 0 then 0 else Lacing(ptr, n - 1) + ptr[26 + n]
  }

  /** The size of the first page: its header, one lacing value counted with it, and its
      segments. */
  function PageSize(ptr: seq<Octet>): nat
    requires |ptr| > 26 && 27 + ptr[26] <= |ptr|
  {
    28 + Lacing(ptr, ptr[26])
  }

  predicate DropsPage(lastcmd: Cmd, length: nat, ptr: seq<Octet>)
    requires lastcmd == Start ==> Readable(ptr)
  {
    lastcmd == Start && ptr[5] == 6 && PageSize(ptr) < length
  }

  /** The entry for a push: after a START, the first page is cut off by moving the rest of
      the data to the front. */
  function Entry(lastcmd: Cmd, cmd: Cmd, length: nat, ptr: seq<Octet>): (b: Buffer)
    requires length <= |ptr| && (cmd != Data ==> length == 0) && (lastcmd == Start ==> Readable(ptr))
    ensures b.Valid() && b.length <= length
  {
    if DropsPage(lastcmd, length, ptr) then
      var offset := PageSize(ptr);
      Buffer(cmd, length - offset, 0, ptr[offset..length] + ptr[length - offset..])
    else Buffer(cmd, length, 0, ptr)
  }

  /** The reader gets the data without the first page, and never an empty buffer for data
      that was not empty. */
  lemma EntryUnread(lastcmd: Cmd, length: nat, ptr: seq<Octet>)
    requires length <= |ptr| && (lastcmd == Start ==> Readable(ptr))
    ensures Entry(lastcmd, Data, length, ptr).Unread()
         == ptr[if DropsPage(lastcmd, length, ptr) then PageSize(ptr) else 0..length]
    ensures length > 0 ==> Entry(lastcmd, Data, length, ptr).length > 0
  {
  }

  predicate PushReady(s: Snd, cmd: Cmd, length: nat, ptr: seq<Octet>) {
    length <= |ptr| && (cmd != Data ==> length == 0) && (s.lastcmd == Start && !s.abort ==> Readable(ptr))
  }

  /** `snd_ioctl` with a command that is queued. */
  function Ioctl(s: Snd, cmd: Cmd, length: nat, ptr: seq<Octet>): Snd
    requires PushReady(s, cmd, length, ptr)
  {
    var s' := if cmd == End && s.tracks == [] then s.(dl := EndOfList) else s;
    if s.abort then s' else
      var b := Entry(s.lastcmd, cmd, length, ptr);
      s'.(queue := s.queue + [b], totbytes := s.totbytes + b.length, lastcmd := cmd, pushed := s.pushed + b.Unread())
  }

  /** `snd_ioctl` with CHANNEL_END */
  function ChannelEnd(s: Snd): Snd {
    if s.abort then s.(dl := Draining)
    else if s.dl != EndOfList then s.(dl := Filling)
    else s
  }

  /** The tracks from the next playable one on. */
  function NextPlayable(tracks: seq<Track>): (r: seq<Track>)
    requires tracks != []
  {
    var rest := tracks[1..];
    if rest == [] || rest[0].playable then rest else NextPlayable(rest)
  }

  lemma {:induction false} NextPlayableIs(tracks: seq<Track>)
    requires tracks != []
    ensures var r := NextPlayable(tracks);
      && |r| < |tracks| && r == tracks[|tracks| - |r|..] && (r != [] ==> r[0].playable)
      && forall i :: 1 <= i < |tracks| - |r| ==> !tracks[i].playable
  {
    var rest := tracks[1..];
    if rest != [] && !rest[0].playable {
      NextPlayableIs(rest);
      var r := NextPlayable(rest);
      forall i | 1 <= i < |tracks| - |r|
        ensures !tracks[i].playable
      {
        assert tracks[i] == rest[i - 1];
      }
    }
  }

  // ------------------------------------------------------------------- the shared machine

  /** What the threads do.  The two last are the halves of the stop inside a consume call.
      `Fill(sent)` is a fill whose request, if it makes one, is sent or
      fails; `DataArrives` brings the decrypted bytes in a buffer with 1024 bytes to spare. */
  datatype Step =
    | Fill(sent: bool)
    | DataArrives(ptr: seq<Octet>)
    | ChannelEnds
    | ChannelFails
    | KeyArrives
    | StopBegins
    | StopEnds
    | Skip
    | Play(tracks: seq<Track>)
    | ConsumeBegins(req: nat)
    | ConsumeRuns
    | Wakes
    | LastStopBegins
    | LastStopEnds

  /** A fill asks for a substream. */
  predicate Asks(s: Snd) {
    && !s.abort
    && ((s.dl == Draining && s.totbytes < s.watermark) || (s.dl == Filling && s.totbytes < s.maxbytes - SUBSTREAM))
  }

  /** When a step can be taken: the sleeping loops have ended, the server answers a request
      that is outstanding with no more than was asked for, and what the code dereferences
      is there. */
  predicate Enabled(s: Snd, step: Step) {
    match step
    case Fill(_) => (s.abort ==> s.dl != FillingBusy) && (Asks(s) ==> s.tracks != [])
    case DataArrives(ptr) =>
      && s.outstanding > 0 && |ptr| >= 1024 && s.received + |ptr| - 1024 <= SUBSTREAM
      && PushReady(s, Data, |ptr| - 1024, ptr)
    case ChannelEnds => s.outstanding > 0 && (s.received < SUBSTREAM ==> s.tracks != [] && PushReady(s, End, 0, []))
    case ChannelFails => s.outstanding > 0 && s.errors < 3
    case KeyArrives => s.tracks != [] && PushReady(s, Start, 0, s.tracks[0].copy)
    case StopBegins => true
    case StopEnds => s.dl != FillingBusy
    case Skip => true
    case Play(tracks) => tracks != []
    case ConsumeBegins(_) => s.reader.Idle?
    case ConsumeRuns => s.reader.Loop?
    case Wakes => s.reader.Asleep?
    case LastStopBegins => s.reader.Ended?
    case LastStopEnds => s.reader.Stopping? && s.dl != FillingBusy
  }

  function FillFifo(s: Snd, sent: bool): Snd
    requires Asks(s) ==> s.tracks != []
  {
    if s.abort then s.(dl := Draining)
    else if Asks(s) then
      if sent then
        s.(dl := FillingBusy, outstanding := s.outstanding + 1, received := 0,
           asked := s.asked + [Request(s.tracks[0], s.offset, SUBSTREAM)])
      else s.(dl := FillingBusy)
    else if s.dl == Filling then s.(dl := Draining)
    else s
  }

  function SubstreamData(s: Snd, ptr: seq<Octet>): Snd
    requires |ptr| >= 1024 && PushReady(s, Data, |ptr| - 1024, ptr)
  {
    Ioctl(s, Data, |ptr| - 1024, ptr).(received := s.received + |ptr| - 1024)
  }

  /** The answer to a request is complete. */
  function Answered(s: Snd): Snd
    requires s.outstanding > 0
  {
    s.(offset := s.offset + s.received, errors := 0, outstanding := s.outstanding - 1, received := 0)
  }

  /** A short answer ends the track: an END is queued, and the next track is current. */
  function TrackEnd(s: Snd): Snd
    requires s.tracks != [] && PushReady(s, End, 0, [])
  {
    Ioctl(s.(tracks := NextPlayable(s.tracks)), End, 0, []).(offset := 0)
  }

  function SubstreamEnd(s: Snd): Snd
    requires s.outstanding > 0 && (s.received < SUBSTREAM ==> s.tracks != [] && PushReady(s, End, 0, []))
  {
    ChannelEnd(if s.received < SUBSTREAM then TrackEnd(Answered(s)) else Answered(s))
  }

  function StopBegin(s: Snd): Snd {
    if s.dl.Filling? || s.dl.FillingBusy? then s.(abort := true) else s
  }

  function StopEnd(s: Snd): Snd {
    s.(dl := Draining, abort := false, queue := [], totbytes := 0)
  }

  /** The entries are well formed, and a call has not copied more than was asked for. */
  predicate Formed(s: Snd) {
    AllValid(s.queue) && (s.reader.Loop? || s.reader.Asleep? ==> |s.reader.out| <= s.reader.req)
  }

  /** The queue from its first START on. */
  function FromStart(q: seq<Buffer>): seq<Buffer> {
    if q == [] || q[0].cmd == Start then q else FromStart(q[1..])
  }

  function SkipTrack(s: Snd): Snd {
    var q := FromStart(s.queue);
    s.(queue := q, totbytes := s.totbytes - (Sum(s.queue) - Sum(q)))
  }

  function ReaderAfter(req: nat, out: seq<Octet>, p: Progress): Reader {
    if p.outcome.Waits? then Asleep(req, out + p.bytes)
    else if p.outcome.ended && p.queue == [] then Ended
    else Idle
  }

  function ConsumeRun(s: Snd): Snd
    requires s.reader.Loop? && Formed(s)
  {
    var p := Consumed(s.queue, s.reader.req, |s.reader.out|);
    s.(queue := p.queue, totbytes := s.totbytes - (Sum(s.queue) - Sum(p.queue)), handed := s.handed + p.bytes,
       reader := ReaderAfter(s.reader.req, s.reader.out, p))
  }

  /** A waiting consumer goes on when it finds something in the queue, and returns what it
      has when it was woken for nothing. */
  function Wake(s: Snd): Snd
    requires s.reader.Asleep?
  {
    s.(reader := if s.queue == [] then Idle else Loop(s.reader.req, s.reader.out))
  }

  function Next(s: Snd, step: Step): Snd
    requires Formed(s) && Enabled(s, step)
  {
    match step
    case Fill(sent) => FillFifo(s, sent)
    case DataArrives(ptr) => SubstreamData(s, ptr)
    case ChannelEnds => SubstreamEnd(s)
    case ChannelFails => s.(errors := s.errors + 1, outstanding := s.outstanding - 1, received := 0)
    case KeyArrives => Ioctl(s, Start, 0, s.tracks[0].copy)
    case StopBegins => StopBegin(s)
    case StopEnds => StopEnd(s).(offset := 0)
    case Skip => SkipTrack(s)
    case Play(tracks) => s.(tracks := tracks, offset := 0)
    case ConsumeBegins(req) => s.(reader := Loop(req, []))
    case ConsumeRuns => ConsumeRun(s)
    case Wakes => Wake(s)
    case LastStopBegins => StopBegin(s).(reader := Stopping)
    case LastStopEnds => StopEnd(s).(reader := Idle)
  }

  // ----------------------------------------------------------------------------- safety

  /** How much of the outstanding request is still to come. */
  function Coming(s: Snd): int {
    if s.outstanding == 0 then 0 else SUBSTREAM - s.received
  }

  predicate OneRequest(s: Snd) {
    s.outstanding <= 1 && (s.outstanding == 1 ==> s.dl == FillingBusy && s.tracks != [])
  }

  predicate Bounded(s: Snd) {
    && s.totbytes == Sum(s.queue) && s.received <= SUBSTREAM
    && s.totbytes + Coming(s) < s.maxbytes && s.watermark + SUBSTREAM <= s.maxbytes
  }

  predicate Safe(s: Snd) {
    Formed(s) && OneRequest(s) && Bounded(s)
  }

  function Initial(maxbytes: int, watermark: int): Snd {
    Snd(Filling, false, [], 0, maxbytes, watermark, Start, [], 0, 0, 0, 0, Idle, [], [], [])
  }

  lemma PushKeeps(s: Snd, cmd: Cmd, length: nat, ptr: seq<Octet>)
    requires AllValid(s.queue) && s.totbytes == Sum(s.queue) && PushReady(s, cmd, length, ptr)
    ensures var s' := Ioctl(s, cmd, length, ptr);
      AllValid(s'.queue) && s'.totbytes == Sum(s'.queue) && s.totbytes <= s'.totbytes <= s.totbytes + length
  {
    if !s.abort {
      SumPush(s.queue, Entry(s.lastcmd, cmd, length, ptr));
    }
  }

  /** A skip drops what is in front of the first START and nothing else. */
  lemma {:induction false} FromStartIs(q: seq<Buffer>)
    ensures var r := FromStart(q);
      && |r| <= |q| && r == q[|q| - |r|..] && (r != [] ==> r[0].cmd == Start)
      && forall i :: 0 <= i < |q| - |r| ==> q[i].cmd != Start
  {
    if q != [] && q[0].cmd != Start {
      FromStartIs(q[1..]);
      forall i | 0 < i < |q| - |FromStart(q)|
        ensures q[i].cmd != Start
      {
        assert q[i] == q[1..][i - 1];
      }
    }
  }

  lemma {:induction false} FromStartValid(q: seq<Buffer>)
    requires AllValid(q)
    ensures AllValid(FromStart(q)) && Sum(FromStart(q)) <= Sum(q)
  {
    if q != [] && q[0].cmd != Start {
      FromStartValid(q[1..]);
    }
  }

  lemma TakingSum(q: seq<Buffer>, n: nat)
    requires q != [] && AllValid(q) && n <= q[0].length - q[0].consumed
    ensures Sum(AfterTaking(q, n)) <= Sum(q)
  {
    var b := q[0].(consumed := q[0].consumed + n);
    assert ([b] + q[1..])[1..] == q[1..];
  }

  ghost predicate AddsNothing(q: seq<Buffer>, req: nat, total: nat)
    requires AllValid(q) && total <= req
  {
    Sum(Consumed(q, req, total).queue) <= Sum(q)
  }

  lemma {:induction false} ConsumedSum(q: seq<Buffer>, req: nat, total: nat)
    requires AllValid(q) && total <= req
    ensures AddsNothing(q, req, total)
    decreases |q|
  {
    hide AddsNothing, Piece, AfterTaking;
    if q == [] || q[0].cmd != Data {
      if q != [] {
        ConsumedSum(q[1..], req, total);
      }
      OtherAddsNothing(q, req, total);
    } else {
      var n := Share(q[0], req, total);
      ShareExactly(q, req, total);
      if AfterTaking(q, n) != [] && total + n != req {
        ConsumedSum(AfterTaking(q, n), req, total + n);
      }
      DataAddsNothing(q, req, total);
    }
  }

  lemma OtherAddsNothing(q: seq<Buffer>, req: nat, total: nat)
    requires AllValid(q) && total <= req && (q == [] || (q[0].cmd != Data && AddsNothing(q[1..], req, total)))
    ensures AddsNothing(q, req, total)
  {
  }

  lemma DataAddsNothing(q: seq<Buffer>, req: nat, total: nat)
    requires AllValid(q) && q != [] && q[0].cmd == Data && total <= req
    requires var n := Share(q[0], req, total); var rest := AfterTaking(q, n);
      rest != [] && total + n != req ==> AddsNothing(rest, req, total + n)
    ensures AddsNothing(q, req, total)
  {
    hide Sum, Piece, AfterTaking;
    TakingSum(q, Share(q[0], req, total));
  }

  lemma DataKeeps(s: Snd, ptr: seq<Octet>)
    requires Safe(s) && Enabled(s, DataArrives(ptr))
    ensures Safe(SubstreamData(s, ptr))
  {
    hide Entry, Readable, AllValid, Sum;
    PushKeeps(s, Data, |ptr| - 1024, ptr);
  }

  lemma TrackEndKeeps(s: Snd)
    requires AllValid(s.queue) && s.totbytes == Sum(s.queue) && s.tracks != [] && PushReady(s, End, 0, [])
    ensures var s' := TrackEnd(s);
      && AllValid(s'.queue) && s'.totbytes == Sum(s'.queue) == s.totbytes
      && s'.outstanding == s.outstanding && s'.received == s.received && s'.reader == s.reader
      && s'.maxbytes == s.maxbytes && s'.watermark == s.watermark
  {
    hide Entry, Readable, AllValid, Sum, NextPlayable;
    PushKeeps(s.(tracks := NextPlayable(s.tracks)), End, 0, []);
  }

  lemma EndKeeps(s: Snd)
    requires Safe(s) && Enabled(s, ChannelEnds)
    ensures Safe(SubstreamEnd(s))
  {
    hide Readable, AllValid, Sum, TrackEnd;
    if s.received < SUBSTREAM {
      TrackEndKeeps(Answered(s));
    }
  }

  lemma KeyKeeps(s: Snd)
    requires Safe(s) && Enabled(s, KeyArrives)
    ensures Safe(Ioctl(s, Start, 0, s.tracks[0].copy))
  {
    hide Entry, Readable, AllValid, Sum;
    PushKeeps(s, Start, 0, s.tracks[0].copy);
  }

  lemma ConsumeKeeps(s: Snd)
    requires Safe(s) && s.reader.Loop?
    ensures Safe(ConsumeRun(s))
  {
    hide Consumed, Sum;
    ConsumedSum(s.queue, s.reader.req, |s.reader.out|);
  }

  /** Every step of every thread keeps what the queue and the controller promise. */
  lemma StepKeeps(s: Snd, step: Step)
    requires Safe(s) && Enabled(s, step)
    ensures Safe(Next(s, step))
  {
    match step
    case DataArrives(ptr) =>
      hide SubstreamData;
      DataKeeps(s, ptr);
    case ChannelEnds =>
      hide SubstreamEnd;
      EndKeeps(s);
    case KeyArrives =>
      hide Ioctl;
      KeyKeeps(s);
    case Skip =>
      hide FromStart, Sum;
      FromStartValid(s.queue);
    case ConsumeRuns =>
      hide ConsumeRun;
      ConsumeKeeps(s);
    case Fill(sent) =>
      hide AllValid, Sum;
    case _ =>
  }

  predicate Legal(s: Snd, steps: seq<Step>)
    requires Safe(s)
    decreases |steps|
  {
    steps == [] || (Enabled(s, steps[0]) && (StepKeeps(s, steps[0]); Legal(Next(s, steps[0]), steps[1..])))
  }

  function Run(s: Snd, steps: seq<Step>): Snd
    requires Safe(s) && Legal(s, steps)
    decreases |steps|
  {
    if steps == [] then s else
      StepKeeps(s, steps[0]);
      Run(Next(s, steps[0]), steps[1..])
  }

  /** In every interleaving, from an empty queue whose watermark leaves room for a substream:
      at most one request is outstanding, and then the controller is busy; the byte count is
      the sum of the queued lengths, and stays below the maximum. */
  lemma {:induction false} EveryRunIsSafe(maxbytes: int, watermark: int, steps: seq<Step>)
    requires 0 <= watermark && watermark + SUBSTREAM <= maxbytes && Legal(Initial(maxbytes, watermark), steps)
    ensures var s := Run(Initial(maxbytes, watermark), steps);
      && s.outstanding <= 1 && (s.outstanding == 1 ==> s.dl == FillingBusy)
      && s.totbytes == Sum(s.queue) && s.totbytes < maxbytes
  {
    RunKeeps(Initial(maxbytes, watermark), steps);
  }

  lemma {:induction false} RunKeeps(s: Snd, steps: seq<Step>)
    requires Safe(s) && Legal(s, steps)
    ensures Safe(Run(s, steps)) && Run(s, steps).maxbytes == s.maxbytes
    decreases |steps|
  {
    if steps != [] {
      StepKeeps(s, steps[0]);
      SameMaximum(s, steps[0]);
      hide Safe, Next, Enabled;
      RunKeeps(Next(s, steps[0]), steps[1..]);
    }
  }

  lemma SameMaximum(s: Snd, step: Step)
    requires Safe(s) && Enabled(s, step)
    ensures Next(s, step).maxbytes == s.maxbytes
  {
    hide Safe, Entry, Consumed, NextPlayable, FromStart, Sum;
  }

  // ----------------------------------------------------------------------- conservation

  predicate Conserved(s: Snd)
    requires AllValid(s.queue)
  {
    s.handed + Unread(s.queue) == s.pushed
  }

  lemma PushConserves(s: Snd, cmd: Cmd, length: nat, ptr: seq<Octet>)
    requires AllValid(s.queue) && Conserved(s) && PushReady(s, cmd, length, ptr)
    ensures AllValid(Ioctl(s, cmd, length, ptr).queue) && Conserved(Ioctl(s, cmd, length, ptr))
  {
    hide Unread, Readable;
    if !s.abort {
      var b := Entry(s.lastcmd, cmd, length, ptr);
      hide Entry;
      UnreadPush(s.queue, b);
      Assoc(s.handed, Unread(s.queue), b.Unread());
    }
  }

  lemma ConsumeConserves(s: Snd)
    requires Safe(s) && Conserved(s) && s.reader.Loop?
    ensures Conserved(ConsumeRun(s))
  {
    hide Consumed, Unread, Sum, AllValid;
    var p := Consumed(s.queue, s.reader.req, |s.reader.out|);
    ConsumedKeeps(s.queue, s.reader.req, |s.reader.out|);
    Assoc(s.handed, p.bytes, Unread(p.queue));
  }

  lemma DataConserves(s: Snd, ptr: seq<Octet>)
    requires Safe(s) && Enabled(s, DataArrives(ptr)) && Conserved(s)
    ensures AllValid(SubstreamData(s, ptr).queue) && Conserved(SubstreamData(s, ptr))
  {
    hide Ioctl, Unread, Readable, Sum;
    PushConserves(s, Data, |ptr| - 1024, ptr);
  }

  lemma EndConserves(s: Snd)
    requires Safe(s) && Enabled(s, ChannelEnds) && Conserved(s)
    ensures AllValid(SubstreamEnd(s).queue) && Conserved(SubstreamEnd(s))
  {
    hide Ioctl, Unread, Readable, Sum, NextPlayable;
    if s.received < SUBSTREAM {
      PushConserves(Answered(s).(tracks := NextPlayable(s.tracks)), End, 0, []);
    }
  }

  /** A stop or a skip that throws unread bytes away. */
  predicate Drops(s: Snd, step: Step)
    requires AllValid(s.queue)
  {
    match step
    case StopEnds => Unread(s.queue) != []
    case LastStopEnds => Unread(s.queue) != []
    case Skip =>
      FromStartValid(s.queue);
      Unread(FromStart(s.queue)) != Unread(s.queue)
    case _ => false
  }

  lemma StepConserves(s: Snd, step: Step)
    requires Safe(s) && Enabled(s, step) && Conserved(s) && !Drops(s, step)
    ensures AllValid(Next(s, step).queue) && Conserved(Next(s, step))
  {
    hide Unread, Sum;
    match step
    case DataArrives(ptr) =>
      hide SubstreamData;
      DataConserves(s, ptr);
    case KeyArrives =>
      hide Ioctl;
      PushConserves(s, Start, 0, s.tracks[0].copy);
    case ChannelEnds =>
      hide SubstreamEnd;
      EndConserves(s);
    case ConsumeRuns =>
      hide ConsumeRun;
      StepKeeps(s, step);
      ConsumeConserves(s);
    case Skip =>
      hide FromStart;
      FromStartValid(s.queue);
    case StopEnds => StopConserves(s);
    case LastStopEnds => StopConserves(s);
    case _ =>
  }

  lemma StopConserves(s: Snd)
    requires AllValid(s.queue) && Conserved(s) && Unread(s.queue) == []
    ensures Conserved(StopEnd(s))
  {
  }

  predicate NothingDropped(s: Snd, steps: seq<Step>)
    requires Safe(s) && Legal(s, steps)
    decreases |steps|
  {
    steps == []
    || (!Drops(s, steps[0]) && (StepKeeps(s, steps[0]); NothingDropped(Next(s, steps[0]), steps[1..])))
  }

  /** In a run in which no stop and no skip throws unread bytes away, what the decoder was
      handed, followed by what waits in the queue, is what was pushed, in order. */
  lemma {:induction false} RunConserves(s: Snd, steps: seq<Step>)
    requires Safe(s) && Legal(s, steps) && Conserved(s) && NothingDropped(s, steps)
    ensures AllValid(Run(s, steps).queue) && Conserved(Run(s, steps))
    decreases |steps|
  {
    if steps != [] {
      StepKeeps(s, steps[0]);
      StepConserves(s, steps[0]);
      RunConserves(Next(s, steps[0]), steps[1..]);
    }
  }

  // --------------------------------------------------------------- what a call returns

  lemma {:induction false} FromStartNonEmpty(q: seq<Buffer>)
    requires NonEmpty(q)
    ensures NonEmpty(FromStart(q))
  {
    if q != [] && q[0].cmd != Start {
      FromStartNonEmpty(q[1..]);
    }
  }

  lemma PushNonEmpty(s: Snd, cmd: Cmd, length: nat, ptr: seq<Octet>)
    requires NonEmpty(s.queue) && PushReady(s, cmd, length, ptr) && (cmd == Data ==> length > 0)
    ensures NonEmpty(Ioctl(s, cmd, length, ptr).queue)
  {
    if cmd == Data && !s.abort {
      EntryUnread(s.lastcmd, length, ptr);
    }
    hide PageSize, DropsPage, Readable;
  }

  predicate BringsSomething(step: Step) {
    step.DataArrives? ==> |step.ptr| > 1024
  }

  lemma {:induction false} ConsumedNonEmpty(q: seq<Buffer>, req: nat, total: nat)
    requires AllValid(q) && NonEmpty(q) && total <= req
    ensures NonEmpty(Consumed(q, req, total).queue)
    decreases |q|
  {
    if q != [] && q[0].cmd == Start {
      ConsumedNonEmpty(q[1..], req, total);
    } else if q != [] && q[0].cmd == Data {
      var n := Share(q[0], req, total);
      var rest := AfterTaking(q, n);
      ShareExactly(q, req, total);
      assert NonEmpty(rest);
      if rest != [] && total + n != req {
        ConsumedNonEmpty(rest, req, total + n);
      }
    }
  }

  lemma StepNonEmpty(s: Snd, step: Step)
    requires Safe(s) && Enabled(s, step) && NonEmpty(s.queue) && BringsSomething(step)
    ensures NonEmpty(Next(s, step).queue)
  {
    hide Entry, Readable, Sum, NextPlayable, AllValid;
    match step
    case DataArrives(ptr) =>
      hide Ioctl;
      PushNonEmpty(s, Data, |ptr| - 1024, ptr);
    case KeyArrives =>
      hide Ioctl;
      PushNonEmpty(s, Start, 0, s.tracks[0].copy);
    case ChannelEnds =>
      hide Ioctl, NonEmpty;
      if s.received < SUBSTREAM {
        PushNonEmpty(Answered(s).(tracks := NextPlayable(s.tracks)), End, 0, []);
      }
    case ConsumeRuns =>
      hide Consumed;
      ConsumedNonEmpty(s.queue, s.reader.req, |s.reader.out|);
    case Skip =>
      hide FromStart;
      FromStartNonEmpty(s.queue);
    case _ =>
  }

  /** What a call returns when the step ends it. */
  function Returned(s: Snd, step: Step): seq<Octet>
    requires Formed(s) && Enabled(s, step)
  {
    match step
    case ConsumeRuns => s.reader.out + Consumed(s.queue, s.reader.req, |s.reader.out|).bytes
    case Wakes => s.reader.out
    case _ => []
  }

  /** The call took an END: now, or as the last entry, in front of its stop. */
  predicate TookEnd(s: Snd, step: Step)
    requires Formed(s) && Enabled(s, step)
  {
    step.LastStopEnds? || (step.ConsumeRuns? && Ends(Next(s, step).queue) < Ends(s.queue))
  }

  /** What the call has copied is the last that was handed over. */
  predicate Told(s: Snd) {
    s.reader.Loop? || s.reader.Asleep? ==> Last(s.handed, s.reader.out)
  }

  predicate Last(all: seq<Octet>, out: seq<Octet>) {
    |out| <= |all| && all[|all| - |out|..] == out
  }

  lemma LastLonger(all: seq<Octet>, out: seq<Octet>, more: seq<Octet>)
    requires Last(all, out)
    ensures Last(all + more, out + more)
  {
  }

  /** Only a stretch copies bytes. */
  lemma OthersCopyNothing(s: Snd, step: Step)
    requires Formed(s) && Enabled(s, step) && !step.ConsumeRuns?
    ensures var s' := Next(s, step);
      && s'.handed == s.handed && (step.ConsumeBegins? || s'.reader == s.reader || s'.reader.Idle?
         || s'.reader.Stopping? || (step.Wakes? && s'.reader == Loop(s.reader.req, s.reader.out)))
  {
    hide Ioctl, SubstreamEnd, Readable, AllValid, Sum, FromStart;
    match step
    case DataArrives(ptr) => PushCopiesNothing(s, Data, |ptr| - 1024, ptr);
    case ChannelEnds => AnswerCopiesNothing(s);
    case KeyArrives => PushCopiesNothing(s, Start, 0, s.tracks[0].copy);
    case _ =>
  }

  lemma PushCopiesNothing(s: Snd, cmd: Cmd, length: nat, ptr: seq<Octet>)
    requires PushReady(s, cmd, length, ptr)
    ensures var s' := Ioctl(s, cmd, length, ptr); s'.handed == s.handed && s'.reader == s.reader
  {
    hide Readable, Entry;
  }

  lemma AnswerCopiesNothing(s: Snd)
    requires Enabled(s, ChannelEnds)
    ensures var s' := SubstreamEnd(s); s'.handed == s.handed && s'.reader == s.reader
  {
    hide Ioctl, Readable, NextPlayable;
    if s.received < SUBSTREAM {
      PushCopiesNothing(Answered(s).(tracks := NextPlayable(s.tracks)), End, 0, []);
    }
  }

  lemma StepTold(s: Snd, step: Step)
    requires Formed(s) && Enabled(s, step) && Told(s)
    ensures Told(Next(s, step))
    ensures !s.reader.Idle? && Next(s, step).reader.Idle? ==> Last(Next(s, step).handed, Returned(s, step))
  {
    if step.ConsumeRuns? {
      LastLonger(s.handed, s.reader.out, Consumed(s.queue, s.reader.req, |s.reader.out|).bytes);
      hide Consumed, Last, AllValid, Sum;
    } else {
      OthersCopyNothing(s, step);
      OthersReturn(s, step);
      hide Next;
    }
  }

  lemma OthersReturn(s: Snd, step: Step)
    requires Formed(s) && Enabled(s, step) && !step.ConsumeRuns?
    ensures Returned(s, step) == if step.Wakes? then s.reader.out else []
  {
  }

  /** What a stretch that ends the call returns. */
  lemma StretchReturns(s: Snd)
    requires Safe(s) && NonEmpty(s.queue) && s.reader.Loop? && s.reader.req > 0 && ConsumeRun(s).reader.Idle?
    ensures Returned(s, ConsumeRuns) == [] <==> TookEnd(s, ConsumeRuns)
  {
    var req, total := s.reader.req, |s.reader.out|;
    ReturnsNothingExactly(s.queue, req, total);
    ConsumedEnds(s.queue, req, total);
    hide Consumed, Ends, NonEmpty, AllValid, Sum;
  }

  /** After any run in which the data pushed is never empty, a call that asks for something
      and returns, returns the last bytes handed over.  It returns nothing exactly when it
      took an END, or was woken with nothing copied to find the queue empty. */
  lemma {:induction false} ReturnsNothing(s: Snd, steps: seq<Step>, step: Step)
    requires Safe(s) && NonEmpty(s.queue) && Told(s) && Legal(s, steps)
    requires forall other :: other in steps ==> BringsSomething(other)
    requires var t := Run(s, steps);
      && Formed(t) && Enabled(t, step) && !t.reader.Idle? && Next(t, step).reader.Idle?
      && (t.reader.Loop? ==> t.reader.req > 0)
    ensures var t := Run(s, steps);
      && Last(Next(t, step).handed, Returned(t, step))
      && (Returned(t, step) == [] <==> TookEnd(t, step) || (step.Wakes? && t.queue == [] && t.reader.out == []))
    decreases |steps|
  {
    RunKeeps(s, steps);
    if steps == [] {
      StepTold(s, step);
      if step.ConsumeRuns? {
        StretchReturns(s);
      }
      hide Consumed, Ends, NonEmpty, AllValid, Sum, Last, Entry, Readable, FromStart;
    } else {
      StepKeeps(s, steps[0]);
      StepNonEmpty(s, steps[0]);
      StepTold(s, steps[0]);
      hide Safe, Formed, Next, Enabled, NonEmpty, Consumed, Told, Last, TookEnd;
      ReturnsNothing(Next(s, steps[0]), steps[1..], step);
    }
  }

  lemma Prepend(s: Snd, step: Step, rest: seq<Step>)
    requires Safe(s) && Enabled(s, step) && Safe(Next(s, step)) && Legal(Next(s, step), rest)
    ensures Legal(s, [step] + rest) && Run(s, [step] + rest) == Run(Next(s, step), rest)
  {
    assert ([step] + rest)[1..] == rest && ([step] + rest)[0] == step;
    hide Safe, Next, Enabled;
  }

  lemma {:induction false} RunConcat(s: Snd, a: seq<Step>, b: seq<Step>)
    requires Safe(s) && Legal(s, a) && Safe(Run(s, a)) && Legal(Run(s, a), b)
    ensures Legal(s, a + b) && Run(s, a + b) == Run(Run(s, a), b)
    decreases |a|
  {
    hide AllValid, Sum, Next, Enabled;
    if a == [] {
      assert a + b == b;
    } else {
      StepKeeps(s, a[0]);
      RunConcat(Next(s, a[0]), a[1..], b);
      Prepend(s, a[0], a[1..] + b);
      assert a + b == [a[0]] + (a[1..] + b);
    }
  }

  const NEW: Snd := Initial(1024 * 1024, 200 * 1024)

  // ------------------------------------------------------------------------------ the code

  class Session {
    var dl: Dl
    var abort: bool
    var queue: seq<Buffer>
    var totbytes: int
    var maxbytes: int
    var watermark: int
    var lastcmd: Cmd
    var tracks: seq<Track>
    var offset: nat
    var errors: nat
    var reader: Reader
    ghost var outstanding: nat
    var received: nat
    ghost var pushed: seq<Octet>
    ghost var handed: seq<Octet>
    /** The substreams that `cmd_getsubstreams` was called for. */
    ghost var asked: seq<Request>

    ghost function View(): Snd
      reads this
    {
      Snd(dl, abort, queue, totbytes, maxbytes, watermark, lastcmd, tracks, offset, errors, outstanding, received,
          reader, pushed, handed, asked)
    }

    /** `snd_init` */
    constructor ()
      ensures View() == Initial(1024 * 1024, 200 * 1024) && Safe(View())
    {
      dl, abort, queue, totbytes := Filling, false, [], 0;
      maxbytes, watermark, lastcmd := 1024 * 1024, 200 * 1024, Start;
      tracks, offset, errors, reader := [], 0, 0, Idle;
      outstanding, received, pushed, handed, asked := 0, 0, [], [], [];
    }

    /** `despotify_snd_read_stream`: the current track is asked for from the offset on, and a new
        channel starts to count its data; false where there is no current track. */
    method ReadStream(sent: bool) returns (ok: bool)
      modifies this`outstanding, this`received, this`asked
      ensures ok <==> tracks != []
      ensures ok ==> outstanding == old(outstanding) + (if sent then 1 else 0)
      ensures ok ==> received == if sent then 0 else old(received)
      ensures ok ==> asked == old(asked) + if sent then [Request(tracks[0], offset, 204800)] else []
    {
      ok := tracks != [];
      if ok && sent {
        outstanding := outstanding + 1;
        received := 0;
        asked := asked + [Request(tracks[0], offset, SUBSTREAM)];
      }
    }

    /** `snd_fill_fifo` when it does not have to wait; false where the request looks up the file
        of a track that is not there. */
    method Fill(sent: bool) returns (ok: bool)
      requires Safe(View()) && (abort ==> dl != FillingBusy)
      modifies this
      ensures ok <==> Enabled(old(View()), Step.Fill(sent))
      ensures ok ==> View() == Next(old(View()), Step.Fill(sent)) && Safe(View())
    {
      if Enabled(View(), Step.Fill(sent)) {
        StepKeeps(View(), Step.Fill(sent));
      }
      hide AllValid, Sum;
      ok := true;
      if abort {
        dl := Draining;
        return;
      }
      match dl
      case Draining =>
        if totbytes < watermark {
          dl := FillingBusy;
          ok := ReadStream(sent);
        }
      case Filling =>
        if totbytes < maxbytes - 200 * 1024 {
          dl := FillingBusy;
          ok := ReadStream(sent);
        } else {
          dl := Draining;
        }
      case _ =>
    }

    /** `snd_stop` up to its wait */
    method BeginStop()
      requires Safe(View())
      modifies this
      ensures View() == Next(old(View()), StopBegins) && Safe(View())
    {
      StepKeeps(View(), StopBegins);
      hide AllValid, Sum;
      if dl.Filling? || dl.FillingBusy? {
        abort := true;
      }
    }

    /** Free the whole queue. */
    method FreeQueue()
      modifies this`queue
      ensures queue == []
    {
      while queue != []
        modifies `queue
        decreases |queue|
      {
        queue := queue[1..];
      }
    }

    /** `snd_stop` after its wait */
    method StopNow()
      modifies this
      ensures View() == StopEnd(old(View()))
    {
      dl := Draining;
      FreeQueue();
      Reset();
      abort := false;
    }

    /** The end of a stop for the user: the functions that call `snd_stop` begin the track anew. */
    method EndStop()
      requires Safe(View()) && Enabled(View(), StopEnds)
      modifies this
      ensures View() == Next(old(View()), StopEnds) && Safe(View())
    {
      StepKeeps(View(), StopEnds);
      assert Next(View(), StopEnds) == StopEnd(View()).(offset := 0);
      hide Safe, Next, Formed;
      StopNow();
      offset := 0;
    }

    method Reset()
      modifies this`totbytes, this`dl
      ensures totbytes == 0 && dl == Draining
    {
      totbytes := 0;
      dl := Draining;
    }

    /** `snd_next`; false when the next track is not in memory. */
    method NextTrack() returns (found: bool)
      requires Safe(View())
      modifies this
      ensures View() == Next(old(View()), Step.Skip) && Safe(View())
      ensures found <==> queue != []
    {
      StepKeeps(View(), Step.Skip);
      hide Safe, AllValid;
      ghost var q, t := queue, totbytes;
      while queue != [] && queue[0].cmd != Start
        modifies `queue, `totbytes
        invariant FromStart(queue) == FromStart(q) && totbytes == t - (Sum(q) - Sum(queue))
        decreases |queue|
      {
        totbytes := totbytes - queue[0].length;
        queue := queue[1..];
      }
      found := queue != [];
    }

    /** The size of the first page, summed up from its lacing values. */
    method FirstPage(ptr: seq<Octet>) returns (offset: nat)
      requires |ptr| > 26 && 27 + ptr[26] <= |ptr|
      ensures offset == PageSize(ptr)
    {
      offset := 28;
      for i := 0 to ptr[26]
        invariant offset == 28 + Lacing(ptr, i)
      {
        offset := offset + ptr[i + 27];
      }
    }

    /** `snd_ioctl` with CHANNEL_END */
    method EndChannel()
      modifies this`dl
      ensures View() == ChannelEnd(old(View()))
    {
      if abort {
        dl := Draining;
      } else if dl != EndOfList {
        dl := Filling;
      }
    }

    /** The new entry, without the first Ogg page if that is the one to drop. */
    method MakeEntry(cmd: Cmd, data: seq<Octet>, length: nat) returns (buff: Buffer)
      requires length <= |data| && (cmd != Data ==> length == 0) && (lastcmd == Start ==> Readable(data))
      ensures buff == Entry(lastcmd, cmd, length, data) && buff.Valid()
    {
      hide Lacing;
      buff := Buffer(cmd, length, 0, data);
      if lastcmd == Start && data[5] == 6 {
        var offset := FirstPage(data);
        if offset < buff.length {
          buff := Buffer(cmd, length - offset, 0, data[offset..length] + data[length - offset..]);
        }
      }
    }

    /** `snd_ioctl` with START, DATA or END; false where the look at the first page would read
        what is not there. */
    method Push(cmd: Cmd, data: seq<Octet>, length: nat) returns (ok: bool)
      requires length <= |data| && (cmd != Data ==> length == 0)
      modifies this
      ensures ok <==> PushReady(old(View()), cmd, length, data)
      ensures ok ==> View() == Ioctl(old(View()), cmd, length, data)
    {
      hide Readable, Entry;
      ok := true;
      if cmd == End && tracks == [] {
        dl := EndOfList;
      }
      if abort {
        return;
      }
      if lastcmd == Start && !Readable(data) {
        return false;
      }
      var buff := MakeEntry(cmd, data, length);
      queue := queue + [buff];
      totbytes := totbytes + buff.length;
      pushed := pushed + buff.Unread();
      lastcmd := cmd;
    }

    /** `despotify_substream_callback` with decrypted data */
    method SubstreamData(plaintext: seq<Octet>)
      requires Safe(View()) && Enabled(View(), DataArrives(plaintext))
      modifies this
      ensures View() == Next(old(View()), DataArrives(plaintext)) && Safe(View())
    {
      StepKeeps(View(), DataArrives(plaintext));
      hide Safe, Ioctl, Readable;
      received := received + |plaintext| - 1024;
      var ok := Push(Data, plaintext, |plaintext| - 1024);
    }

    /** The search for the next playable track */
    method AdvanceTrack()
      requires tracks != []
      modifies this`tracks
      ensures tracks == NextPlayable(old(tracks))
    {
      tracks := tracks[1..];
      while tracks != [] && !tracks[0].playable
        invariant (if tracks == [] || tracks[0].playable then tracks else NextPlayable(tracks))
               == NextPlayable(old(tracks))
        decreases |tracks|
      {
        tracks := tracks[1..];
      }
    }

    /** The end of the track: the next playable one becomes current, and the queue gets an
        END. */
    method EndTrack() returns (ok: bool)
      requires tracks != []
      modifies this
      ensures ok <==> PushReady(old(View()), End, 0, [])
      ensures ok ==> View() == TrackEnd(old(View()))
    {
      hide Ioctl, Readable, NextPlayable;
      AdvanceTrack();
      ok := Push(End, [], 0);
      offset := 0;
    }

    method NoteAnswer()
      requires outstanding > 0
      modifies this
      ensures View() == Answered(old(View()))
    {
      errors := 0;
      offset := offset + received;
      outstanding := outstanding - 1;
      received := 0;
    }

    /** `despotify_substream_callback` at the end of a channel: a short answer is the end of
        the track.  False where the push of the END reads through a null pointer. */
    method SubstreamEnded() returns (ok: bool)
      requires Safe(View()) && outstanding > 0
      modifies this
      ensures ok <==> Enabled(old(View()), ChannelEnds)
      ensures ok ==> View() == Next(old(View()), ChannelEnds) && Safe(View())
    {
      if Enabled(View(), ChannelEnds) {
        StepKeeps(View(), ChannelEnds);
      }
      hide AllValid, Sum, TrackEnd, ChannelEnd, Readable;
      ok := true;
      var short := received < 200 * 1024;
      NoteAnswer();
      if short {
        ok := EndTrack();
        if !ok {
          return;
        }
      }
      EndChannel();
    }

    /** `despotify_substream_callback` at a channel error */
    method SubstreamFailed()
      requires Safe(View()) && Enabled(View(), ChannelFails)
      modifies this
      ensures View() == Next(old(View()), ChannelFails) && Safe(View())
    {
      StepKeeps(View(), ChannelFails);
      hide Safe;
      errors := errors + 1;
      outstanding := outstanding - 1;
      received := 0;
    }

    /** `despotify_aes_callback`, as far as the queue goes */
    method KeyArrived()
      requires Safe(View()) && Enabled(View(), KeyArrives)
      modifies this
      ensures View() == Next(old(View()), KeyArrives) && Safe(View())
    {
      StepKeeps(View(), KeyArrives);
      hide Safe, Ioctl, Readable;
      var ok := Push(Start, tracks[0].copy, 0);
    }

    /** The body of the loop of `snd_consume_data` for a data buffer: the bytes copied, and
        whether the loop goes on. */
    method TakeData(req: nat, total: nat) returns (piece: seq<Octet>, loop: bool)
      requires queue != [] && AllValid(queue) && queue[0].cmd == Data && total <= req
      modifies this`queue, this`totbytes
      ensures piece == Piece(old(queue[0]), Share(old(queue[0]), req, total))
      ensures queue == AfterTaking(old(queue), |piece|)
      ensures totbytes == old(totbytes) - (Sum(old(queue)) - Sum(queue))
      ensures loop <==> queue != [] && total + |piece| != req
    {
      var b := queue[0];
      var remaining := b.length - b.consumed;
      var length := if total + remaining < req then remaining else req - total;
      piece := b.ptr[b.consumed..b.consumed + length];
      b := b.(consumed := b.consumed + length);
      if b.consumed == b.length {
        queue := queue[1..];
        totbytes := totbytes - b.length;
      } else {
        assert ([b] + queue[1..])[1..] == queue[1..];
        queue := [b] + queue[1..];
      }
      loop := queue != [] && total + length != req;
    }

    lemma TurnData(q: seq<Buffer>, req: nat, total: nat, taken: seq<Octet>)
      requires AllValid(q) && q != [] && q[0].cmd == Data && total <= req
      ensures var n := Share(q[0], req, total); var rest, sofar := AfterTaking(q, n), taken + Piece(q[0], n);
        After(q, req, total, taken)
        == if rest == [] || total + n == req then Progress(rest, sofar, Returns(false))
           else After(rest, req, total + n, sofar)
    {
      var n := Share(q[0], req, total);
      var rest := AfterTaking(q, n);
      if rest != [] && total + n != req {
        hide Piece, AfterTaking;
        Assoc(taken, Piece(q[0], n), Consumed(rest, req, total + n).bytes);
      }
    }

    lemma TurnOther(q: seq<Buffer>, req: nat, total: nat, taken: seq<Octet>)
      requires AllValid(q) && total <= req && (q == [] || q[0].cmd != Data)
      ensures After(q, req, total, taken)
           == if q == [] then Progress(q, taken, Waits)
              else if q[0].cmd == Start then After(q[1..], req, total, taken)
              else if total > 0 then Progress(q, taken, Returns(false))
              else Progress(q[1..], taken, Returns(true))
    {
      assert taken + [] == taken;
    }

    /** What one turn of the loop leaves: the same prospect, or the result. */
    ghost predicate Leads(p: Progress, req: nat, total: nat, taken: seq<Octet>, loop: bool, ended: bool)
      requires AllValid(queue) && total <= req
      reads this`queue
    {
      if loop then !ended && p == After(queue, req, total, taken) else p == Progress(queue, taken, Returns(ended))
    }

    /** One turn of the loop of `snd_consume_data`; `piece` is what it copies. */
    method Turn(req: nat, total: nat, ghost taken: seq<Octet>, ghost p: Progress)
      returns (piece: seq<Octet>, loop: bool, ended: bool)
      requires queue != [] && AllValid(queue) && total <= req && p == After(queue, req, total, taken)
      modifies this`queue, this`totbytes
      ensures AllValid(queue) && total + |piece| <= req
      ensures totbytes == old(totbytes) - (Sum(old(queue)) - Sum(queue))
      ensures Leads(p, req, total + |piece|, taken + piece, loop, ended)
      ensures loop ==> |queue| < old(|queue|) && !ended
    {
      hide Piece, After, Consumed, AfterTaking;
      piece, loop, ended := [], true, false;
      assert taken + [] == taken;
      match queue[0].cmd
      case Start =>
        TurnOther(queue, req, total, taken);
        queue := queue[1..];
      case Data =>
        TurnData(queue, req, total, taken);
        ShareExactly(queue, req, total);
        hide Share, Sum;
        piece, loop := TakeData(req, total);
      case End =>
        TurnOther(queue, req, total, taken);
        loop := false;
        if total == 0 {
          queue := queue[1..];
          ended := true;
        }
    }

    /** When the loop is over, it has come to the result. */
    lemma LeadsToEnd(p: Progress, req: nat, total: nat, taken: seq<Octet>, loop: bool, ended: bool)
      requires AllValid(queue) && total <= req && Leads(p, req, total, taken, loop, ended) && (loop ==> queue == [])
      ensures p == Progress(queue, taken, if loop then Waits else Returns(ended)) && (loop ==> !ended)
    {
      hide After;
      if loop {
        TurnOther(queue, req, total, taken);
      }
    }

    lemma LeadsAtFirst(req: nat, total: nat)
      requires AllValid(queue) && total <= req
      ensures Leads(Consumed(queue, req, total), req, total, [], true, false)
      ensures After(queue, req, total, []) == Consumed(queue, req, total)
    {
      hide Consumed;
      assert [] + Consumed(queue, req, total).bytes == Consumed(queue, req, total).bytes;
    }

    lemma LeadsOn(p: Progress, req: nat, total: nat, taken: seq<Octet>)
      requires AllValid(queue) && total <= req && Leads(p, req, total, taken, true, false)
      ensures p == After(queue, req, total, taken)
    {
    }

    /** The loop of `snd_consume_data`, until it returns or finds the queue empty. */
    method ConsumeLoop(req: nat, start: nat) returns (taken: seq<Octet>, loop: bool, ended: bool)
      requires AllValid(queue) && start <= req
      modifies this`queue, this`totbytes
      ensures totbytes == old(totbytes) - (Sum(old(queue)) - Sum(queue))
      ensures Consumed(old(queue), req, start) == Progress(queue, taken, if loop then Waits else Returns(ended))
      ensures loop ==> !ended
    {
      hide After, Consumed, Sum, AllValid, Leads;
      ghost var p, t, q := Consumed(queue, req, start), totbytes, queue;
      LeadsAtFirst(req, start);
      var totlength: nat := start;
      taken, loop, ended := [], true, false;
      while loop && queue != []
        modifies `queue, `totbytes
        invariant AllValid(queue) && totlength <= req
        invariant totbytes == t - (Sum(q) - Sum(queue))
        invariant Leads(p, req, totlength, taken, loop, ended) && (loop ==> !ended)
        decreases loop, |queue|
      {
        hide After, Consumed, Sum, AllValid, Leads;
        var piece;
        LeadsOn(p, req, totlength, taken);
        piece, loop, ended := Turn(req, totlength, taken, p);
        totlength := totlength + |piece|;
        taken := taken + piece;
      }
      LeadsToEnd(p, req, totlength, taken, loop, ended);
    }

    method BeginConsume(req: nat)
      requires Safe(View()) && Enabled(View(), ConsumeBegins(req))
      modifies this`reader
      ensures View() == Next(old(View()), ConsumeBegins(req)) && Safe(View())
    {
      StepKeeps(View(), ConsumeBegins(req));
      reader := Loop(req, []);
    }

    /** A stretch of `snd_consume_data`, until it returns or waits.  `ended` tells that it
        took an END; when the queue is empty then, a stop comes before the return. */
    method Consume() returns (ended: bool)
      requires Safe(View()) && reader.Loop?
      modifies this
      ensures View() == Next(old(View()), ConsumeRuns) && Safe(View())
      ensures ended <==> Ends(queue) < Ends(old(queue))
      ensures reader.Ended? <==> ended && queue == []
    {
      StepKeeps(View(), ConsumeRuns);
      StretchIs(View());
      hide Safe, Ends, Consumed, Sum, Next, AllValid;
      var taken, loop;
      taken, loop, ended := ConsumeLoop(reader.req, |reader.out|);
      handed := handed + taken;
      if loop {
        reader := Asleep(reader.req, reader.out + taken);
      } else if ended && queue == [] {
        reader := Ended;
      } else {
        reader := Idle;
      }
    }

    /** Behind the wait: the call goes on, or returns what it has when there is still
        nothing. */
    method Wake() returns (returned: bool)
      requires Safe(View()) && reader.Asleep?
      modifies this`reader
      ensures View() == Next(old(View()), Wakes) && Safe(View())
      ensures returned <==> queue == []
    {
      StepKeeps(View(), Wakes);
      returned := queue == [];
      reader := if returned then Idle else Loop(reader.req, reader.out);
    }

    /** The stop inside a call, up to its wait */
    method BeginLastStop()
      requires Safe(View()) && reader.Ended?
      modifies this
      ensures View() == Next(old(View()), LastStopBegins) && Safe(View())
    {
      StepKeeps(View(), LastStopBegins);
      BeginStop();
      reader := Stopping;
    }

    /** The stop inside a call after its wait, and the return with nothing */
    method EndLastStop()
      requires Safe(View()) && Enabled(View(), LastStopEnds)
      modifies this
      ensures View() == Next(old(View()), LastStopEnds) && Safe(View())
    {
      StepKeeps(View(), LastStopEnds);
      hide AllValid, Sum;
      StopNow();
      reader := Idle;
    }
  }

  lemma StretchIs(s: Snd)
    requires Safe(s) && s.reader.Loop?
    ensures AllValid(s.queue) && |s.reader.out| <= s.reader.req && Next(s, ConsumeRuns) == ConsumeRun(s)
    ensures var p := Consumed(s.queue, s.reader.req, |s.reader.out|);
      Ends(p.queue) < Ends(s.queue) <==> p.outcome == Returns(true)
  {
    hide Consumed, Ends, Sum;
    ConsumedEnds(s.queue, s.reader.req, |s.reader.out|);
  }

  /** What a stretch comes to, when it goes on after `taken`. */
  function After(q: seq<Buffer>, req: nat, total: nat, taken: seq<Octet>): Progress
    requires AllValid(q) && total <= req
  {
    var p := Consumed(q, req, total);
    p.(bytes := taken + p.bytes)
  }
}
