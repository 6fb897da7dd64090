/** Whole consume calls of src/lib/sndqueue.c, over all their stretches and waits and whatever
    the other threads do meanwhile. */
module SndCalls {
  import opened SndQueue

  /** A step in the middle of a call that throws nothing away. */
  predicate KeepsQueue(s: Snd, step: Step) {
    match step
    case StopEnds => s.queue == []
    case LastStopEnds => s.queue == []
    case Skip => FromStart(s.queue) == s.queue
    case ConsumeBegins(_) => false
    case _ => true
  }

  /** The entries that a step queues. */
  function Arrives(s: Snd, step: Step): seq<Buffer>
    requires Enabled(s, step)
  {
    if s.abort then []
    else
      match step
      case DataArrives(ptr) => [Entry(s.lastcmd, Data, |ptr| - 1024, ptr)]
      case ChannelEnds => if s.received < SUBSTREAM then [Entry(s.lastcmd, End, 0, [])] else []
      case KeyArrives => [Entry(s.lastcmd, Start, 0, s.tracks[0].copy)]
      case _ => []
  }

  predicate Within(s: Snd, steps: seq<Step>)
    requires Safe(s) && Legal(s, steps)
    decreases |steps|
  {
    steps == [] || (KeepsQueue(s, steps[0]) && (StepKeeps(s, steps[0]); Within(Next(s, steps[0]), steps[1..])))
  }

  function Arrivals(s: Snd, steps: seq<Step>): seq<Buffer>
    requires Safe(s) && Legal(s, steps)
    decreases |steps|
  {
    if steps == [] then []
    else
      StepKeeps(s, steps[0]);
      Arrives(s, steps[0]) + Arrivals(Next(s, steps[0]), steps[1..])
  }

  /** What was there for the call, `all`, up to its first END, is what it has copied and what is
      still to come. */
  ghost predicate InCall(s: Snd, all: seq<Buffer>) {
    && AllValid(all) && AllValid(s.queue)
    && (s.reader.Loop? || s.reader.Asleep? ==>
          Ends(all) == Ends(s.queue) && UntilEnd(all) == s.reader.out + UntilEnd(s.queue))
  }

  lemma {:induction false} UntilEndPush(q: seq<Buffer>, b: Buffer)
    requires AllValid(q) && b.Valid()
    ensures UntilEnd(q + [b]) == if Ends(q) > 0 || b.cmd == End then UntilEnd(q) else UntilEnd(q) + b.Unread()
    ensures Ends(q + [b]) == Ends(q) + if b.cmd == End then 1 else 0
  {
    hide Buffer.Unread, Buffer.Valid;
    if q == [] {
      assert [b][1..] == [] && [] + [b] == [b];
      assert [] + b.Unread() == b.Unread() == b.Unread() + [];
    } else {
      assert (q + [b])[0] == q[0] && (q + [b])[1..] == q[1..] + [b];
      UntilEndPush(q[1..], b);
      Assoc(q[0].Unread(), UntilEnd(q[1..]), b.Unread());
    }
  }

  /** One more entry is there for the call and in the queue. */
  lemma PushInCall(s: Snd, t: Snd, all: seq<Buffer>, b: Buffer)
    requires InCall(s, all) && b.Valid() && t.reader == s.reader && t.queue == s.queue + [b]
    ensures InCall(t, all + [b])
  {
    hide UntilEnd, Ends, Buffer.Unread, Buffer.Valid;
    if s.reader.Loop? || s.reader.Asleep? {
      UntilEndPush(all, b);
      UntilEndPush(s.queue, b);
      Assoc(s.reader.out, UntilEnd(s.queue), b.Unread());
    }
  }

  lemma SameInCall(s: Snd, t: Snd, all: seq<Buffer>)
    requires InCall(s, all) && t.queue == s.queue
    requires t.reader == s.reader || !(t.reader.Loop? || t.reader.Asleep?)
      || (s.reader.Asleep? && t.reader == Loop(s.reader.req, s.reader.out))
    ensures InCall(t, all + [])
  {
    assert all + [] == all;
  }

  lemma StretchInCall(s: Snd, all: seq<Buffer>)
    requires Formed(s) && s.reader.Loop? && InCall(s, all)
    ensures InCall(ConsumeRun(s), all + [])
  {
    assert all + [] == all;
    var p := Consumed(s.queue, s.reader.req, |s.reader.out|);
    ConsumedUpToEnd(s.queue, s.reader.req, |s.reader.out|);
    ConsumedEnds(s.queue, s.reader.req, |s.reader.out|);
    hide Consumed, UntilEnd, Ends, Sum, AllValid;
    Assoc(s.reader.out, p.bytes, UntilEnd(p.queue));
  }

  lemma AnswerInCall(s: Snd, all: seq<Buffer>)
    requires Formed(s) && Enabled(s, ChannelEnds) && InCall(s, all)
    ensures InCall(SubstreamEnd(s), all + Arrives(s, ChannelEnds))
  {
    var t := SubstreamEnd(s);
    if s.received < SUBSTREAM && !s.abort {
      var b := Entry(s.lastcmd, End, 0, []);
      hide Entry, InCall, NextPlayable, Readable;
      assert t.queue == s.queue + [b] && t.reader == s.reader;
      PushInCall(s, t, all, b);
    } else {
      hide Entry, InCall, NextPlayable, Readable;
      assert t.queue == s.queue && t.reader == s.reader;
      SameInCall(s, t, all);
    }
  }

  lemma PushedInCall(s: Snd, cmd: Cmd, length: nat, ptr: seq<Octet>, all: seq<Buffer>)
    requires Formed(s) && PushReady(s, cmd, length, ptr) && InCall(s, all)
    ensures InCall(Ioctl(s, cmd, length, ptr), all + if s.abort then [] else [Entry(s.lastcmd, cmd, length, ptr)])
  {
    var t := Ioctl(s, cmd, length, ptr);
    hide InCall, Readable;
    if s.abort {
      SameInCall(s, t, all);
    } else {
      PushInCall(s, t, all, Entry(s.lastcmd, cmd, length, ptr));
    }
  }

  lemma DataInCall(s: Snd, ptr: seq<Octet>, all: seq<Buffer>)
    requires Formed(s) && Enabled(s, DataArrives(ptr)) && InCall(s, all)
    ensures InCall(SubstreamData(s, ptr), all + Arrives(s, DataArrives(ptr)))
  {
    PushedInCall(s, Data, |ptr| - 1024, ptr, all);
    hide Ioctl, Readable, Entry, UntilEnd, Ends, AllValid;
  }

  lemma StepInCall(s: Snd, step: Step, all: seq<Buffer>)
    requires Formed(s) && Enabled(s, step) && KeepsQueue(s, step) && InCall(s, all)
    ensures InCall(Next(s, step), all + Arrives(s, step))
  {
    hide InCall, Ioctl, SubstreamData, SubstreamEnd, ConsumeRun, Readable, Entry, AllValid, Sum, FromStart;
    match step
    case DataArrives(ptr) => DataInCall(s, ptr, all);
    case ChannelEnds => AnswerInCall(s, all);
    case KeyArrives => PushedInCall(s, Start, 0, s.tracks[0].copy, all);
    case ConsumeRuns => StretchInCall(s, all);
    case ConsumeBegins(_) =>
    case _ => SameInCall(s, Next(s, step), all);
  }

  lemma {:induction false} RunInCall(s: Snd, steps: seq<Step>, all: seq<Buffer>)
    requires Safe(s) && Legal(s, steps) && Within(s, steps) && InCall(s, all)
    ensures InCall(Run(s, steps), all + Arrivals(s, steps))
    decreases |steps|
  {
    hide InCall, Enabled, Next, KeepsQueue, Arrives, AllValid, Sum, OneRequest, Bounded;
    if steps == [] {
      assert all + [] == all;
    } else {
      StepKeeps(s, steps[0]);
      StepInCall(s, steps[0], all);
      var t, more := Next(s, steps[0]), Arrives(s, steps[0]);
      RunInCall(t, steps[1..], all + more);
      assert all + more + Arrivals(t, steps[1..]) == all + (more + Arrivals(t, steps[1..]));
    }
  }

  /** What a stretch that ends a call returns: what was there up to the first END, or as much of
      it as was asked for. */
  lemma StretchEnds(s: Snd, all: seq<Buffer>)
    requires Formed(s) && s.reader.Loop? && InCall(s, all)
    ensures var r := Returned(s, ConsumeRuns);
      && r <= UntilEnd(all) && (TookEnd(s, ConsumeRuns) ==> r == UntilEnd(all) == [])
      && (!ConsumeRun(s).reader.Asleep? && !TookEnd(s, ConsumeRuns) ==> |r| == s.reader.req || r == UntilEnd(all))
  {
    var req, out := s.reader.req, s.reader.out;
    var p := Consumed(s.queue, req, |out|);
    ConsumedUpToEnd(s.queue, req, |out|);
    ConsumedEnds(s.queue, req, |out|);
    ConsumedAll(s.queue, req, |out|);
    hide Consumed, UntilEnd, Ends, Sum, AllValid;
    Assoc(out, p.bytes, Ahead(p));
    Assoc(out, p.bytes, []);
  }

  /** A call never crosses an END.  From its beginning to its return, with any steps of the other
      threads between its stretches that throw nothing away: what it returns are the first bytes,
      up to the first END, of what was queued when it began and what was queued since.  When it
      does not take an END or the stop behind one, they are as many as were asked for, or all. */
  lemma CallStopsAtEnd(s: Snd, req: nat, steps: seq<Step>, step: Step)
    requires Safe(s) && s.reader == Loop(req, []) && Legal(s, steps) && Within(s, steps)
    requires var t := Run(s, steps);
      Formed(t) && Enabled(t, step) && !t.reader.Idle? && Next(t, step).reader.Idle?
    ensures var t, all := Run(s, steps), s.queue + Arrivals(s, steps);
      && AllValid(all) && Returned(t, step) <= UntilEnd(all)
      && (if TookEnd(t, step) then Returned(t, step) == []
          else |Returned(t, step)| == req || Returned(t, step) == UntilEnd(all))
  {
    assert [] + UntilEnd(s.queue) == UntilEnd(s.queue);
    RunInCall(s, steps, s.queue);
    RunAsks(s, steps, req);
    hide Run, Legal, Within, Arrivals, InCall;
    ReturnEnds(Run(s, steps), step, s.queue + Arrivals(s, steps), req);
  }

  lemma ReturnEnds(t: Snd, step: Step, all: seq<Buffer>, req: nat)
    requires Formed(t) && Enabled(t, step) && !t.reader.Idle? && Next(t, step).reader.Idle?
    requires InCall(t, all) && AsksFor(t, req)
    ensures AllValid(all) && Returned(t, step) <= UntilEnd(all)
    ensures if TookEnd(t, step) then Returned(t, step) == []
            else |Returned(t, step)| == req || Returned(t, step) == UntilEnd(all)
  {
    if step.ConsumeRuns? {
      StretchEnds(t, all);
    } else {
      OthersCopyNothing(t, step);
      OthersReturn(t, step);
      assert UntilEnd([]) == [];
      hide Consumed, UntilEnd, Ends, Sum, AllValid, SubstreamData, SubstreamEnd, Ioctl;
    }
  }

  predicate AsksFor(s: Snd, req: nat) {
    s.reader.Loop? || s.reader.Asleep? ==> s.reader.req == req
  }

  lemma StepAsks(s: Snd, step: Step, req: nat)
    requires Formed(s) && Enabled(s, step) && KeepsQueue(s, step) && AsksFor(s, req)
    ensures AsksFor(Next(s, step), req)
  {
    hide AllValid, Sum, Consumed, FromStart, NextPlayable, Entry, Readable;
    if !step.ConsumeRuns? {
      OthersCopyNothing(s, step);
    }
  }

  lemma {:induction false} RunAsks(s: Snd, steps: seq<Step>, req: nat)
    requires Safe(s) && Legal(s, steps) && Within(s, steps) && AsksFor(s, req)
    ensures AsksFor(Run(s, steps), req)
    decreases |steps|
  {
    hide AsksFor, Enabled, Next, KeepsQueue, AllValid, Sum, OneRequest, Bounded;
    if steps != [] {
      StepKeeps(s, steps[0]);
      StepAsks(s, steps[0], req);
      RunAsks(Next(s, steps[0]), steps[1..], req);
    }
  }
}
