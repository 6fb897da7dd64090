/** A stop in src/lib/sndqueue.c waits without the lock until no download is going on, and then
    sets the state.  Here its wait and its assignment are two steps, with steps of the other
    threads between them, and a run can have any number of stops under way. */
module LateStop {
  import opened SndQueue

  /** Who stops: a user's thread, or the consumer behind the last END. */
  datatype Stopper = User(id: nat) | Consumer

  datatype Move = Other(step: Step) | StopWaits(who: Stopper) | StopAssigns(who: Stopper)

  /** What a move shows: a request sent or answered, and the halves of a stop. */
  datatype Mark = Sent | Done | Waited(who: Stopper) | Assigned(who: Stopper) | Quiet

  /** `passed` are the stops behind their wait. */
  datatype Split = Split(snd: Snd, passed: set<Stopper>)

  predicate Can(s: Split, m: Move) {
    match m
    case Other(step) => !step.StopEnds? && !step.LastStopEnds? && Enabled(s.snd, step)
    case StopWaits(who) =>
      who !in s.passed && s.snd.dl != FillingBusy && (who.Consumer? ==> s.snd.reader.Stopping?)
    case StopAssigns(who) => who in s.passed
  }

  function Moved(s: Split, m: Move): Split
    requires Formed(s.snd) && Can(s, m)
  {
    match m
    case Other(step) => s.(snd := Next(s.snd, step))
    case StopWaits(who) => s.(passed := s.passed + {who})
    case StopAssigns(who) =>
      var t := StopEnd(s.snd);
      Split(if who.Consumer? then t.(reader := Idle) else t.(offset := 0), s.passed - {who})
  }

  function MarkOf(s: Snd, m: Move): Mark {
    match m
    case Other(step) =>
      if step.Fill? && step.sent && Asks(s) then Sent
      else if step.ChannelEnds? || step.ChannelFails? then Done
      else Quiet
    case StopWaits(who) => Waited(who)
    case StopAssigns(who) => Assigned(who)
  }

  // -------------------------------------------------------------------------------- runs

  lemma PushFormed(s: Snd, cmd: Cmd, length: nat, ptr: seq<Octet>)
    requires Formed(s) && PushReady(s, cmd, length, ptr)
    ensures Formed(Ioctl(s, cmd, length, ptr))
  {
    hide Readable, Entry;
  }

  lemma AnswerFormed(s: Snd)
    requires Formed(s) && Enabled(s, ChannelEnds)
    ensures Formed(SubstreamEnd(s))
  {
    hide Ioctl, Readable, NextPlayable;
    if s.received < SUBSTREAM {
      PushFormed(Answered(s).(tracks := NextPlayable(s.tracks)), End, 0, []);
    }
  }

  lemma StepFormed(s: Snd, step: Step)
    requires Formed(s) && Enabled(s, step)
    ensures Formed(Next(s, step))
  {
    hide Ioctl, SubstreamEnd, Readable, Sum, FromStart, Consumed;
    match step
    case DataArrives(ptr) => PushFormed(s, Data, |ptr| - 1024, ptr);
    case ChannelEnds => AnswerFormed(s);
    case KeyArrives => PushFormed(s, Start, 0, s.tracks[0].copy);
    case Skip => FromStartValid(s.queue);
    case _ =>
  }

  lemma MoveFormed(s: Split, m: Move)
    requires Formed(s.snd) && Can(s, m)
    ensures Formed(Moved(s, m).snd)
  {
    hide Next, Enabled;
    if m.Other? {
      StepFormed(s.snd, m.step);
    }
  }

  /** The state after the moves, none for a run that cannot happen, and the marks they leave. */
  datatype Path = Path(at: Split, trace: seq<Mark>) | Broken

  function After(s: Split, moves: seq<Move>): (p: Path)
    requires Formed(s.snd)
    ensures p.Path? ==> Formed(p.at.snd) && |p.trace| == |moves|
    decreases |moves|
  {
    if moves == [] then Path(s, [])
    else
      var p, m := After(s, moves[..|moves| - 1]), moves[|moves| - 1];
      if p.Path? && Can(p.at, m) then
        MoveFormed(p.at, m);
        Path(Moved(p.at, m), p.trace + [MarkOf(p.at.snd, m)])
      else Broken
  }

  lemma {:induction false} PrefixHappens(s: Split, moves: seq<Move>, n: nat)
    requires Formed(s.snd) && After(s, moves).Path? && n <= |moves|
    ensures After(s, moves[..n]).Path? && After(s, moves[..n]).trace == After(s, moves).trace[..n]
    decreases |moves|
  {
    if n < |moves| {
      PrefixHappens(s, moves[..|moves| - 1], n);
      assert moves[..|moves| - 1][..n] == moves[..n];
    } else {
      assert moves[..n] == moves;
    }
  }

  // ------------------------------------------------------------------------- overtaking

  /** Since the place `i`, a stop has been between its wait and its assignment. */
  predicate Pending(trace: seq<Mark>, who: Stopper, i: nat) {
    i < |trace| && trace[i] == Waited(who) && Assigned(who) !in trace[i..]
  }

  /** The request sent at `j` has no answer yet. */
  predicate Open(trace: seq<Mark>, j: nat) {
    j < |trace| && trace[j] == Sent && Done !in trace[j..]
  }

  /** A request that has no answer yet was sent behind the wait of the stop. */
  ghost predicate Crossed(trace: seq<Mark>, who: Stopper) {
    exists i, j :: i < j && Pending(trace, who, i) && Open(trace, j)
  }

  /** The move at `k` is the assignment of a stop that was overtaken like that. */
  ghost predicate Overtaken(trace: seq<Mark>, k: nat) {
    k < |trace| && trace[k].Assigned? && Crossed(trace[..k], trace[k].who)
  }

  lemma PendingOn(trace: seq<Mark>, who: Stopper, i: nat, mark: Mark)
    requires Pending(trace, who, i) && mark != Assigned(who)
    ensures Pending(trace + [mark], who, i)
  {
    assert (trace + [mark])[i..] == trace[i..] + [mark];
  }

  lemma OpenOn(trace: seq<Mark>, j: nat, mark: Mark)
    requires j < |trace|
    ensures Open(trace + [mark], j) <==> Open(trace, j) && mark != Done
  {
    assert (trace + [mark])[j..] == trace[j..] + [mark];
  }

  lemma CrossedOn(trace: seq<Mark>, who: Stopper, mark: Mark)
    requires Crossed(trace, who) && mark != Assigned(who) && mark != Done
    ensures Crossed(trace + [mark], who)
  {
    var i, j :| i < j && Pending(trace, who, i) && Open(trace, j);
    PendingOn(trace, who, i, mark);
    OpenOn(trace, j, mark);
  }

  ghost predicate NoneOvertaken(trace: seq<Mark>) {
    forall k :: !Overtaken(trace, k)
  }

  lemma OvertakenBefore(trace: seq<Mark>, more: seq<Mark>, k: nat)
    requires k < |trace|
    ensures Overtaken(trace + more, k) == Overtaken(trace, k)
  {
    assert (trace + more)[..k] == trace[..k];
  }

  /** What the trace tells about a state in which the promises hold. */
  ghost predicate Kept(s: Split, trace: seq<Mark>) {
    && Safe(s.snd)
    && (forall who <- s.passed :: exists i :: Pending(trace, who, i))
    && (forall who <- s.passed :: s.snd.outstanding > 0 ==> Crossed(trace, who))
    && (forall j :: Open(trace, j) ==> s.snd.outstanding > 0)
  }

  /** How a step counts, in a state in which the promises hold. */
  lemma Outstanding(s: Snd, step: Step)
    requires Safe(s) && Enabled(s, step)
    ensures var mark, n := MarkOf(s, Other(step)), Next(s, step).outstanding;
      && (mark == Sent ==> s.outstanding == 0 && n == 1) && (mark == Done ==> n == 0)
      && (mark == Quiet ==> n == s.outstanding)
  {
    hide Ioctl, SubstreamEnd, Readable, AllValid, Sum, FromStart, Consumed, ConsumeRun, SkipTrack;
    match step
    case DataArrives(ptr) => PushAsksNothing(s, Data, |ptr| - 1024, ptr);
    case ChannelEnds => AnswerCounts(s);
    case KeyArrives => PushAsksNothing(s, Start, 0, s.tracks[0].copy);
    case ConsumeRuns => ReadingAsksNothing(s);
    case Skip => SkippingAsksNothing(s);
    case _ =>
  }

  lemma PushAsksNothing(s: Snd, cmd: Cmd, length: nat, ptr: seq<Octet>)
    requires PushReady(s, cmd, length, ptr)
    ensures Ioctl(s, cmd, length, ptr).outstanding == s.outstanding
  {
    hide Readable, Entry;
  }

  lemma AnswerCounts(s: Snd)
    requires Enabled(s, ChannelEnds)
    ensures SubstreamEnd(s).outstanding == s.outstanding - 1
  {
    hide Ioctl, Readable, NextPlayable;
    if s.received < SUBSTREAM {
      PushAsksNothing(Answered(s).(tracks := NextPlayable(s.tracks)), End, 0, []);
    }
  }

  lemma ReadingAsksNothing(s: Snd)
    requires Formed(s) && s.reader.Loop?
    ensures ConsumeRun(s).outstanding == s.outstanding
  {
    hide Consumed, Sum, AllValid;
  }

  lemma SkippingAsksNothing(s: Snd)
    ensures SkipTrack(s).outstanding == s.outstanding
  {
    hide FromStart, Sum;
  }

  lemma StepKept(s: Split, step: Step, trace: seq<Mark>)
    requires Kept(s, trace) && Can(s, Other(step))
    ensures Kept(Moved(s, Other(step)), trace + [MarkOf(s.snd, Other(step))])
  {
    var mark, t := MarkOf(s.snd, Other(step)), Next(s.snd, step);
    StepKeeps(s.snd, step);
    Outstanding(s.snd, step);
    hide Safe, Next, Enabled, Pending, Open, Crossed;
    forall who <- s.passed
      ensures exists i :: Pending(trace + [mark], who, i)
      ensures t.outstanding > 0 ==> Crossed(trace + [mark], who)
    {
      var i :| Pending(trace, who, i);
      PendingOn(trace, who, i, mark);
      if mark == Sent {
        SentCrosses(trace, who, i);
      } else if mark == Quiet && t.outstanding > 0 {
        CrossedOn(trace, who, mark);
      }
    }
    forall j | Open(trace + [mark], j)
      ensures t.outstanding > 0
    {
      OpenEarlier(trace, mark, j);
    }
  }

  lemma SentCrosses(trace: seq<Mark>, who: Stopper, i: nat)
    requires Pending(trace, who, i)
    ensures Crossed(trace + [Sent], who)
  {
    PendingOn(trace, who, i, Sent);
    assert (trace + [Sent])[|trace|..] == [Sent];
    assert Open(trace + [Sent], |trace|);
  }

  lemma OpenEarlier(trace: seq<Mark>, mark: Mark, j: nat)
    requires Open(trace + [mark], j)
    ensures mark == Sent || (Open(trace, j) && mark != Done)
  {
    if j < |trace| {
      OpenOn(trace, j, mark);
    }
  }

  lemma WaitKept(s: Split, who: Stopper, trace: seq<Mark>)
    requires Kept(s, trace) && Can(s, StopWaits(who))
    ensures Kept(Moved(s, StopWaits(who)), trace + [Waited(who)])
  {
    var mark := Waited(who);
    hide Pending, Open, Crossed, AllValid, Sum;
    forall other <- s.passed + {who}
      ensures exists i :: Pending(trace + [mark], other, i)
    {
      if other == who {
        WaitPends(trace, who);
      } else {
        var i :| Pending(trace, other, i);
        PendingOn(trace, other, i, mark);
      }
    }
    forall j: nat
      ensures !Open(trace + [mark], j)
    {
      if Open(trace + [mark], j) {
        OpenEarlier(trace, mark, j);
      }
    }
  }

  lemma WaitPends(trace: seq<Mark>, who: Stopper)
    ensures Pending(trace + [Waited(who)], who, |trace|)
  {
    assert (trace + [Waited(who)])[|trace|..] == [Waited(who)];
  }

  lemma AssignKept(s: Split, who: Stopper, trace: seq<Mark>)
    requires Kept(s, trace) && Can(s, StopAssigns(who)) && s.snd.outstanding == 0
    ensures Kept(Moved(s, StopAssigns(who)), trace + [Assigned(who)])
  {
    var mark := Assigned(who);
    assert Safe(Moved(s, StopAssigns(who)).snd);
    hide Pending, Open, Crossed, AllValid, Sum;
    forall other <- s.passed - {who}
      ensures exists i :: Pending(trace + [mark], other, i)
    {
      var i :| Pending(trace, other, i);
      PendingOn(trace, other, i, mark);
    }
    forall j: nat
      ensures !Open(trace + [mark], j)
    {
      if Open(trace + [mark], j) {
        OpenEarlier(trace, mark, j);
      }
    }
  }

  /** An assignment that was overtaken breaks the promise, and any other move keeps it. */
  lemma MoveKept(s: Split, m: Move, trace: seq<Mark>)
    requires Kept(s, trace) && Can(s, m)
    ensures if m.StopAssigns? && Crossed(trace, m.who) then !OneRequest(Moved(s, m).snd)
            else Kept(Moved(s, m), trace + [MarkOf(s.snd, m)])
  {
    match m
    case Other(step) => StepKept(s, step, trace);
    case StopWaits(who) => WaitKept(s, who, trace);
    case StopAssigns(who) =>
      hide Pending, Open, AllValid, Sum;
      if !Crossed(trace, who) {
        AssignKept(s, who, trace);
      }
  }

  /** Some state on the way breaks the promise. */
  ghost predicate Breaks(s: Split, moves: seq<Move>)
    requires Formed(s.snd)
  {
    exists n: nat :: n <= |moves| && After(s, moves[..n]).Path? && !OneRequest(After(s, moves[..n]).at.snd)
  }

  lemma {:induction false} RunKept(s: Split, moves: seq<Move>)
    requires Safe(s.snd) && s.passed == {} && After(s, moves).Path?
    ensures var p := After(s, moves); if NoneOvertaken(p.trace) then Kept(p.at, p.trace) else Breaks(s, moves)
    decreases |moves|
  {
    hide Overtaken, Crossed, AllValid, Sum, OneRequest, Bounded, Pending, Open;
    if moves == [] {
      NothingKept(s);
    } else {
      var front, m := moves[..|moves| - 1], moves[|moves| - 1];
      var p := After(s, front);
      RunKept(s, front);
      LastMove(p.at, m, p.trace);
      if !NoneOvertaken(p.trace) {
        BreaksOn(s, front, moves);
      } else {
        assert moves[..|moves|] == moves;
        MoveKept(p.at, m, p.trace);
      }
    }
  }

  lemma NothingKept(s: Split)
    requires Safe(s.snd) && s.passed == {}
    ensures Kept(s, []) && NoneOvertaken([])
  {
  }

  lemma BreaksOn(s: Split, front: seq<Move>, moves: seq<Move>)
    requires Formed(s.snd) && Breaks(s, front) && |front| <= |moves| && front == moves[..|front|]
    ensures Breaks(s, moves)
  {
    hide OneRequest, After;
    var n: nat :| n <= |front| && After(s, front[..n]).Path? && !OneRequest(After(s, front[..n]).at.snd);
    assert front[..n] == moves[..n];
  }

  lemma LastMove(s: Split, m: Move, trace: seq<Mark>)
    ensures NoneOvertaken(trace + [MarkOf(s.snd, m)]) <==>
      NoneOvertaken(trace) && !(m.StopAssigns? && Crossed(trace, m.who))
  {
    hide Crossed;
    var mark := MarkOf(s.snd, m);
    assert (trace + [mark])[..|trace|] == trace;
    assert Overtaken(trace + [mark], |trace|) == (m.StopAssigns? && Crossed(trace, m.who));
    forall k: nat
      ensures Overtaken(trace + [mark], k) == if k < |trace| then Overtaken(trace, k) else
        k == |trace| && m.StopAssigns? && Crossed(trace, m.who)
    {
      if k < |trace| {
        OvertakenBefore(trace, [mark], k);
      }
    }
  }

  lemma NoneBefore(trace: seq<Mark>, n: nat)
    requires n <= |trace| && NoneOvertaken(trace)
    ensures NoneOvertaken(trace[..n])
  {
    hide Crossed;
    forall k: nat
      ensures !Overtaken(trace[..n], k)
    {
      if k < n {
        assert trace[..n][..k] == trace[..k];
        assert !Overtaken(trace, k);
      }
    }
  }

  /** In every run of the split machine, from a state with no stop under way: the promise of at
      most one request, with the controller busy meanwhile, holds all along exactly when no
      stop was overtaken, between its wait and its assignment, by a request that had no answer
      when the assignment came. */
  lemma OneRequestExactly(s: Split, moves: seq<Move>)
    requires Safe(s.snd) && s.passed == {} && After(s, moves).Path?
    ensures forall n: nat :: n <= |moves| ==> After(s, moves[..n]).Path?
    ensures (forall n: nat :: n <= |moves| ==> OneRequest(After(s, moves[..n]).at.snd))
       <==> (forall k: nat :: !Overtaken(After(s, moves).trace, k))
  {
    hide Overtaken, AllValid, Sum, OneRequest, After, Formed, Bounded;
    var trace := After(s, moves).trace;
    forall n: nat | n <= |moves|
      ensures After(s, moves[..n]).Path?
      ensures NoneOvertaken(trace) ==> OneRequest(After(s, moves[..n]).at.snd)
    {
      PrefixHappens(s, moves, n);
      if NoneOvertaken(trace) {
        NoneBefore(trace, n);
        RunKept(s, moves[..n]);
      }
    }
    RunKept(s, moves);
  }

  lemma OneMore(s: Split, moves: seq<Move>, n: nat)
    requires Formed(s.snd) && n < |moves| && After(s, moves[..n]).Path? && Can(After(s, moves[..n]).at, moves[n])
    ensures var p := After(s, moves[..n]);
      After(s, moves[..n + 1]) == Path(Moved(p.at, moves[n]), p.trace + [MarkOf(p.at.snd, moves[n])])
  {
    assert moves[..n + 1][..n] == moves[..n];
    hide Can, Moved, MarkOf, Formed;
  }

  /** The moves of a late stop: it finds no download going on and so asks for no abort, a fill
      sends a request, the stop sets the state all the same, and another fill sends a second
      request. */
  function LateMoves(who: Stopper): seq<Move> {
    [Other(StopBegins), StopWaits(who), Other(Step.Fill(true)), StopAssigns(who), Other(Step.Fill(true))]
  }

  lemma LateStates(s: Snd, who: Stopper)
    requires Safe(s) && s.dl == Draining && !s.abort && s.totbytes < s.watermark && s.tracks != [] && who.User?
    ensures Formed(s)
    ensures var start, busy := Split(s, {}), s.(dl := FillingBusy, outstanding := 1, received := 0,
                                                asked := s.asked + [Request(s.tracks[0], s.offset, SUBSTREAM)]);
      var stopped := StopEnd(busy).(offset := 0);
      && Can(start, Other(StopBegins)) && Moved(start, Other(StopBegins)) == start
      && Can(start, StopWaits(who)) && Moved(start, StopWaits(who)) == Split(s, {who})
      && Can(Split(s, {who}), Other(Step.Fill(true)))
      && Moved(Split(s, {who}), Other(Step.Fill(true))) == Split(busy, {who})
      && Formed(busy) && Can(Split(busy, {who}), StopAssigns(who))
      && Moved(Split(busy, {who}), StopAssigns(who)) == Split(stopped, {})
      && Formed(stopped) && Can(Split(stopped, {}), Other(Step.Fill(true)))
      && Moved(Split(stopped, {}), Other(Step.Fill(true))).snd.outstanding == 2
      && MarkOf(s, Other(StopBegins)) == Quiet && MarkOf(s, Other(Step.Fill(true))) == Sent
  {
    assert AllValid([]);
    hide AllValid, Sum;
    assert {} + {who} == {who} && {who} - {who} == {};
  }

  /** Whenever the controller is draining and the queue is low, that leads to two requests at
      a time. */
  lemma LateStopOvertaken(s: Snd, who: Stopper)
    requires Safe(s) && s.dl == Draining && !s.abort && s.totbytes < s.watermark && s.tracks != [] && who.User?
    ensures var p := After(Split(s, {}), LateMoves(who));
      p.Path? && p.at.snd.outstanding == 2 && Overtaken(p.trace, 3)
  {
    LateStates(s, who);
    LateTrace(who);
    var start, m := Split(s, {}), LateMoves(who);
    assert After(start, []) == Path(start, []) && |m| == 5;
    assert m[0] == Other(StopBegins) && m[1] == StopWaits(who) && m[2] == m[4] == Other(Step.Fill(true));
    assert m[3] == StopAssigns(who);
    assert MarkOf(s, m[1]) == Waited(who) && forall t :: MarkOf(t, m[3]) == Assigned(who);
    hide Can, Moved, Safe, After, StopEnd, Overtaken, LateMoves;
    assert m[..0] == [] && m[..5] == m;
    OneMore(start, m, 0);
    OneMore(start, m, 1);
    OneMore(start, m, 2);
    OneMore(start, m, 3);
    OneMore(start, m, 4);
  }

  lemma LateTrace(who: Stopper)
    ensures forall mark :: Overtaken([] + [Quiet] + [Waited(who)] + [Sent] + [Assigned(who)] + [mark], 3)
  {
    var front := [] + [Quiet] + [Waited(who)] + [Sent];
    assert front[1..] == [Waited(who), Sent] && front[2..] == [Sent];
    assert Pending(front, who, 1) && Open(front, 2);
    forall mark
      ensures Overtaken([] + [Quiet] + [Waited(who)] + [Sent] + [Assigned(who)] + [mark], 3)
    {
      assert ([] + [Quiet] + [Waited(who)] + [Sent] + [Assigned(who)] + [mark])[..3] == front;
    }
  }

  /** And a session comes there: it is stopped before anything is played, and then plays. */
  lemma DrainingReached(track: Track)
    ensures var steps := [StopBegins, StopEnds, Play([track])];
      && Legal(NEW, steps)
      && var s := Run(NEW, steps);
         s.dl == Draining && !s.abort && s.totbytes < s.watermark && s.tracks != [] && Safe(s)
  {
    hide Readable, Ioctl, SubstreamEnd, ConsumeRun, SkipTrack, SubstreamData;
    var s1 := NEW.(abort := true);
    var s2 := NEW.(dl := Draining);
    Prepend(s2, Play([track]), []);
    Prepend(s1, StopEnds, [Play([track])]);
    Prepend(NEW, StopBegins, [StopEnds, Play([track])]);
  }
}
