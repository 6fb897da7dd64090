/** Runs of the sound queue of src/lib/sndqueue.c: what whole consume calls return, and sessions
    that come into the states in which the code fails. */
module SndRuns {
  import opened SndQueue
  import opened SndTracks

  // ------------------------------------------------------------------- the short answer

  /** In every state that a run reaches with a request outstanding, the code gets through the
      end of the answer, but for one case: a short answer with nothing pushed since a START and
      no abort, where the look at the first page reads through the null pointer of the END. */
  lemma ShortAnswerExactly(maxbytes: int, watermark: int, steps: seq<Step>)
    requires 0 <= watermark && watermark + SUBSTREAM <= maxbytes && Legal(Initial(maxbytes, watermark), steps)
    ensures var t := Run(Initial(maxbytes, watermark), steps);
      t.outstanding > 0 ==>
        (Enabled(t, ChannelEnds) <==> !(t.received < SUBSTREAM && t.lastcmd == Start && !t.abort))
  {
    RunKeeps(Initial(maxbytes, watermark), steps);
  }

  // --------------------------------------------------------------- a session that plays

  /** One byte of data, in a buffer with 1024 bytes to spare */
  const BYTE: seq<Octet> := seq(1025, i => 0)

  const ONE: Buffer := Buffer(Data, 1, 0, BYTE)

  predicate Usable(track: Track) {
    Readable(track.copy) && track.copy[5] != 6
  }

  /** The track is played, its key has come, and a request is on its way. */
  function Playing(track: Track): Snd {
    NEW.(tracks := [track], queue := [Buffer(Start, 0, 0, track.copy)], dl := FillingBusy, outstanding := 1,
         asked := [Request(track, 0, SUBSTREAM)])
  }

  /** The decoder fills only when something is queued, as the START is here. */
  function PlaySteps(track: Track): seq<Step> {
    [Play([track]), KeyArrives, Step.Fill(true)]
  }

  lemma OneEntry(b: Buffer)
    requires b.Valid()
    ensures AllValid([b]) && Sum([b]) == b.length && Sum([]) == 0
  {
    assert [b][1..] == [];
    assert Sum([]) == 0;
  }

  lemma KeyPushed(track: Track)
    requires Usable(track)
    ensures var s := NEW.(tracks := [track]);
      PushReady(s, Start, 0, track.copy)
      && Ioctl(s, Start, 0, track.copy) == s.(queue := [Buffer(Start, 0, 0, track.copy)])
  {
    hide PageSize;
    var none: seq<Octet> := [];
    assert track.copy[0..0] == none && none + none == none;
    assert [] + [Buffer(Start, 0, 0, track.copy)] == [Buffer(Start, 0, 0, track.copy)];
  }

  lemma PlayingReached(track: Track)
    requires Usable(track)
    ensures Safe(Playing(track)) && Legal(NEW, PlaySteps(track)) && Run(NEW, PlaySteps(track)) == Playing(track)
  {
    KeyPushed(track);
    hide Readable, Ioctl, SubstreamEnd, ConsumeRun, SkipTrack, SubstreamData;
    var s1 := NEW.(tracks := [track]);
    var s2 := s1.(queue := [Buffer(Start, 0, 0, track.copy)]);
    OneEntry(s2.queue[0]);
    assert Safe(s2);
    Prepend(s2, Step.Fill(true), []);
    Prepend(s1, KeyArrives, [Step.Fill(true)]);
    Prepend(NEW, Play([track]), [KeyArrives, Step.Fill(true)]);
  }

  /** The one case of `ShortAnswerExactly` is real: the server has nothing. */
  lemma ShortAnswerReached(track: Track)
    requires Usable(track)
    ensures Legal(NEW, PlaySteps(track))
    ensures var t := Run(NEW, PlaySteps(track)); t.outstanding == 1 && !Enabled(t, ChannelEnds)
  {
    PlayingReached(track);
    hide Legal, Run;
  }

  // ------------------------------------------------------------- a stop before the wake-up

  lemma BytePushed(s: Snd)
    requires !s.abort
    ensures PushReady(s, Data, 1, BYTE)
    ensures SubstreamData(s, BYTE) == s.(queue := s.queue + [ONE], totbytes := s.totbytes + 1, lastcmd := Data,
                                         pushed := s.pushed + [0], received := s.received + 1)
  {
    assert BYTE[0..1] == [0] && BYTE[5] == 0;
  }

  /** The first byte is read, and with it the START in front of it. */
  function Started(track: Track): Snd {
    Playing(track).(queue := [], lastcmd := Data, received := 1, pushed := [0], handed := [0])
  }

  const FIRST_BYTE: seq<Step> := [DataArrives(BYTE), ConsumeBegins(1), ConsumeRuns]

  lemma StartAndByteConsumed(start: Buffer)
    requires start.cmd == Start && start.Valid()
    ensures var q := [start, ONE];
      AllValid(q) && Sum(q) == 1 && Sum([]) == 0 && Consumed(q, 1, 0) == Progress([], [0], Returns(false))
  {
    var q := [start, ONE];
    assert q[1..] == [ONE] && [ONE][1..] == [];
    OneEntry(ONE);
    assert BYTE[0..1] == [0];
    assert Consumed([ONE], 1, 0) == Progress([], [0], Returns(false));
  }

  lemma FirstByteRead(track: Track)
    requires Usable(track)
    ensures var s := Playing(track);
      && Safe(s) && Legal(s, FIRST_BYTE) && Run(s, FIRST_BYTE) == Started(track) && Safe(Started(track))
  {
    PlayingReached(track);
    var s := Playing(track);
    var start := s.queue[0];
    BytePushed(s);
    StartAndByteConsumed(start);
    assert [start] + [ONE] == [start, ONE];
    var s1 := s.(queue := [start, ONE], totbytes := 1, lastcmd := Data, pushed := [0], received := 1);
    assert SubstreamData(s, BYTE) == s1;
    var none: seq<Octet> := [];
    assert none + [0] == [0];
    assert ConsumeRun(s1.(reader := Loop(1, []))) == Started(track);
    hide Readable, Sum, Consumed, Ioctl, SkipTrack, ConsumeRun, SubstreamData, SubstreamEnd;
    Prepend(s1.(reader := Loop(1, [])), ConsumeRuns, []);
    Prepend(s1, ConsumeBegins(1), [ConsumeRuns]);
    Prepend(s, DataArrives(BYTE), [ConsumeBegins(1), ConsumeRuns]);
  }

  /** The consumer waits for more. */
  function Sleeping(track: Track): Snd {
    Started(track).(reader := Asleep(1, []))
  }

  const NEXT_CALL: seq<Step> := [ConsumeBegins(1), ConsumeRuns]

  lemma FallsAsleep(s: Snd)
    requires s.queue == []
    ensures ConsumeRun(s.(reader := Loop(1, []))) == s.(reader := Asleep(1, []))
  {
    assert Consumed([], 1, 0) == Progress([], [], Waits);
    var none: seq<Octet> := [];
    assert s.handed + none == s.handed && none + none == none;
  }

  lemma SleepReached(track: Track)
    requires Safe(Started(track))
    ensures var s := Started(track);
      Legal(s, NEXT_CALL) && Run(s, NEXT_CALL) == Sleeping(track) && Safe(Sleeping(track))
  {
    var s := Started(track);
    FallsAsleep(s);
    hide Consumed, ConsumeRun, Ioctl, SubstreamData, SubstreamEnd, SkipTrack, FillFifo, Readable, Sum;
    Prepend(s.(reader := Loop(1, [])), ConsumeRuns, []);
    Prepend(s, ConsumeBegins(1), [ConsumeRuns]);
  }

  /** Under an abort, the end of a short answer only clears the track. */
  lemma ShortUnderAbort(s: Snd, track: Track)
    requires s.abort && s.tracks == [track] && s.outstanding == 1 && s.received < SUBSTREAM && s.errors == 0
    ensures SubstreamEnd(s) == s.(dl := Draining, tracks := [], offset := 0, outstanding := 0, received := 0)
  {
    assert NextPlayable([track]) == [];
  }

  const STOPPED_SHORT: seq<Step> := [StopBegins, ChannelEnds, StopEnds]

  /** The last track is stopped while its answer is on the way, and the answer is short. */
  lemma ShortStop(s: Snd, track: Track)
    requires Safe(s) && s.dl == FillingBusy && !s.abort && s.tracks == [track] && s.errors == 0
    requires s.outstanding == 1 && s.received < SUBSTREAM
    ensures Legal(s, STOPPED_SHORT)
    ensures Run(s, STOPPED_SHORT) == s.(dl := Draining, tracks := [], offset := 0, outstanding := 0, received := 0,
                                        queue := [], totbytes := 0)
  {
    var s1 := s.(abort := true);
    var s2 := s1.(dl := Draining, tracks := [], offset := 0, outstanding := 0, received := 0);
    ShortUnderAbort(s1, track);
    hide Readable, Ioctl, SkipTrack, ConsumeRun, SubstreamData, SubstreamEnd, NextPlayable;
    Prepend(s2, StopEnds, []);
    Prepend(s1, ChannelEnds, [StopEnds]);
    Prepend(s, StopBegins, [ChannelEnds, StopEnds]);
  }

  /** Another byte arrives, which wakes the consumer; but before it runs, the user stops, and the
      end of the answer lets the stop go on. */
  const MEANWHILE: seq<Step> := [DataArrives(BYTE)] + STOPPED_SHORT

  function Stopped(track: Track): Snd {
    Sleeping(track).(dl := Draining, tracks := [], outstanding := 0, received := 0, pushed := [0, 0])
  }

  lemma StoppedMeanwhile(track: Track)
    requires Safe(Sleeping(track))
    ensures var s := Sleeping(track);
      Legal(s, MEANWHILE) && Run(s, MEANWHILE) == Stopped(track) && Safe(Stopped(track))
  {
    var s := Sleeping(track);
    BytePushed(s);
    OneEntry(ONE);
    assert [0] + [0] == [0, 0] && [] + [ONE] == [ONE];
    var s1 := s.(queue := [ONE], totbytes := 1, pushed := [0, 0], received := 2);
    assert SubstreamData(s, BYTE) == s1;
    hide Readable, Sum, Consumed, Ioctl, SkipTrack, ConsumeRun, SubstreamData, SubstreamEnd;
    ShortStop(s1, track);
    hide Legal, Run;
    Prepend(s, DataArrives(BYTE), STOPPED_SHORT);
  }

  /** A stop between a push and the wake-up of the consumer: the call returns nothing, which the
      decoder takes for the end of the track, and no END was ever queued. */
  lemma StoppedWakeUp(track: Track)
    requires Usable(track)
    ensures var before := PlaySteps(track) + FIRST_BYTE + NEXT_CALL + MEANWHILE;
      && Legal(NEW, before) && Formed(Run(NEW, before)) && Enabled(Run(NEW, before), Wakes)
      && var t := Run(NEW, before);
         t.reader == Asleep(1, []) && Next(t, Wakes).reader == Idle && Returned(t, Wakes) == [] && !TookEnd(t, Wakes)
  {
    PlayingReached(track);
    FirstByteRead(track);
    SleepReached(track);
    StoppedMeanwhile(track);
    NewIsSafe();
    StoppedWakes(track);
    hide Legal, Run, Safe, Formed, Enabled, Next, Returned, TookEnd, Playing, Started, Sleeping, Stopped, PlaySteps;
    var a, b := PlaySteps(track), PlaySteps(track) + FIRST_BYTE;
    RunConcat(NEW, a, FIRST_BYTE);
    RunConcat(NEW, b, NEXT_CALL);
    RunConcat(NEW, b + NEXT_CALL, MEANWHILE);
  }

  lemma StoppedWakes(track: Track)
    requires Safe(Stopped(track))
    ensures var t := Stopped(track);
      && Formed(t) && Enabled(t, Wakes)
      && t.reader == Asleep(1, []) && Next(t, Wakes).reader == Idle && Returned(t, Wakes) == [] && !TookEnd(t, Wakes)
  {
  }

  lemma NewIsSafe()
    ensures Safe(NEW)
  {
  }

  // ------------------------------------------------------------ a fill without a track

  /** Once something was played: without a track, the list has ended or the controller drains. */
  predicate TrackOrRest(s: Snd) {
    s.tracks == [] ==> s.dl == Draining || s.dl == EndOfList
  }

  lemma StepRests(s: Snd, step: Step)
    requires Safe(s) && Enabled(s, step) && TrackOrRest(s)
    ensures TrackOrRest(Next(s, step))
  {
    hide AllValid, Sum, Consumed, Entry, NextPlayable, Readable, FromStart;
  }

  lemma {:induction false} RunRests(s: Snd, steps: seq<Step>)
    requires Safe(s) && Legal(s, steps) && TrackOrRest(s)
    ensures TrackOrRest(Run(s, steps))
    decreases |steps|
  {
    hide Enabled, Next, AllValid, Sum, OneRequest, Bounded, TrackOrRest;
    if steps != [] {
      StepKeeps(s, steps[0]);
      StepRests(s, steps[0]);
      RunRests(Next(s, steps[0]), steps[1..]);
    }
  }

  /** A fill that does not have to wait gets through in every state that a run reaches, but for
      one case: it asks for a substream and there is no current track, whose file it then looks up
      through a null pointer.  In a session, which begins with something to play, that is so
      exactly when the controller drains, is low, and has no track. */
  lemma NoTrackExactly(maxbytes: int, watermark: int, steps: seq<Step>, sent: bool)
    requires 0 <= watermark && watermark + SUBSTREAM <= maxbytes && Legal(Initial(maxbytes, watermark), steps)
    ensures var t := Run(Initial(maxbytes, watermark), steps);
      (t.abort ==> t.dl != FillingBusy) ==>
        && (Enabled(t, Step.Fill(sent)) <==> !(Asks(t) && t.tracks == []))
        && (steps != [] && steps[0].Play? ==>
              (Enabled(t, Step.Fill(sent))
               <==> !(!t.abort && t.dl == Draining && t.totbytes < t.watermark && t.tracks == [])))
  {
    var s := Initial(maxbytes, watermark);
    RunKeeps(s, steps);
    if steps != [] && steps[0].Play? {
      StepKeeps(s, steps[0]);
      RunRests(Next(s, steps[0]), steps[1..]);
    }
  }

  /** And that case is real: the last track is stopped while its answer is on the way, and the
      answer is short. */
  lemma NoTrackReached(track: Track)
    requires Usable(track)
    ensures var steps := PlaySteps(track) + STOPPED_SHORT;
      && Legal(NEW, steps)
      && var t := Run(NEW, steps); !t.abort && Asks(t) && t.tracks == [] && !Enabled(t, Step.Fill(true))
  {
    PlayingReached(track);
    ShortStop(Playing(track), track);
    NewIsSafe();
    hide Legal, Run;
    RunConcat(NEW, PlaySteps(track), STOPPED_SHORT);
  }

  // ---------------------------------------------------------- a track without its beginning

  /** A quarter of a substream, in a buffer with 1024 bytes to spare */
  const QUARTER: seq<Octet> := seq(52224, i => 0)

  const WHOLE: seq<Step> :=
    [DataArrives(QUARTER), DataArrives(QUARTER), DataArrives(QUARTER), DataArrives(QUARTER), ChannelEnds]

  /** A request is open, and the controller has room for its answer. */
  predicate Fetching(s: Snd, tracks: seq<Track>, received: nat, totbytes: nat) {
    && Safe(s) && s.outstanding == 1 && !s.abort && s.tracks == tracks && tracks != [] && s.received == received
    && s.offset == 0 && s.totbytes == totbytes && s.maxbytes == 1024 * 1024
    && s.watermark == 200 * 1024
  }

  /** It is complete. */
  predicate Fetched(s: Snd, tracks: seq<Track>, totbytes: nat) {
    && Safe(s) && s.outstanding == 0 && !s.abort && s.tracks == tracks && tracks != [] && s.dl == Filling
    && s.offset == 204800 && s.totbytes == totbytes && s.maxbytes == 1024 * 1024
    && s.watermark == 200 * 1024
  }

  lemma QuarterArrives(s: Snd, tracks: seq<Track>, received: nat, totbytes: nat)
    requires Fetching(s, tracks, received, totbytes) && received + 51200 <= 204800
    ensures Enabled(s, DataArrives(QUARTER))
    ensures var t := Next(s, DataArrives(QUARTER));
      Fetching(t, tracks, received + 51200, totbytes + 51200) && t.asked == s.asked && t.reader == s.reader
  {
    assert QUARTER[5] == 0;
    StepKeeps(s, DataArrives(QUARTER));
    hide AllValid, Sum;
  }

  lemma WholeArrives(s: Snd, tracks: seq<Track>, totbytes: nat)
    requires Fetching(s, tracks, 0, totbytes)
    ensures Legal(s, WHOLE)
    ensures var t := Run(s, WHOLE);
      Fetched(t, tracks, totbytes + 204800) && t.asked == s.asked && t.reader == s.reader
  {
    hide Next, Enabled, Formed, OneRequest, Bounded;
    QuarterArrives(s, tracks, 0, totbytes);
    var s1 := Next(s, DataArrives(QUARTER));
    QuarterArrives(s1, tracks, 51200, totbytes + 51200);
    var s2 := Next(s1, DataArrives(QUARTER));
    QuarterArrives(s2, tracks, 102400, totbytes + 102400);
    var s3 := Next(s2, DataArrives(QUARTER));
    QuarterArrives(s3, tracks, 153600, totbytes + 153600);
    var s4 := Next(s3, DataArrives(QUARTER));
    AnswerArrives(s4, tracks, totbytes + 204800);
    hide Fetched, Legal, Run;
    LegalEmpty(Next(s4, ChannelEnds));
    Prepend(s4, ChannelEnds, []);
    Prepend(s3, DataArrives(QUARTER), [ChannelEnds]);
    Prepend(s2, DataArrives(QUARTER), [DataArrives(QUARTER), ChannelEnds]);
    Prepend(s1, DataArrives(QUARTER), [DataArrives(QUARTER), DataArrives(QUARTER), ChannelEnds]);
    Prepend(s, DataArrives(QUARTER), [DataArrives(QUARTER), DataArrives(QUARTER), DataArrives(QUARTER), ChannelEnds]);
  }

  lemma AnswerArrives(s: Snd, tracks: seq<Track>, totbytes: nat)
    requires Fetching(s, tracks, 204800, totbytes)
    ensures Enabled(s, ChannelEnds)
    ensures var t := Next(s, ChannelEnds);
      Fetched(t, tracks, totbytes) && t.asked == s.asked && t.reader == s.reader
  {
    StepKeeps(s, ChannelEnds);
    AnswerExactly(s);
    hide AllValid, Sum;
  }

  lemma LegalEmpty(s: Snd)
    requires Safe(s)
    ensures Legal(s, []) && Run(s, []) == s
  {
  }

  /** While the decoder is about to top up the queue, the user plays another track, and before
      that track is current, the decoder goes on. */
  function Interrupted(track: Track): seq<Step> {
    [StopBegins, StopEnds, Step.Fill(true), Play([track])]
  }

  lemma InterruptedRun(s: Snd, tracks: seq<Track>, totbytes: nat, track: Track)
    requires Fetched(s, tracks, totbytes)
    ensures Legal(s, Interrupted(track))
    ensures var t := Run(s, Interrupted(track));
      Fetching(t, [track], 0, 0) && t.asked == s.asked + [Request(tracks[0], 0, 204800)]
  {
    assert Sum([]) == 0;
    hide AllValid, Sum;
    StepKeeps(s, StopBegins);
    var s1 := Next(s, StopBegins);
    StepKeeps(s1, StopEnds);
    var s2 := Next(s1, StopEnds);
    StepKeeps(s2, Step.Fill(true));
    var s3 := Next(s2, Step.Fill(true));
    StepKeeps(s3, Play([track]));
    var t := Next(s3, Play([track]));
    assert Fetching(t, [track], 0, 0) && t.asked == s.asked + [Request(tracks[0], 0, 204800)];
    hide Enabled, Next, Formed, OneRequest, Bounded, Fetching, Fetched, Legal, Run;
    LegalEmpty(t);
    Prepend(s3, Play([track]), []);
    Prepend(s2, Step.Fill(true), [Play([track])]);
    Prepend(s1, StopEnds, [Step.Fill(true), Play([track])]);
    Prepend(s, StopBegins, [StopEnds, Step.Fill(true), Play([track])]);
  }

  /** The case of `AdjacentExactly` with an open request is real, and so a track can lose its
      beginning: the answer to that request counts for the new track, which is first asked for
      from the second stretch on. */
  lemma SkippedBeginning(first: Track, second: Track)
    requires Usable(first)
    ensures var steps := PlaySteps(first) + WHOLE + Interrupted(second) + WHOLE + [Step.Fill(true)];
      && Legal(NEW, steps)
      && Run(NEW, steps).asked
         == [Request(first, 0, 204800), Request(first, 0, 204800), Request(second, 204800, 204800)]
  {
    PlayingReached(first);
    NewIsSafe();
    var s := Playing(first);
    WholeArrives(s, [first], 0);
    var s1 := Run(s, WHOLE);
    InterruptedRun(s1, [first], 204800, second);
    var s2 := Run(s1, Interrupted(second));
    WholeArrives(s2, [second], 0);
    var s3 := Run(s2, WHOLE);
    LastFill(s3, second);
    hide Legal, Run, Next, Enabled, Playing, PlaySteps, Interrupted, Formed, OneRequest, Bounded;
    RunConcat(NEW, PlaySteps(first), WHOLE);
    RunConcat(NEW, PlaySteps(first) + WHOLE, Interrupted(second));
    RunConcat(NEW, PlaySteps(first) + WHOLE + Interrupted(second), WHOLE);
    RunConcat(NEW, PlaySteps(first) + WHOLE + Interrupted(second) + WHOLE, [Step.Fill(true)]);
  }

  lemma LastFill(s: Snd, track: Track)
    requires Fetched(s, [track], 204800)
    ensures Legal(s, [Step.Fill(true)]) && Run(s, [Step.Fill(true)]).asked == s.asked + [Request(track, 204800, 204800)]
  {
    hide AllValid, Sum;
    StepKeeps(s, Step.Fill(true));
    LegalEmpty(Next(s, Step.Fill(true)));
    Prepend(s, Step.Fill(true), []);
  }
}
