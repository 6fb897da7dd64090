/** What the download controller of src/lib/despotify.c asks the server for, and what it makes of
    the answers. */
module SndTracks {
  import opened SndQueue

  // ------------------------------------------------------------------------ single steps

  /** A fill asks for a substream exactly when it need not abort, and the queue is below the
      watermark, or, while the controller fills, leaves room for a whole substream. */
  lemma FillExactly(s: Snd)
    requires Formed(s) && Enabled(s, Step.Fill(true))
    ensures var t := Next(s, Step.Fill(true));
      var asks := !s.abort && ((s.dl == Draining && s.totbytes < s.watermark)
                               || (s.dl == Filling && s.totbytes < s.maxbytes - 204800));
      && t.outstanding == s.outstanding + (if asks then 1 else 0)
      && (if asks then s.tracks != [] && t.asked == s.asked + [Request(s.tracks[0], s.offset, 204800)]
          else t.asked == s.asked)
      && t.dl == (if s.abort then Draining else if asks then FillingBusy
                  else if s.dl == Filling then Draining else s.dl)
  {
  }

  /** What the end of an answer does to the track and the controller. */
  lemma AnswerExactly(s: Snd)
    requires Safe(s) && Enabled(s, ChannelEnds)
    ensures var t := Next(s, ChannelEnds);
      var short := s.received < 204800;
      && t.outstanding == 0 && t.errors == 0 && t.received == 0 && t.asked == s.asked
      && t.tracks == (if short then NextPlayable(s.tracks) else s.tracks)
      && t.offset == (if short then 0 else s.offset + 204800)
      && t.queue == s.queue + (if short && !s.abort then [Entry(s.lastcmd, End, 0, [])] else [])
      && t.dl == (if s.abort then Draining
                  else if short && NextPlayable(s.tracks) == [] then EndOfList else Filling)
  {
    hide Entry, AllValid, Sum, NextPlayable, Readable;
  }

  /** Unless there is an abort, data and keys are queued behind what is there: data as it is or
      without its first page, and a START with the track's copy. */
  lemma PushExactly(s: Snd, step: Step)
    requires Formed(s) && Enabled(s, step) && !s.abort
    ensures step.DataArrives? ==>
      var t, n := Next(s, step), |step.ptr| - 1024;
      && t.queue == s.queue + [Entry(s.lastcmd, Data, n, step.ptr)] && t.lastcmd == Data
      && t.totbytes == s.totbytes + Entry(s.lastcmd, Data, n, step.ptr).length && t.received == s.received + n
    ensures step.KeyArrives? ==>
      var t := Next(s, step);
      && t.queue == s.queue + [Entry(s.lastcmd, Start, 0, s.tracks[0].copy)] && t.lastcmd == Start
      && t.tracks == s.tracks
  {
    hide Entry, AllValid, NextPlayable, Readable;
  }

  /** Under an abort nothing is queued, and a stop leaves nothing in the queue. */
  lemma StopExactly(s: Snd, step: Step)
    requires Formed(s) && Enabled(s, step)
    ensures s.abort && (step.DataArrives? || step.KeyArrives? || step.ChannelEnds?) ==>
      Next(s, step).queue == s.queue && Next(s, step).totbytes == s.totbytes && Next(s, step).pushed == s.pushed
    ensures step.StopBegins? ==> Next(s, step).abort == (s.abort || s.dl == Filling || s.dl == FillingBusy)
    ensures step.StopEnds? ==> var t := Next(s, step);
      t.queue == [] && t.totbytes == 0 && !t.abort && t.dl == Draining && t.offset == 0 && t.tracks == s.tracks
    ensures step.Play? ==> var t := Next(s, step); t.tracks == step.tracks && t.offset == 0
  {
    hide Entry, AllValid, NextPlayable, Readable;
  }

  // ------------------------------------------------------------------------- whole runs

  /** How many answers are complete. */
  function Answers(steps: seq<Step>): nat {
    if steps == [] then 0 else (if steps[0].ChannelEnds? then 1 else 0) + Answers(steps[1..])
  }

  /** The current track stays: nothing else is played, nobody stops, and all answers are full. */
  predicate GoesOn(s: Snd, steps: seq<Step>)
    requires Safe(s) && Legal(s, steps)
    decreases |steps|
  {
    steps == []
    || (!steps[0].Play? && !steps[0].StopEnds? && (steps[0].ChannelEnds? ==> s.received == 204800)
        && (StepKeeps(s, steps[0]); GoesOn(Next(s, steps[0]), steps[1..])))
  }

  /** Stretches of a track of 200 KB each, one after the other, from number `m` on. */
  function Stretches(track: Track, m: nat, n: nat): seq<Request> {
    seq(n, i requires 0 <= i < n => Request(track, (m + i) * 204800, 204800))
  }

  /** After `k` complete answers, with the requests since the track began; `m` is 1 when a request
      from before was open then. */
  ghost predicate Asked(s: Snd, before: seq<Request>, track: Track, m: nat, n: nat, k: nat) {
    && s.asked == before + Stretches(track, m, n) && s.offset == k * 204800
    && s.tracks != [] && s.tracks[0] == track
    && ((n + m == k && s.outstanding == 0) || (n + m == k + 1 && s.dl == FillingBusy))
  }

  lemma OneMoreStretch(track: Track, m: nat, n: nat, before: seq<Request>)
    ensures before + Stretches(track, m, n + 1)
         == before + Stretches(track, m, n) + [Request(track, (m + n) * 204800, 204800)]
  {
  }

  /** What a step other than a fill or an answer leaves alone */
  lemma OthersLeave(s: Snd, step: Step)
    requires Formed(s) && Enabled(s, step)
    requires !step.Fill? && !step.ChannelEnds? && !step.Play? && !step.StopEnds?
    ensures var t := Next(s, step);
      && t.asked == s.asked && t.offset == s.offset && t.tracks == s.tracks
      && (s.dl == FillingBusy ==> t.dl == FillingBusy)
      && t.outstanding == s.outstanding - if step.ChannelFails? then 1 else 0
  {
    hide Entry, AllValid, Sum, NextPlayable, Readable, Consumed, FromStart;
  }

  lemma FillAsks(s: Snd, sent: bool, before: seq<Request>, track: Track, m: nat, n: nat, k: nat) returns (n': nat)
    requires Safe(s) && Enabled(s, Step.Fill(sent)) && Asked(s, before, track, m, n, k)
    ensures Asked(Next(s, Step.Fill(sent)), before, track, m, n', k)
  {
    hide AllValid, Sum, Stretches;
    OneMoreStretch(track, m, n, before);
    n' := if Asks(s) && sent then n + 1 else n;
  }

  lemma AnswerAsks(s: Snd, before: seq<Request>, track: Track, m: nat, n: nat, k: nat)
    requires Safe(s) && Enabled(s, ChannelEnds) && s.received == 204800 && Asked(s, before, track, m, n, k)
    ensures Asked(Next(s, ChannelEnds), before, track, m, n, k + 1)
  {
    AnswerExactly(s);
    hide Next, Stretches, Enabled, Formed, Bounded;
  }

  lemma {:induction false} RunAsked(s: Snd, steps: seq<Step>, before: seq<Request>, track: Track, m: nat, n: nat,
                                    k: nat)
    returns (n': nat)
    requires Safe(s) && Legal(s, steps) && GoesOn(s, steps) && Asked(s, before, track, m, n, k)
    ensures Asked(Run(s, steps), before, track, m, n', k + Answers(steps))
    decreases |steps|
  {
    hide Asked, Enabled, Next, Formed, OneRequest, Bounded;
    n' := n;
    if steps != [] {
      StepKeeps(s, steps[0]);
      var t := Next(s, steps[0]);
      if steps[0].ChannelEnds? {
        AnswerAsks(s, before, track, m, n, k);
        n' := RunAsked(t, steps[1..], before, track, m, n, k + 1);
      } else if steps[0].Fill? {
        var n1 := FillAsks(s, steps[0].sent, before, track, m, n, k);
        n' := RunAsked(t, steps[1..], before, track, m, n1, k);
      } else {
        OtherAsks(s, steps[0], before, track, m, n, k);
        n' := RunAsked(t, steps[1..], before, track, m, n, k);
      }
    }
  }

  lemma OtherAsks(s: Snd, step: Step, before: seq<Request>, track: Track, m: nat, n: nat, k: nat)
    requires Safe(s) && Enabled(s, step) && Asked(s, before, track, m, n, k)
    requires !step.Fill? && !step.ChannelEnds? && !step.Play? && !step.StopEnds?
    ensures Asked(Next(s, step), before, track, m, n, k)
  {
    OthersLeave(s, step);
    hide Next, Enabled, Stretches, Formed, Bounded;
  }

  /** From where a track begins, at offset 0, and as long as it goes on: its requests ask for
      adjacent stretches of 200 KB, without gap and overlap, and the offset is the length of the
      complete answers.  They begin at 0, but if a request from before was still open. */
  lemma TrackRequested(s: Snd, steps: seq<Step>) returns (n: nat)
    requires Safe(s) && s.offset == 0 && s.tracks != [] && Legal(s, steps) && GoesOn(s, steps)
    ensures var t := Run(s, steps);
      && t.offset == Answers(steps) * 204800 && t.tracks != [] && t.tracks[0] == s.tracks[0]
      && |t.asked| == |s.asked| + n && t.asked[..|s.asked|] == s.asked
      && var mine := t.asked[|s.asked|..];
         forall i :: 0 <= i < n ==> mine[i] == Request(s.tracks[0], (s.outstanding + i) * 204800, 204800)
  {
    assert s.asked + Stretches(s.tracks[0], s.outstanding, 0) == s.asked;
    n := RunAsked(s, steps, s.asked, s.tracks[0], s.outstanding, 0, 0);
    hide Run, GoesOn, Legal;
  }

  /** So the requests for a track ask for it from its beginning on exactly when no request was
      open when it began. */
  lemma AdjacentExactly(s: Snd, steps: seq<Step>)
    requires Safe(s) && s.offset == 0 && s.tracks != [] && Legal(s, steps) && GoesOn(s, steps)
    requires |Run(s, steps).asked| > |s.asked|
    ensures var mine := Run(s, steps).asked[|s.asked|..];
      (forall i :: 0 <= i < |mine| ==> mine[i] == Request(s.tracks[0], i * 204800, 204800)) <==> s.outstanding == 0
  {
    var n := TrackRequested(s, steps);
    hide Run, GoesOn, Legal;
    var mine := Run(s, steps).asked[|s.asked|..];
    assert mine[0] == Request(s.tracks[0], s.outstanding * 204800, 204800);
  }

  /** What a track begins with: it is played, the user stops, or the one before it ended. */
  lemma TrackBegins(s: Snd, step: Step)
    requires Safe(s) && Enabled(s, step)
    requires step.Play? || step.StopEnds? || (step.ChannelEnds? && s.received < 204800)
    ensures Safe(Next(s, step)) && Next(s, step).offset == 0
    ensures !step.Play? ==> Next(s, step).outstanding == 0
  {
    StepKeeps(s, step);
    if step.ChannelEnds? {
      AnswerExactly(s);
    }
    hide AllValid, Sum, SubstreamEnd;
  }

  /** The bytes that arrive */
  function Brought(steps: seq<Step>): int {
    if steps == [] then 0
    else (if steps[0].DataArrives? then |steps[0].ptr| - 1024 else 0) + Brought(steps[1..])
  }

  predicate NoAnswer(steps: seq<Step>) {
    forall i :: 0 <= i < |steps| ==> !steps[i].ChannelEnds? && !steps[i].ChannelFails?
  }

  lemma StepReceives(s: Snd, step: Step)
    requires Safe(s) && Enabled(s, step) && s.outstanding == 1 && !step.ChannelEnds? && !step.ChannelFails?
    ensures var t := Next(s, step);
      t.outstanding == 1 && t.received == s.received + if step.DataArrives? then |step.ptr| - 1024 else 0
  {
    hide Entry, AllValid, Sum, NextPlayable, Readable, Consumed, FromStart;
  }

  /** While a request is open, the bytes received are those that arrive. */
  lemma {:induction false} ReceivedCounts(s: Snd, steps: seq<Step>)
    requires Safe(s) && Legal(s, steps) && NoAnswer(steps) && s.outstanding == 1
    ensures Run(s, steps).outstanding == 1 && Run(s, steps).received == s.received + Brought(steps)
    decreases |steps|
  {
    hide Enabled, Next, Formed, OneRequest, Bounded;
    if steps != [] {
      StepKeeps(s, steps[0]);
      StepReceives(s, steps[0]);
      ReceivedCounts(Next(s, steps[0]), steps[1..]);
    }
  }

  /** An answer ends its track exactly when it brought less than was asked for. */
  lemma AnswerEndsTrack(s: Snd, steps: seq<Step>)
    requires Safe(s) && Legal(s, steps) && NoAnswer(steps) && s.outstanding == 1 && s.received == 0
    requires Safe(Run(s, steps)) && Enabled(Run(s, steps), ChannelEnds)
    ensures var t := Run(s, steps);
      var t' := Next(t, ChannelEnds);
      && t'.tracks == (if Brought(steps) < 204800 then NextPlayable(t.tracks) else t.tracks)
      && t'.offset == (if Brought(steps) < 204800 then 0 else t.offset + 204800)
      && t'.queue == t.queue + if Brought(steps) < 204800 && !t.abort then [Entry(t.lastcmd, End, 0, [])] else []
  {
    ReceivedCounts(s, steps);
    AnswerExactly(Run(s, steps));
    hide Run, Legal, Next, Brought, NoAnswer;
  }

  // ------------------------------------------------------------------- the controller

  /** Every request is sent, and no channel fails. */
  predicate AllWell(steps: seq<Step>) {
    forall i :: 0 <= i < |steps| ==> !steps[i].ChannelFails? && steps[i] != Step.Fill(false)
  }

  predicate BusyRight(s: Snd) {
    s.dl == FillingBusy <==> s.outstanding == 1
  }

  lemma StepBusy(s: Snd, step: Step)
    requires Safe(s) && Enabled(s, step) && BusyRight(s) && !step.ChannelFails? && step != Step.Fill(false)
    ensures BusyRight(Next(s, step))
  {
    hide Entry, AllValid, Sum, NextPlayable, Readable, Consumed, FromStart;
  }

  /** When all requests are sent and none fails, the controller is busy exactly while a request
      is open: no answer leaves it waiting for ever. */
  lemma {:induction false} BusyExactly(s: Snd, steps: seq<Step>)
    requires Safe(s) && Legal(s, steps) && AllWell(steps) && BusyRight(s)
    ensures BusyRight(Run(s, steps))
    decreases |steps|
  {
    hide Enabled, Next, Formed, OneRequest, Bounded, BusyRight;
    if steps != [] {
      StepKeeps(s, steps[0]);
      StepBusy(s, steps[0]);
      BusyExactly(Next(s, steps[0]), steps[1..]);
    }
  }

  /** The failures in a row, when there were some before */
  function FailuresInARow(before: nat, steps: seq<Step>): nat
    decreases |steps|
  {
    if steps == [] then before
    else FailuresInARow(if steps[0].ChannelEnds? then 0 else if steps[0].ChannelFails? then before + 1 else before,
                        steps[1..])
  }

  lemma StepFails(s: Snd, step: Step)
    requires Safe(s) && Enabled(s, step)
    ensures Next(s, step).errors
         == if step.ChannelEnds? then 0 else if step.ChannelFails? then s.errors + 1 else s.errors
  {
    hide Entry, AllValid, Sum, NextPlayable, Readable, Consumed, FromStart;
  }

  /** The error count is the number of failures since the last complete answer. */
  lemma {:induction false} ErrorsInARow(s: Snd, steps: seq<Step>)
    requires Safe(s) && Legal(s, steps)
    ensures Run(s, steps).errors == FailuresInARow(s.errors, steps)
    decreases |steps|
  {
    hide Enabled, Next, Formed, OneRequest, Bounded;
    if steps != [] {
      StepKeeps(s, steps[0]);
      StepFails(s, steps[0]);
      ErrorsInARow(Next(s, steps[0]), steps[1..]);
    }
  }

  // -------------------------------------------------------------------- the first page

  /** The size that the code takes for the first page of an Ogg stream is that of RFC 3533,
      section 6 (27 bytes, a table of segments, and the segments) exactly when the page has one
      segment. */
  lemma PageExactly(ptr: seq<Octet>)
    requires |ptr| > 26 && 27 + ptr[26] <= |ptr|
    ensures PageSize(ptr) == 27 + ptr[26] + Lacing(ptr, ptr[26]) <==> ptr[26] == 1
  {
  }

  lemma {:induction false} LacingSums(ptr: seq<Octet>, n: nat)
    requires 27 + n < |ptr|
    ensures Lacing(ptr, n + 1) == Lacing(ptr, n) + ptr[27 + n] && Lacing(ptr, 0) == 0
  {
  }
}
