/** That the handshake on endpoint 0 gets back to polling the host while no stop is requested. */
module ControlProgress {
  import opened Wire
  import opened Runs
  import opened SetupFilters
  import opened ControlRelay

  ghost predicate AllThere(q: PacketQueue) {
    forall k :: 0 <= k < |q.normal| ==> q.normal[k].Some?
  }

  /** No stop is requested, and no null packet is around. */
  ghost predicate Calm(s: State) {
    && s.readerStop == s.writerStop == Stop(false, 0, false)
    && !s.reader.ReadDone? && !s.writer.WriteDone?
    && AllThere(s.toDevice) && AllThere(s.toHost)
    && s.reader != ReadDequeued(None) && s.writer != WriteDequeued(None)
  }

  /** A request under way is in flight, or complete but for the wait, or lost to a filter. */
  ghost predicate Tracked(s: State) {
    InFlight(s) == 0 ==> var ph := PhaseOf(s.trace); ph.Idle? || ph.Completing? || ph.Lost?
  }

  /** A state of a run in which `please_stop` was never called and the program has not ended. */
  ghost predicate Undisturbed(s: State) {
    Inv(s) && !s.halted && Calm(s) && Tracked(s)
  }

  predicate OfThread(a: Action) {
    a.StepReader? || a.StepWriter?
  }

  /** With everything there, a queue is as long as the number of setup packets in it. */
  lemma {:induction false} PresentLength(xs: seq<Option<Setup>>)
    requires forall k :: 0 <= k < |xs| ==> xs[k].Some?
    ensures |Present(xs)| == |xs|
  {
    if xs != [] {
      PresentLength(xs[1..]);
    }
  }

  /** The most steps the threads can take before the host is polled, as long as waits succeed. */
  function ReaderRank(r: Reader): nat {
    match r
    case ReadTop(true, _) => 1
    case ReadTop(false, None) => 1
    case ReadTop(false, Some(_)) => 9
    case ReadPoll => 0
    case ReadPolled(Got(_)) => 32
    case ReadPolled(_) => 2
    case ReadEnqueue(_) => 31
    case ReadDequeue => 0
    case ReadDequeued(_) => 10
    case ReadReply(_) => 9
    case ReadCheck(_) => 8
    case ReadWait(_) => 7
    case ReadDone => 0
  }

  function WriterRank(w: Writer): nat {
    match w
    case WriteTop => 1
    case WriteDequeue => 0
    case WriteDequeued(_) => 26
    case WriteFilterOut(_) => 25
    case WriteCall(_, _) => 24
    case WriteFilterIn(_, _) => 23
    case WriteEnqueue(_) => 22
    case WriteDone => 0
  }

  function Left(s: State): nat {
    ReaderRank(s.reader) + WriterRank(s.writer) + 27 * |s.toDevice.normal| + 19 * |s.toHost.normal|
  }

  /** `send_wait_complete` gives up in this step. */
  predicate TimesOut(s: State, a: Action) {
    a.StepReader? && ReaderEnabled(s) && s.reader.ReadWait? && !a.world.done
  }

  lemma ShortQueues(s: State)
    requires Undisturbed(s)
    ensures |s.toDevice.normal| == |Present(s.toDevice.normal)| && |s.toHost.normal| == |Present(s.toHost.normal)|
    ensures |s.toDevice.normal| + |s.toHost.normal| <= 1
    ensures s.toDevice.priority == s.toHost.priority == []
  {
    hide PhaseOf, Present;
    PresentLength(s.toDevice.normal);
    PresentLength(s.toHost.normal);
  }

  lemma ReaderStaysCalm(s: State, w: World)
    requires Undisturbed(s) && ReaderEnabled(s)
    ensures Calm(StepOfReader(s, w))
  {
    hide PhaseOf, Present, Inv, Tracked;
    ShortQueues(s);
  }

  lemma ReaderTracked(s: State, w: World)
    requires Undisturbed(s) && ReaderEnabled(s)
    ensures Tracked(StepOfReader(s, w))
  {
    hide PhaseOf, Present;
    ShortQueues(s);
    match s.reader
    case ReadEnqueue(p) => PresentConcat(s.toDevice.normal, [Some(p)]); PresentOne(p);
    case ReadDequeue => PresentDequeued(s.toHost);
    case ReadPoll =>
      PhaseAfter(s.trace, Polling);
      if w.outcome.Setup? {
        PhaseAfter(s.trace + [Polling], Asked(s.nextId, w.outcome.request, w.outcome.data));
      }
    case ReadReply(p) => PhaseAfter(s.trace, Replied(p.id, ReplyTo(p)));
    case ReadWait(p) => PhaseAfter(s.trace, Waited(w.done));
    case _ =>
  }

  lemma PresentOne(p: Setup)
    ensures Present([Some(p)]) == [p]
  {
  }

  lemma WriterStaysCalm(s: State, w: World)
    requires Undisturbed(s) && WriterEnabled(s)
    ensures Calm(StepOfWriter(s, w))
  {
    hide PhaseOf, Present, Inv, Tracked, OutPass, InPass, InStart;
    ShortQueues(s);
  }

  lemma WriterTracked(s: State, w: World)
    requires Undisturbed(s) && WriterEnabled(s)
    ensures Tracked(StepOfWriter(s, w))
  {
    hide PhaseOf, Present, OutPass, InPass, InStart, AfterCall;
    ShortQueues(s);
    match s.writer
    case WriteDequeue => PresentDequeued(s.toDevice);
    case WriteFilterOut(p) => PhaseAfter(s.trace, Dropped(p.id));
    case WriteEnqueue(p) => PresentConcat(s.toHost.normal, [Some(p)]); PresentOne(p);
    case _ =>
  }

  /** A thread's step leads from an undisturbed state to an undisturbed one, unless it ends the program. */
  lemma StaysUndisturbed(s: State, a: Action)
    requires Undisturbed(s) && OfThread(a) && Enabled(s, a)
    ensures Next(s, a).halted || Undisturbed(Next(s, a))
  {
    hide PhaseOf, Calm, Tracked, Inv, StepOfReader, StepOfWriter;
    StepKeeps(s, a);
    if a.StepReader? {
      ReaderStaysCalm(s, a.world);
      ReaderTracked(s, a.world);
    } else {
      WriterStaysCalm(s, a.world);
      WriterTracked(s, a.world);
    }
  }

  lemma {:induction false} UndisturbedRun(acts: seq<Action>)
    requires forall k :: 0 <= k < |acts| ==> OfThread(acts[k])
    ensures Run(acts).halted || Undisturbed(Run(acts))
  {
    hide Undisturbed, Next;
    if acts == [] {
      StartUndisturbed();
    } else {
      UndisturbedRun(acts[..|acts| - 1]);
      var s, a := Run(acts[..|acts| - 1]), acts[|acts| - 1];
      if Enabled(s, a) && !s.halted {
        StaysUndisturbed(s, a);
      }
    }
  }

  lemma StartUndisturbed()
    ensures Undisturbed(START)
  {
    StartFits();
  }

  // ---------------------------------------------------------------- the measure

  lemma ReaderDescends(s: State, w: World)
    requires Undisturbed(s) && ReaderEnabled(s) && !s.reader.ReadPoll?
    ensures var s' := StepOfReader(s, w);
            if s.reader.ReadWait? && !w.done then Left(s') == Left(s) + 2 else Left(s') < Left(s)
  {
    hide PhaseOf, Present;
    ShortQueues(s);
  }

  lemma WriterDescends(s: State, w: World)
    requires Undisturbed(s) && WriterEnabled(s)
    ensures Left(StepOfWriter(s, w)) < Left(s)
  {
    hide PhaseOf, Present, OutPass, InPass, InStart, AfterCall, Inv;
    ShortQueues(s);
  }

  /** A run of the two threads from `s` that has not polled the host before its last step. */
  ghost predicate Unpolled(s: State, acts: seq<Action>) {
    forall k :: 0 <= k < |acts| ==>
      var s' := After(Step, s, acts[..k]);
      OfThread(acts[k]) && Enabled(s', acts[k]) && !s'.reader.ReadPoll?
  }

  /** The way back to polling is bounded: between two polls the threads take at most as many steps as the measure of the
      state they start from, and three more for each time-out of `send_wait_complete`. */
  lemma {:induction false} BackToPolling(s: State, acts: seq<Action>)
    requires Undisturbed(s) && Unpolled(s, acts)
    ensures |acts| <= Left(s) + 3 * Tally(Step, TimesOut, s, acts)
    ensures var s' := After(Step, s, acts);
            (s'.halted || Undisturbed(s')) && |acts| + Left(s') <= Left(s) + 3 * Tally(Step, TimesOut, s, acts)
  {
    hide Undisturbed, Left, StepOfReader, StepOfWriter;
    if acts != [] {
      var before, a := acts[..|acts| - 1], acts[|acts| - 1];
      assert forall k :: 0 <= k < |before| ==> before[..k] == acts[..k];
      BackToPolling(s, before);
      var s' := After(Step, s, before);
      assert OfThread(a) && Enabled(s', a) && !s'.reader.ReadPoll?;
      StaysUndisturbed(s', a);
      if a.StepReader? {
        ReaderDescends(s', a.world);
      } else {
        WriterDescends(s', a.world);
      }
    }
  }

  /** Both threads wait for ever exactly when the request under way was lost to a filter and they have come to rest. */
  lemma BlockedWhenLost(s: State)
    requires Undisturbed(s)
    ensures !ReaderEnabled(s) && !WriterEnabled(s) <==>
              PhaseOf(s.trace).Lost? && s.reader.ReadDequeue? && s.writer.WriteDequeue?
  {
    hide PhaseOf, Present;
    ShortQueues(s);
  }

  /** A run that has not polled the host and that no step of the two threads could prolong without doing so. */
  ghost predicate Maximal(s: State, acts: seq<Action>) {
    Unpolled(s, acts) && forall a :: OfThread(a) ==> !Unpolled(s, acts + [a])
  }

  lemma Prolonged(s: State, acts: seq<Action>, a: Action)
    requires Unpolled(s, acts) && OfThread(a)
    requires var s' := After(Step, s, acts); Enabled(s', a) && !s'.reader.ReadPoll?
    ensures Unpolled(s, acts + [a])
  {
    hide Step;
    var more := acts + [a];
    forall k | 0 <= k < |more|
      ensures var s' := After(Step, s, more[..k]); OfThread(more[k]) && Enabled(s', more[k]) && !s'.reader.ReadPoll?
    {
      assert more[..k] == acts[..k];
      assert k == |acts| ==> acts[..k] == acts;
    }
  }

  /** Where a run ends that the threads cannot prolong: the host is polled, the program is over, or the request under
      way was lost to a filter and the threads have come to rest. With finitely many time-outs every run ends, within
      the bound. */
  lemma PolledOrLost(s: State, acts: seq<Action>)
    requires Undisturbed(s) && Maximal(s, acts)
    ensures |acts| <= Left(s) + 3 * Tally(Step, TimesOut, s, acts)
    ensures var s' := After(Step, s, acts);
            || s'.halted
            || s'.reader.ReadPoll?
            || (PhaseOf(s'.trace).Lost? && s'.reader.ReadDequeue? && s'.writer.WriteDequeue?)
  {
    hide Undisturbed, Left, Step, PhaseOf;
    BackToPolling(s, acts);
    var s' := After(Step, s, acts);
    if !s'.halted && !s'.reader.ReadPoll? {
      var w := World(Other, false, [], Result(0, 0, []));
      if Enabled(s', StepReader(w)) {
        Prolonged(s, acts, StepReader(w));
      } else if Enabled(s', StepWriter(w)) {
        Prolonged(s, acts, StepWriter(w));
      } else {
        BlockedWhenLost(s');
      }
    }
  }

  lemma LostStep(s: State, a: Action)
    requires Undisturbed(s) && PhaseOf(s.trace).Lost? && OfThread(a) && Enabled(s, a)
    ensures !s.reader.ReadPoll? && Next(s, a).trace == s.trace && !Next(s, a).halted
  {
    hide PhaseOf, Present, OutPass, InPass, InStart, AfterCall;
    ShortQueues(s);
  }

  /** A request lost to a filter is never answered, and the host never polled again, however long the threads run. */
  lemma {:induction false} LostForGood(s: State, acts: seq<Action>)
    requires Undisturbed(s) && PhaseOf(s.trace).Lost?
    requires forall k :: 0 <= k < |acts| ==> OfThread(acts[k])
    ensures var s' := After(Step, s, acts);
            Undisturbed(s') && s'.trace == s.trace && !s'.reader.ReadPoll? && !s'.halted
  {
    hide Undisturbed, Next, PhaseOf;
    if acts == [] {
      LostWaits(s);
    } else {
      var before, a := acts[..|acts| - 1], acts[|acts| - 1];
      LostForGood(s, before);
      var s' := After(Step, s, before);
      if Enabled(s', a) {
        LostStep(s', a);
        StaysUndisturbed(s', a);
        LostWaits(Next(s', a));
      }
    }
  }

  lemma LostWaits(s: State)
    requires Undisturbed(s) && PhaseOf(s.trace).Lost?
    ensures !s.reader.ReadPoll? && !s.halted
  {
    hide PhaseOf, Present;
  }
}
