/** Stopping the two setup threads: after `please_stop` returned no wake-up is lost. */
module ControlStop {
  import opened Runs
  import opened SetupFilters
  import opened ControlRelay

  /** A call of `please_stop` that is under way or over has left the flag up or the thread outside its loop; and once
      one is over, a thread about to take an item finds one. */
  ghost predicate Wakeful(s: State) {
    && (s.readerStop.pending > 0 || s.readerStop.returned ==> s.readerStop.raised || s.reader.ReadDone?)
    && (s.writerStop.pending > 0 || s.writerStop.returned ==> s.writerStop.raised || s.writer.WriteDone?)
    && (s.readerStop.returned && s.reader.ReadDequeue? ==> !s.toHost.Empty())
    && (s.writerStop.returned && s.writer.WriteDequeue? ==> !s.toDevice.Empty())
  }

  lemma WakefulReader(s: State, w: World)
    requires Wakeful(s) && ReaderEnabled(s)
    ensures Wakeful(StepOfReader(s, w))
  {
  }

  lemma WakefulWriter(s: State, w: World)
    requires Wakeful(s) && WriterEnabled(s)
    ensures Wakeful(StepOfWriter(s, w))
  {
    hide OutPass, InPass, InStart, AfterCall;
  }

  lemma WakefulStep(s: State, a: Action)
    requires Wakeful(s)
    ensures Wakeful(Step(s, a))
  {
    hide StepOfReader, StepOfWriter;
    if Enabled(s, a) {
      match a
      case StepReader(w) => WakefulReader(s, w);
      case StepWriter(w) => WakefulWriter(s, w);
      case _ =>
    }
  }

  lemma {:induction false} WakefulRun(acts: seq<Action>)
    ensures Wakeful(Run(acts))
  {
    hide Wakeful, Step;
    if acts == [] {
      assert Wakeful(START) by { StartWakeful(); }
    } else {
      WakefulRun(acts[..|acts| - 1]);
      WakefulStep(Run(acts[..|acts| - 1]), acts[|acts| - 1]);
    }
  }

  lemma StartWakeful()
    ensures Wakeful(START)
  {
  }

  // ---------------------------------------------------------------- what is left to do

  ghost predicate ReaderStopping(s: State) {
    Wakeful(s) && s.readerStop.returned
  }

  ghost predicate WriterStopping(s: State) {
    Wakeful(s) && s.writerStop.returned
  }

  predicate ReaderMoves(s: State, a: Action) {
    a.StepReader? && ReaderEnabled(s)
  }

  predicate WriterMoves(s: State, a: Action) {
    a.StepWriter? && WriterEnabled(s)
  }

  predicate WriterDequeues(s: State, a: Action) {
    WriterMoves(s, a) && s.writer.WriteDequeue?
  }

  predicate WriterCalls(s: State, a: Action) {
    WriterMoves(s, a) && s.writer.WriteCall?
  }

  predicate ReaderReplies(s: State, a: Action) {
    ReaderMoves(s, a) && s.reader.ReadReply?
  }

  /** The steps a thread whose flag is up can still take. */
  function ReaderStepsLeft(s: State): nat {
    match s.reader
    case ReadTop(_, _) => 1
    case ReadPoll => 2
    case ReadPolled(_) => 1
    case ReadEnqueue(_) => 2
    case ReadDequeue => 2
    case ReadDequeued(_) => 1
    case ReadReply(_) => 2
    case ReadCheck(_) => 1
    case ReadWait(_) => 2
    case ReadDone => 0
  }

  function WriterStepsLeft(s: State): nat {
    match s.writer
    case WriteTop => 1
    case WriteDequeue => 2
    case WriteDequeued(_) => 1
    case WriteFilterOut(_) => 5
    case WriteCall(_, _) => 4
    case WriteFilterIn(_, _) => 3
    case WriteEnqueue(_) => 2
    case WriteDone => 0
  }

  function DequeuesLeft(s: State): nat {
    if s.writer.WriteDequeue? then 1 else 0
  }

  function CallsLeft(s: State): nat {
    if s.writer.WriteFilterOut? || s.writer.WriteCall? then 1 else 0
  }

  function RepliesLeft(s: State): nat {
    if s.reader.ReadReply? then 1 else 0
  }

  lemma ReaderStopStep(s: State, a: Action)
    requires ReaderStopping(s)
    ensures ReaderStopping(Step(s, a))
    ensures ReaderStepsLeft(Step(s, a)) + (if ReaderMoves(s, a) then 1 else 0) <= ReaderStepsLeft(s)
    ensures RepliesLeft(Step(s, a)) + (if ReaderReplies(s, a) then 1 else 0) <= RepliesLeft(s)
  {
    hide OutPass, InPass, InStart, AfterCall;
    WakefulStep(s, a);
  }

  lemma WriterStopStep(s: State, a: Action)
    requires WriterStopping(s)
    ensures WriterStopping(Step(s, a))
    ensures WriterStepsLeft(Step(s, a)) + (if WriterMoves(s, a) then 1 else 0) <= WriterStepsLeft(s)
    ensures DequeuesLeft(Step(s, a)) + (if WriterDequeues(s, a) then 1 else 0) <= DequeuesLeft(s)
    ensures CallsLeft(Step(s, a)) + (if WriterCalls(s, a) then 1 else 0) <= CallsLeft(s)
  {
    hide OutPass, InPass, InStart, AfterCall;
    WakefulStep(s, a);
  }

  /** Once `please_stop` has returned, even if its null packet was refused by a full queue, the writer takes at most one
      more item, asks the device at most once more, and leaves its loop within five steps of its own; until then it is
      never stuck on an empty queue. */
  lemma WriterStops(acts: seq<Action>, more: seq<Action>)
    requires Run(acts).writerStop.returned
    ensures var s := Run(acts);
            && Tally(Step, WriterDequeues, s, more) <= 1
            && Tally(Step, WriterCalls, s, more) <= 1
            && Tally(Step, WriterMoves, s, more) <= 5
    ensures var s := After(Step, Run(acts), more);
            s.halted || s.writer.WriteDone? || WriterEnabled(s)
  {
    hide Step;
    var s := Run(acts);
    WakefulRun(acts);
    forall s', a | WriterStopping(s')
      ensures WriterStopping(Step(s', a))
      ensures WriterStepsLeft(Step(s', a)) + (if WriterMoves(s', a) then 1 else 0) <= WriterStepsLeft(s')
      ensures DequeuesLeft(Step(s', a)) + (if WriterDequeues(s', a) then 1 else 0) <= DequeuesLeft(s')
      ensures CallsLeft(Step(s', a)) + (if WriterCalls(s', a) then 1 else 0) <= CallsLeft(s')
    {
      WriterStopStep(s', a);
    }
    Amortised(Step, WriterStopping, WriterDequeues, DequeuesLeft, s, more);
    Amortised(Step, WriterStopping, WriterCalls, CallsLeft, s, more);
    Amortised(Step, WriterStopping, WriterMoves, WriterStepsLeft, s, more);
  }

  /** The same for the reader: it replies to the host at most once more, and leaves its loop within two steps of its
      own. */
  lemma ReaderStops(acts: seq<Action>, more: seq<Action>)
    requires Run(acts).readerStop.returned
    ensures var s := Run(acts);
            && Tally(Step, ReaderReplies, s, more) <= 1
            && Tally(Step, ReaderMoves, s, more) <= 2
    ensures var s := After(Step, Run(acts), more);
            s.halted || s.reader.ReadDone? || ReaderEnabled(s)
  {
    hide Step;
    var s := Run(acts);
    WakefulRun(acts);
    forall s', a | ReaderStopping(s')
      ensures ReaderStopping(Step(s', a))
      ensures ReaderStepsLeft(Step(s', a)) + (if ReaderMoves(s', a) then 1 else 0) <= ReaderStepsLeft(s')
      ensures RepliesLeft(Step(s', a)) + (if ReaderReplies(s', a) then 1 else 0) <= RepliesLeft(s')
    {
      ReaderStopStep(s', a);
    }
    Amortised(Step, ReaderStopping, ReaderReplies, RepliesLeft, s, more);
    Amortised(Step, ReaderStopping, ReaderMoves, ReaderStepsLeft, s, more);
  }

  // ---------------------------------------------------------------- the flags

  lemma FlagsStep(s: State, a: Action)
    ensures var s' := Step(s, a);
            && (!a.RaiseReader? && (s.reader.ReadDone? ==> !s.readerStop.raised) ==>
                  s'.reader.ReadDone? ==> !s'.readerStop.raised)
            && (!a.RaiseWriter? && (s.writer.WriteDone? ==> !s.writerStop.raised) ==>
                  s'.writer.WriteDone? ==> !s'.writerStop.raised)
  {
    hide OutPass, InPass, InStart, AfterCall, ReplyTo;
  }

  /** A thread that leaves its loop lowers its flag, so that it can be started again; only a later stop raises it. */
  lemma {:induction false} FlagsLowered(s: State, acts: seq<Action>)
    ensures var s' := After(Step, s, acts);
            && (!s.reader.ReadDone? && RaiseReader !in acts ==> s'.reader.ReadDone? ==> !s'.readerStop.raised)
            && (!s.writer.WriteDone? && RaiseWriter !in acts ==> s'.writer.WriteDone? ==> !s'.writerStop.raised)
  {
    hide Step;
    if acts != [] {
      var before, a := acts[..|acts| - 1], acts[|acts| - 1];
      FlagsLowered(s, before);
      FlagsStep(After(Step, s, before), a);
    }
  }
}
