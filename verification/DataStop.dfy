/** Stopping the writer of a data endpoint: after `please_stop` returned no wake-up is lost. */
module DataStop {
  import opened Wire
  import opened Runs
  import Q = SafeQueues
  import opened DataRelay

  /** A call of `please_stop` that is under way or over has left the flag up or the writer outside its loop; and once
      one is over, a writer about to take an item finds one. */
  ghost predicate Wakeful(t: WriteSide, empty: bool) {
    && (t.pending > 0 || t.returned ==> t.stop || t.pc.WriteDone?)
    && (t.returned && t.pc.WriteDequeue? ==> !empty)
  }

  /** Putting something in leaves no queue empty, be it refused. */
  lemma PutFills(l: Q.Ledger<Item>, op: Q.Op<Item>)
    requires !op.Get?
    ensures !Q.Step(l, op).queue.Empty()
  {
  }

  lemma WakefulWriter(t: WriteSide, q: Q.Queue<Item>, w: World, empty: bool)
    requires Wakeful(t, q.Empty()) && !t.pc.WriteDone? && (t.pc.WriteDequeue? ==> !q.Empty())
    requires !t.pc.WriteDequeue? ==> empty == q.Empty()
    ensures Wakeful(WriterNext(t, q, w), empty)
  {
    hide Image;
  }

  lemma WakefulStep(s: State, a: Action)
    requires Wakeful(s.writing, s.ledger.queue.Empty())
    ensures Wakeful(Step(s, a).writing, Step(s, a).ledger.queue.Empty())
  {
    hide ReaderNext, WriterNext, Q.Step;
    if Enabled(s, a) {
      match a
      case StepReader(_) =>
        if s.reading.pc.ReadEnqueue? {
          PutFills(s.ledger, Q.Put(Some(NewPacket(s.endpoint, s.reading.pc.data))));
        }
      case StepWriter(w) => WakefulWriter(s.writing, s.ledger.queue, w, Step(s, a).ledger.queue.Empty());
      case Inject(p) => PutFills(s.ledger, Q.PutPriority(Some(p)));
      case PostWriter => PutFills(s.ledger, Q.Put(None));
      case _ =>
    }
  }

  lemma {:induction false} WakefulRun(endpoint: byte, acts: seq<Action>)
    ensures var s := Run(endpoint, acts); Wakeful(s.writing, s.ledger.queue.Empty())
  {
    hide Wakeful, Step;
    if acts == [] {
      StartWakeful(endpoint);
    } else {
      WakefulRun(endpoint, acts[..|acts| - 1]);
      WakefulStep(Run(endpoint, acts[..|acts| - 1]), acts[|acts| - 1]);
    }
  }

  lemma StartWakeful(endpoint: byte)
    ensures var s := Start(endpoint); Wakeful(s.writing, s.ledger.queue.Empty())
  {
  }

  // ---------------------------------------------------------------- what is left to do

  ghost predicate Stopping(s: State) {
    Wakeful(s.writing, s.ledger.queue.Empty()) && s.writing.returned
  }

  predicate WriterMoves(s: State, a: Action) {
    a.StepWriter? && WriterEnabled(s)
  }

  predicate WriterDequeues(s: State, a: Action) {
    WriterMoves(s, a) && s.writing.pc.WriteDequeue?
  }

  predicate WriterSends(s: State, a: Action) {
    WriterMoves(s, a) && s.writing.pc.WriteSend?
  }

  /** The steps a writer whose flag is up can still take. */
  function StepsLeft(s: State): nat {
    match s.writing.pc
    case WriteTop => 1
    case WriteDequeue => 2
    case WriteDequeued(_) => 1
    case WriteFilter(_) => 2
    case WriteCheck(_) => 1
    case WriteSend(_) => 2
    case WriteWait => 2
    case WriteDone => 0
  }

  function DequeuesLeft(s: State): nat {
    if s.writing.pc.WriteDequeue? then 1 else 0
  }

  function SendsLeft(s: State): nat {
    if s.writing.pc.WriteSend? then 1 else 0
  }

  lemma StoppingStep(s: State, a: Action)
    requires Stopping(s)
    ensures Stopping(Step(s, a))
    ensures StepsLeft(Step(s, a)) + (if WriterMoves(s, a) then 1 else 0) <= StepsLeft(s)
    ensures DequeuesLeft(Step(s, a)) + (if WriterDequeues(s, a) then 1 else 0) <= DequeuesLeft(s)
    ensures SendsLeft(Step(s, a)) + (if WriterSends(s, a) then 1 else 0) <= SendsLeft(s)
  {
    hide ReaderNext, Image, Q.Step;
    WakefulStep(s, a);
  }

  /** Once `please_stop` has returned, even if its null packet was refused by a full queue, the writer takes at most one
      more item, starts at most one more transfer, and leaves its loop within two steps of its own; until then it is
      never stuck on an empty queue. */
  lemma WriterStops(endpoint: byte, acts: seq<Action>, more: seq<Action>)
    requires Run(endpoint, acts).writing.returned
    ensures var s := Run(endpoint, acts);
            && Tally(Step, WriterDequeues, s, more) <= 1
            && Tally(Step, WriterSends, s, more) <= 1
            && Tally(Step, WriterMoves, s, more) <= 2
    ensures var s := After(Step, Run(endpoint, acts), more);
            s.writing.pc.WriteDone? || WriterEnabled(s)
  {
    hide Step;
    var s := Run(endpoint, acts);
    WakefulRun(endpoint, acts);
    forall s', a | Stopping(s')
      ensures Stopping(Step(s', a))
      ensures StepsLeft(Step(s', a)) + (if WriterMoves(s', a) then 1 else 0) <= StepsLeft(s')
      ensures DequeuesLeft(Step(s', a)) + (if WriterDequeues(s', a) then 1 else 0) <= DequeuesLeft(s')
      ensures SendsLeft(Step(s', a)) + (if WriterSends(s', a) then 1 else 0) <= SendsLeft(s')
    {
      StoppingStep(s', a);
    }
    Amortised(Step, Stopping, WriterDequeues, DequeuesLeft, s, more);
    Amortised(Step, Stopping, WriterSends, SendsLeft, s, more);
    Amortised(Step, Stopping, WriterMoves, StepsLeft, s, more);
  }

  // ---------------------------------------------------------------- the reader

  predicate ReaderStopping(s: State) {
    s.reading.stop || s.reading.pc.ReadDone?
  }

  predicate ReaderMoves(s: State, a: Action) {
    a.StepReader? && ReaderEnabled(s)
  }

  predicate Receives(s: State, a: Action) {
    ReaderMoves(s, a) && s.reading.pc.ReadReceive?
  }

  predicate Offers(s: State, a: Action) {
    ReaderMoves(s, a) && s.reading.pc.ReadEnqueue?
  }

  /** The steps a reader whose flag is up can still take. */
  function ReaderStepsLeft(s: State): nat {
    match s.reading.pc
    case ReadTop => 1
    case ReadReceive => 2
    case ReadReceived(_) => 1
    case ReadAskEmpty => 3
    case ReadEnqueue(_) => 2
    case ReadDone => 0
  }

  function ReceivesLeft(s: State): nat {
    if s.reading.pc.ReadReceive? then 1 else 0
  }

  function OffersLeft(s: State): nat {
    if s.reading.pc.ReadEnqueue? || s.reading.pc.ReadAskEmpty? then 1 else 0
  }

  lemma ReaderStoppingStep(s: State, a: Action)
    requires ReaderStopping(s)
    ensures ReaderStopping(Step(s, a))
    ensures ReaderStepsLeft(Step(s, a)) + (if ReaderMoves(s, a) then 1 else 0) <= ReaderStepsLeft(s)
    ensures ReceivesLeft(Step(s, a)) + (if Receives(s, a) then 1 else 0) <= ReceivesLeft(s)
    ensures OffersLeft(Step(s, a)) + (if Offers(s, a) then 1 else 0) <= OffersLeft(s)
  {
    hide WriterNext, Q.Step;
  }

  /** Once the reader is asked to stop, it calls its proxy at most once more, offers at most one more packet, and leaves
      its loop within three steps of its own, none of which it waits for. */
  lemma ReaderStops(s: State, more: seq<Action>)
    requires s.reading.stop
    ensures Tally(Step, Receives, s, more) <= 1
    ensures Tally(Step, Offers, s, more) <= 1
    ensures Tally(Step, ReaderMoves, s, more) <= 3
    ensures var s' := After(Step, s, more); s'.reading.pc.ReadDone? || (s'.reading.stop && ReaderEnabled(s'))
  {
    hide Step;
    forall s', a | ReaderStopping(s')
      ensures ReaderStopping(Step(s', a))
      ensures ReaderStepsLeft(Step(s', a)) + (if ReaderMoves(s', a) then 1 else 0) <= ReaderStepsLeft(s')
      ensures ReceivesLeft(Step(s', a)) + (if Receives(s', a) then 1 else 0) <= ReceivesLeft(s')
      ensures OffersLeft(Step(s', a)) + (if Offers(s', a) then 1 else 0) <= OffersLeft(s')
    {
      ReaderStoppingStep(s', a);
    }
    Amortised(Step, ReaderStopping, Receives, ReceivesLeft, s, more);
    Amortised(Step, ReaderStopping, Offers, OffersLeft, s, more);
    Amortised(Step, ReaderStopping, ReaderMoves, ReaderStepsLeft, s, more);
  }

  // ---------------------------------------------------------------- the flags

  lemma FlagsStep(s: State, a: Action)
    ensures var s' := Step(s, a);
            && (!a.RaiseReader? && (s.reading.pc.ReadDone? ==> !s.reading.stop) ==>
                  s'.reading.pc.ReadDone? ==> !s'.reading.stop)
            && (!a.RaiseWriter? && (s.writing.pc.WriteDone? ==> !s.writing.stop) ==>
                  s'.writing.pc.WriteDone? ==> !s'.writing.stop)
  {
    hide Image;
  }

  /** A thread that leaves its loop lowers its flag, so that it can be started again; only a later stop raises it. */
  lemma {:induction false} FlagsLowered(s: State, acts: seq<Action>)
    ensures var s' := After(Step, s, acts);
            && (!s.reading.pc.ReadDone? && RaiseReader !in acts ==> s'.reading.pc.ReadDone? ==> !s'.reading.stop)
            && (!s.writing.pc.WriteDone? && RaiseWriter !in acts ==> s'.writing.pc.WriteDone? ==> !s'.writing.stop)
  {
    hide Step;
    if acts != [] {
      var before, a := acts[..|acts| - 1], acts[|acts| - 1];
      FlagsLowered(s, before);
      FlagsStep(After(Step, s, before), a);
    }
  }
}
