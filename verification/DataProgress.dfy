/** That the threads of a data endpoint keep working until they are asked to stop. */
module DataProgress {
  import opened Wire
  import opened Runs
  import opened DataRelay
  import opened DataStop

  /** `send_wait_complete` gives up in this step. */
  predicate TimesOut(s: State, a: Action) {
    WriterMoves(s, a) && s.writing.pc.WriteWait? && !a.world.done
  }

  predicate ReaderAtWork(r: ReadSide) {
    !r.stop && !r.pc.ReadDone?
  }

  /** The writer waits for a transfer before it takes the next item. */
  predicate WriterAtWork(t: WriteSide) {
    && !t.stop && t.pending == 0 && !t.pc.WriteDone?
    && (t.writing ==> t.pc.WriteTop? || t.pc.WriteWait?)
  }

  // ---------------------------------------------------------------- the measures

  /** The most steps the reader takes before it asks its proxy for data. */
  function ReaderRank(r: ReadSide): nat {
    match r.pc
    case ReadTop => 1
    case ReadReceive => 0
    case ReadReceived(_) => 4
    case ReadAskEmpty => 3
    case ReadEnqueue(_) => 2
    case ReadDone => 0
  }

  /** The most steps the writer takes before it turns to the queue, as long as waits succeed. */
  function WriterRank(t: WriteSide): nat {
    match t.pc
    case WriteTop => if t.writing then 3 else 1
    case WriteDequeue => 0
    case WriteDequeued(_) => 7
    case WriteFilter(_) => 6
    case WriteCheck(_) => 5
    case WriteSend(_) => 4
    case WriteWait => 2
    case WriteDone => 0
  }

  lemma ReaderAdvances(s: State, a: Action)
    requires ReaderAtWork(s.reading) && !a.RaiseReader?
    ensures var s' := Step(s, a);
            && ReaderAtWork(s'.reading)
            && ReaderRank(s'.reading) + (if ReaderMoves(s, a) then 1 else 0) <=
               ReaderRank(s.reading) + (if Receives(s, a) then 5 else 0)
  {
    hide WriterNext;
  }

  lemma WriterAdvances(s: State, a: Action)
    requires WriterAtWork(s.writing) && !a.RaiseWriter?
    ensures var s' := Step(s, a);
            && WriterAtWork(s'.writing) && |s'.writing.taken| >= |s.writing.taken|
            && WriterRank(s'.writing) + (if WriterMoves(s, a) then 1 else 0) <=
               WriterRank(s.writing) + 8 * (|s'.writing.taken| - |s.writing.taken|) + (if TimesOut(s, a) then 2 else 0)
  {
    hide ReaderNext, Image;
  }

  // ---------------------------------------------------------------- the main results

  /** The reader leaves its loop only when asked to. Until then at most four steps lie between two calls of its proxy.
      */
  lemma {:induction false} ReaderKeepsReceiving(s: State, acts: seq<Action>)
    requires ReaderAtWork(s.reading) && forall k :: 0 <= k < |acts| ==> !acts[k].RaiseReader?
    ensures var s' := After(Step, s, acts);
            && ReaderAtWork(s'.reading)
            && Tally(Step, ReaderMoves, s, acts) + ReaderRank(s'.reading) <=
               ReaderRank(s.reading) + 5 * Tally(Step, Receives, s, acts)
  {
    hide Step, ReaderAtWork, ReaderMoves, Receives, ReaderRank;
    if acts != [] {
      var before := acts[..|acts| - 1];
      ReaderKeepsReceiving(s, before);
      ReaderAdvances(After(Step, s, before), acts[|acts| - 1]);
    }
  }

  /** The writer leaves its loop only when asked to. Until then it waits on nothing but an empty queue, and of its steps
      at most eight go into each item it takes and two into each time-out. */
  lemma {:induction false} WriterKeepsTaking(s: State, acts: seq<Action>)
    requires WriterAtWork(s.writing) && forall k :: 0 <= k < |acts| ==> !acts[k].RaiseWriter?
    ensures var s' := After(Step, s, acts);
            && WriterAtWork(s'.writing)
            && (!WriterEnabled(s') ==> s'.writing.pc.WriteDequeue? && s'.ledger.queue.Empty())
            && Tally(Step, WriterMoves, s, acts) + WriterRank(s'.writing) <=
               WriterRank(s.writing) + 8 * (|s'.writing.taken| - |s.writing.taken|) + 2 * Tally(Step, TimesOut, s, acts)
  {
    if acts != [] {
      var before := acts[..|acts| - 1];
      WriterKeepsTaking(s, before);
      WriterAdvances(After(Step, s, before), acts[|acts| - 1]);
      hide Step, WriterMoves, TimesOut, WriterRank;
    }
  }

  /** So it is for every run from the start. */
  lemma AtWork(endpoint: byte, acts: seq<Action>)
    ensures (forall k :: 0 <= k < |acts| ==> !acts[k].RaiseReader?) ==> ReaderAtWork(Run(endpoint, acts).reading)
    ensures (forall k :: 0 <= k < |acts| ==> !acts[k].RaiseWriter?) ==> WriterAtWork(Run(endpoint, acts).writing)
  {
    hide After, Tally;
    if forall k :: 0 <= k < |acts| ==> !acts[k].RaiseReader? {
      ReaderKeepsReceiving(Start(endpoint), acts);
    }
    if forall k :: 0 <= k < |acts| ==> !acts[k].RaiseWriter? {
      WriterKeepsTaking(Start(endpoint), acts);
    }
  }
}
