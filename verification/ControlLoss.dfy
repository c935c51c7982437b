/** When a request of the host is suppressed: exactly when the first pass over it says so. */
module ControlLoss {
  import opened Wire
  import opened Runs
  import opened SetupFilters
  import opened ControlRelay
  import opened ControlHandshake
  import opened ControlProgress

  // ---------------------------------------------------------------- what the first pass decides

  /** The first pass over `p`, wherever it ends, takes back the wish to transmit. */
  ghost predicate Suppresses(fs: FilterChain, p: Setup) {
    exists j :: Ends(fs, p, true, 0, j) && Withheld(Through(fs, p, true, 0, j))
  }

  predicate Withheld(p: Setup) {
    !p.transmitOut || !p.transmit
  }

  /** What is to be noted of `p` when the first pass leaves `q` of it. */
  function Outcome(p: Setup, q: Setup): Event {
    if Withheld(q) then Dropped(p.id)
    else Forwarded(p.id, q.request, q.data, q.request == p.request && q.data == p.data)
  }

  ghost predicate Decides(fs: FilterChain, p: Setup, e: Event) {
    exists j :: Ends(fs, p, true, 0, j) && e == Outcome(p, Through(fs, p, true, 0, j))
  }

  lemma DecidesOne(fs: FilterChain, p: Setup, e: Event)
    ensures Decides(fs, p, e) <==> e == Outcome(p, Through(fs, p, true, 0, Reach(fs, p, true, 0)))
    ensures Decides(fs, p, e) ==> (e.Dropped? <==> Suppresses(fs, p))
  {
    var j := Reach(fs, p, true, 0);
    forall k | Ends(fs, p, true, 0, k) ensures k == j {
      EndsOnce(fs, p, true, 0, j, k);
    }
    hide Through, Reach, Ends;
  }

  // ---------------------------------------------------------------- the request as it reaches the first pass

  /** As the reader makes a packet of a request: to be filtered and transmitted both ways. */
  predicate Fresh(p: Setup) {
    p.filter && p.filterOut && p.filterIn && p.transmit && p.transmitOut && p.transmitIn
  }

  /** Nobody touches a packet between the host and the first pass. */
  ghost predicate Untouched(s: State) {
    && (s.reader.ReadPolled? && s.reader.polled.Got? ==> Fresh(s.reader.polled.p))
    && (s.reader.ReadEnqueue? ==> Fresh(s.reader.p))
    && (forall x :: x in s.toDevice.normal && x.Some? ==> Fresh(x.value))
    && (s.writer.WriteDequeued? && s.writer.got.Some? ==> Fresh(s.writer.got.value))
    && (s.writer.WriteFilterOut? ==> Fresh(s.writer.p))
  }

  lemma UntouchedReader(s: State, w: World)
    requires Untouched(s) && Inv(s) && ReaderEnabled(s)
    ensures Untouched(StepOfReader(s, w))
  {
    hide PhaseOf, Present, ReplyTo, ReaderFits, WriterFits, QueuesFit;
  }

  lemma UntouchedWriter(s: State, w: World)
    requires Untouched(s) && Inv(s) && WriterEnabled(s)
    ensures Untouched(StepOfWriter(s, w))
  {
    hide PhaseOf, Present, ReplyTo, ReaderFits, WriterFits, OutPass, InPass, InStart, AfterCall;
  }

  lemma UntouchedStep(s: State, a: Action)
    requires Untouched(s) && Inv(s)
    ensures Untouched(Step(s, a))
  {
    hide PhaseOf, Present, Inv, StepOfReader, StepOfWriter;
    if Enabled(s, a) {
      match a
      case StepReader(w) => UntouchedReader(s, w);
      case StepWriter(w) => UntouchedWriter(s, w);
      case _ =>
    }
  }

  lemma {:induction false} UntouchedRun(acts: seq<Action>)
    ensures Untouched(Run(acts))
  {
    hide Untouched, Step, Inv;
    if acts == [] {
      StartUntouched();
    } else {
      UntouchedRun(acts[..|acts| - 1]);
      RunKeeps(acts[..|acts| - 1]);
      UntouchedStep(Run(acts[..|acts| - 1]), acts[|acts| - 1]);
    }
  }

  lemma StartUntouched()
    ensures Untouched(START)
  {
  }

  /** Step `k` of the run is the writer's first pass, over `p`. */
  ghost predicate FirstPass(acts: seq<Action>, k: nat, p: Setup) {
    && k < |acts| && acts[k].StepWriter?
    && WriterEnabled(Run(acts[..k])) && Run(acts[..k]).writer == WriteFilterOut(p)
  }

  /** The first pass is over what the host asked, all of it still to be filtered and transmitted. */
  lemma FirstPassIsAsked(acts: seq<Action>, k: nat, p: Setup)
    requires FirstPass(acts, k, p)
    ensures Fresh(p) && Asked(p.id, p.request, p.data) in Run(acts[..k]).trace
    ensures PhaseOf(Run(acts[..k]).trace) == Asking(p.id, p.request, p.data)
  {
    hide PhaseOf, Run;
    UntouchedRun(acts[..k]);
    RunKeeps(acts[..k]);
    CallsArePassed(Run(acts[..k]).trace);
  }

  // ---------------------------------------------------------------- what a run notes of first passes

  predicate OfFirstPass(e: Event) {
    e.Forwarded? || e.Dropped?
  }

  /** What a step notes of a first pass is what that pass decides. */
  lemma NotedStep(s: State, a: Action, e: Event)
    requires Untouched(s) && OfFirstPass(e)
    ensures e in Step(s, a).trace <==>
            || e in s.trace
            || (a.StepWriter? && WriterEnabled(s) && s.writer.WriteFilterOut?
                && Decides(a.world.filters, s.writer.p, e))
  {
    hide PhaseOf, Present, InPass, InStart, AfterCall, Decides;
    if a.StepWriter? && WriterEnabled(s) && s.writer.WriteFilterOut? {
      DecidesOne(a.world.filters, s.writer.p, e);
    }
  }

  ghost predicate NotedBy(acts: seq<Action>, k: nat, p: Setup, e: Event) {
    FirstPass(acts, k, p) && Decides(acts[k].world.filters, p, e)
  }

  lemma NotedLater(acts: seq<Action>, a: Action, k: nat, p: Setup, e: Event)
    requires k < |acts|
    ensures NotedBy(acts, k, p, e) <==> NotedBy(acts + [a], k, p, e)
  {
    hide Run, Decides;
    assert (acts + [a])[..k] == acts[..k];
  }

  /** Over every run: a request is suppressed, or forwarded in such and such a form, exactly as the first pass over it
      decided. */
  lemma {:induction false} DecidedByFilters(acts: seq<Action>, e: Event)
    requires OfFirstPass(e)
    ensures e in Run(acts).trace <==> exists k: nat, p :: NotedBy(acts, k, p, e)
  {
    hide Step, Untouched, WriterEnabled, Decides;
    if acts != [] {
      var before, a := acts[..|acts| - 1], acts[|acts| - 1];
      assert acts == before + [a] && acts[..|before|] == before;
      DecidedByFilters(before, e);
      UntouchedRun(before);
      NotedStep(Run(before), a, e);
      forall k: nat, p | k < |before| ensures NotedBy(before, k, p, e) <==> NotedBy(acts, k, p, e) {
        NotedLater(before, a, k, p, e);
      }
      NotedAtLast(before, a, e);
    }
  }

  lemma NotedAtLast(before: seq<Action>, a: Action, e: Event)
    ensures var s := Run(before);
            (exists p :: NotedBy(before + [a], |before|, p, e)) <==>
              (a.StepWriter? && WriterEnabled(s) && s.writer.WriteFilterOut? && Decides(a.world.filters, s.writer.p, e))
  {
    hide Run, Decides;
    var acts := before + [a];
    assert acts[..|before|] == before;
    var s := Run(before);
    if a.StepWriter? && WriterEnabled(s) && s.writer.WriteFilterOut? && Decides(a.world.filters, s.writer.p, e) {
      assert NotedBy(acts, |before|, s.writer.p, e);
    }
  }

  // ---------------------------------------------------------------- one first pass for each request

  /** Nothing of a first pass over the request under way is noted before it, nor over requests to come. */
  ghost predicate Unsettled(s: State) {
    && (forall e :: e in s.trace && OfFirstPass(e) ==> e.id < s.nextId)
    && (PhaseOf(s.trace).Asking? ==> forall e :: e in s.trace && OfFirstPass(e) ==> e.id != PhaseOf(s.trace).id)
    && (PhaseOf(s.trace).Asking? ==> PhaseOf(s.trace).id < s.nextId)
  }

  lemma UnsettledReader(s: State, w: World)
    requires Unsettled(s) && ReaderEnabled(s)
    ensures Unsettled(StepOfReader(s, w))
  {
    hide PhaseOf, ReplyTo;
    match s.reader
    case ReadPoll =>
      PhaseAfter(s.trace, Polling);
      if w.outcome.Setup? {
        PhaseAfter(s.trace + [Polling], Asked(s.nextId, w.outcome.request, w.outcome.data));
      }
    case ReadReply(p) => PhaseAfter(s.trace, Replied(p.id, ReplyTo(p)));
    case ReadWait(_) => PhaseAfter(s.trace, Waited(w.done));
    case _ =>
  }

  /** An event that is no request, and of a first pass only if that is over the request under way. */
  lemma UnsettledMore(s: State, s': State, e: Event)
    requires Unsettled(s) && s'.trace == s.trace + [e] && s'.nextId == s.nextId && !e.Asked?
    requires OfFirstPass(e) ==> PhaseOf(s.trace).Asking? && PhaseOf(s.trace).id == e.id
    ensures Unsettled(s')
  {
    hide PhaseOf;
    PhaseAfter(s.trace, e);
  }

  lemma UnsettledWriter(s: State, w: World)
    requires Unsettled(s) && Inv(s) && WriterEnabled(s)
    ensures Unsettled(StepOfWriter(s, w))
  {
    hide PhaseOf, ReplyTo, Present, OutPass, InPass, InStart, AfterCall, QueuesFit, ReaderFits, Unsettled, Advance;
    var s' := StepOfWriter(s, w);
    assert s'.nextId == s.nextId;
    match s.writer
    case WriteFilterOut(_) => UnsettledMore(s, s', s'.trace[|s.trace|]);
    case WriteCall(_, _) => UnsettledMore(s, s', s'.trace[|s.trace|]);
    case WriteFilterIn(_, _) => UnsettledMore(s, s', s'.trace[|s.trace|]);
    case _ => UnsettledStays(s, s');
  }

  lemma {:induction false} UnsettledRun(acts: seq<Action>)
    ensures Unsettled(Run(acts))
  {
    hide Unsettled, Inv, StepOfReader, StepOfWriter;
    if acts == [] {
      StartUnsettled();
    } else {
      UnsettledRun(acts[..|acts| - 1]);
      RunKeeps(acts[..|acts| - 1]);
      var s, a := Run(acts[..|acts| - 1]), acts[|acts| - 1];
      if Enabled(s, a) {
        match a
        case StepReader(w) => UnsettledReader(s, w);
        case StepWriter(w) => UnsettledWriter(s, w);
        case _ => UnsettledStays(s, Next(s, a));
      }
    }
  }

  lemma UnsettledStays(s: State, s': State)
    requires Unsettled(s) && s'.trace == s.trace && s'.nextId == s.nextId
    ensures Unsettled(s')
  {
    hide PhaseOf;
  }

  lemma StartUnsettled()
    ensures Unsettled(START)
  {
  }

  lemma TraceGrows(s: State, a: Action, e: Event)
    requires e in s.trace
    ensures e in Step(s, a).trace
  {
    hide OutPass, InPass, InStart, AfterCall, ReplyTo;
  }

  lemma {:induction false} TraceStays(acts: seq<Action>, k: nat, e: Event)
    requires k <= |acts| && e in Run(acts[..k]).trace
    ensures e in Run(acts).trace
  {
    hide Step;
    if k == |acts| {
      assert acts[..k] == acts;
    } else {
      var before := acts[..|acts| - 1];
      assert before[..k] == acts[..k];
      TraceStays(before, k, e);
      TraceGrows(Run(before), acts[|acts| - 1], e);
    }
  }

  /** No two first passes of a run are over the same request. */
  lemma OneFirstPass(acts: seq<Action>, k: nat, m: nat, p: Setup, q: Setup)
    requires FirstPass(acts, k, p) && FirstPass(acts, m, q) && p.id == q.id
    ensures k == m && p == q
  {
    hide PhaseOf, Run;
    if k < m {
      NotTwice(acts, k, m, p, q);
    } else if m < k {
      NotTwice(acts, m, k, q, p);
    }
  }

  lemma NotTwice(acts: seq<Action>, k: nat, m: nat, p: Setup, q: Setup)
    requires k < m && FirstPass(acts, k, p) && FirstPass(acts, m, q)
    ensures p.id != q.id
  {
    hide PhaseOf, Run, Through, Wanted;
    var fs := acts[k].world.filters;
    var j := Reach(fs, p, true, 0);
    var e := Outcome(p, Through(fs, p, true, 0, j));
    assert Decides(fs, p, e);
    assert acts[..m][..k] == acts[..k];
    assert NotedBy(acts[..m], k, p, e);
    DecidedByFilters(acts[..m], e);
    UnsettledRun(acts[..m]);
    FirstPassIsAsked(acts, m, q);
  }

  // ---------------------------------------------------------------- the main results

  /** Nothing follows a suppressed request but a broken handshake. */
  lemma LostIsLast(ph: Phase, e: Event, id: nat)
    requires Advance(ph, e) != Broken
    ensures Advance(ph, e) == Lost(id) <==> e == Dropped(id)
    ensures !ph.Lost?
  {
  }

  /** In an unbroken handshake a request was suppressed exactly if it is the one under way, and lost. */
  lemma {:induction false} LostIsDropped(t: seq<Event>, id: nat)
    requires PhaseOf(t) != Broken
    ensures PhaseOf(t) == Lost(id) <==> Dropped(id) in t
  {
    if t != [] {
      var before, e := t[..|t| - 1], t[|t| - 1];
      assert t == before + [e];
      PhaseAfter(before, e);
      hide PhaseOf, Advance;
      StillUnbroken(PhaseOf(before), e);
      LostIsDropped(before, id);
      LostIsLast(PhaseOf(before), e, id);
      assert Dropped(id) in t <==> Dropped(id) in before || e == Dropped(id);
    }
  }

  lemma StillUnbroken(ph: Phase, e: Event)
    requires Advance(ph, e) != Broken
    ensures ph != Broken
  {
  }

  /** Over every run: the request under way is lost exactly if the first pass over it, applied to what the host asked,
      took back the wish to transmit. There is one first pass over it at most, so a lost request was never forwarded. */
  lemma LostIffSuppressed(acts: seq<Action>, id: nat)
    ensures PhaseOf(Run(acts).trace) == Lost(id) <==>
              exists k: nat, p :: FirstPass(acts, k, p) && p.id == id && Suppresses(acts[k].world.filters, p)
  {
    hide PhaseOf, Run, Suppresses, Decides;
    RunKeeps(acts);
    LostIsDropped(Run(acts).trace, id);
    var e := Dropped(id);
    DecidedByFilters(acts, e);
    if k: nat, p :| NotedBy(acts, k, p, e) {
      DecidesOne(acts[k].world.filters, p, e);
    }
    if k: nat, p :| FirstPass(acts, k, p) && p.id == id && Suppresses(acts[k].world.filters, p) {
      SuppressedIsDropped(acts[k].world.filters, p);
      assert NotedBy(acts, k, p, e);
    }
  }

  lemma SuppressedIsDropped(fs: FilterChain, p: Setup)
    ensures Suppresses(fs, p) <==> Decides(fs, p, Dropped(p.id))
  {
    hide Through, Ends;
  }

  /** The first pass `k` is over `p`, ends before filter `j`, leaves the request to be transmitted, and is noted in `e`.
      */
  ghost predicate LetsThrough(acts: seq<Action>, k: nat, p: Setup, j: nat, e: Event) {
    && e.Forwarded? && FirstPass(acts, k, p) && Ends(acts[k].world.filters, p, true, 0, j)
    && var q := Through(acts[k].world.filters, p, true, 0, j);
       && q.transmitOut && q.transmit && e.id == p.id && e.request == q.request && e.data == q.data
       && (e.kept <==> q.request == p.request && q.data == p.data)
  }

  /** The other side of it: a request is forwarded exactly if the first pass over it leaves it to be transmitted, and
      then as that pass leaves it. */
  lemma ForwardedIffPassed(acts: seq<Action>, e: Event)
    requires e.Forwarded?
    ensures e in Run(acts).trace <==> exists k: nat, p, j: nat :: LetsThrough(acts, k, p, j, e)
  {
    hide Run, Through, Wanted;
    DecidedByFilters(acts, e);
    if k: nat, p :| NotedBy(acts, k, p, e) {
      var fs := acts[k].world.filters;
      var j: nat :| Ends(fs, p, true, 0, j) && e == Outcome(p, Through(fs, p, true, 0, j));
      assert LetsThrough(acts, k, p, j, e);
    }
    if k: nat, p, j: nat :| LetsThrough(acts, k, p, j, e) {
      assert e == Outcome(p, Through(acts[k].world.filters, p, true, 0, j));
      assert NotedBy(acts, k, p, e);
    }
  }

  /** Without filters no request is ever lost. */
  lemma NeverLost(acts: seq<Action>)
    requires Filterless(acts)
    ensures !PhaseOf(Run(acts).trace).Lost?
  {
    hide PhaseOf, Run;
    if PhaseOf(Run(acts).trace).Lost? {
      var id := PhaseOf(Run(acts).trace).id;
      LostIffSuppressed(acts, id);
      var k: nat, p :| FirstPass(acts, k, p) && p.id == id && Suppresses(acts[k].world.filters, p);
      FirstPassIsAsked(acts, k, p);
      NothingSuppressed(p);
    }
  }

  lemma NothingSuppressed(p: Setup)
    requires Fresh(p)
    ensures !Suppresses([], p)
  {
  }

  lemma {:induction false} AfterBoth(s: State, acts: seq<Action>, more: seq<Action>)
    ensures After(Step, s, acts + more) == After(Step, After(Step, s, acts), more)
  {
    hide Step;
    if more == [] {
      assert acts + more == acts;
    } else {
      var n := |more| - 1;
      assert (acts + more)[..|acts| + n] == acts + more[..n];
      AfterBoth(s, acts, more[..n]);
    }
  }

  /** So without filters, and without a stop, the threads come back to polling the host, or the program ends: a run that
      they cannot prolong without a poll ends at the poll. */
  lemma PolledWithoutFilters(acts: seq<Action>, more: seq<Action>)
    requires forall k :: 0 <= k < |acts| ==> OfThread(acts[k])
    requires Filterless(acts + more) && !Run(acts).halted && Maximal(Run(acts), more)
    ensures |more| <= Left(Run(acts)) + 3 * Tally(Step, TimesOut, Run(acts), more)
    ensures var s := Run(acts + more); s.halted || s.reader.ReadPoll?
  {
    UndisturbedRun(acts);
    PolledOrLost(Run(acts), more);
    AfterBoth(START, acts, more);
    NeverLost(acts + more);
    hide PhaseOf, Step, Undisturbed, Maximal, Left, Filterless;
  }

  // ---------------------------------------------------------------- what the world answered

  datatype Answer = OfHost(request: Request, data: seq<byte>) | OfDevice(result: Result) | OfWait(done: bool)

  /** What the world answers to the call a step makes, read off the action. */
  function Given(s: State, a: Action): seq<Answer> {
    match a
    case StepReader(w) =>
      if !ReaderEnabled(s) then []
      else if s.reader.ReadPoll? && w.outcome.Setup? then [OfHost(w.outcome.request, w.outcome.data)]
      else if s.reader.ReadWait? then [OfWait(w.done)]
      else []
    case StepWriter(w) => if WriterEnabled(s) && s.writer.WriteCall? then [OfDevice(w.result)] else []
    case _ => []
  }

  function GivenRun(acts: seq<Action>): seq<Answer> {
    if acts == [] then []
    else GivenRun(acts[..|acts| - 1]) + Given(Run(acts[..|acts| - 1]), acts[|acts| - 1])
  }

  function Heard(t: seq<Event>): seq<Answer> {
    if t == [] then [] else Heard(t[..|t| - 1]) + HeardOf(t[|t| - 1])
  }

  function HeardOf(e: Event): seq<Answer> {
    match e
    case Asked(_, request, data) => [OfHost(request, data)]
    case Called(_, _, _, result) => [OfDevice(result)]
    case Waited(done) => [OfWait(done)]
    case _ => []
  }

  lemma HeardMore(t: seq<Event>, e: Event)
    ensures Heard(t + [e]) == Heard(t) + HeardOf(e)
  {
    assert (t + [e])[..|t|] == t;
  }

  lemma HeardReader(s: State, w: World)
    requires ReaderEnabled(s)
    ensures Heard(StepOfReader(s, w).trace) == Heard(s.trace) + Given(s, StepReader(w))
  {
    hide Heard, ReplyTo;
    match s.reader
    case ReadPoll =>
      HeardMore(s.trace, Polling);
      if w.outcome.Setup? {
        HeardMore(s.trace + [Polling], Asked(s.nextId, w.outcome.request, w.outcome.data));
      }
    case ReadReply(p) => HeardMore(s.trace, Replied(p.id, ReplyTo(p)));
    case ReadWait(_) => HeardMore(s.trace, Waited(w.done));
    case _ =>
  }

  lemma HeardWriter(s: State, w: World)
    requires WriterEnabled(s)
    ensures Heard(StepOfWriter(s, w).trace) == Heard(s.trace) + Given(s, StepWriter(w))
  {
    hide Heard, OutPass, InPass, InStart, AfterCall, ReplyTo;
    var s' := StepOfWriter(s, w);
    match s.writer
    case WriteFilterOut(_) => HeardMore(s.trace, s'.trace[|s.trace|]);
    case WriteCall(_, _) => HeardMore(s.trace, s'.trace[|s.trace|]);
    case WriteFilterIn(_, _) => HeardMore(s.trace, s'.trace[|s.trace|]);
    case _ =>
  }

  lemma HeardStep(s: State, a: Action)
    ensures Heard(Step(s, a).trace) == Heard(s.trace) + Given(s, a)
  {
    hide Heard, StepOfReader, StepOfWriter;
    if Enabled(s, a) {
      match a
      case StepReader(w) => HeardReader(s, w);
      case StepWriter(w) => HeardWriter(s, w);
      case _ =>
    }
  }

  /** The trace holds what the world answered, all of it and in order: every request the host made, every result of the
      device and every verdict of a wait. */
  lemma {:induction false} AllHeard(acts: seq<Action>)
    ensures Heard(Run(acts).trace) == GivenRun(acts)
  {
    hide Step, Given, Heard;
    if acts == [] {
      NothingHeard();
    } else {
      AllHeard(acts[..|acts| - 1]);
      HeardStep(Run(acts[..|acts| - 1]), acts[|acts| - 1]);
    }
  }

  lemma NothingHeard()
    ensures Heard([]) == []
  {
  }
}
