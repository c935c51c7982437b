/** When the program ends on endpoint 0: exactly when the host disconnects, or has a configuration chosen after another.
    */
module ControlEnd {
  import opened Wire
  import opened Runs
  import opened SetupFilters
  import opened ControlRelay
  import opened ControlHandshake
  import opened ControlProgress
  import opened ControlLoss

  // ---------------------------------------------------------------- configurations

  /** SET_CONFIGURATION, number 9 of the standard requests to the device. */
  function ChosenBy(e: Event): seq<byte> {
    if e.Called? && e.request.bRequestType == 0 && e.request.bRequest == 9 then [U8(e.request.wValue)] else []
  }

  /** The configurations the device was asked to choose, one after the other. */
  function Chosen(t: seq<Event>): seq<byte> {
    if t == [] then [] else Chosen(t[..|t| - 1]) + ChosenBy(t[|t| - 1])
  }

  /** One of them, which is not zero, is followed by another. */
  ghost predicate Changed(cs: seq<byte>) {
    exists k :: 0 < k < |cs| && cs[k - 1] != 0 && cs[k] != cs[k - 1]
  }

  function Current(cs: seq<byte>): byte {
    if cs == [] then 0 else cs[|cs| - 1]
  }

  lemma ChosenMore(t: seq<Event>, e: Event)
    ensures Chosen(t + [e]) == Chosen(t) + ChosenBy(e)
    ensures ChosenBy(e) == [] ==> Chosen(t + [e]) == Chosen(t)
  {
    assert (t + [e])[..|t|] == t;
  }

  lemma ChangedMore(cs: seq<byte>, c: byte)
    ensures Changed(cs + [c]) <==> Changed(cs) || (Current(cs) != 0 && c != Current(cs))
  {
    var more := cs + [c];
    if Changed(cs) {
      var k :| 0 < k < |cs| && cs[k - 1] != 0 && cs[k] != cs[k - 1];
      assert more[k - 1] == cs[k - 1] && more[k] == cs[k];
    }
    if Current(cs) != 0 && c != Current(cs) {
      assert more[|cs| - 1] == Current(cs) && more[|cs|] == c;
    }
  }

  // ---------------------------------------------------------------- the host's notices

  /** The host's last answer to a poll. */
  function LastPolled(acts: seq<Action>): Option<HostOutcome> {
    if acts == [] then None
    else
      var before, a := acts[..|acts| - 1], acts[|acts| - 1];
      if a.StepReader? && ReaderEnabled(Run(before)) && Run(before).reader.ReadPoll? then Some(a.world.outcome)
      else LastPolled(before)
  }

  function OutcomeOf(polled: Polled): HostOutcome {
    match polled
    case Got(p) => HostOutcome.Setup(p.request, p.data)
    case Notice(outcome) => outcome
  }

  lemma PolledStep(s: State, a: Action)
    requires Step(s, a).reader.ReadPolled?
    ensures if a.StepReader? && ReaderEnabled(s) && s.reader.ReadPoll? then
              OutcomeOf(Step(s, a).reader.polled) == a.world.outcome
            else Step(s, a).reader == s.reader
  {
    hide OutPass, InPass, InStart, AfterCall, ReplyTo;
  }

  /** What the reader looks at after a poll is what the host answered. */
  lemma {:induction false} PolledIsGiven(acts: seq<Action>)
    requires Run(acts).reader.ReadPolled?
    ensures LastPolled(acts) == Some(OutcomeOf(Run(acts).reader.polled))
  {
    hide Step;
    if acts != [] {
      PolledStep(Run(acts[..|acts| - 1]), acts[|acts| - 1]);
      var s, a := Run(acts[..|acts| - 1]), acts[|acts| - 1];
      if !(a.StepReader? && ReaderEnabled(s) && s.reader.ReadPoll?) {
        PolledIsGiven(acts[..|acts| - 1]);
      }
    }
  }

  /** Step `k` of the run is the reader's look at the host's answer to its last poll, which was that it disconnected. */
  ghost predicate Disconnects(acts: seq<Action>, k: nat) {
    && k < |acts| && acts[k].StepReader?
    && LastPolled(acts[..k]) == Some(Disconnect)
    && var s := Run(acts[..k]); ReaderEnabled(s) && s.reader.ReadPolled? && !s.readerStop.raised
  }

  // ---------------------------------------------------------------- the end

  predicate Leaving(s: State, a: Action) {
    && a.StepReader? && ReaderEnabled(s) && s.reader == ReadPolled(Notice(Disconnect)) && !s.readerStop.raised
  }

  /** As long as the program runs it knows the configuration chosen last. */
  ghost predicate Knows(s: State) {
    !s.halted ==> s.configuration == Current(Chosen(s.trace)) && !Changed(Chosen(s.trace))
  }

  lemma KnowsReader(s: State, w: World)
    requires Knows(s) && ReaderEnabled(s)
    ensures var s' := StepOfReader(s, w);
            && Knows(s') && (s'.halted <==> Leaving(s, StepReader(w))) && Chosen(s'.trace) == Chosen(s.trace)
  {
    hide Chosen, Changed, ReplyTo;
    match s.reader
    case ReadPoll =>
      ChosenMore(s.trace, Polling);
      if w.outcome.Setup? {
        ChosenMore(s.trace + [Polling], Asked(s.nextId, w.outcome.request, w.outcome.data));
      }
    case ReadReply(p) => ChosenMore(s.trace, Replied(p.id, ReplyTo(p)));
    case ReadWait(_) => ChosenMore(s.trace, Waited(w.done));
    case _ =>
  }

  lemma ConfigurationStep(s: State, s': State, index: byte)
    requires Knows(s) && !s.halted && Chosen(s'.trace) == Chosen(s.trace) + [index]
    requires s'.configuration == s.configuration && !s'.halted
    ensures Knows(SetConfig(s', index)) && (SetConfig(s', index).halted <==> Changed(Chosen(s'.trace)))
  {
    hide Chosen, Changed;
    ChangedMore(Chosen(s.trace), index);
  }

  lemma KnowsWriter(s: State, w: World)
    requires Knows(s) && WriterEnabled(s)
    ensures var s' := StepOfWriter(s, w);
            Knows(s') && (s'.halted <==> Changed(Chosen(s'.trace)))
  {
    hide Chosen, Changed, ReplyTo, OutPass, InPass, InStart, AfterCall, Current;
    var s' := StepOfWriter(s, w);
    match s.writer
    case WriteFilterOut(_) => ChosenMore(s.trace, s'.trace[|s.trace|]);
    case WriteFilterIn(_, _) => ChosenMore(s.trace, s'.trace[|s.trace|]);
    case WriteCall(p, j) =>
      var e := Called(p.id, p.request, p.data, w.result);
      ChosenMore(s.trace, e);
      if SetsConfiguration(p) {
        var q := AfterCall(p, w.result);
        ConfigurationStep(s, s.(writer := WriteFilterIn(q, if IsIn(p) then 0 else j)).Log(e), U8(p.request.wValue));
      }
    case _ =>
  }

  lemma DisconnectsIsLeaving(acts: seq<Action>, k: nat)
    ensures Disconnects(acts, k) <==> k < |acts| && Leaving(Run(acts[..k]), acts[k])
  {
    hide Run;
    if k < |acts| && Run(acts[..k]).reader.ReadPolled? {
      PolledIsGiven(acts[..k]);
    }
  }

  /** Over every run: the program ends if and only if the reader learns that the host disconnected, or the device was
      asked to choose another configuration after one that is not zero. */
  lemma {:induction false} EndsExactly(acts: seq<Action>)
    ensures Knows(Run(acts))
    ensures var s := Run(acts); s.halted <==> Changed(Chosen(s.trace)) || exists k: nat :: Disconnects(acts, k)
  {
    hide Knows, StepOfReader, StepOfWriter, Chosen, Changed, Disconnects;
    if acts == [] {
      NothingChosen();
      forall k: nat ensures !Disconnects(acts, k) {
        DisconnectsIsLeaving(acts, k);
      }
    } else {
      var before, a := acts[..|acts| - 1], acts[|acts| - 1];
      var s := Run(before);
      EndsExactly(before);
      DisconnectsMore(before, a);
      assert acts == before + [a];
      if Enabled(s, a) {
        match a
        case StepReader(w) => KnowsReader(s, w); Knowing(s);
        case StepWriter(w) => KnowsWriter(s, w); Knowing(s);
        case _ => KnowsSame(s, Next(s, a));
      }
    }
  }

  lemma KnowsSame(s: State, s': State)
    requires Knows(s) && s'.trace == s.trace && s'.configuration == s.configuration && s'.halted == s.halted
    ensures Knows(s')
  {
  }

  lemma Knowing(s: State)
    requires Knows(s) && !s.halted
    ensures !Changed(Chosen(s.trace))
  {
  }

  lemma DisconnectsMore(before: seq<Action>, a: Action)
    ensures (exists k: nat :: Disconnects(before + [a], k)) <==>
              (exists k: nat :: Disconnects(before, k)) || Leaving(Run(before), a)
  {
    hide Run, Disconnects, Leaving;
    var acts := before + [a];
    forall k: nat | k <= |before| ensures acts[..k] == before[..k] {
    }
    assert before[..|before|] == before;
    forall k: nat ensures Disconnects(acts, k) <==>
        Disconnects(before, k) || (k == |before| && Leaving(Run(before), a)) {
      DisconnectsIsLeaving(acts, k);
      DisconnectsIsLeaving(before, k);
    }
    if Leaving(Run(before), a) {
      assert Disconnects(acts, |before|);
    }
    if k: nat :| Disconnects(before, k) {
      assert Disconnects(acts, k);
    }
  }

  lemma NothingChosen()
    ensures Knows(START) && !Changed(Chosen(START.trace))
  {
  }

  // ---------------------------------------------------------------- back to polling

  /** Without filters and without a stop, with no host that disconnects and one configuration chosen at most, the setup
      threads always come back to polling the host: a run that they cannot prolong without a poll ends at the poll. */
  lemma PolledAgain(acts: seq<Action>, more: seq<Action>)
    requires forall k :: 0 <= k < |acts| ==> OfThread(acts[k])
    requires Filterless(acts + more) && Maximal(Run(acts), more)
    requires !Changed(Chosen(Run(acts + more).trace))
    requires forall k :: 0 <= k < |acts + more| && (acts + more)[k].StepReader? ==>
               !(acts + more)[k].world.outcome.Disconnect?
    ensures |more| <= Left(Run(acts)) + 3 * Tally(Step, TimesOut, Run(acts), more)
    ensures Run(acts + more).reader.ReadPoll?
  {
    hide Chosen, Changed, Maximal, Filterless, Left, Step;
    NeverDisconnects(acts + more);
    EndsExactly(acts + more);
    AfterBoth(START, acts, more);
    if Run(acts).halted {
      StaysHalted(Run(acts), more);
    }
    PolledWithoutFilters(acts, more);
  }

  lemma {:induction false} StaysHalted(s: State, acts: seq<Action>)
    requires s.halted
    ensures After(Step, s, acts).halted
  {
    if acts != [] {
      StaysHalted(s, acts[..|acts| - 1]);
    }
  }

  lemma {:induction false} LastIsSupplied(acts: seq<Action>)
    requires forall k :: 0 <= k < |acts| && acts[k].StepReader? ==> !acts[k].world.outcome.Disconnect?
    ensures LastPolled(acts) != Some(Disconnect)
  {
    hide Run;
    if acts != [] {
      LastIsSupplied(acts[..|acts| - 1]);
    }
  }

  lemma NeverDisconnects(acts: seq<Action>)
    requires forall k :: 0 <= k < |acts| && acts[k].StepReader? ==> !acts[k].world.outcome.Disconnect?
    ensures forall k: nat :: !Disconnects(acts, k)
  {
    hide Run;
    forall k: nat | k < |acts| ensures !Disconnects(acts, k) {
      LastIsSupplied(acts[..k]);
    }
  }
}
