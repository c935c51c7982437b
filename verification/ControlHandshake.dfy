/** What the handshake on endpoint 0 gives the host, over every run of the two setup threads. */
module ControlHandshake {
  import opened Wire
  import opened SetupFilters
  import opened ControlRelay

  /** The numbers of the requests that the picked events are about, in order. */
  function Ids(pick: Event -> Option<nat>, t: seq<Event>): seq<nat> {
    if t == [] then []
    else if pick(t[|t| - 1]).Some? then Ids(pick, t[..|t| - 1]) + [pick(t[|t| - 1]).value]
    else Ids(pick, t[..|t| - 1])
  }

  function AskedId(e: Event): Option<nat> { if e.Asked? then Some(e.id) else None }

  function CalledId(e: Event): Option<nat> { if e.Called? then Some(e.id) else None }

  function RepliedId(e: Event): Option<nat> { if e.Replied? then Some(e.id) else None }

  /** The request under way, as far as the device has not been asked about it. */
  function NotCalled(ph: Phase): seq<nat> {
    if ph.Asking? || ph.Calling? || ph.Lost? then [ph.id] else []
  }

  /** The request under way, as far as the host has no reply to it. */
  function NotReplied(ph: Phase): seq<nat> {
    if ph.Asking? || ph.Calling? || ph.Answering? || ph.Replying? || ph.Lost? then [ph.id] else []
  }

  lemma IdsMore(pick: Event -> Option<nat>, t: seq<Event>, e: Event)
    ensures Ids(pick, t + [e]) == if pick(e).Some? then Ids(pick, t) + [pick(e).value] else Ids(pick, t)
  {
    assert (t + [e])[..|t|] == t;
  }

  lemma OneMore(t: seq<Event>, e: Event)
    requires PhaseOf(t + [e]) != Broken
    requires Ids(AskedId, t) == Ids(CalledId, t) + NotCalled(PhaseOf(t))
    requires Ids(AskedId, t) == Ids(RepliedId, t) + NotReplied(PhaseOf(t))
    ensures Ids(AskedId, t + [e]) == Ids(CalledId, t + [e]) + NotCalled(PhaseOf(t + [e]))
    ensures Ids(AskedId, t + [e]) == Ids(RepliedId, t + [e]) + NotReplied(PhaseOf(t + [e]))
  {
    hide PhaseOf, Ids;
    PhaseAfter(t, e);
    IdsMore(AskedId, t, e);
    IdsMore(CalledId, t, e);
    IdsMore(RepliedId, t, e);
  }

  /** In an unbroken handshake the device calls, and the replies, are one for each request, in order; only the request
      under way may lack them. */
  lemma {:induction false} OneForEach(t: seq<Event>)
    requires PhaseOf(t) != Broken
    ensures Ids(AskedId, t) == Ids(CalledId, t) + NotCalled(PhaseOf(t))
    ensures Ids(AskedId, t) == Ids(RepliedId, t) + NotReplied(PhaseOf(t))
  {
    if t != [] {
      var before, e := t[..|t| - 1], t[|t| - 1];
      assert t == before + [e];
      PrefixUnbroken(t, |before|);
      hide PhaseOf, Ids;
      OneForEach(before);
      OneMore(before, e);
    }
  }

  ghost predicate DeviceSaid(t: seq<Event>, id: nat, reply: Reply) {
    exists request, data, result :: Called(id, request, data, result) in t && reply == Verdict(request, result)
  }

  /** The reply follows from the device's own verdict on request `id`, unless a filter of the second pass changed the
      packet. */
  ghost predicate Decided(t: seq<Event>, id: nat, reply: Reply) {
    exists said, kept :: DeviceSaid(t, id, said) && Answered(id, reply, kept) in t && (kept ==> reply == said)
  }

  lemma SaidStays(t: seq<Event>, e: Event, id: nat, reply: Reply)
    requires DeviceSaid(t, id, reply)
    ensures DeviceSaid(t + [e], id, reply)
  {
    var request, data, result :| Called(id, request, data, result) in t && reply == Verdict(request, result);
    assert Called(id, request, data, result) in t + [e];
  }

  lemma DecidedStays(t: seq<Event>, e: Event, id: nat, reply: Reply)
    requires Decided(t, id, reply)
    ensures Decided(t + [e], id, reply)
  {
    hide DeviceSaid;
    var said, kept :| DeviceSaid(t, id, said) && Answered(id, reply, kept) in t && (kept ==> reply == said);
    SaidStays(t, e, id, said);
    assert Answered(id, reply, kept) in t + [e];
  }

  /** What is known of the request under way. */
  ghost predicate Known(t: seq<Event>, ph: Phase) {
    && (ph.Answering? ==> DeviceSaid(t, ph.id, ph.reply))
    && (ph.Replying? ==> Decided(t, ph.id, ph.reply))
  }

  lemma JustCalled(t: seq<Event>, e: Event)
    requires e.Called?
    ensures DeviceSaid(t + [e], e.id, Verdict(e.request, e.result))
  {
    assert e in t + [e];
    assert Called(e.id, e.request, e.data, e.result) in t + [e];
  }

  lemma JustAnswered(t: seq<Event>, e: Event, said: Reply)
    requires e.Answered? && DeviceSaid(t, e.id, said) && (e.kept ==> e.reply == said)
    ensures Decided(t + [e], e.id, e.reply)
  {
    hide DeviceSaid;
    SaidStays(t, e, e.id, said);
    assert e in t + [e];
    assert Answered(e.id, e.reply, e.kept) in t + [e];
  }

  lemma KnownStep(t: seq<Event>, e: Event)
    requires PhaseOf(t + [e]) != Broken && Known(t, PhaseOf(t))
    ensures Known(t + [e], PhaseOf(t + [e]))
    ensures e.Replied? ==> Decided(t + [e], e.id, e.reply)
  {
    hide PhaseOf, DeviceSaid, Decided;
    PhaseAfter(t, e);
    var ph := PhaseOf(t);
    match e
    case Called(_, _, _, _) => JustCalled(t, e);
    case Answered(_, _, _) => if ph.Answering? { JustAnswered(t, e, ph.reply); }
    case Replied(id, reply) => if ph.Replying? { DecidedStays(t, e, id, ph.reply); }
    case _ =>
  }

  ghost predicate AllDecided(t: seq<Event>) {
    forall id, reply :: Replied(id, reply) in t ==> Decided(t, id, reply)
  }

  lemma AllDecidedStep(t: seq<Event>, e: Event)
    requires AllDecided(t) && (e.Replied? ==> Decided(t + [e], e.id, e.reply))
    ensures AllDecided(t + [e])
  {
    hide Decided;
    forall id, reply | Replied(id, reply) in t + [e] ensures Decided(t + [e], id, reply) {
      if Replied(id, reply) in t {
        DecidedStays(t, e, id, reply);
      }
    }
  }

  /** Every reply the host gets was decided by the device's answer to that very request. */
  lemma {:induction false} RepliesAreDecided(t: seq<Event>)
    requires PhaseOf(t) != Broken
    ensures Known(t, PhaseOf(t)) && AllDecided(t)
  {
    hide Known, Decided, AllDecided;
    if t == [] {
      NothingYet();
    } else {
      var before, e := t[..|t| - 1], t[|t| - 1];
      assert t == before + [e];
      RepliesAreDecided(before);
      KnownStep(before, e);
      AllDecidedStep(before, e);
    }
  }

  lemma NothingYet()
    ensures Known([], Idle) && AllDecided([])
  {
  }

  /** What the device is about to be asked was let through by the first pass, and is what the host asked unless a filter
      of that pass changed it. */
  ghost predicate Passed(t: seq<Event>, id: nat, request: Request, data: seq<byte>) {
    exists kept :: Forwarded(id, request, data, kept) in t && (kept ==> Asked(id, request, data) in t)
  }

  /** Every call of the device asks what was let through before it. */
  ghost predicate AllPassed(t: seq<Event>) {
    forall k :: 0 <= k < |t| && t[k].Called? ==> Passed(t[..k], t[k].id, t[k].request, t[k].data)
  }

  ghost predicate Underway(t: seq<Event>, ph: Phase) {
    && (ph.Asking? ==> Asked(ph.id, ph.request, ph.data) in t)
    && (ph.Calling? ==> Passed(t, ph.id, ph.request, ph.data))
  }

  lemma UnderwayStep(t: seq<Event>, e: Event)
    requires PhaseOf(t + [e]) != Broken && Underway(t, PhaseOf(t))
    ensures Underway(t + [e], PhaseOf(t + [e]))
    ensures e.Called? ==> Passed(t, e.id, e.request, e.data)
  {
    hide PhaseOf, Passed;
    PhaseAfter(t, e);
    assert e in t + [e];
    if e.Forwarded? && PhaseOf(t).Asking? {
      JustForwarded(t, e);
    }
  }

  lemma JustForwarded(t: seq<Event>, e: Event)
    requires e.Forwarded? && (e.kept ==> Asked(e.id, e.request, e.data) in t)
    ensures Passed(t + [e], e.id, e.request, e.data)
  {
    assert e in t + [e];
    assert Forwarded(e.id, e.request, e.data, e.kept) in t + [e];
  }

  lemma AllPassedStep(t: seq<Event>, e: Event)
    requires AllPassed(t) && (e.Called? ==> Passed(t, e.id, e.request, e.data))
    ensures AllPassed(t + [e])
  {
    hide Passed;
    assert forall k :: 0 <= k <= |t| ==> (t + [e])[..k] == t[..k];
    assert t[..|t|] == t;
  }

  /** The device is asked what the host asked, unless a filter of the first pass changed the request. */
  lemma {:induction false} CallsArePassed(t: seq<Event>)
    requires PhaseOf(t) != Broken
    ensures Underway(t, PhaseOf(t)) && AllPassed(t)
  {
    hide Underway, Passed, AllPassed;
    if t == [] {
      NothingPassed();
    } else {
      var before, e := t[..|t| - 1], t[|t| - 1];
      assert t == before + [e];
      CallsArePassed(before);
      UnderwayStep(before, e);
      AllPassedStep(before, e);
    }
  }

  lemma NothingPassed()
    ensures Underway([], Idle) && AllPassed([])
  {
  }

  /** A broken handshake stays broken, so every prefix of an unbroken one is unbroken. */
  lemma {:induction false} PrefixUnbroken(t: seq<Event>, k: nat)
    requires k <= |t| && PhaseOf(t) != Broken
    ensures PhaseOf(t[..k]) != Broken
  {
    if k == |t| {
      assert t[..k] == t;
    } else {
      assert t[..|t| - 1][..k] == t[..k];
      PrefixUnbroken(t[..|t| - 1], k);
    }
  }

  // ---------------------------------------------------------------- the main results

  /** In every interleaving at most one setup packet is in flight, and none while the reader polls the host. */
  lemma OneInFlight(acts: seq<Action>)
    ensures var s := Run(acts);
            InFlight(s) <= 1 && (s.reader.ReadPoll? ==> InFlight(s) == 0)
  {
    hide PhaseOf, Run;
    RunKeeps(acts);
  }

  /** When the reader polls the host, every request so far was put to the device once and answered once; a request lost
      to a filter is never behind a poll. */
  lemma PollsWhenComplete(acts: seq<Action>, k: nat)
    requires var t := Run(acts).trace; k < |t| && t[k] == Polling
    ensures var t := Run(acts).trace[..k];
            Ids(AskedId, t) == Ids(CalledId, t) == Ids(RepliedId, t)
  {
    hide Run;
    var t := Run(acts).trace;
    RunKeeps(acts);
    PrefixUnbroken(t, k + 1);
    assert t[..k + 1] == t[..k] + [Polling];
    PhaseAfter(t[..k], Polling);
    OneForEach(t[..k]);
  }

  /** A request is read only when nothing of an earlier one is left to do: its reply is sent and the wait for it
      succeeded. */
  lemma AskedWhenIdle(acts: seq<Action>, k: nat)
    requires var t := Run(acts).trace; k < |t| && t[k].Asked?
    ensures PhaseOf(Run(acts).trace[..k]) == Idle
  {
    hide Run;
    var t := Run(acts).trace;
    RunKeeps(acts);
    PrefixUnbroken(t, k + 1);
    assert t[..k + 1] == t[..k] + [t[k]];
    PhaseAfter(t[..k], t[k]);
  }

  /** Which filters see the reply. The pass over the request ends behind some filter `j`. The pass over the reply to a
      read starts with the first filter; the one over the reply to a write starts with filter `j`, so that no filter
      sees both. The call may end the program, when it sets another configuration; if not, this is how the reply is
      made. */
  lemma FiltersOfReply(s: State, w: World, call: World, back: World) returns (j: nat, end: nat)
    requires WriterEnabled(s) && s.writer.WriteFilterOut? && s.writer.p.filter && |back.filters| == |w.filters|
    requires StepOfWriter(s, w).writer.WriteCall? && WriterEnabled(StepOfWriter(StepOfWriter(s, w), call))
    requires AfterCall(OutPass(w.filters, s.writer.p), call.result).filter
    ensures Ends(w.filters, s.writer.p, true, 0, j)
    ensures var q := Through(w.filters, s.writer.p, true, 0, j);
            var answered, start := AfterCall(q, call.result), if IsIn(q) then 0 else j;
            && Ends(back.filters, answered, false, start, end)
            && StepOfWriter(StepOfWriter(StepOfWriter(s, w), call), back).writer ==
               WriteEnqueue(Through(back.filters, answered, false, start, end))
  {
    var p := s.writer.p;
    j := Reach(w.filters, p, true, 0);
    var q := OutPass(w.filters, p);
    assert q == Through(w.filters, p, true, 0, j);
    var start := if IsIn(q) then 0 else j;
    var answered := AfterCall(q, call.result);
    end := Reach(back.filters, answered, false, start);
    assert InPass(back.filters, answered, start) == Through(back.filters, answered, false, start, end);
    assert InStart(w.filters, p, false) == j;
    hide OutPass, InPass, InStart, AfterCall, Through, Reach, Wanted;
  }

  /** In particular, when every filter saw the request of a write, none sees the reply. */
  lemma ReplyAsGiven(s: State, w: World, call: World, back: World)
    requires WriterEnabled(s) && s.writer.WriteFilterOut? && s.writer.p.filter && |back.filters| == |w.filters|
    requires StepOfWriter(s, w).writer.WriteCall? && WriterEnabled(StepOfWriter(StepOfWriter(s, w), call))
    requires var q := OutPass(w.filters, s.writer.p); !IsIn(q) && AfterCall(q, call.result).filter
    requires forall k :: 0 <= k < |w.filters| ==> Through(w.filters, s.writer.p, true, 0, k).filterOut
    ensures StepOfWriter(StepOfWriter(StepOfWriter(s, w), call), back).writer ==
            WriteEnqueue(AfterCall(OutPass(w.filters, s.writer.p), call.result))
  {
    var p := s.writer.p;
    SeenByAll(w.filters, p);
    var j, end := FiltersOfReply(s, w, call, back);
    EndsOnce(w.filters, p, true, 0, j, Reach(w.filters, p, true, 0));
    assert InStart(w.filters, p, false) == Reach(w.filters, p, true, 0);
    assert j == end == |w.filters|;
  }

  ghost predicate Numbered(s: State) {
    var ids := Ids(AskedId, s.trace);
    |ids| == s.nextId && forall k :: 0 <= k < |ids| ==> ids[k] == k
  }

  lemma IdsAfter(t: seq<Event>, e: Event)
    ensures Ids(AskedId, t + [e]) == if e.Asked? then Ids(AskedId, t) + [e.id] else Ids(AskedId, t)
  {
    assert (t + [e])[..|t|] == t;
  }

  lemma NumberedStep(s: State, a: Action)
    requires Numbered(s)
    ensures Numbered(Step(s, a))
  {
    hide Ids, OutPass, InPass, InStart;
    forall e: Event
      ensures Ids(AskedId, s.trace + [e]) ==
              if e.Asked? then Ids(AskedId, s.trace) + [e.id] else Ids(AskedId, s.trace)
    {
      IdsAfter(s.trace, e);
    }
    if a.StepReader? && a.world.outcome.Setup? {
      IdsAfter(s.trace + [Polling], Asked(s.nextId, a.world.outcome.request, a.world.outcome.data));
    }
  }

  /** The numbers tell requests apart: the k-th one read from the host has number k. */
  lemma {:induction false} RequestsAreNumbered(acts: seq<Action>)
    ensures Numbered(Run(acts))
  {
    hide Numbered, Step;
    if acts == [] {
      StartNumbered();
    } else {
      RequestsAreNumbered(acts[..|acts| - 1]);
      NumberedStep(Run(acts[..|acts| - 1]), acts[|acts| - 1]);
    }
  }

  lemma StartNumbered()
    ensures Numbered(START)
  {
  }

  /** Over every run the host's requests each get at most one device call and at most one reply, in the order they were
      read, with nothing missing but what the request under way still lacks; the device is asked what the host asked,
      unless a filter of the first pass changed it; and each reply is the device's own verdict on that request, unless a
      filter of the second pass changed the packet. */
  lemma Handshake(acts: seq<Action>)
    ensures var t := Run(acts).trace;
            && Ids(AskedId, t) == Ids(CalledId, t) + NotCalled(PhaseOf(t))
            && Ids(AskedId, t) == Ids(RepliedId, t) + NotReplied(PhaseOf(t))
            && (forall k :: 0 <= k < |Ids(AskedId, t)| ==> Ids(AskedId, t)[k] == k)
            && AllPassed(t) && AllDecided(t)
  {
    hide PhaseOf, Run, AllDecided, AllPassed;
    RunKeeps(acts);
    OneForEach(Run(acts).trace);
    RequestsAreNumbered(acts);
    CallsArePassed(Run(acts).trace);
    RepliesAreDecided(Run(acts).trace);
  }

  // ---------------------------------------------------------------- without filters

  ghost predicate Filterless(acts: seq<Action>) {
    forall k :: 0 <= k < |acts| && acts[k].StepWriter? ==> acts[k].world.filters == []
  }

  ghost predicate NothingChanged(t: seq<Event>) {
    forall e :: e in t ==> (e.Forwarded? || e.Answered? ==> e.kept)
  }

  lemma WithoutFilters(p: Setup)
    ensures OutPass([], p) == p && InPass([], p, 0) == p
  {
  }

  lemma NothingChangedStep(s: State, a: Action)
    requires NothingChanged(s.trace) && (a.StepWriter? ==> a.world.filters == [])
    ensures NothingChanged(Step(s, a).trace)
  {
    hide OutPass, InPass, InStart, AfterCall;
    if a.StepWriter? && (s.writer.WriteFilterOut? || s.writer.WriteFilterIn?) {
      WithoutFilters(s.writer.p);
    }
  }

  lemma {:induction false} NothingChangedRun(acts: seq<Action>)
    requires Filterless(acts)
    ensures NothingChanged(Run(acts).trace)
  {
    hide NothingChanged, Step;
    if acts == [] {
      StartUnchanged();
    } else {
      NothingChangedRun(acts[..|acts| - 1]);
      NothingChangedStep(Run(acts[..|acts| - 1]), acts[|acts| - 1]);
    }
  }

  lemma StartUnchanged()
    ensures NothingChanged(START.trace)
  {
  }

  /** What the device was asked for a reply. */
  ghost predicate TrueReply(t: seq<Event>, id: nat, reply: Reply) {
    exists request, data, result ::
      Asked(id, request, data) in t && Called(id, request, data, result) in t && reply == Verdict(request, result)
  }

  /** Without filters the proxy is transparent: each reply the host gets is the device's verdict on exactly the request
      the host made. */
  lemma Transparent(acts: seq<Action>, id: nat, reply: Reply)
    requires Filterless(acts) && Replied(id, reply) in Run(acts).trace
    ensures TrueReply(Run(acts).trace, id, reply)
  {
    hide Run, PhaseOf;
    var t := Run(acts).trace;
    RunKeeps(acts);
    NothingChangedRun(acts);
    CallsArePassed(t);
    RepliesAreDecided(t);
    var said, kept :| DeviceSaid(t, id, said) && Answered(id, reply, kept) in t && (kept ==> reply == said);
    assert Answered(id, reply, kept).kept;
    var request, data, result :| Called(id, request, data, result) in t && said == Verdict(request, result);
    CallIsTrue(t, id, request, data, result);
  }

  lemma CallIsTrue(t: seq<Event>, id: nat, request: Request, data: seq<byte>, result: Result)
    requires AllPassed(t) && NothingChanged(t) && Called(id, request, data, result) in t
    ensures Asked(id, request, data) in t
  {
    var k :| 0 <= k < |t| && t[k] == Called(id, request, data, result);
    var kept :| Forwarded(id, request, data, kept) in t[..k] && (kept ==> Asked(id, request, data) in t[..k]);
    assert Forwarded(id, request, data, kept) in t;
  }
}
