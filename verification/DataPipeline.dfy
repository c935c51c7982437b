/** The relay of one data endpoint as a pipeline, over every run: nothing is lost, doubled or reordered between the
    reader and the writer's proxy, and stopping it loses no wake-up. */
module DataPipeline {
  import opened Wire
  import opened Runs
  import Q = SafeQueues
  import opened DataRelay
  import opened ZeroLength

  // ---------------------------------------------------------------- the queue

  function Packets(endpoint: byte, xs: Transfers): (r: seq<Packet>)
    ensures |r| == |xs|
  {
    seq(|xs|, i requires 0 <= i < |xs| => NewPacket(endpoint, xs[i]))
  }

  /** The queue's ledger adds up. */
  ghost predicate Balanced(l: Q.Ledger<Item>) {
    && l.accepted == l.delivered + l.queue.normal
    && l.acceptedPriority == l.deliveredPriority + l.queue.priority
  }

  /** What the reader offered is what the queue accepted, null packets apart. */
  ghost predicate OffersAccepted(s: State) {
    Present(s.ledger.accepted) == Packets(s.endpoint, s.reading.offered)
  }

  /** What the writer took is what the queue delivered. */
  ghost predicate TakesDelivered(s: State) {
    s.ledger.acceptedPriority == [] ==> s.writing.taken == s.ledger.delivered
  }

  lemma BalancedStep(l: Q.Ledger<Item>, op: Q.Op<Item>)
    requires Balanced(l)
    ensures Balanced(Q.Step(l, op))
  {
  }

  lemma PresentMore(xs: seq<Option<Packet>>, x: Option<Packet>)
    ensures Present(xs + [x]) == if x.Some? then Present(xs) + [x.value] else Present(xs)
  {
    PresentConcat(xs, [x]);
    assert Present([x]) == if x.Some? then [x.value] else [];
    assert Present(xs) + [] == Present(xs);
  }

  lemma OffersReader(s: State, w: World)
    requires OffersAccepted(s) && ReaderEnabled(s) && !Refused(s, StepReader(w))
    ensures OffersAccepted(StepOfReader(s, w))
  {
    hide Present;
    match s.reading.pc
    case ReadEnqueue(data) =>
      PresentMore(s.ledger.accepted, Some(NewPacket(s.endpoint, data)));
      assert Packets(s.endpoint, s.reading.offered + [data]) ==
          Packets(s.endpoint, s.reading.offered) + [NewPacket(s.endpoint, data)];
    case _ =>
  }

  lemma OffersStep(s: State, a: Action)
    requires OffersAccepted(s) && !Refused(s, a)
    ensures OffersAccepted(Step(s, a))
  {
    hide Present, Packets, ReaderNext, WriterNext, NewPacket;
    if Enabled(s, a) {
      match a
      case StepReader(w) => OffersReader(s, w);
      case PostWriter => PresentMore(s.ledger.accepted, None);
      case _ =>
    }
  }

  lemma TakesStep(s: State, a: Action)
    requires Balanced(s.ledger) && TakesDelivered(s)
    ensures Balanced(Step(s, a).ledger) && TakesDelivered(Step(s, a))
  {
    hide ReaderNext, NewPacket, Image;
    forall op ensures Balanced(Q.Step(s.ledger, op)) {
      BalancedStep(s.ledger, op);
    }
  }

  lemma {:induction false} OffersRun(endpoint: byte, acts: seq<Action>)
    requires Tally(Step, Refused, Start(endpoint), acts) == 0
    ensures OffersAccepted(Run(endpoint, acts)) && Run(endpoint, acts).endpoint == endpoint
  {
    hide OffersAccepted, Step, Refused;
    if acts == [] {
      StartAccounted(endpoint);
    } else {
      OffersRun(endpoint, acts[..|acts| - 1]);
      var s, a := Run(endpoint, acts[..|acts| - 1]), acts[|acts| - 1];
      OffersStep(s, a);
      SameEndpoint(s, a);
    }
  }

  lemma {:induction false} TakesRun(endpoint: byte, acts: seq<Action>)
    ensures Balanced(Run(endpoint, acts).ledger) && TakesDelivered(Run(endpoint, acts))
  {
    hide Balanced, TakesDelivered, Step;
    if acts == [] {
      StartAccounted(endpoint);
    } else {
      TakesRun(endpoint, acts[..|acts| - 1]);
      TakesStep(Run(endpoint, acts[..|acts| - 1]), acts[|acts| - 1]);
    }
  }

  lemma InjectedStep(s: State, a: Action)
    ensures Step(s, a).ledger.acceptedPriority ==
            if a.Inject? && |s.ledger.queue.priority| < Q.QUEUE_MAX then s.ledger.acceptedPriority + [Some(a.p)]
            else s.ledger.acceptedPriority
  {
    hide ReaderNext, WriterNext, NewPacket;
  }

  /** The queue's priority class accepts the packets injected while it is not full, and nothing else. */
  lemma {:induction false} InjectedAccepted(endpoint: byte, acts: seq<Action>)
    ensures Run(endpoint, acts).ledger.acceptedPriority == Injected(endpoint, acts)
    ensures (forall k :: 0 <= k < |acts| ==> !acts[k].Inject?) ==> Injected(endpoint, acts) == []
  {
    hide Step;
    if acts != [] {
      InjectedAccepted(endpoint, acts[..|acts| - 1]);
      InjectedStep(Run(endpoint, acts[..|acts| - 1]), acts[|acts| - 1]);
    }
  }

  lemma SameEndpoint(s: State, a: Action)
    ensures Step(s, a).endpoint == s.endpoint
  {
    hide Q.Step, ReaderNext, WriterNext;
  }

  lemma StartAccounted(endpoint: byte)
    ensures Balanced(Start(endpoint).ledger) && TakesDelivered(Start(endpoint)) && OffersAccepted(Start(endpoint))
  {
  }

  // ---------------------------------------------------------------- the writer

  function Befores(ps: seq<Pass>): (r: seq<Packet>)
    ensures |r| == |ps|
  {
    seq(|ps|, i requires 0 <= i < |ps| => ps[i].before)
  }

  /** The outcomes of the passes whose packet is still to be transmitted. */
  function Transmitted(ps: seq<Pass>): seq<Packet> {
    if ps == [] then []
    else
      var q := ps[|ps| - 1].Result();
      if q.transmit then Transmitted(ps[..|ps| - 1]) + [q] else Transmitted(ps[..|ps| - 1])
  }

  function Sent(cs: seq<Call>): seq<Packet> {
    if cs == [] then []
    else if cs[|cs| - 1].Send? then Sent(cs[..|cs| - 1]) + [cs[|cs| - 1].p]
    else Sent(cs[..|cs| - 1])
  }

  /** The writer's proxy: free, busy with one transfer, or jammed by a second one or by waiting for none. */
  datatype Line = Free | Busy | Jammed

  function LineAfter(cs: seq<Call>): Line {
    if cs == [] then Free
    else
      match (LineAfter(cs[..|cs| - 1]), cs[|cs| - 1])
      case (Free, Send(_)) => Busy
      case (Busy, Wait(done)) => if done then Free else Busy
      case _ => Jammed
  }

  function ToFilter(w: Writer): seq<Packet> {
    match w
    case WriteDequeued(Some(p)) => [p]
    case WriteFilter(p) => [p]
    case _ => []
  }

  function ToSend(w: Writer): seq<Packet> {
    match w
    case WriteCheck(p) => if p.transmit then [p] else []
    case WriteSend(p) => [p]
    case _ => []
  }

  /** `xs` is `ys`, but for at most one last item. */
  ghost predicate AllButOne<T>(xs: seq<T>, ys: seq<T>) {
    xs == ys || (ys != [] && xs == ys[..|ys| - 1])
  }

  /** What was sent, and the packet in hand to be sent, are the outcomes of the passes; a stop may drop the one in hand.
      */
  ghost predicate SendsInOrder(t: WriteSide) {
    if t.pc.WriteDone? then AllButOne(Sent(t.calls), Transmitted(t.passes))
    else Sent(t.calls) + ToSend(t.pc) == Transmitted(t.passes)
  }

  /** What the passes started from, and the packet in hand to be filtered, are the packets taken. */
  ghost predicate PassesInOrder(t: WriteSide) {
    if t.pc.WriteDone? then AllButOne(Befores(t.passes), Present(t.taken))
    else Befores(t.passes) + ToFilter(t.pc) == Present(t.taken)
  }

  /** A stop drops no more than one packet, before its pass or behind it. */
  ghost predicate OneDropped(t: WriteSide) {
    t.pc.WriteDone? ==> Sent(t.calls) == Transmitted(t.passes) || Befores(t.passes) == Present(t.taken)
  }

  ghost predicate Relayed(t: WriteSide) {
    SendsInOrder(t) && PassesInOrder(t) && OneDropped(t)
  }

  ghost predicate OneAtATime(t: WriteSide) {
    && LineAfter(t.calls) == (if t.writing then Busy else Free)
    && (t.pc.WriteWait? ==> t.writing)
    && (t.writing ==> t.pc.WriteTop? || t.pc.WriteWait? || t.pc.WriteDone?)
  }

  lemma SentMore(cs: seq<Call>, c: Call)
    ensures Sent(cs + [c]) == if c.Send? then Sent(cs) + [c.p] else Sent(cs)
    ensures LineAfter(cs + [c]) == match (LineAfter(cs), c) {
              case (Free, Send(_)) => Busy
              case (Busy, Wait(done)) => if done then Free else Busy
              case _ => Jammed
            }
  {
    assert (cs + [c])[..|cs|] == cs;
  }

  lemma TransmittedMore(ps: seq<Pass>, p: Pass)
    ensures Transmitted(ps + [p]) == if p.Result().transmit then Transmitted(ps) + [p.Result()] else Transmitted(ps)
    ensures Befores(ps + [p]) == Befores(ps) + [p.before]
  {
    hide Image;
    assert (ps + [p])[..|ps|] == ps;
  }

  lemma Weaker<T>(xs: seq<T>, rest: seq<T>, ys: seq<T>)
    requires xs + rest == ys && |rest| <= 1
    ensures AllButOne(xs, ys)
    ensures rest == [] ==> xs == ys
  {
    if |rest| == 1 {
      assert ys[..|ys| - 1] == xs;
    }
  }

  lemma SendsStayInOrder(t: WriteSide, q: Q.Queue<Item>, w: World)
    requires SendsInOrder(t) && !t.pc.WriteDone? && (t.pc.WriteDequeue? ==> !q.Empty())
    ensures SendsInOrder(WriterNext(t, q, w))
  {
    hide Transmitted, Sent, Image, AllButOne, SendsInOrder;
    match t.pc
    case WriteFilter(_) => FilterKeepsSends(t, q, w);
    case WriteSend(_) => CallKeepsSends(t, q, w);
    case WriteWait => CallKeepsSends(t, q, w);
    case _ => LookKeepsSends(t, q, w);
  }

  lemma FilterKeepsSends(t: WriteSide, q: Q.Queue<Item>, w: World)
    requires SendsInOrder(t) && t.pc.WriteFilter?
    ensures SendsInOrder(WriterNext(t, q, w))
  {
    hide Transmitted, Sent, Image, AllButOne;
    assert Sent(t.calls) + [] == Sent(t.calls);
    TransmittedMore(t.passes, Pass(t.pc.p, w.filters));
  }

  lemma CallKeepsSends(t: WriteSide, q: Q.Queue<Item>, w: World)
    requires SendsInOrder(t) && (t.pc.WriteSend? || t.pc.WriteWait?)
    ensures SendsInOrder(WriterNext(t, q, w))
  {
    hide Transmitted, Sent, Image, AllButOne;
    SentMore(t.calls, if t.pc.WriteSend? then Send(t.pc.p) else Wait(w.done));
    var t' := WriterNext(t, q, w);
    assert Sent(t'.calls) + [] == Sent(t'.calls) && Sent(t.calls) + [] == Sent(t.calls);
  }

  lemma LookKeepsSends(t: WriteSide, q: Q.Queue<Item>, w: World)
    requires SendsInOrder(t) && !t.pc.WriteDone? && !t.pc.WriteFilter? && !t.pc.WriteSend? && !t.pc.WriteWait?
    requires t.pc.WriteDequeue? ==> !q.Empty()
    ensures SendsInOrder(WriterNext(t, q, w))
  {
    hide Transmitted, Sent, Image, AllButOne;
    Weaker(Sent(t.calls), ToSend(t.pc), Transmitted(t.passes));
    assert Sent(t.calls) + [] == Sent(t.calls);
  }

  lemma PassesStayInOrder(t: WriteSide, q: Q.Queue<Item>, w: World)
    requires PassesInOrder(t) && !t.pc.WriteDone? && (t.pc.WriteDequeue? ==> !q.Empty())
    ensures PassesInOrder(WriterNext(t, q, w))
  {
    hide Present, Befores, Image, AllButOne, Transmitted, PassesInOrder;
    match t.pc
    case WriteDequeue => TakeStaysInOrder(t, q, w);
    case WriteFilter(p) => FilterStaysInOrder(t, q, w);
    case _ => LookStaysInOrder(t, q, w);
  }

  lemma TakeStaysInOrder(t: WriteSide, q: Q.Queue<Item>, w: World)
    requires PassesInOrder(t) && t.pc.WriteDequeue? && !q.Empty()
    ensures PassesInOrder(WriterNext(t, q, w))
  {
    hide Present, Befores, AllButOne;
    assert Befores(t.passes) + [] == Befores(t.passes);
    PresentMore(t.taken, q.Front());
  }

  lemma FilterStaysInOrder(t: WriteSide, q: Q.Queue<Item>, w: World)
    requires PassesInOrder(t) && t.pc.WriteFilter?
    ensures PassesInOrder(WriterNext(t, q, w))
  {
    hide Present, Befores, AllButOne, Image, Transmitted;
    var p := t.pc.p;
    TransmittedMore(t.passes, Pass(p, w.filters));
    assert Befores(t.passes) + [p] + [] == Befores(t.passes) + [p];
  }

  lemma LookStaysInOrder(t: WriteSide, q: Q.Queue<Item>, w: World)
    requires PassesInOrder(t) && !t.pc.WriteDone? && !t.pc.WriteDequeue? && !t.pc.WriteFilter?
    ensures PassesInOrder(WriterNext(t, q, w))
  {
    hide Present, Befores, AllButOne, Image;
    Weaker(Befores(t.passes), ToFilter(t.pc), Present(t.taken));
    assert Befores(t.passes) + [] == Befores(t.passes);
  }

  lemma StopDropsOne(t: WriteSide, q: Q.Queue<Item>, w: World)
    requires Relayed(t) && !t.pc.WriteDone? && (t.pc.WriteDequeue? ==> !q.Empty())
    ensures OneDropped(WriterNext(t, q, w))
  {
    hide Present, Transmitted, Sent, Befores, Image, AllButOne;
    Weaker(Sent(t.calls), ToSend(t.pc), Transmitted(t.passes));
    Weaker(Befores(t.passes), ToFilter(t.pc), Present(t.taken));
  }

  lemma OneAtATimeWriter(t: WriteSide, q: Q.Queue<Item>, w: World)
    requires OneAtATime(t) && !t.pc.WriteDone? && (t.pc.WriteDequeue? ==> !q.Empty())
    ensures OneAtATime(WriterNext(t, q, w))
  {
    hide LineAfter, Image;
    match t.pc
    case WriteSend(p) => SentMore(t.calls, Send(p));
    case WriteWait => SentMore(t.calls, Wait(w.done));
    case _ =>
  }

  /** The other threads only touch the flags and the queue, which these invariants do not speak of. */
  lemma AsideFromWriter(s: State, a: Action)
    requires !a.StepWriter?
    ensures Relayed(s.writing) ==> Relayed(Step(s, a).writing)
    ensures OneAtATime(s.writing) ==> OneAtATime(Step(s, a).writing)
  {
    hide ReaderNext, Present, Transmitted, Sent, Befores, LineAfter, AllButOne, Q.Step;
  }

  lemma RelayedStep(s: State, a: Action)
    requires Relayed(s.writing) && OneAtATime(s.writing)
    ensures Relayed(Step(s, a).writing) && OneAtATime(Step(s, a).writing)
  {
    hide ReaderNext, WriterNext, SendsInOrder, PassesInOrder, OneDropped, OneAtATime, Q.Step;
    if !a.StepWriter? {
      AsideFromWriter(s, a);
    } else if Enabled(s, a) {
      SendsStayInOrder(s.writing, s.ledger.queue, a.world);
      PassesStayInOrder(s.writing, s.ledger.queue, a.world);
      StopDropsOne(s.writing, s.ledger.queue, a.world);
      OneAtATimeWriter(s.writing, s.ledger.queue, a.world);
    }
  }

  lemma {:induction false} RelayedRun(endpoint: byte, acts: seq<Action>)
    ensures Relayed(Run(endpoint, acts).writing) && OneAtATime(Run(endpoint, acts).writing)
  {
    hide Relayed, OneAtATime, Step;
    if acts == [] {
      StartRelayed(endpoint);
    } else {
      RelayedRun(endpoint, acts[..|acts| - 1]);
      RelayedStep(Run(endpoint, acts[..|acts| - 1]), acts[|acts| - 1]);
    }
  }

  lemma StartRelayed(endpoint: byte)
    ensures Relayed(Start(endpoint).writing) && OneAtATime(Start(endpoint).writing)
  {
  }

  // ---------------------------------------------------------------- the main results

  /** No new transfer is started while one is under way, and none is waited for that was not started. */
  lemma OneTransferAtATime(endpoint: byte, acts: seq<Action>, k: nat)
    requires k <= |Run(endpoint, acts).writing.calls|
    ensures LineAfter(Run(endpoint, acts).writing.calls[..k]) != Jammed
  {
    hide Run;
    RelayedRun(endpoint, acts);
    NeverJammed(Run(endpoint, acts).writing.calls, k);
  }

  lemma {:induction false} NeverJammed(cs: seq<Call>, k: nat)
    requires k <= |cs| && LineAfter(cs) != Jammed
    ensures LineAfter(cs[..k]) != Jammed
  {
    if k == |cs| {
      assert cs[..k] == cs;
    } else {
      assert cs[..|cs| - 1][..k] == cs[..k];
      NeverJammed(cs[..|cs| - 1], k);
    }
  }

  /** The proxy is sent, in order, the outcomes of the filter passes that left `transmit` set, and the passes start from
      the packets taken off the queue, in order; at most one of either is held back, in the writer's hands or dropped by
      a stop. */
  lemma SendsAreImages(endpoint: byte, acts: seq<Action>)
    ensures var s := Run(endpoint, acts).writing;
            && AllButOne(Sent(s.calls), Transmitted(s.passes))
            && AllButOne(Befores(s.passes), Present(s.taken))
            && (s.pc.WriteTop? || s.pc.WriteWait? ==>
                  Sent(s.calls) == Transmitted(s.passes) && Befores(s.passes) == Present(s.taken))
  {
    hide Run, Present, Transmitted, Sent, Befores, AllButOne;
    RelayedRun(endpoint, acts);
    var t := Run(endpoint, acts).writing;
    if !t.pc.WriteDone? {
      Weaker(Sent(t.calls), ToSend(t.pc), Transmitted(t.passes));
      Weaker(Befores(t.passes), ToFilter(t.pc), Present(t.taken));
    }
  }

  /** With no injected packet and none refused by a full queue, the packets the reader offered are those the writer took
      followed by those still queued. */
  lemma NothingLost(endpoint: byte, acts: seq<Action>)
    requires Unimpeded(endpoint, acts)
    ensures var s := Run(endpoint, acts);
            Packets(endpoint, s.reading.offered) == Present(s.writing.taken) + Present(s.ledger.queue.normal)
  {
    hide Run, Present, Packets, Injected;
    OffersRun(endpoint, acts);
    TakesRun(endpoint, acts);
    InjectedAccepted(endpoint, acts);
    var s := Run(endpoint, acts);
    PresentConcat(s.writing.taken, s.ledger.queue.normal);
  }

  /** Each class of the queue hands out what it accepted, in order, and the priority class accepts what is injected. */
  lemma QueueConserves(endpoint: byte, acts: seq<Action>)
    ensures var l := Run(endpoint, acts).ledger;
            && l.accepted == l.delivered + l.queue.normal
            && l.acceptedPriority == l.deliveredPriority + l.queue.priority == Injected(endpoint, acts)
  {
    hide Run, Injected;
    TakesRun(endpoint, acts);
    InjectedAccepted(endpoint, acts);
  }

  function Data(ps: seq<Packet>): (r: Transfers)
    ensures |r| == |ps|
  {
    seq(|ps|, i requires 0 <= i < |ps| => ps[i].data)
  }

  /** End to end: with no injected packet and none refused, what the reader's proxy handed over and what the writer took
      off the queue, followed by what is still on its way to it and at most one transfer dropped at a stop of the
      reader, are the same up to runs of zero-length ones. */
  lemma EndToEnd(endpoint: byte, acts: seq<Action>) returns (lost: Transfers)
    requires Unimpeded(endpoint, acts)
    ensures |lost| <= 1 && (lost != [] ==> Run(endpoint, acts).reading.pc.ReadDone?)
    ensures var s := Run(endpoint, acts);
            var way := Data(Present(s.writing.taken) + Present(s.ledger.queue.normal)) + Holding(s.reading.pc) + lost;
            Collapse(Supplied(endpoint, acts)) == Collapse(way) && WithData(Supplied(endpoint, acts)) == WithData(way)
  {
    hide Run, Present, Collapse, WithData, Supplied, Unimpeded;
    var s := Run(endpoint, acts);
    NothingLost(endpoint, acts);
    lost := StutterEquivalent(endpoint, acts);
    assert Data(Packets(endpoint, s.reading.offered)) == s.reading.offered;
  }

  /** The filters left every packet as it was. */
  ghost predicate AllKept(ps: seq<Pass>) {
    forall k :: 0 <= k < |ps| ==> ps[k].Result() == ps[k].before
  }

  lemma {:induction false} KeptTransmitted(ps: seq<Pass>)
    requires AllKept(ps) && forall k :: 0 <= k < |ps| ==> ps[k].before.transmit
    ensures Transmitted(ps) == Befores(ps)
  {
    hide Pass.Result;
    if ps != [] {
      KeptTransmitted(ps[..|ps| - 1]);
      assert Befores(ps) == Befores(ps[..|ps| - 1]) + [ps[|ps| - 1].before];
    }
  }

  /** A writer whose filters change nothing has sent the packets it took, but for at most one. */
  lemma SentTaken(t: WriteSide) returns (held: seq<Packet>)
    requires Relayed(t) && Transmitted(t.passes) == Befores(t.passes)
    ensures |held| <= 1 && Sent(t.calls) + held == Present(t.taken)
  {
    hide Present, Transmitted, Sent, Befores;
    var sent, befores, taken := Sent(t.calls), Befores(t.passes), Present(t.taken);
    if !t.pc.WriteDone? {
      held := ToSend(t.pc) + ToFilter(t.pc);
      assert sent + held == sent + ToSend(t.pc) + ToFilter(t.pc);
    } else if sent == taken {
      held := [];
      assert sent + [] == sent;
    } else {
      held := [taken[|taken| - 1]];
      assert sent == taken[..|taken| - 1];
    }
  }

  /** The packets the reader offered go through the filters, and on unless a filter holds them back. */
  lemma TakenTransmit(endpoint: byte, xs: Transfers, taken: seq<Packet>, queued: seq<Packet>)
    requires Packets(endpoint, xs) == taken + queued
    ensures forall k :: 0 <= k < |taken| ==> taken[k].transmit && taken[k].filter
  {
    forall k | 0 <= k < |taken| ensures taken[k].transmit && taken[k].filter {
      assert (taken + queued)[k] == taken[k];
      assert Packets(endpoint, xs)[k] == NewPacket(endpoint, xs[k]);
    }
  }

  lemma PassesTransmit(t: WriteSide)
    requires AllButOne(Befores(t.passes), Present(t.taken))
    requires forall k :: 0 <= k < |Present(t.taken)| ==> Present(t.taken)[k].transmit && Present(t.taken)[k].filter
    ensures forall k :: 0 <= k < |t.passes| ==> t.passes[k].before.transmit && t.passes[k].before.filter
  {
    hide Present;
    assert forall k :: 0 <= k < |t.passes| ==> Befores(t.passes)[k] == t.passes[k].before;
  }

  lemma PassesOfReader(endpoint: byte, acts: seq<Action>)
    requires Unimpeded(endpoint, acts)
    ensures var ps := Run(endpoint, acts).writing.passes;
            forall k :: 0 <= k < |ps| ==> ps[k].before.transmit && ps[k].before.filter
  {
    hide Run, Present, Packets, Unimpeded, Transmitted, Sent, AllButOne;
    var s := Run(endpoint, acts);
    NothingLost(endpoint, acts);
    SendsAreImages(endpoint, acts);
    TakenTransmit(endpoint, s.reading.offered, Present(s.writing.taken), Present(s.ledger.queue.normal));
    PassesTransmit(s.writing);
  }

  // ---------------------------------------------------------------- the world's answers

  function WaitsIn(cs: seq<Call>): seq<bool> {
    if cs == [] then []
    else if cs[|cs| - 1].Wait? then WaitsIn(cs[..|cs| - 1]) + [cs[|cs| - 1].done]
    else WaitsIn(cs[..|cs| - 1])
  }

  function FiltersIn(ps: seq<Pass>): (r: seq<seq<Filter>>)
    ensures |r| == |ps|
  {
    seq(|ps|, i requires 0 <= i < |ps| => ps[i].filters)
  }

  lemma AnswersStep(s: State, a: Action)
    ensures FiltersIn(Step(s, a).writing.passes) ==
            if a.StepWriter? && s.writing.pc.WriteFilter? then FiltersIn(s.writing.passes) + [a.world.filters]
            else FiltersIn(s.writing.passes)
    ensures WaitsIn(Step(s, a).writing.calls) ==
            if a.StepWriter? && s.writing.pc.WriteWait? then WaitsIn(s.writing.calls) + [a.world.done]
            else WaitsIn(s.writing.calls)
  {
    hide Q.Step, ReaderNext, Image, WaitsIn, FiltersIn;
    var t := s.writing;
    if a.StepWriter? {
      var w := a.world;
      match t.pc
      case WriteFilter(p) => FiltersInMore(t.passes, Pass(p, w.filters));
      case WriteSend(p) => WaitsInMore(t.calls, Send(p));
      case WriteWait => WaitsInMore(t.calls, Wait(w.done));
      case _ =>
    }
  }

  lemma WaitsInMore(cs: seq<Call>, c: Call)
    ensures WaitsIn(cs + [c]) == if c.Wait? then WaitsIn(cs) + [c.done] else WaitsIn(cs)
  {
    assert (cs + [c])[..|cs|] == cs;
  }

  lemma FiltersInMore(ps: seq<Pass>, p: Pass)
    ensures FiltersIn(ps + [p]) == FiltersIn(ps) + [p.filters]
  {
  }

  /** The writer's passes are over the filters as they stood then, and its waits end as its proxy says. */
  lemma {:induction false} PassesAndWaits(endpoint: byte, acts: seq<Action>)
    ensures var t := Run(endpoint, acts).writing;
            FiltersIn(t.passes) == FiltersMet(endpoint, acts) && WaitsIn(t.calls) == WaitsAnswered(endpoint, acts)
  {
    hide Step, WaitsIn;
    if acts != [] {
      PassesAndWaits(endpoint, acts[..|acts| - 1]);
      AnswersStep(Run(endpoint, acts[..|acts| - 1]), acts[|acts| - 1]);
    } else {
      assert WaitsIn([]) == [] by { NoWaits(); }
    }
  }

  lemma NoWaits()
    ensures WaitsIn([]) == []
  {
  }

  /** With no injected and no refused packet each pass applies the whole chain of filters that stood there. */
  lemma WholeChain(endpoint: byte, acts: seq<Action>, k: nat)
    requires Unimpeded(endpoint, acts) && k < |Run(endpoint, acts).writing.passes|
    ensures |FiltersMet(endpoint, acts)| == |Run(endpoint, acts).writing.passes|
    ensures var pass := Run(endpoint, acts).writing.passes[k];
            pass.Result() == Chain(FiltersMet(endpoint, acts)[k], pass.before)
  {
    hide Run, Chain, Unimpeded;
    PassesAndWaits(endpoint, acts);
    PassesOfReader(endpoint, acts);
    var passes := Run(endpoint, acts).writing.passes;
    assert FiltersIn(passes)[k] == passes[k].filters;
  }

  /** From one proxy to the other: with no injected packet, none refused and filters that change none, what was handed
      over and what was sent, followed by at most one packet in the writer's hands or dropped by its stop, those still
      queued, the one in the reader's hands and at most one dropped by its stop, are the same transfers up to runs of
      zero-length ones. */
  lemma ReceivedToSent(endpoint: byte, acts: seq<Action>) returns (held: seq<Packet>, lost: Transfers)
    requires Unimpeded(endpoint, acts) && AllKept(Run(endpoint, acts).writing.passes)
    ensures |held| <= 1 && |lost| <= 1 && (lost != [] ==> Run(endpoint, acts).reading.pc.ReadDone?)
    ensures var s := Run(endpoint, acts);
            var out := Data(Sent(s.writing.calls) + held + Present(s.ledger.queue.normal)) + Holding(s.reading.pc)
                + lost;
            Collapse(Supplied(endpoint, acts)) == Collapse(out) && WithData(Supplied(endpoint, acts)) == WithData(out)
  {
    hide Run, Present, Packets, Collapse, WithData, Transmitted, Sent, AllButOne, Data, Unimpeded, Supplied;
    lost := EndToEnd(endpoint, acts);
    RelayedRun(endpoint, acts);
    PassesOfReader(endpoint, acts);
    KeptTransmitted(Run(endpoint, acts).writing.passes);
    held := SentTaken(Run(endpoint, acts).writing);
  }
}
