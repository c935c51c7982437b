/** Control requests on endpoint 0: the setup reader and the setup writer as two machines over two queues. A step is one
    queue operation, one proxy call, one filter pass or one look at a stop flag, and steps of the two threads and of
    `please_stop` interleave freely. */
module ControlRelay {
  import opened Wire
  import opened Runs
  import opened SafeQueues
  import opened SetupFilters

  const REQ_SET_CONFIGURATION: byte := 9

  // ---------------------------------------------------------------- the trace

  datatype Reply = Data(data: seq<byte>, length: word) | Ack | Stall

  /** What the setup reader tells the host about a packet that came back. */
  function ReplyTo(p: Setup): Reply {
    if !p.transmitIn then Stall
    else if p.request.wLength != 0 then Data(p.data, p.request.wLength)
    else Ack
  }

  /** What the device proxy's `control_request` gives back: its return code, a length and what is in the buffer. */
  datatype Result = Result(rc: int, length: int, buffer: seq<byte>)

  /** What the device's answer to a request means for the host: a failure stalls the endpoint, data that was asked for
      is sent, and anything else is acknowledged. */
  function Verdict(request: Request, result: Result): Reply {
    if result.rc < 0 then Stall
    else if request.bRequestType >= 0x80 && result.length % 0x1_0000 != 0 then Data(result.buffer, U16(result.length))
    else Ack
  }

  datatype Event =
    | Polling                                                     // the reader asks the host for a request
    | Asked(id: nat, request: Request, data: seq<byte>)           // and gets one
    // the first pass lets it through, kept as it was or not
    | Forwarded(id: nat, request: Request, data: seq<byte>, kept: bool)
    | Dropped(id: nat)                                            // the first pass suppresses it
    | Called(id: nat, request: Request, data: seq<byte>, result: Result) // the device proxy is asked and answers
    // the second pass is over, with that verdict kept or not
    | Answered(id: nat, reply: Reply, kept: bool)
    | Replied(id: nat, reply: Reply)                              // the reader sends data, acks or stalls
    | Waited(done: bool)                                          // `send_wait_complete` returns

  /** How far the current request has come. */
  datatype Phase =
    | Idle
    | Asking(id: nat, request: Request, data: seq<byte>)
    | Calling(id: nat, request: Request, data: seq<byte>)
    | Answering(id: nat, reply: Reply)
    | Replying(id: nat, reply: Reply)
    | Completing(id: nat)
    | Lost(id: nat)
    | Broken

  /** The handshake: one request at a time, asked of the device once, answered to the host once with the reply of its
      own device call, and completed before the host is polled again. Anything else breaks it for good. */
  function Advance(ph: Phase, e: Event): Phase {
    match (ph, e)
    case (Idle, Polling) => Idle
    case (Idle, Asked(id, request, data)) => Asking(id, request, data)
    case (Asking(id, request, data), Forwarded(id', request', data', kept)) =>
      if id' == id && (kept ==> request' == request && data' == data) then Calling(id, request', data') else Broken
    case (Asking(id, _, _), Dropped(id')) => if id' == id then Lost(id) else Broken
    case (Calling(id, request, data), Called(id', request', data', result)) =>
      if id' == id && request' == request && data' == data then Answering(id, Verdict(request, result)) else Broken
    case (Answering(id, reply), Answered(id', reply', kept)) =>
      if id' == id && (kept ==> reply' == reply) then Replying(id, reply') else Broken
    case (Replying(id, reply), Replied(id', reply')) =>
      if id' == id && reply' == reply then Completing(id) else Broken
    case (Completing(id), Waited(done)) => if done then Idle else ph
    case _ => Broken
  }

  function PhaseOf(t: seq<Event>): Phase {
    if t == [] then Idle else Advance(PhaseOf(t[..|t| - 1]), t[|t| - 1])
  }

  lemma PhaseAfter(t: seq<Event>, e: Event)
    ensures PhaseOf(t + [e]) == Advance(PhaseOf(t), e)
  {
    assert (t + [e])[..|t|] == t;
  }

  // ---------------------------------------------------------------- the threads

  datatype HostOutcome = Setup(request: Request, data: seq<byte>) | Disconnect | Connect | Other

  datatype Polled = Got(p: Setup) | Notice(outcome: HostOutcome)

  /** Where the setup reader is, with the local variables that are live there. */
  datatype Reader =
    | ReadTop(directionOut: bool, held: Option<Setup>)
    | ReadPoll
    | ReadPolled(polled: Polled)
    | ReadEnqueue(p: Setup)
    | ReadDequeue
    | ReadDequeued(got: Option<Setup>)
    | ReadReply(p: Setup)
    | ReadCheck(p: Setup)
    | ReadWait(p: Setup)
    | ReadDone

  /** Where the setup writer is. */
  datatype Writer =
    | WriteTop
    | WriteDequeue
    | WriteDequeued(got: Option<Setup>)
    | WriteFilterOut(p: Setup)
    | WriteCall(p: Setup, j: nat)
    | WriteFilterIn(p: Setup, j: nat)
    | WriteEnqueue(p: Setup)
    | WriteDone

  /** A thread's stop flag, with the calls of `please_stop` that have raised it but not yet posted their null packet,
      and whether one has returned. */
  datatype Stop = Stop(raised: bool, pending: nat, returned: bool)

  type PacketQueue = Queue<Option<Setup>>

  datatype State = State(
    toDevice: PacketQueue, toHost: PacketQueue,
    reader: Reader, writer: Writer,
    readerStop: Stop, writerStop: Stop,
    configuration: byte, nextId: nat, halted: bool,
    trace: seq<Event>)
  {
    function Log(e: Event): State { this.(trace := trace + [e]) }
  }

  const START: State := State(
    Queue([], []), Queue([], []), ReadTop(true, None), WriteTop,
    Stop(false, 0, false), Stop(false, 0, false), 0, 0, false, [])

  /** What the world outside the two threads answers to the call a step makes. */
  datatype World = World(outcome: HostOutcome, done: bool, filters: FilterChain, result: Result)

  datatype Action =
    | StepReader(world: World)
    | StepWriter(world: World)
    | RaiseReader | PostReader
    | RaiseWriter | PostWriter

  /** Leaving a loop lowers the thread's flag. */
  function FinishReader(s: State): State {
    s.(reader := ReadDone, readerStop := s.readerStop.(raised := false))
  }

  function FinishWriter(s: State): State {
    s.(writer := WriteDone, writerStop := s.writerStop.(raised := false))
  }

  predicate ReaderEnabled(s: State) {
    !s.halted && !s.reader.ReadDone? && (s.reader.ReadDequeue? ==> !s.toHost.Empty())
  }

  predicate WriterEnabled(s: State) {
    !s.halted && !s.writer.WriteDone? && (s.writer.WriteDequeue? ==> !s.toDevice.Empty())
  }

  function StepOfReader(s: State, w: World): State
    requires ReaderEnabled(s)
  {
    var stop := s.readerStop.raised;
    match s.reader
    case ReadTop(directionOut, held) =>
      if stop then FinishReader(s)
      else if directionOut then s.(reader := ReadPoll)
      else if held.None? then s.(reader := ReadDequeue)
      else s.(reader := ReadCheck(held.value))
    case ReadPoll =>
      if w.outcome.Setup? then
        var p := NewSetup(s.nextId, w.outcome.request, w.outcome.data);
        s.(reader := ReadPolled(Got(p)), nextId := s.nextId + 1)
          .Log(Polling).Log(Asked(p.id, p.request, p.data))
      else
        s.(reader := ReadPolled(Notice(w.outcome))).Log(Polling)
    case ReadPolled(polled) =>
      if stop then FinishReader(s)
      else if polled.Got? then s.(reader := ReadEnqueue(polled.p))
      else if polled.outcome.Disconnect? then s.(reader := ReadTop(true, None), halted := true) // ends in `exit`
      else s.(reader := ReadTop(true, None))
    case ReadEnqueue(p) =>
      s.(toDevice := s.toDevice.Enqueue(Some(p)), reader := ReadTop(false, None))
    case ReadDequeue =>
      s.(reader := ReadDequeued(s.toHost.Front()), toHost := s.toHost.Dequeue())
    case ReadDequeued(got) =>
      if stop then FinishReader(s)
      else if got.None? then s.(reader := ReadTop(false, None))
      else s.(reader := ReadReply(got.value))
    case ReadReply(p) =>
      s.(reader := ReadCheck(p)).Log(Replied(p.id, ReplyTo(p)))
    case ReadCheck(p) =>
      if stop then FinishReader(s) else s.(reader := ReadWait(p))
    case ReadWait(p) =>
      s.(reader := if w.done then ReadTop(true, None) else ReadTop(false, Some(p))).Log(Waited(w.done))
  }

  /** Whether the request reads from the device. */
  predicate IsIn(p: Setup) {
    p.request.bRequestType >= 0x80
  }

  predicate SetsConfiguration(p: Setup) {
    p.request.bRequestType == 0 && p.request.bRequest == REQ_SET_CONFIGURATION
  }

  /** The packet after the device proxy returned. Only the verdict on the call changes, and for a read the data; what
      filters and threads are to do with the packet stays as it was. */
  function AfterCall(p: Setup, r: Result): (q: Setup)
    ensures ReplyTo(q) == Verdict(p.request, r)
    ensures q == p.(transmitIn := q.transmitIn, data := q.data, request := p.request.(wLength := q.request.wLength))
    ensures !IsIn(p) ==> q.data == p.data
  {
    var answered := p.(transmitIn := r.rc >= 0);
    if IsIn(p) then answered.(data := r.buffer, request := p.request.(wLength := U16(r.length)))
    else answered.(request := p.request.(wLength := 0))
  }

  /** `Manager::setConfig`: leaving a configuration already chosen ends in `exit`. */
  function SetConfig(s: State, index: byte): State {
    if s.configuration != 0 && s.configuration != index then s.(halted := true) else s.(configuration := index)
  }

  function StepOfWriter(s: State, w: World): State
    requires WriterEnabled(s)
  {
    var stop := s.writerStop.raised;
    match s.writer
    case WriteTop =>
      if stop then FinishWriter(s) else s.(writer := WriteDequeue)
    case WriteDequeue =>
      s.(writer := WriteDequeued(s.toDevice.Front()), toDevice := s.toDevice.Dequeue())
    case WriteDequeued(got) =>
      if stop then FinishWriter(s)
      else if got.None? then s.(writer := WriteTop)
      else s.(writer := WriteFilterOut(got.value))
    case WriteFilterOut(p) =>
      var q := OutPass(w.filters, p);
      if q.transmitOut && q.transmit then
        s.(writer := WriteCall(q, InStart(w.filters, p, false)))
          .Log(Forwarded(q.id, q.request, q.data, q.request == p.request && q.data == p.data))
      else s.(writer := WriteTop).Log(Dropped(p.id))
    case WriteCall(p, j) =>
      var q := AfterCall(p, w.result);
      var s' := s.(writer := WriteFilterIn(q, if IsIn(p) then 0 else j)).Log(Called(p.id, p.request, p.data, w.result));
      if SetsConfiguration(p) then SetConfig(s', U8(p.request.wValue)) else s'
    case WriteFilterIn(p, j) =>
      var q := InPass(w.filters, p, if j <= |w.filters| then j else |w.filters|);
      var kept := q.transmitIn == p.transmitIn && q.request.wLength == p.request.wLength && q.data == p.data;
      s.(writer := WriteEnqueue(q)).Log(Answered(q.id, ReplyTo(q), kept))
    case WriteEnqueue(p) =>
      s.(toHost := s.toHost.Enqueue(Some(p)), writer := WriteTop)
  }

  function Raise(stop: Stop): Stop {
    Stop(true, stop.pending + 1, stop.returned)
  }

  function Posted(stop: Stop): Stop
    requires stop.pending > 0
  {
    Stop(stop.raised, stop.pending - 1, true)
  }

  predicate Enabled(s: State, a: Action) {
    match a
    case StepReader(_) => ReaderEnabled(s)
    case StepWriter(_) => WriterEnabled(s)
    case RaiseReader => true
    case PostReader => s.readerStop.pending > 0
    case RaiseWriter => true
    case PostWriter => s.writerStop.pending > 0
  }

  function Next(s: State, a: Action): State
    requires Enabled(s, a)
  {
    match a
    case StepReader(w) => StepOfReader(s, w)
    case StepWriter(w) => StepOfWriter(s, w)
    case RaiseReader => s.(readerStop := Raise(s.readerStop))
    case PostReader => s.(toHost := s.toHost.Enqueue(None), readerStop := Posted(s.readerStop))
    case RaiseWriter => s.(writerStop := Raise(s.writerStop))
    case PostWriter => s.(toDevice := s.toDevice.Enqueue(None), writerStop := Posted(s.writerStop))
  }

  /** One step, or nothing when the action cannot be taken. */
  function Step(s: State, a: Action): State {
    if Enabled(s, a) then Next(s, a) else s
  }

  function Run(acts: seq<Action>): State {
    After(Step, START, acts)
  }

  // ---------------------------------------------------------------- the invariant

  /** The setup packets a thread holds between taking them and passing them on. */
  function InReader(r: Reader): nat {
    match r
    case ReadPolled(Got(_)) => 1
    case ReadEnqueue(_) => 1
    case ReadDequeued(Some(_)) => 1
    case ReadReply(_) => 1
    case _ => 0
  }

  function InWriter(w: Writer): nat {
    match w
    case WriteDequeued(Some(_)) => 1
    case WriteFilterOut(_) => 1
    case WriteCall(_, _) => 1
    case WriteFilterIn(_, _) => 1
    case WriteEnqueue(_) => 1
    case _ => 0
  }

  /** The setup packets in flight. */
  function InFlight(s: State): nat {
    InReader(s.reader) + |Present(s.toDevice.normal)| + InWriter(s.writer) + |Present(s.toHost.normal)|
  }

  predicate IsAsking(ph: Phase, p: Setup) {
    ph == Asking(p.id, p.request, p.data)
  }

  predicate IsReplying(ph: Phase, p: Setup) {
    ph == Replying(p.id, ReplyTo(p))
  }

  predicate ReaderFits(r: Reader, ph: Phase) {
    match r
    case ReadTop(true, held) => ph == Idle && held.None?
    case ReadTop(false, None) => ph != Idle && !ph.Completing?
    case ReadTop(false, Some(p)) => ph == Completing(p.id)
    case ReadPoll => ph == Idle
    case ReadPolled(Got(p)) => IsAsking(ph, p)
    case ReadPolled(_) => ph == Idle
    case ReadEnqueue(p) => IsAsking(ph, p)
    case ReadDequeue => ph != Idle && !ph.Completing?
    case ReadDequeued(None) => ph != Idle && !ph.Completing?
    case ReadDequeued(Some(p)) => IsReplying(ph, p)
    case ReadReply(p) => IsReplying(ph, p)
    case ReadCheck(p) => ph == Completing(p.id)
    case ReadWait(p) => ph == Completing(p.id)
    case ReadDone => true
  }

  predicate WriterFits(w: Writer, ph: Phase) {
    match w
    case WriteDequeued(Some(p)) => IsAsking(ph, p)
    case WriteFilterOut(p) => IsAsking(ph, p)
    case WriteCall(p, _) => ph == Calling(p.id, p.request, p.data)
    case WriteFilterIn(p, _) => ph == Answering(p.id, ReplyTo(p))
    case WriteEnqueue(p) => IsReplying(ph, p)
    case _ => true
  }

  predicate QueuesFit(toDevice: PacketQueue, toHost: PacketQueue, ph: Phase) {
    && toDevice.priority == [] && toHost.priority == []
    && (Present(toDevice.normal) != [] ==> IsAsking(ph, Present(toDevice.normal)[0]))
    && (Present(toHost.normal) != [] ==> IsReplying(ph, Present(toHost.normal)[0]))
  }

  ghost predicate Inv(s: State) {
    var ph := PhaseOf(s.trace);
    && ph != Broken
    && InFlight(s) <= 1
    && ReaderFits(s.reader, ph) && WriterFits(s.writer, ph) && QueuesFit(s.toDevice, s.toHost, ph)
  }

  // ---------------------------------------------------------------- every step keeps it

  /** What putting a packet in does to the setup packets of a queue with no priority items. */
  lemma PresentEnqueued(q: PacketQueue, x: Option<Setup>)
    ensures q.Enqueue(x).priority == q.priority
    ensures Present(q.Enqueue(x).normal) == Present(q.normal)
         || (x.Some? && Present(q.Enqueue(x).normal) == Present(q.normal) + [x.value])
  {
    PresentConcat(q.normal, [x]);
  }

  lemma PresentDequeued(q: PacketQueue)
    requires !q.Empty() && q.priority == []
    ensures q.Dequeue().priority == []
    ensures var was, now, x := Present(q.normal), Present(q.Dequeue().normal), q.Front();
            if x.Some? then was == [x.value] + now else was == now
  {
  }

  lemma PollKeeps(s: State, w: World)
    requires Inv(s) && ReaderEnabled(s) && s.reader.ReadPoll?
    ensures Inv(StepOfReader(s, w))
  {
    hide PhaseOf, Present;
    PhaseAfter(s.trace, Polling);
    if w.outcome.Setup? {
      PhaseAfter(s.trace + [Polling], Asked(s.nextId, w.outcome.request, w.outcome.data));
    }
  }

  lemma ReaderQueueKeeps(s: State, w: World)
    requires Inv(s) && ReaderEnabled(s) && (s.reader.ReadEnqueue? || s.reader.ReadDequeue?)
    ensures Inv(StepOfReader(s, w))
  {
    hide PhaseOf, Present;
    if s.reader.ReadEnqueue? {
      PresentEnqueued(s.toDevice, Some(s.reader.p));
    } else {
      PresentDequeued(s.toHost);
    }
  }

  lemma ReplyKeeps(s: State, w: World)
    requires Inv(s) && ReaderEnabled(s) && (s.reader.ReadReply? || s.reader.ReadWait?)
    ensures Inv(StepOfReader(s, w))
  {
    hide PhaseOf, Present, ReplyTo;
    var p := s.reader.p;
    PhaseAfter(s.trace, Replied(p.id, ReplyTo(p)));
    PhaseAfter(s.trace, Waited(w.done));
  }

  /** Steps that log nothing and leave the queues alone. */
  lemma ReaderLookKeeps(s: State, w: World)
    requires Inv(s) && ReaderEnabled(s)
    requires s.reader.ReadTop? || s.reader.ReadPolled? || s.reader.ReadDequeued? || s.reader.ReadCheck?
    ensures Inv(StepOfReader(s, w))
  {
    hide PhaseOf, Present, ReplyTo, WriterFits, QueuesFit;
  }

  lemma ReaderKeeps(s: State, w: World)
    requires Inv(s) && ReaderEnabled(s)
    ensures Inv(StepOfReader(s, w))
  {
    hide Inv, StepOfReader;
    match s.reader
    case ReadPoll => PollKeeps(s, w);
    case ReadEnqueue(_) => ReaderQueueKeeps(s, w);
    case ReadDequeue => ReaderQueueKeeps(s, w);
    case ReadReply(_) => ReplyKeeps(s, w);
    case ReadWait(_) => ReplyKeeps(s, w);
    case _ => ReaderLookKeeps(s, w);
  }

  lemma SetConfigKeeps(s: State, index: byte)
    requires Inv(s)
    ensures Inv(SetConfig(s, index))
  {
    hide PhaseOf, Present, ReaderFits, WriterFits, QueuesFit, InReader, InWriter;
  }

  lemma CallKeeps(s: State, w: World)
    requires Inv(s) && WriterEnabled(s) && s.writer.WriteCall?
    ensures Inv(StepOfWriter(s, w))
  {
    hide PhaseOf, Present, ReplyTo, SetConfig, AfterCall, Verdict;
    var p := s.writer.p;
    var q := AfterCall(p, w.result);
    var e := Called(p.id, p.request, p.data, w.result);
    PhaseAfter(s.trace, e);
    var s' := s.(writer := WriteFilterIn(q, if IsIn(p) then 0 else s.writer.j)).Log(e);
    SetConfigKeeps(s', U8(p.request.wValue));
  }

  lemma AnswerKeeps(s: State, w: World)
    requires Inv(s) && WriterEnabled(s) && s.writer.WriteFilterIn?
    ensures Inv(StepOfWriter(s, w))
  {
    hide PhaseOf, Present, InPass;
    var p, j := s.writer.p, s.writer.j;
    var q := InPass(w.filters, p, if j <= |w.filters| then j else |w.filters|);
    var kept := q.transmitIn == p.transmitIn && q.request.wLength == p.request.wLength && q.data == p.data;
    PhaseAfter(s.trace, Answered(q.id, ReplyTo(q), kept));
  }

  lemma WriterKeeps(s: State, w: World)
    requires Inv(s) && WriterEnabled(s)
    ensures Inv(StepOfWriter(s, w))
  {
    hide PhaseOf, Present, OutPass, InPass, InStart, AfterCall, ReplyTo;
    match s.writer
    case WriteDequeue => PresentDequeued(s.toDevice);
    case WriteFilterOut(p) =>
      var q := OutPass(w.filters, p);
      PhaseAfter(s.trace, Forwarded(q.id, q.request, q.data, q.request == p.request && q.data == p.data));
      PhaseAfter(s.trace, Dropped(p.id));
    case WriteCall(_, _) => CallKeeps(s, w);
    case WriteFilterIn(_, _) => AnswerKeeps(s, w);
    case WriteEnqueue(p) => PresentEnqueued(s.toHost, Some(p));
    case _ =>
  }

  lemma StepKeeps(s: State, a: Action)
    requires Inv(s) && Enabled(s, a)
    ensures Inv(Next(s, a))
  {
    hide PhaseOf, Present, StepOfReader, StepOfWriter, ReaderFits, WriterFits;
    match a
    case StepReader(w) => ReaderKeeps(s, w);
    case StepWriter(w) => WriterKeeps(s, w);
    case PostReader => PresentEnqueued(s.toHost, None);
    case PostWriter => PresentEnqueued(s.toDevice, None);
    case _ =>
  }

  lemma {:induction false} RunKeeps(acts: seq<Action>)
    ensures Inv(Run(acts))
  {
    hide Inv, Next;
    if acts == [] {
      StartFits();
    } else {
      RunKeeps(acts[..|acts| - 1]);
      var s, a := Run(acts[..|acts| - 1]), acts[|acts| - 1];
      if Enabled(s, a) {
        StepKeeps(s, a);
      }
    }
  }

  lemma StartFits()
    ensures Inv(START)
  {
  }
}
