/** The relay of one data endpoint: a reader, a writer and injectors over one two-class queue. A step is one queue
    operation, one proxy call, one pass over the filters or one look at a stop flag, and the steps of all threads
    interleave freely. */
module DataRelay {
  import opened Wire
  import opened Runs
  import Q = SafeQueues

  // ---------------------------------------------------------------- packets and filters

  datatype Packet = Packet(bEndpoint: byte, wLength: word, data: seq<byte>, filter: bool, transmit: bool)

  function NewPacket(endpoint: byte, data: seq<byte>): Packet {
    Packet(endpoint, U16(|data|), data, true, true)
  }

  /** A filter as it stands when a pass begins. */
  datatype Filter = Filter(test: Packet -> bool, apply: Packet -> Packet)

  /** What the filters make of `p`, one after the other. */
  function Chain(fs: seq<Filter>, p: Packet): Packet {
    if fs == [] then p
    else
      var q, f := Chain(fs[..|fs| - 1], p), fs[|fs| - 1];
      if f.test(q) then f.apply(q) else q
  }

  /** What the writer makes of a packet before it looks at `transmit`. */
  function Image(fs: seq<Filter>, p: Packet): Packet {
    if p.filter then Chain(fs, p) else p
  }

  method FilterPacket(fs: seq<Filter>, p: Packet) returns (q: Packet)
    ensures q == Image(fs, p)
  {
    q := p;
    if p.filter {
      var j := 0;
      while j < |fs|
        invariant 0 <= j <= |fs|
        invariant q == Chain(fs[..j], p)
      {
        assert fs[..j + 1][..j] == fs[..j];
        if fs[j].test(q) {
          q := fs[j].apply(q);
        }
        j := j + 1;
      }
      assert fs[..j] == fs;
    }
  }

  // ---------------------------------------------------------------- the threads

  /** Where the reader is. */
  datatype Reader =
    | ReadTop
    | ReadReceive
    | ReadReceived(got: Option<seq<byte>>) // no buffer, or a buffer with that many bytes
    | ReadAskEmpty                         // a zero-length packet after another one: is the queue empty?
    | ReadEnqueue(data: seq<byte>)
    | ReadDone

  /** Where the writer is. */
  datatype Writer =
    | WriteTop
    | WriteDequeue
    | WriteDequeued(got: Option<Packet>)
    | WriteFilter(p: Packet)
    | WriteCheck(p: Packet)
    | WriteSend(p: Packet)
    | WriteWait
    | WriteDone

  /** The packet a pass started from, the filters as they were, and the outcome. */
  datatype Pass = Pass(before: Packet, filters: seq<Filter>) {
    function Result(): Packet { Image(filters, before) }
  }

  /** The writer's calls of its proxy. */
  datatype Call = Send(p: Packet) | Wait(done: bool)

  datatype ReadSide = ReadSide(
    pc: Reader, stop: bool, zlpCount: dword,
    received: seq<seq<byte>>, // what the reader took from its proxy and acted on
    offered: seq<seq<byte>>)  // what it put to the queue, refused or not

  /** `pending` calls of `please_stop` have raised the flag but not yet posted their null packet; `returned` tells
      whether one is over. */
  datatype WriteSide = WriteSide(
    pc: Writer, writing: bool, stop: bool, pending: nat, returned: bool,
    taken: seq<Option<Packet>>, // what the writer took off the queue
    passes: seq<Pass>,
    calls: seq<Call>)

  type Item = Option<Packet>

  datatype State = State(endpoint: byte, reading: ReadSide, writing: WriteSide, ledger: Q.Ledger<Item>)

  function Start(endpoint: byte): State {
    State(endpoint,
          ReadSide(ReadTop, false, 0, [], []),
          WriteSide(WriteTop, false, false, 0, false, [], [], []),
          Q.Ledger(Q.Queue([], []), [], [], [], []))
  }

  /** What the proxies and filters answer. */
  datatype World = World(received: Option<seq<byte>>, filters: seq<Filter>, done: bool)

  datatype Action =
    | StepReader(world: World)
    | StepWriter(world: World)
    | Inject(p: Packet)
    | RaiseReader
    | RaiseWriter | PostWriter

  predicate ReaderEnabled(s: State) {
    !s.reading.pc.ReadDone?
  }

  predicate WriterEnabled(s: State) {
    !s.writing.pc.WriteDone? && (s.writing.pc.WriteDequeue? ==> !s.ledger.queue.Empty())
  }

  /** The reader's next step, with the queue `q` before it. */
  function ReaderNext(r: ReadSide, q: Q.Queue<Item>, w: World): ReadSide
    requires !r.pc.ReadDone?
  {
    match r.pc
    case ReadTop =>
      if r.stop then r.(pc := ReadDone, stop := false) else r.(pc := ReadReceive)
    case ReadReceive =>
      r.(pc := ReadReceived(w.received))
    case ReadReceived(got) =>
      if r.stop then r.(pc := ReadDone, stop := false)
      else if got.None? then r.(pc := ReadTop)
      else
        r.(received := r.received + [got.value],
           pc := if got.value != [] || r.zlpCount == 0 then ReadEnqueue(got.value) else ReadAskEmpty)
    case ReadAskEmpty =>
      if q.Empty() then r.(pc := ReadEnqueue([]))
      else r.(pc := ReadTop, zlpCount := U32(r.zlpCount + 1))
    case ReadEnqueue(data) =>
      r.(pc := ReadTop,
         zlpCount := if data != [] then 0 else U32(r.zlpCount + 1),
         offered := r.offered + [data])
  }

  function StepOfReader(s: State, w: World): State
    requires ReaderEnabled(s)
  {
    s.(reading := ReaderNext(s.reading, s.ledger.queue, w),
       ledger :=
         if s.reading.pc.ReadEnqueue? then Q.Step(s.ledger, Q.Put(Some(NewPacket(s.endpoint, s.reading.pc.data))))
         else s.ledger)
  }

  /** The writer's next step, with the queue `q` before it. */
  function WriterNext(t: WriteSide, q: Q.Queue<Item>, w: World): WriteSide
    requires !t.pc.WriteDone? && (t.pc.WriteDequeue? ==> !q.Empty())
  {
    match t.pc
    case WriteTop =>
      if t.stop then t.(pc := WriteDone, stop := false)
      else t.(pc := if t.writing then WriteWait else WriteDequeue)
    case WriteDequeue =>
      t.(pc := WriteDequeued(q.Front()), taken := t.taken + [q.Front()])
    case WriteDequeued(got) =>
      if t.stop then t.(pc := WriteDone, stop := false)
      else if got.None? then t.(pc := WriteTop)
      else t.(pc := WriteFilter(got.value))
    case WriteFilter(p) =>
      t.(pc := WriteCheck(Image(w.filters, p)), passes := t.passes + [Pass(p, w.filters)])
    case WriteCheck(p) =>
      if t.stop then t.(pc := WriteDone, stop := false)
      else t.(pc := if p.transmit then WriteSend(p) else WriteTop)
    case WriteSend(p) =>
      t.(pc := WriteTop, writing := true, calls := t.calls + [Send(p)])
    case WriteWait =>
      t.(pc := WriteTop, writing := !w.done, calls := t.calls + [Wait(w.done)])
  }

  function StepOfWriter(s: State, w: World): State
    requires WriterEnabled(s)
  {
    s.(writing := WriterNext(s.writing, s.ledger.queue, w),
       ledger := if s.writing.pc.WriteDequeue? then Q.Step(s.ledger, Q.Get) else s.ledger)
  }

  predicate Enabled(s: State, a: Action) {
    match a
    case StepReader(_) => ReaderEnabled(s)
    case StepWriter(_) => WriterEnabled(s)
    case PostWriter => s.writing.pending > 0
    case _ => true
  }

  function Next(s: State, a: Action): State
    requires Enabled(s, a)
  {
    match a
    case StepReader(w) => StepOfReader(s, w)
    case StepWriter(w) => StepOfWriter(s, w)
    case Inject(p) => s.(ledger := Q.Step(s.ledger, Q.PutPriority(Some(p))))
    case RaiseReader => s.(reading := s.reading.(stop := true))
    case RaiseWriter => s.(writing := s.writing.(stop := true, pending := s.writing.pending + 1))
    case PostWriter =>
      s.(writing := s.writing.(pending := s.writing.pending - 1, returned := true),
         ledger := Q.Step(s.ledger, Q.Put(None)))
  }

  function Step(s: State, a: Action): State {
    if Enabled(s, a) then Next(s, a) else s
  }

  function Run(endpoint: byte, acts: seq<Action>): State {
    After(Step, Start(endpoint), acts)
  }

  // ---------------------------------------------------------------- what the world supplies

  /** The buffers the reader's proxy hands over in a run, one for each call of `receive_data` that returns one. */
  function Supplied(endpoint: byte, acts: seq<Action>): seq<seq<byte>> {
    if acts == [] then []
    else
      var before, a := acts[..|acts| - 1], acts[|acts| - 1];
      if a.StepReader? && Run(endpoint, before).reading.pc.ReadReceive? && a.world.received.Some?
      then Supplied(endpoint, before) + [a.world.received.value]
      else Supplied(endpoint, before)
  }

  /** The filters as they stand at the writer's passes over them, one after the other. */
  function FiltersMet(endpoint: byte, acts: seq<Action>): seq<seq<Filter>> {
    if acts == [] then []
    else
      var before, a := acts[..|acts| - 1], acts[|acts| - 1];
      if a.StepWriter?
          && Run(endpoint, before).writing.pc.WriteFilter? then FiltersMet(endpoint, before) + [a.world.filters]
      else FiltersMet(endpoint, before)
  }

  /** What the writer's proxy answers to its calls of `send_wait_complete`. */
  function WaitsAnswered(endpoint: byte, acts: seq<Action>): seq<bool> {
    if acts == [] then []
    else
      var before, a := acts[..|acts| - 1], acts[|acts| - 1];
      if a.StepWriter?
          && Run(endpoint, before).writing.pc.WriteWait? then WaitsAnswered(endpoint, before) + [a.world.done]
      else WaitsAnswered(endpoint, before)
  }

  /** The packets injected while their class of the queue is not full. */
  function Injected(endpoint: byte, acts: seq<Action>): seq<Item> {
    if acts == [] then []
    else
      var before, a := acts[..|acts| - 1], acts[|acts| - 1];
      if a.Inject?
          && |Run(endpoint, before).ledger.queue.priority| < Q.QUEUE_MAX then Injected(endpoint, before) + [Some(a.p)]
      else Injected(endpoint, before)
  }

  /** The reader puts a packet to a full queue. */
  predicate Refused(s: State, a: Action) {
    a.StepReader? && s.reading.pc.ReadEnqueue? && |s.ledger.queue.normal| >= Q.QUEUE_MAX
  }

  /** Nothing is injected, and no packet of the reader's is refused. */
  ghost predicate Unimpeded(endpoint: byte, acts: seq<Action>) {
    && (forall k :: 0 <= k < |acts| ==> !acts[k].Inject?)
    && Tally(Step, Refused, Start(endpoint), acts) == 0
  }

  // ---------------------------------------------------------------- what filters and packets are

  lemma {:induction false} ChainConcat(fs: seq<Filter>, gs: seq<Filter>, p: Packet)
    ensures Chain(fs + gs, p) == Chain(gs, Chain(fs, p))
    decreases |gs|
  {
    if gs == [] {
      assert fs + gs == fs;
    } else {
      var last := |gs| - 1;
      ChainConcat(fs, gs[..last], p);
      assert (fs + gs)[..|fs + gs| - 1] == fs + gs[..last] && (fs + gs)[|fs + gs| - 1] == gs[last];
    }
  }

  /** A filter that picks the packet is applied to it, and one that does not is not. */
  lemma ChainOne(f: Filter, p: Packet)
    ensures f.test(p) ==> Chain([f], p) == f.apply(p)
    ensures !f.test(p) ==> Chain([f], p) == p
  {
    assert [f][..0] == [];
    assert Chain([], p) == p;
  }

  /** A packet the reader makes goes through the filters and on, as it came in. */
  lemma FreshPacket(endpoint: byte, data: seq<byte>)
    ensures var p := NewPacket(endpoint, data);
            p.bEndpoint == endpoint && p.data == data && p.filter && p.transmit
                && (|data| < 0x1_0000 ==> p.wLength == |data|)
  {
  }
}
