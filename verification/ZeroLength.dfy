/** Thinning out zero-length packets: what the reader of a data endpoint may leave out. */
module ZeroLength {
  import opened Wire
  import Q = SafeQueues
  import opened DataRelay

  type Transfers = seq<seq<byte>>

  /** The transfers with every run of zero-length ones cut down to one. */
  function Collapse(xs: Transfers): Transfers {
    if xs == [] then []
    else
      var r, x := Collapse(xs[..|xs| - 1]), xs[|xs| - 1];
      if x == [] && r != [] && r[|r| - 1] == [] then r else r + [x]
  }

  /** The transfers that carry data. */
  function WithData(xs: Transfers): Transfers {
    if xs == [] then []
    else if xs[|xs| - 1] != [] then WithData(xs[..|xs| - 1]) + [xs[|xs| - 1]]
    else WithData(xs[..|xs| - 1])
  }

  lemma CollapseMore(xs: Transfers, x: seq<byte>)
    ensures var r := Collapse(xs);
            Collapse(xs + [x]) == if x == [] && r != [] && r[|r| - 1] == [] then r else r + [x]
  {
    assert (xs + [x])[..|xs|] == xs;
  }

  /** Collapsing ends in what the transfers end in, so nothing after data ever vanishes. */
  lemma {:induction false} CollapseLast(xs: Transfers)
    ensures |Collapse(xs)| <= |xs|
    ensures xs != [] ==> Collapse(xs) != [] && Collapse(xs)[|Collapse(xs)| - 1] == xs[|xs| - 1]
  {
    if xs != [] {
      CollapseLast(xs[..|xs| - 1]);
    }
  }

  /** Collapsed transfers have no two zero-length ones in a row. */
  lemma {:induction false} CollapseThin(xs: Transfers)
    ensures forall k :: 0 < k < |Collapse(xs)| ==> Collapse(xs)[k - 1] != [] || Collapse(xs)[k] != []
  {
    if xs != [] {
      CollapseThin(xs[..|xs| - 1]);
    }
  }

  lemma {:induction false} ThinFixed(xs: Transfers)
    requires forall k :: 0 < k < |xs| ==> xs[k - 1] != [] || xs[k] != []
    ensures Collapse(xs) == xs
  {
    if xs != [] {
      ThinFixed(xs[..|xs| - 1]);
    }
  }

  /** Collapsing is a normal form: it leaves alone exactly the transfers with no two zero-length ones in a row. */
  lemma CollapseFixed(xs: Transfers)
    ensures Collapse(Collapse(xs)) == Collapse(xs)
    ensures Collapse(xs) == xs <==> forall k :: 0 < k < |xs| ==> xs[k - 1] != [] || xs[k] != []
  {
    hide Collapse;
    CollapseThin(xs);
    ThinFixed(Collapse(xs));
    if forall k :: 0 < k < |xs| ==> xs[k - 1] != [] || xs[k] != [] {
      ThinFixed(xs);
    }
  }

  /** Transfers that collapse alike carry the same data transfers in the same order. */
  lemma {:induction false} CollapseKeepsData(xs: Transfers)
    ensures WithData(Collapse(xs)) == WithData(xs)
  {
    if xs != [] {
      var r, x := Collapse(xs[..|xs| - 1]), xs[|xs| - 1];
      CollapseKeepsData(xs[..|xs| - 1]);
      assert (r + [x])[..|r|] == r;
    }
  }

  /** The transfer the reader has accepted but not yet disposed of. */
  function InHand(r: Reader): Transfers {
    match r
    case ReadAskEmpty => [[]]
    case ReadEnqueue(data) => [data]
    case _ => []
  }

  ghost predicate Thinned(r: ReadSide) {
    && Collapse(r.received) == Collapse(r.offered + InHand(r.pc))
    && (r.zlpCount != 0 ==> r.offered != [] && r.offered[|r.offered| - 1] == [])
    && (r.pc.ReadAskEmpty? ==> r.zlpCount != 0)
  }

  lemma ThinnedReader(r: ReadSide, q: Q.Queue<Item>, w: World)
    requires Thinned(r) && !r.pc.ReadDone?
    ensures Thinned(ReaderNext(r, q, w))
  {
    hide Collapse;
    assert r.offered + [] == r.offered;
    match r.pc
    case ReadReceived(got) =>
      if got.Some? {
        CollapseMore(r.received, got.value);
        CollapseMore(r.offered, got.value);
      }
    case ReadAskEmpty =>
      CollapseMore(r.offered, []);
      CollapseLast(r.offered);
    case ReadEnqueue(data) => assert r.offered + [data] + [] == r.offered + [data];
    case _ =>
  }

  /** A zero-length packet is left out only behind another one and while the queue holds something. */
  lemma LeftOutWhileBusy(s: State, w: World)
    requires Thinned(s.reading) && ReaderEnabled(s)
    requires var s' := StepOfReader(s, w).reading;
             |InHand(s'.pc)| + |s'.offered| < |InHand(s.reading.pc)| + |s.reading.offered|
    ensures s.reading.offered != [] && s.reading.offered[|s.reading.offered| - 1] == []
    ensures InHand(s.reading.pc) == [[]] && !s.ledger.queue.Empty()
  {
    hide Collapse, Q.Step;
  }

  lemma ThinnedStep(s: State, a: Action)
    requires Thinned(s.reading)
    ensures Thinned(Step(s, a).reading)
  {
    hide Collapse, Q.Step, ReaderNext, WriterNext;
    if a.StepReader? && Enabled(s, a) {
      ThinnedReader(s.reading, s.ledger.queue, a.world);
    }
  }

  lemma {:induction false} ThinnedRun(endpoint: byte, acts: seq<Action>)
    ensures Thinned(Run(endpoint, acts).reading)
  {
    hide Thinned, Step;
    if acts == [] {
      StartThinned(endpoint);
    } else {
      ThinnedRun(endpoint, acts[..|acts| - 1]);
      ThinnedStep(Run(endpoint, acts[..|acts| - 1]), acts[|acts| - 1]);
    }
  }

  /** What the proxy handed over is what the reader acted on, but for the buffer it is looking at, or dropped at a stop.
      */
  ghost predicate Acted(r: ReadSide, supplied: Transfers) {
    match r.pc
    case ReadReceived(Some(data)) => supplied == r.received + [data]
    case ReadDone => supplied == r.received || (supplied != [] && r.received == supplied[..|supplied| - 1])
    case _ => supplied == r.received
  }

  lemma ActedReader(r: ReadSide, q: Q.Queue<Item>, w: World, supplied: Transfers)
    requires Acted(r, supplied) && !r.pc.ReadDone?
    ensures Acted(ReaderNext(r, q, w), if r.pc.ReadReceive? && w.received.Some? then supplied + [w.received.value]
            else supplied)
  {
  }

  lemma {:induction false} ActedRun(endpoint: byte, acts: seq<Action>)
    ensures Acted(Run(endpoint, acts).reading, Supplied(endpoint, acts))
  {
    if acts != [] {
      var before, a := acts[..|acts| - 1], acts[|acts| - 1];
      ActedRun(endpoint, before);
      hide Acted, ReaderNext, Q.Step, StepOfWriter;
      var s := Run(endpoint, before);
      if a.StepReader? {
        if ReaderEnabled(s) {
          ActedReader(s.reading, s.ledger.queue, a.world, Supplied(endpoint, before));
        }
      } else {
        ActedAside(s, a, Supplied(endpoint, before));
      }
    }
  }

  lemma ActedAside(s: State, a: Action, supplied: Transfers)
    requires Acted(s.reading, supplied) && !a.StepReader?
    ensures Acted(Step(s, a).reading, supplied)
  {
    hide Q.Step, WriterNext;
  }

  /** The transfer the reader has from its proxy and has not yet disposed of. */
  function Holding(r: Reader): Transfers {
    if r.ReadReceived? && r.got.Some? then [r.got.value] else InHand(r)
  }

  /** Whatever the other threads do, and however often the reader is fooled about the queue being empty, what it offers
      to the queue and still holds collapses to the same transfers as what its proxy handed over, but for at most one
      that it drops when it is stopped: every data transfer survives in order, and a run of zero-length ones never
      vanishes. */
  lemma StutterEquivalent(endpoint: byte, acts: seq<Action>) returns (lost: Transfers)
    ensures |lost| <= 1 && (lost != [] ==> Run(endpoint, acts).reading.pc.ReadDone?)
    ensures var r := Run(endpoint, acts).reading;
            var supplied, out := Supplied(endpoint, acts), r.offered + Holding(r.pc) + lost;
            Collapse(supplied) == Collapse(out) && WithData(supplied) == WithData(out)
  {
    hide Run, Thinned, Collapse, WithData, Supplied;
    ThinnedRun(endpoint, acts);
    ActedRun(endpoint, acts);
    var r, supplied := Run(endpoint, acts).reading, Supplied(endpoint, acts);
    SameData(r);
    lost := if r.pc.ReadDone? && supplied != r.received then [supplied[|supplied| - 1]] else [];
    var rest := if r.pc.ReadReceived? && r.pc.got.Some? then [r.pc.got.value] else lost;
    assert supplied == r.received + rest;
    var out := r.offered + Holding(r.pc) + lost;
    assert out == r.offered + InHand(r.pc) + rest;
    assert r.received + [] == r.received && r.offered + InHand(r.pc) + [] == r.offered + InHand(r.pc);
    if rest != [] {
      CollapseMore(r.received, rest[0]);
      CollapseMore(r.offered + InHand(r.pc), rest[0]);
    }
    CollapseKeepsData(supplied);
    CollapseKeepsData(out);
  }

  lemma SameData(r: ReadSide)
    requires Thinned(r)
    ensures Collapse(r.received) == Collapse(r.offered + InHand(r.pc))
    ensures WithData(r.received) == WithData(r.offered + InHand(r.pc))
  {
    hide Collapse, WithData;
    CollapseKeepsData(r.received);
    CollapseKeepsData(r.offered + InHand(r.pc));
  }

  lemma StartThinned(endpoint: byte)
    ensures Thinned(Start(endpoint).reading)
  {
  }

  // ---------------------------------------------------------------- when an empty transfer is offered

  /** How many zero-length transfers end the sequence. */
  function Trailing(xs: Transfers): nat {
    if xs == [] || xs[|xs| - 1] != [] then 0 else Trailing(xs[..|xs| - 1]) + 1
  }

  lemma TrailingMore(xs: Transfers, x: seq<byte>)
    ensures Trailing(xs + [x]) == if x == [] then Trailing(xs) + 1 else 0
  {
    assert (xs + [x])[..|xs|] == xs;
  }

  /** The reader's counter, in its 32 bits, is the number of zero-length transfers it was last handed in a row. */
  ghost predicate Counted(r: ReadSide) {
    if InHand(r.pc) == [] then r.zlpCount == U32(Trailing(r.received))
    else
      && r.received != [] && r.received[|r.received| - 1] == InHand(r.pc)[0]
      && r.zlpCount == U32(Trailing(r.received[..|r.received| - 1]))
  }

  lemma CountedReader(r: ReadSide, q: Q.Queue<Item>, w: World)
    requires Counted(r) && !r.pc.ReadDone?
    ensures Counted(ReaderNext(r, q, w))
  {
    hide Trailing;
    if r.pc.ReadReceived? && r.pc.got.Some? {
      assert (r.received + [r.pc.got.value])[..|r.received|] == r.received;
    } else if InHand(r.pc) != [] {
      var before := r.received[..|r.received| - 1];
      assert r.received == before + [InHand(r.pc)[0]];
      TrailingMore(before, InHand(r.pc)[0]);
    }
  }

  lemma CountedStep(s: State, a: Action)
    requires Counted(s.reading)
    ensures Counted(Step(s, a).reading)
  {
    hide Trailing, Q.Step, ReaderNext, WriterNext;
    if a.StepReader? && Enabled(s, a) {
      CountedReader(s.reading, s.ledger.queue, a.world);
    }
  }

  lemma {:induction false} CountedRun(endpoint: byte, acts: seq<Action>)
    ensures Counted(Run(endpoint, acts).reading)
  {
    hide Counted, Step;
    if acts == [] {
      StartCounted(endpoint);
    } else {
      CountedRun(endpoint, acts[..|acts| - 1]);
      CountedStep(Run(endpoint, acts[..|acts| - 1]), acts[|acts| - 1]);
    }
  }

  lemma StartCounted(endpoint: byte)
    ensures Counted(Start(endpoint).reading)
  {
  }

  /** The reader is handed a zero-length transfer and is not stopped at that. */
  predicate LooksAtEmpty(r: ReadSide) {
    r.pc == ReadReceived(Some([])) && !r.stop
  }

  /** Over every run: the reader is about to offer a zero-length transfer exactly if it was handed one behind a transfer
      with data (or 2^32 of them in a row), or one behind another and found the queue empty. The queue is looked at in
      the second case only. */
  lemma OfferedExactly(endpoint: byte, acts: seq<Action>, w: World)
    requires ReaderEnabled(Run(endpoint, acts))
    ensures var s := Run(endpoint, acts);
            var pc, first := StepOfReader(s, w).reading.pc, U32(Trailing(Supplied(endpoint, acts)) - 1) == 0;
            && (pc == ReadEnqueue([]) <==>
                  (LooksAtEmpty(s.reading) && first) || (s.reading.pc.ReadAskEmpty? && s.ledger.queue.Empty()))
            && (pc == ReadAskEmpty <==> LooksAtEmpty(s.reading) && !first)
  {
    hide Run, Supplied, Trailing, Q.Step;
    CountedRun(endpoint, acts);
    ActedRun(endpoint, acts);
    TrailingMore(Run(endpoint, acts).reading.received, []);
  }
}
