/** Holding writes back: a write is passed on as a whole or suppressed as a whole, and each suppressed one gets exactly
    one status, in order. */
module WriteBlocking {
  import opened Wire
  import opened Runs
  import opened MassStorage

  /** Packets the filter takes for data, whatever they are data of. */
  ghost predicate AllData(ps: seq<Parcel>) {
    forall k :: 0 <= k < |ps| ==>
        Face(ps[k]) == Unknown && ps[k].wLength > 64 && |ps[k].data| >= BLOCK_SIZE && |ps[k].data| >= ps[k].wLength
  }

  predicate IsWriteCommand(p: Parcel) {
    Face(p) == CommandWrapper && |p.data| >= CBW_LENGTH && p.data[0x0f] == WRITE_10
  }

  /** Whether the filter is going to hold back a write it has not seen yet. */
  predicate WillBlock(f: Filter) {
    if f.config.inbandSignalling then f.inbandBlockWrites else f.blockWrites
  }

  /** The filter inside a write it took for `f`: only the counters, the cache, the pipe and the in-band switch move. */
  ghost predicate Inside(f: Filter, g: Filter, blocks: nat) {
    && Valid(g) && g.state == WriteData && f.state == WriteData
    && g.blockWrites == f.blockWrites && g.tag == f.tag && g.blockCount == f.blockCount && g.config == f.config
    && g.blockOffset == (if f.blockWrites then blocks else 0)
    && g.pipe == (if f.blockWrites && 0 < f.blockCount <= blocks then f.pipe + f.tag else f.pipe)
  }

  lemma DataStep(f: Filter, g: Filter, blocks: nat, p: Parcel)
    requires Inside(f, g, blocks) && blocks + 1 < 0x1_0000_0000
    requires AllData([p])
    ensures Readable(g, p)
    ensures Inside(f, Step(g, p).0, blocks + 1)
    ensures Step(g, p).1 == if f.blockWrites then p.(transmit := false) else p
  {
    hide Hunt, Face;
    assert AllData([p]) && [p][0] == p;
    assert f.pipe + [] == f.pipe;
  }

  lemma {:induction false} DataOfWrite(f: Filter, ps: seq<Parcel>)
    requires Valid(f) && Inside(f, f, 0) && AllData(ps) && |ps| < 0x1_0000_0000
    ensures var (g, out) := FeedAll(f, ps);
            && Inside(f, g, |ps|)
            && forall k :: 0 <= k < |ps| ==> out[k] == if f.blockWrites then ps[k].(transmit := false) else ps[k]
  {
    hide Step, Readable, Inside, Face;
    if ps != [] {
      var before, p := ps[..|ps| - 1], ps[|ps| - 1];
      DataOfWrite(f, before);
      DataStep(f, FeedAll(f, before).0, |before|, p);
    }
  }

  lemma BeginWrite(f: Filter, cbw: Parcel)
    requires Valid(f) && IsWriteCommand(cbw) && Readable(f, cbw)
    ensures var (g, p) := Step(f, cbw);
            && Inside(g, g, 0) && g.blockWrites == WillBlock(f) && g.pipe == f.pipe
            && g.tag == cbw.data[4..8] && g.blockCount == Blocks(cbw.data)
            && p == if WillBlock(f) then cbw.(transmit := false) else cbw
  {
  }

  /** All or nothing: whatever passwords its blocks hold, a write is either passed on with all its data, unchanged, or
      suppressed with all its data; and a suppressed write of n blocks, n >= 1, gets exactly one status, at its n-th
      block. */
  lemma AllOrNothing(f: Filter, cbw: Parcel, ps: seq<Parcel>)
    requires Valid(f) && IsWriteCommand(cbw) && Readable(f, cbw) && AllData(ps) && |ps| < 0x1_0000_0000
    ensures var (g, command) := Step(f, cbw);
            var (h, data) := FeedAll(g, ps);
            if !WillBlock(f) then
              command == cbw && data == ps && h.pipe == f.pipe
            else
              && !command.transmit && (forall k :: 0 <= k < |ps| ==> data[k] == ps[k].(transmit := false))
              && h.pipe == if 0 < Blocks(cbw.data) <= |ps| then f.pipe + cbw.data[4..8] else f.pipe
  {
    hide Step, Readable, Face, FeedAll, Blocks;
    BeginWrite(f, cbw);
    DataOfWrite(Step(f, cbw).0, ps);
  }

  // ---------------------------------------------------------------- the in-band switch

  ghost predicate Occurs(data: seq<byte>, password: seq<byte>) {
    exists k :: OccursAt(data, password, k)
  }

  /** The packet is data of a write. */
  predicate IsWriteData(f: Filter, p: Parcel) {
    f.state == WriteData && Face(p) == Unknown && p.wLength > 64
  }

  /** Nothing but a password in data of a write moves the switch: writes come to be let through only by the unblock
      password, and come to be held back only by the block password. */
  lemma SwitchedByPassword(f: Filter, p: Parcel)
    requires Valid(f) && Readable(f, p)
    ensures var g := Step(f, p).0;
            && (f.inbandBlockWrites && !g.inbandBlockWrites ==>
                  IsWriteData(f, p) && f.config.inbandSignalling && Occurs(p.data, f.config.unblockPassword))
            && (!f.inbandBlockWrites && g.inbandBlockWrites ==>
                  IsWriteData(f, p) && f.config.inbandSignalling && Occurs(p.data, f.config.blockPassword))
  {
    var g := Step(f, p).0;
    if f.inbandBlockWrites != g.inbandBlockWrites {
      assert IsWriteData(f, p) && f.config.inbandSignalling;
      hide Hunt;
      var password := if f.inbandBlockWrites then f.config.unblockPassword else f.config.blockPassword;
      assert Hunt(p.data, password, 0, 0);
      assert p.data[0 - 0..0] == password[..0];
      var k := HuntIsRight(p.data, password, 0, 0);
    }
  }

  /** The search finds a password that the block begins with, unless it takes more than half of the block. */
  lemma {:induction false} HuntFindsFirst(data: seq<byte>, password: seq<byte>, ptr: nat)
    requires |data| >= BLOCK_SIZE && ptr < |password| && 2 * |password| <= BLOCK_SIZE
    requires data[..|password|] == password
    ensures Hunt(data, password, ptr, ptr)
    decreases |password| - ptr
  {
    assert data[ptr] == data[..|password|][ptr];
    if ptr + 1 < |password| {
      HuntFindsFirst(data, password, ptr + 1);
    }
  }

  ghost predicate BeginsWith(data: seq<byte>, password: seq<byte>) {
    OccursAt(data, password, 0) && 2 * |password| <= BLOCK_SIZE
  }

  /** And a password at the beginning of a written block does move it. */
  lemma PasswordSwitches(f: Filter, p: Parcel)
    requires Valid(f) && Readable(f, p) && IsWriteData(f, p) && f.config.inbandSignalling
    ensures var g := Step(f, p).0;
            && (f.inbandBlockWrites && BeginsWith(p.data, f.config.unblockPassword) ==> !g.inbandBlockWrites)
            && (!f.inbandBlockWrites && BeginsWith(p.data, f.config.blockPassword) ==> g.inbandBlockWrites)
  {
    var password := if f.inbandBlockWrites then f.config.unblockPassword else f.config.blockPassword;
    if BeginsWith(p.data, password) {
      HuntFindsFirst(p.data, password, 0);
    }
    hide Hunt;
  }

  /** The next write then goes by the switch. */
  lemma SwitchTakesEffect(f: Filter, cbw: Parcel)
    requires Valid(f) && IsWriteCommand(cbw) && Readable(f, cbw) && f.config.inbandSignalling && cbw.transmit
    ensures Step(f, cbw).1.transmit <==> !f.inbandBlockWrites
  {
  }

  // ---------------------------------------------------------------- what the filter leaves alone

  /** A packet's data changes only when it is data of a read whose block was cached; its length never changes; and it is
      held back only as part of a write. */
  lemma DataChangesFromCache(f: Filter, p: Parcel)
    requires Valid(f) && Readable(f, p)
    ensures var q := Step(f, p).1;
            && q.wLength == p.wLength
            && (q.data != p.data ==>
                  Classify(f.state, p) == ReadData && f.config.cacheBlocks && Address(f) in f.cache
                  && q.data[..BLOCK_SIZE] == f.cache[Address(f)] && q.data[BLOCK_SIZE..] == p.data[BLOCK_SIZE..])
            && (q.transmit != p.transmit ==> IsWriteCommand(p) || IsWriteData(f, p))
  {
    hide Hunt;
  }

  /** With caching on, a written block is what a later read of its address delivers, whether writes are held back or
      not. */
  lemma WrittenIsRead(f: Filter, p: Parcel, h: Filter, q: Parcel)
    requires Valid(f) && Readable(f, p) && IsWriteData(f, p) && f.config.cacheBlocks
    requires var g := Step(f, p).0;
             Valid(h) && h.config == f.config && h.cache == g.cache && h.state == ReadData && Address(h) == Address(f)
    requires Readable(h, q) && Classify(h.state, q) == ReadData
    ensures Step(h, q).1.data == p.data[..BLOCK_SIZE] + q.data[BLOCK_SIZE..]
  {
    hide Hunt;
  }

  /** And what a read delivered is what a later read of the same address delivers, whatever the device says by then. */
  lemma ReadStays(f: Filter, p: Parcel, h: Filter, q: Parcel)
    requires Valid(f) && Readable(f, p) && Classify(f.state, p) == ReadData && f.config.cacheBlocks
    requires var g := Step(f, p).0;
             Valid(h) && h.config == f.config && h.cache == g.cache && h.state == ReadData && Address(h) == Address(f)
    requires Readable(h, q) && Classify(h.state, q) == ReadData
    ensures Step(h, q).1.data == Step(f, p).1.data[..BLOCK_SIZE] + q.data[BLOCK_SIZE..]
  {
    hide Hunt;
  }

  /** A command that neither reads nor writes blocks leaves the filter as it is, and is left alone. So is a packet that
      is neither command nor status, unless blocks are expected and it is long enough to be one. */
  lemma OthersLeaveAlone(f: Filter, p: Parcel)
    requires Valid(f) && Readable(f, p)
    requires match Face(p) {
               case CommandWrapper => p.data[0x0f] != READ_10 && p.data[0x0f] != WRITE_10
               case StatusWrapper => f.state == Idle
               case _ => f.state == Idle || p.wLength <= 64
             }
    ensures Step(f, p) == (f, p)
  {
  }

  // ---------------------------------------------------------------- statuses

  datatype Event = Feed(p: Parcel) | Fetch

  /** The filter with the tags it queued and the statuses the injector made up, in order. */
  datatype Line = Line(filter: Filter, queued: seq<seq<byte>>, made: seq<Parcel>)

  ghost function Next(l: Line, e: Event): Line {
    var f := l.filter;
    match e
    case Feed(p) =>
      if Valid(f) && Readable(f, p) then
        var g := Step(f, p).0;
        Line(g, if g.pipe != f.pipe then l.queued + [f.tag] else l.queued, l.made)
      else l
    case Fetch =>
      if |f.pipe| >= 4 then l.(filter := f.(pipe := f.pipe[4..]), made :=
          l.made + [Parcel(CSW_LENGTH, Csw(f.pipe[..4]), true)])
      else l
  }

  /** Every made-up status carries its tag, and the tags not made up yet are in the pipe. */
  ghost predicate InOrder(l: Line) {
    && Valid(l.filter)
    && |l.made| <= |l.queued|
    && (forall k :: 0 <= k < |l.queued| ==> |l.queued[k]| == 4)
    && (forall k :: 0 <= k < |l.made| ==> l.made[k] == Parcel(CSW_LENGTH, Csw(l.queued[k]), true))
    && l.filter.pipe == Joined(l.queued[|l.made|..])
  }

  function Joined(tags: seq<seq<byte>>): seq<byte> {
    if tags == [] then [] else tags[0] + Joined(tags[1..])
  }

  lemma {:induction false} JoinedMore(tags: seq<seq<byte>>, tag: seq<byte>)
    ensures Joined(tags + [tag]) == Joined(tags) + tag
  {
    if tags == [] {
      assert Joined([tag]) == tag + Joined([]);
    } else {
      assert (tags + [tag])[1..] == tags[1..] + [tag];
      JoinedMore(tags[1..], tag);
    }
  }

  lemma PipeGrows(f: Filter, p: Parcel)
    requires Valid(f) && Readable(f, p)
    ensures var g := Step(f, p).0; g.pipe == f.pipe || g.pipe == f.pipe + f.tag
  {
    hide Hunt;
  }

  lemma InOrderFeed(l: Line, p: Parcel)
    requires InOrder(l)
    ensures InOrder(Next(l, Feed(p)))
  {
    hide Step, Readable, Valid, Csw, Joined;
    assert |l.filter.tag| == 4 by { TagLength(l.filter); }
    if Readable(l.filter, p) {
      PipeGrows(l.filter, p);
      JoinedMore(l.queued[|l.made|..], l.filter.tag);
      assert (l.queued + [l.filter.tag])[|l.made|..] == l.queued[|l.made|..] + [l.filter.tag];
    }
  }

  lemma TagLength(f: Filter)
    requires Valid(f)
    ensures |f.tag| == 4
  {
  }

  lemma InOrderFetch(l: Line)
    requires InOrder(l)
    ensures InOrder(Next(l, Fetch))
  {
    hide Csw;
    var rest := l.queued[|l.made|..];
    if rest != [] {
      assert l.filter.pipe == rest[0] + Joined(rest[1..]) && rest[0] == l.queued[|l.made|];
      assert rest[1..] == l.queued[|l.made| + 1..];
      assert l.filter.pipe[..4] == rest[0] && l.filter.pipe[4..] == Joined(rest[1..]);
    }
  }

  /** Over any mix of packets and fetches, the k-th made-up status carries the k-th queued tag. */
  lemma {:induction false} StatusesInOrder(f: Filter, es: seq<Event>)
    requires Valid(f) && f.pipe == []
    ensures var l := After(Next, Line(f, [], []), es);
            && InOrder(l)
            && |l.made| <= |l.queued|
            && forall k :: 0 <= k < |l.made| ==> l.made[k] == Parcel(CSW_LENGTH, Csw(l.queued[k]), true)
  {
    hide Csw, Next, Valid;
    if es != [] {
      var before, e := es[..|es| - 1], es[|es| - 1];
      StatusesInOrder(f, before);
      match e
      case Feed(p) => InOrderFeed(After(Next, Line(f, [], []), before), p);
      case Fetch => InOrderFetch(After(Next, Line(f, [], []), before));
    }
  }
}
