/** What the mass-storage filter is for: with caching and write blocking on, the host sees an ordinary writable disk
    while the device sees no write at all. */
module VirtualDisk {
  import opened Wire
  import opened MassStorage

  type Block = b: seq<byte> | |b| == BLOCK_SIZE witness seq(BLOCK_SIZE, _ => 0)

  /** A disk's contents, block by block. */
  type Disk = dword -> Block

  /** What was written where. */
  type Writes = map<dword, Block>

  /** `d` overlaid with `ws`. */
  function Overlaid(d: Disk, ws: Writes): Disk {
    (a: dword) => if a in ws then ws[a] else d(a)
  }

  function Spot(lba: dword, i: nat): dword { U32(lba + i) }

  /** `ws` after writing `blocks` from `lba` on, one after the other. */
  function Written(ws: Writes, lba: dword, blocks: seq<Block>): Writes {
    if blocks == [] then ws
    else
      var last := |blocks| - 1;
      Written(ws, lba, blocks[..last])[Spot(lba, last) := blocks[last]]
  }

  lemma SpotsApart(lba: dword, i: nat, j: nat)
    requires i < j < 0x1_0000
    ensures Spot(lba, i) != Spot(lba, j)
  {
    assert (lba + i) / 0x1_0000_0000 == (lba + j) / 0x1_0000_0000 || (lba + i) / 0x1_0000_0000 + 1 ==
        (lba + j) / 0x1_0000_0000;
  }

  /** After a write each of its blocks is at its place. */
  lemma {:induction false} WrittenAt(ws: Writes, lba: dword, blocks: seq<Block>, i: nat)
    requires i < |blocks| < 0x1_0000
    ensures var a := Spot(lba, i); a in Written(ws, lba, blocks) && Written(ws, lba, blocks)[a] == blocks[i]
  {
    hide Spot;
    var last := |blocks| - 1;
    if i < last {
      WrittenAt(ws, lba, blocks[..last], i);
      SpotsApart(lba, i, last);
    }
  }

  /** And the rest of the disk is as before. */
  lemma {:induction false} NotWrittenAt(ws: Writes, lba: dword, blocks: seq<Block>, a: dword)
    requires forall i :: 0 <= i < |blocks| ==> Spot(lba, i) != a
    ensures if a in ws then a in Written(ws, lba, blocks) && Written(ws, lba, blocks)[a] == ws[a]
            else a !in Written(ws, lba, blocks)
  {
    hide Spot;
    if blocks != [] {
      NotWrittenAt(ws, lba, blocks[..|blocks| - 1], a);
    }
  }

  // ---------------------------------------------------------------- commands

  /** A command of the host with what it moves: the blocks of a write, or for a command that neither reads nor writes
      blocks some packets the filter has no view of. `csw` is the device's status. */
  datatype Command = Command(cbw: Parcel, blocks: seq<Block>, others: seq<Parcel>, csw: Parcel) {
    predicate Valid() {
      && Face(cbw) == CommandWrapper && |cbw.data| >= CBW_LENGTH
      && Face(csw) == StatusWrapper && |csw.data| >= CSW_LENGTH
      && (IsWrite() ==> |blocks| == Blocks(cbw.data) > 0)
      && (forall p <- others :: Face(p) == Unknown && |p.data| >= p.wLength)
    }

    predicate IsRead() {
      |cbw.data| >= CBW_LENGTH && cbw.data[0x0f] == READ_10
    }

    predicate IsWrite() {
      |cbw.data| >= CBW_LENGTH && cbw.data[0x0f] == WRITE_10
    }
  }

  /** The bytes of a command wrapper for a READ(10) or WRITE(10) (Bulk-Only Transport 1.0, section 5.1): signature, tag,
      length and flags, then the command block with address and block count, most significant byte first. */
  function Wrapper(tag: seq<byte>, length: seq<byte>, flags: byte, code: byte, lba: dword, count: word): (r: seq<byte>)
    requires |tag| == 4 && |length| == 4
    ensures |r| == CBW_LENGTH
  {
    [0x55, 0x53, 0x42, 0x43] + tag + length + [flags, 0, 10] + CommandBlock(code, lba, count) + [0, 0, 0, 0, 0, 0, 0]
  }

  function CommandBlock(code: byte, lba: dword, count: word): (r: seq<byte>)
    ensures |r| == 9
  {
    [code, 0, lba / 0x100_0000, lba / 0x1_0000 % 0x100, lba / 0x100 % 0x100, lba % 0x100, 0, count / 0x100,
     count % 0x100]
  }

  /** Taking a number apart into bytes and putting it together again. */
  lemma DwordOfBytes(x: dword)
    ensures Dword(x / 0x100_0000, x / 0x1_0000 % 0x100, x / 0x100 % 0x100, x % 0x100) == x
  {
    var a, b := x / 0x1_0000, x / 0x100;
    assert x == b * 0x100 + x % 0x100;
    assert b == b / 0x100 * 0x100 + b % 0x100;
    assert b / 0x100 == a;
    assert a == a / 0x100 * 0x100 + a % 0x100;
    assert a / 0x100 == x / 0x100_0000;
  }

  lemma CommandBlockRead(code: byte, lba: dword, count: word)
    ensures var c := CommandBlock(code, lba, count);
            c[0] == code && Dword(c[2], c[3], c[4], c[5]) == lba && Word(c[8], c[7]) == count
  {
    DwordOfBytes(lba);
  }

  /** The filter reads every field of a wrapper where the host put it. */
  lemma WrapperRead(tag: seq<byte>, length: seq<byte>, flags: byte, code: byte, lba: dword, count: word, state: Kind)
    requires |tag| == 4 && |length| == 4
    ensures var data := Wrapper(tag, length, flags, code, lba, count);
            && Classify(state, Parcel(CBW_LENGTH, data, true)) == CommandWrapper
            && data[0x0f] == code && data[4..8] == tag && Lba(data) == lba && Blocks(data) == count
  {
    CommandBlockRead(code, lba, count);
    hide CommandBlock, Dword, Word;
    var data, c := Wrapper(tag, length, flags, code, lba, count), CommandBlock(code, lba, count);
    assert data[15..24] == c;
    assert forall k :: 0 <= k < 9 ==> data[15 + k] == c[k];
  }

  function DataParcel(b: Block): Parcel {
    Parcel(BLOCK_SIZE, b, true)
  }

  function DataParcels(bs: seq<Block>): (r: seq<Parcel>)
    ensures |r| == |bs|
  {
    seq(|bs|, i requires 0 <= i < |bs| => DataParcel(bs[i]))
  }

  /** The `n` blocks of a disk from `lba` on. */
  function Extent(d: Disk, lba: dword, n: nat): (r: seq<Block>)
    ensures |r| == n
  {
    seq<Block>(n, i requires 0 <= i < n => d(Spot(lba, i)))
  }

  /** The packets of a command on disk `d`, up to its status. */
  function Body(d: Disk, c: Command): seq<Parcel>
  {
    if c.IsRead() then DataParcels(Extent(d, Lba(c.cbw.data), Blocks(c.cbw.data)))
    else if c.IsWrite() then DataParcels(c.blocks)
    else c.others
  }

  function Blocked(ps: seq<Parcel>): (r: seq<Parcel>)
    ensures |r| == |ps|
  {
    seq(|ps|, i requires 0 <= i < |ps| => ps[i].(transmit := false))
  }

  // ---------------------------------------------------------------- blocks one after the other

  /** The filter at work on a disk overlaid with `ws`, between packets: blocks it cached are as overlaid, and it cached
      every block that was written. */
  ghost predicate Mirrors(f: Filter, d: Disk, ws: Writes) {
    && Valid(f) && f.config.cacheBlocks && f.blockWrites && !f.config.inbandSignalling
    && (forall a <- f.cache :: f.cache[a] == Overlaid(d, ws)(a))
    && (forall a <- ws :: a in f.cache)
  }

  /** The filter is `k` blocks into a command. */
  ghost predicate Within(f: Filter, state: Kind, c: Command, k: nat)
    requires |c.cbw.data| >= CBW_LENGTH
  {
    && f.state == state && f.blockOffset == k && f.baseAddress == Lba(c.cbw.data) && f.blockCount == Blocks(c.cbw.data)
  }

  lemma ReadOne(f: Filter, d: Disk, ws: Writes)
    requires Mirrors(f, d, ws) && f.state == ReadData
    ensures var p := DataParcel(d(Address(f)));
            && Readable(f, p)
            && var (g, q) := Step(f, p);
               && q == DataParcel(Overlaid(d, ws)(Address(f)))
               && Mirrors(g, d, ws)
               && g == f.(blockOffset := U32(f.blockOffset + 1), cache := g.cache)
  {
    hide Hunt;
    var p := DataParcel(d(Address(f)));
    assert p.data[..BLOCK_SIZE] == p.data;
    assert forall b: Block :: b + p.data[BLOCK_SIZE..] == b;
  }

  lemma WriteOne(f: Filter, d: Disk, ws: Writes, b: Block)
    requires Mirrors(f, d, ws) && f.state == WriteData
    ensures var p := DataParcel(b);
            && Readable(f, p)
            && var (g, q) := Step(f, p);
               && q == p.(transmit := false)
               && Mirrors(g, d, ws[Address(f) := b])
               && var o := U32(f.blockOffset + 1);
                  g == f.(blockOffset := o, cache := g.cache, pipe := if o == f.blockCount then f.pipe + f.tag
                      else f.pipe)
  {
    hide Hunt;
    var p := DataParcel(b);
    assert p.data[..BLOCK_SIZE] == p.data;
  }
  lemma ExtentLess(d: Disk, lba: dword, n: nat)
    requires n > 0
    ensures var ps := DataParcels(Extent(d, lba, n));
            ps[..n - 1] == DataParcels(Extent(d, lba, n - 1)) && ps[n - 1] == DataParcel(d(Spot(lba, n - 1)))
  {
  }

  lemma {:induction false} ReadMany(f: Filter, d: Disk, ws: Writes, c: Command, n: nat)
    requires c.IsRead() && n <= Blocks(c.cbw.data)
    requires Valid(f) && Mirrors(f, d, ws) && Within(f, ReadData, c, 0)
    ensures var (g, out) := FeedAll(f, DataParcels(Extent(d, Lba(c.cbw.data), n)));
            && out == DataParcels(Extent(Overlaid(d, ws), Lba(c.cbw.data), n))
            && Mirrors(g, d, ws) && Within(g, ReadData, c, n) && g.pipe == f.pipe
  {
    hide Lba, Blocks, Step, Readable, Mirrors, DataParcels, Extent, Overlaid;
    var lba := Lba(c.cbw.data);
    if n == 0 {
      assert DataParcels(Extent(d, lba, 0)) == [] == DataParcels(Extent(Overlaid(d, ws), lba, 0));
    } else {
      ReadMany(f, d, ws, c, n - 1);
      ExtentLess(d, lba, n);
      ExtentLess(Overlaid(d, ws), lba, n);
      var g := FeedAll(f, DataParcels(Extent(d, lba, n - 1))).0;
      ReadOne(g, d, ws);
    }
  }

  lemma BlocksLess(bs: seq<Block>)
    requires bs != []
    ensures var last, ps := |bs| - 1, DataParcels(bs);
            && ps[..last] == DataParcels(bs[..last]) && ps[last] == DataParcel(bs[last])
            && Blocked(ps) == Blocked(ps[..last]) + [ps[last].(transmit := false)]
  {
  }

  lemma {:induction false} WriteMany(f: Filter, d: Disk, ws: Writes, c: Command, bs: seq<Block>)
    requires c.IsWrite() && |bs| <= Blocks(c.cbw.data)
    requires Valid(f) && Mirrors(f, d, ws) && Within(f, WriteData, c, 0) && f.pipe == []
    ensures var (g, out) := FeedAll(f, DataParcels(bs));
            && out == Blocked(DataParcels(bs))
            && Mirrors(g, d, Written(ws, Lba(c.cbw.data), bs)) && Within(g, WriteData, c, |bs|)
            && g.tag == f.tag && g.pipe == if bs != [] && |bs| == Blocks(c.cbw.data) then f.tag else []
  {
    hide Lba, Blocks, Step, Readable, Mirrors, DataParcels, Blocked;
    if bs == [] {
      assert DataParcels(bs) == [] == Blocked(DataParcels(bs));
    } else {
      var last := |bs| - 1;
      WriteMany(f, d, ws, c, bs[..last]);
      BlocksLess(bs);
      var g := FeedAll(f, DataParcels(bs[..last])).0;
      WriteOne(g, d, Written(ws, Lba(c.cbw.data), bs[..last]), bs[last]);
    }
  }

  /** Packets that neither head nor end a command pass unchanged while the filter is idle. */
  lemma {:induction false} OthersPass(f: Filter, ps: seq<Parcel>)
    requires Valid(f) && f.state == Idle
    requires forall p <- ps :: Face(p) == Unknown && |p.data| >= p.wLength
    ensures FeedAll(f, ps) == (f, ps)
  {
    hide Face;
    if ps != [] {
      OthersPass(f, ps[..|ps| - 1]);
      assert ps == ps[..|ps| - 1] + [ps[|ps| - 1]];
    }
  }

  // ---------------------------------------------------------------- whole commands

  /** The packets of one command as the filter passed them on, and the status the host got. */
  datatype Exchange = Exchange(command: Parcel, body: seq<Parcel>, status: Option<Parcel>)

  /** The filter through the packets of `c` on disk `d`. A write held back from the device gets its status from the
      filter's own pipe, if there is one. */
  ghost function Perform(f: Filter, d: Disk, c: Command): (r: (Filter, Exchange))
    requires Valid(f) && Readable(f, c.cbw)
    ensures Valid(r.0)
  {
    var (f1, cbw) := Step(f, c.cbw);
    var (f2, body) := FeedAll(f1, Body(d, c));
    var (f3, status) :=
      if cbw.transmit then (f2, Some(c.csw))
      else if |f2.pipe| >= 4 then (f2.(pipe := f2.pipe[4..]), Some(Parcel(CSW_LENGTH, Csw(f2.pipe[..4]), true)))
      else (f2, None);
    if status.Some? && Readable(f3, status.value) then
      var (f4, csw) := Step(f3, status.value);
      (f4, Exchange(cbw, body, Some(csw)))
    else (f3, Exchange(cbw, body, status))
  }

  /** What an ordinary disk `d` would have it look like, except that nothing of a write goes on to the device. */
  ghost function Expected(d: Disk, c: Command): Exchange
  {
    if c.IsWrite() then
      Exchange(c.cbw.(transmit := false), Blocked(Body(d, c)), Some(Parcel(CSW_LENGTH, Csw(c.cbw.data[4..8]), true)))
    else Exchange(c.cbw, Body(d, c), Some(c.csw))
  }

  function AfterCommand(ws: Writes, c: Command): Writes {
    if c.IsWrite() then Written(ws, Lba(c.cbw.data), c.blocks) else ws
  }

  /** Between two commands: the filter mirrors the disk, expects nothing and has no status to hand out. */
  ghost predicate AtRest(f: Filter, d: Disk, ws: Writes) {
    Mirrors(f, d, ws) && f.state == Idle && f.pipe == []
  }

  /** A command the host may give: its packets are there, and passed on to begin with. */
  ghost predicate Given(c: Command) {
    && c.Valid() && c.cbw.transmit
    && |c.cbw.data| >= c.cbw.wLength && |c.csw.data| >= c.csw.wLength
  }

  lemma StatusEnds(f: Filter, p: Parcel)
    requires Valid(f) && Face(p) == StatusWrapper && |p.data| >= p.wLength
    ensures Readable(f, p) && Step(f, p) == (f.(state := Idle), p)
  {
  }

  lemma BeginRead(f: Filter, d: Disk, ws: Writes, c: Command)
    requires AtRest(f, d, ws) && Given(c) && c.IsRead()
    ensures Readable(f, c.cbw)
    ensures var (g, p) := Step(f, c.cbw);
            p == c.cbw && Mirrors(g, d, ws) && Within(g, ReadData, c, 0) && g.pipe == []
  {
  }

  lemma BeginWrite(f: Filter, d: Disk, ws: Writes, c: Command)
    requires AtRest(f, d, ws) && Given(c) && c.IsWrite()
    ensures Readable(f, c.cbw)
    ensures var (g, p) := Step(f, c.cbw);
            && p == c.cbw.(transmit := false)
            && Mirrors(g, d, ws) && Within(g, WriteData, c, 0) && g.tag == c.cbw.data[4..8] && g.pipe == []
  {
  }

  lemma PerformRead(f: Filter, d: Disk, ws: Writes, c: Command)
    requires AtRest(f, d, ws) && Given(c) && c.IsRead() && Readable(f, c.cbw)
    ensures var (g, x) := Perform(f, d, c);
            x == Expected(Overlaid(d, ws), c) && AtRest(g, d, ws)
  {
    hide Step, Readable, Lba, Blocks, DataParcels, Extent, Overlaid, Face;
    BeginRead(f, d, ws, c);
    var g := Step(f, c.cbw).0;
    ReadMany(g, d, ws, c, Blocks(c.cbw.data));
    StatusEnds(FeedAll(g, Body(d, c)).0, c.csw);
  }

  lemma PerformWrite(f: Filter, d: Disk, ws: Writes, c: Command)
    requires AtRest(f, d, ws) && Given(c) && c.IsWrite() && Readable(f, c.cbw)
    ensures var (g, x) := Perform(f, d, c);
            x == Expected(Overlaid(d, ws), c) && AtRest(g, d, AfterCommand(ws, c))
  {
    hide Step, Readable, Lba, Blocks, DataParcels, Extent, Overlaid, Csw, Face;
    BeginWrite(f, d, ws, c);
    var g := Step(f, c.cbw).0;
    WriteMany(g, d, ws, c, c.blocks);
    var h := FeedAll(g, Body(d, c)).0;
    assert h.pipe == c.cbw.data[4..8] && h.pipe[..4] == h.pipe && h.pipe[4..] == [];
    CswIsStatus(h.pipe[..4], h.state, true);
    StatusEnds(h.(pipe := h.pipe[4..]), Parcel(CSW_LENGTH, Csw(h.pipe[..4]), true));
  }

  lemma PerformOther(f: Filter, d: Disk, ws: Writes, c: Command)
    requires AtRest(f, d, ws) && Given(c) && !c.IsRead() && !c.IsWrite() && Readable(f, c.cbw)
    ensures var (g, x) := Perform(f, d, c);
            x == Expected(Overlaid(d, ws), c) && g == f
  {
    hide Face;
    OthersPass(f, c.others);
    StatusEnds(f, c.csw);
  }

  // ---------------------------------------------------------------- whole sessions

  /** What was written by a sequence of commands. */
  function History(cs: seq<Command>): Writes {
    if cs == [] then map[] else AfterCommand(History(cs[..|cs| - 1]), cs[|cs| - 1])
  }

  /** The filter through the commands one after the other, and each command as it was passed on. */
  ghost function Session(f: Filter, d: Disk, cs: seq<Command>): (r: (Filter, seq<Exchange>))
    requires Valid(f)
    ensures Valid(r.0)
  {
    if cs == [] then (f, [])
    else
      var (g, xs) := Session(f, d, cs[..|cs| - 1]);
      var c := cs[|cs| - 1];
      if Readable(g, c.cbw) then var (h, x) := Perform(g, d, c); (h, xs + [x]) else (g, xs)
  }

  lemma Performed(f: Filter, d: Disk, ws: Writes, c: Command)
    requires AtRest(f, d, ws) && Given(c)
    ensures Readable(f, c.cbw)
    ensures var (g, x) := Perform(f, d, c);
            x == Expected(Overlaid(d, ws), c) && AtRest(g, d, AfterCommand(ws, c))
  {
    hide Perform, Expected, AtRest, Face;
    assert Readable(f, c.cbw) by { CommandReadable(f, c); }
    if c.IsRead() {
      PerformRead(f, d, ws, c);
    } else if c.IsWrite() {
      PerformWrite(f, d, ws, c);
    } else {
      PerformOther(f, d, ws, c);
    }
  }

  lemma CommandReadable(f: Filter, c: Command)
    requires Given(c)
    ensures Readable(f, c.cbw)
  {
  }

  /** A fresh filter with caching and write blocking on. */
  ghost predicate Fresh(f: Filter) {
    && Valid(f) && f.config.cacheBlocks && f.blockWrites && !f.config.inbandSignalling
    && f.state == Idle && f.cache == map[] && f.pipe == []
  }

  /** The refinement: over any sequence of commands on a device disk that never changes, the k-th command looks to the
      host as on an ordinary disk that holds the host's earlier writes, down to the status of a write; and no packet of
      a write is passed on to the device. */
  lemma {:induction false} LooksWritable(f: Filter, d: Disk, cs: seq<Command>)
    requires Fresh(f) && forall k :: 0 <= k < |cs| ==> Given(cs[k])
    ensures var (g, xs) := Session(f, d, cs);
            && AtRest(g, d, History(cs))
            && |xs| == |cs|
            && forall k :: 0 <= k < |cs| ==> xs[k] == Expected(Overlaid(d, History(cs[..k])), cs[k])
  {
    hide Perform, Expected, Given, AtRest, Readable, AfterCommand, Overlaid;
    if cs == [] {
      Rested(f, d);
    } else {
      var before, c := cs[..|cs| - 1], cs[|cs| - 1];
      LooksWritable(f, d, before);
      assert forall k :: 0 <= k <= |before| ==> before[..k] == cs[..k];
      Performed(Session(f, d, before).0, d, History(before), c);
    }
  }

  lemma Rested(f: Filter, d: Disk)
    requires Fresh(f)
    ensures AtRest(f, d, map[])
  {
  }

  /** Why a write must have blocks: one without any is held back from the device like the others, but its status is
      never made up. */
  lemma EmptyWriteUnanswered(f: Filter, d: Disk, ws: Writes, c: Command)
    requires AtRest(f, d, ws) && c.IsWrite() && Face(c.cbw) == CommandWrapper && Readable(f, c.cbw)
    requires Blocks(c.cbw.data) == 0 && c.blocks == []
    ensures var x := Perform(f, d, c).1; !x.command.transmit && x.status == None
  {
  }
}
