/** The mass-storage filter: it follows the commands of a USB disk (Bulk-Only Transport 1.0, sections 5.1 and 5.2),
    keeps a cache of blocks, holds writes back from the device, and makes up the status the device would have sent. */
module MassStorage {
  import opened Wire
  import opened Buffers

  const BLOCK_SIZE: nat := 512
  const CBW_LENGTH: nat := 31
  const CSW_LENGTH: nat := 13
  const READ_10: byte := 0x28
  const WRITE_10: byte := 0x2a

  // ---------------------------------------------------------------- values

  /** What a packet is taken for, and what the filter expects next. */
  datatype Kind = Idle | CommandWrapper | ReadData | WriteData | StatusWrapper | Unknown

  /** A packet's fields as the filter sees them. */
  datatype Parcel = Parcel(wLength: word, data: seq<byte>, transmit: bool)

  datatype Config = Config(cacheBlocks: bool, inbandSignalling: bool, unblockPassword: seq<byte>,
      blockPassword: seq<byte>)

  /** The filter's fields. `pipe` holds the bytes written to the pipe and not read back yet. */
  datatype Filter = Filter(
    config: Config, state: Kind, tag: seq<byte>, blockWrites: bool, inbandBlockWrites: bool,
    blockCount: dword, blockOffset: dword, baseAddress: dword,
    cache: map<dword, seq<byte>>, pipe: seq<byte>)

  predicate Signed(p: Parcel, length: nat, last: byte) {
    p.wLength == length && |p.data| >= 4 && p.data[0] == 0x55 && p.data[1] == 0x53 && p.data[2] == 0x42
        && p.data[3] == last
  }

  /** What the packet shows itself to be. */
  function Face(p: Parcel): Kind {
    if Signed(p, CBW_LENGTH, 0x43) then CommandWrapper
    else if Signed(p, CSW_LENGTH, 0x53) then StatusWrapper
    else Unknown
  }

  /** What the packet is taken for while the filter is in `state`: anything long enough is probably data. */
  function Classify(state: Kind, p: Parcel): Kind {
    if Face(p).Unknown? && p.wLength > 64 then state else Face(p)
  }

  function Dword(a: byte, b: byte, c: byte, d: byte): dword {
    a * 0x100_0000 + b * 0x1_0000 + c * 0x100 + d
  }

  /** The block address of a READ(10) or WRITE(10). */
  function Lba(data: seq<byte>): dword
    requires |data| >= CBW_LENGTH
  {
    Dword(data[0x11], data[0x12], data[0x13], data[0x14])
  }

  function Blocks(data: seq<byte>): word
    requires |data| >= CBW_LENGTH
  {
    Word(data[0x17], data[0x16])
  }

  /** The buffers are as long as the filter reads them: a packet at least its own length, a data packet a whole block.
      */
  predicate Readable(f: Filter, p: Parcel) {
    && |p.data| >= p.wLength
    && (Classify(f.state, p).ReadData? || Classify(f.state, p).WriteData? ==> |p.data| >= BLOCK_SIZE)
  }

  // ---------------------------------------------------------------- the password search

  /** Whether the search, at byte `i` with `ptr` bytes of the password matched, comes to report the password. */
  function Hunt(data: seq<byte>, password: seq<byte>, i: nat, ptr: nat): bool
    requires |data| >= BLOCK_SIZE && ptr < |password|
    decreases BLOCK_SIZE - i
  {
    if i + |password| >= BLOCK_SIZE then false
    else if data[i] != password[ptr] then Hunt(data, password, i + 1, 0)
    else ptr + 1 == |password| || Hunt(data, password, i + 1, ptr + 1)
  }

  ghost predicate OccursAt(data: seq<byte>, password: seq<byte>, k: int) {
    0 <= k && k + |password| <= |data| && data[k..k + |password|] == password
  }

  /** A password that is reported is there, and not in the last bytes of the block. */
  lemma {:induction false} HuntIsRight(data: seq<byte>, password: seq<byte>, i: nat, ptr: nat) returns (k: int)
    requires |data| >= BLOCK_SIZE && ptr < |password| && ptr <= i <= |data|
    requires data[i - ptr..i] == password[..ptr]
    requires Hunt(data, password, i, ptr)
    ensures OccursAt(data, password, k) && k + 2 * |password| <= BLOCK_SIZE
    decreases BLOCK_SIZE - i
  {
    if data[i] != password[ptr] {
      k := HuntIsRight(data, password, i + 1, 0);
    } else {
      assert data[i - ptr..i + 1] == data[i - ptr..i] + [data[i]];
      assert password[..ptr + 1] == password[..ptr] + [password[ptr]];
      if ptr + 1 == |password| {
        k := i - ptr;
        assert password[..ptr + 1] == password;
      } else {
        k := HuntIsRight(data, password, i + 1, ptr + 1);
      }
    }
  }

  // ---------------------------------------------------------------- one packet

  /** `p` with its first block replaced. */
  function WithBlock(p: Parcel, block: seq<byte>): Parcel
    requires |p.data| >= BLOCK_SIZE && |block| == BLOCK_SIZE
  {
    p.(data := block + p.data[BLOCK_SIZE..])
  }

  ghost predicate Valid(f: Filter) {
    && |f.tag| == 4 && (f.state.Idle? || f.state.ReadData? || f.state.WriteData?)
    && (forall a <- f.cache :: |f.cache[a]| == BLOCK_SIZE)
    && (f.config.inbandSignalling ==> f.config.unblockPassword != [] && f.config.blockPassword != [])
  }

  /** The address of the block at hand. */
  function Address(f: Filter): dword {
    U32(f.blockOffset + f.baseAddress)
  }

  function OnRead(f: Filter, p: Parcel): (r: (Filter, Parcel))
    requires Valid(f) && |p.data| >= BLOCK_SIZE
    ensures Valid(r.0)
  {
    var a := Address(f);
    var f' := f.(blockOffset := U32(f.blockOffset + 1));
    if !f.config.cacheBlocks then (f', p)
    else if a in f.cache then (f', WithBlock(p, f.cache[a]))
    else (f'.(cache := f.cache[a := p.data[..BLOCK_SIZE]]), p)
  }

  /** The in-band switch after a block was written. */
  function Switched(f: Filter, data: seq<byte>): bool
    requires Valid(f) && f.config.inbandSignalling && |data| >= BLOCK_SIZE
  {
    if f.inbandBlockWrites then !Hunt(data, f.config.unblockPassword, 0, 0)
        else Hunt(data, f.config.blockPassword, 0, 0)
  }

  function OnWrite(f: Filter, p: Parcel): (r: (Filter, Parcel))
    requires Valid(f) && |p.data| >= BLOCK_SIZE
    ensures Valid(r.0)
  {
    var f' := f.(
      cache := if f.config.cacheBlocks then f.cache[Address(f) := p.data[..BLOCK_SIZE]] else f.cache,
      inbandBlockWrites := if f.config.inbandSignalling then Switched(f, p.data) else f.inbandBlockWrites);
    if !f.blockWrites then (f', p)
    else
      var offset := U32(f.blockOffset + 1);
      (f'.(blockOffset := offset, pipe := if offset == f.blockCount then f.pipe + f.tag else f.pipe),
          p.(transmit := false))
  }

  function OnCommand(f: Filter, p: Parcel): (r: (Filter, Parcel))
    requires Valid(f) && |p.data| >= CBW_LENGTH
    ensures Valid(r.0)
  {
    var d := p.data;
    if d[0x0f] == READ_10 then
      (f.(state := ReadData, blockCount := Blocks(d), baseAddress := Lba(d), blockOffset := 0), p)
    else if d[0x0f] == WRITE_10 then
      var blocking := if f.config.inbandSignalling then f.inbandBlockWrites else f.blockWrites;
      (f.(state := WriteData, blockWrites := blocking, tag := d[4..8],
          blockCount := Blocks(d), baseAddress := Lba(d), blockOffset := 0),
       if blocking then p.(transmit := false) else p)
    else (f, p)
  }

  /** What `filter_packet` makes of the filter and the packet. */
  function Step(f: Filter, p: Parcel): (r: (Filter, Parcel))
    requires Valid(f) && Readable(f, p)
    ensures Valid(r.0)
  {
    match Classify(f.state, p)
    case CommandWrapper => OnCommand(f, p)
    case WriteData => OnWrite(f, p)
    case ReadData => OnRead(f, p)
    case StatusWrapper => (f.(state := Idle), p)
    case _ => (f, p)
  }

  /** The filter after the packets `ps`, and what it made of them. A packet whose buffer the filter would read past is
      not fed to it. */
  ghost function FeedAll(f: Filter, ps: seq<Parcel>): (r: (Filter, seq<Parcel>))
    requires Valid(f)
    ensures Valid(r.0) && |r.1| == |ps|
  {
    if ps == [] then (f, [])
    else
      var (g, out) := FeedAll(f, ps[..|ps| - 1]);
      var p := ps[|ps| - 1];
      if Readable(g, p) then var (h, q) := Step(g, p); (h, out + [q]) else (g, out + [p])
  }

  /** The made-up status for a tag: a CSW that reports success. */
  function Csw(tag: seq<byte>): seq<byte> {
    [0x55, 0x53, 0x42, 0x53] + tag + [0, 0, 0, 0, 0]
  }

  /** A made-up status is taken for a status, whatever the filter expects. */
  lemma CswIsStatus(tag: seq<byte>, state: Kind, transmit: bool)
    requires |tag| == 4
    ensures var p := Parcel(CSW_LENGTH, Csw(tag), transmit);
            |p.data| == CSW_LENGTH && Classify(state, p) == StatusWrapper && p.data[4..8] == tag
                && p.data[8..] == [0, 0, 0, 0, 0]
  {
  }

  // ---------------------------------------------------------------- the filter itself

  class Packet {
    var wLength: word
    var data: array<byte>
    var transmit: bool

    constructor (bytes: array<byte>, length: word)
      ensures data == bytes && wLength == length && transmit
    {
      data, wLength, transmit := bytes, length, true;
    }

    function Value(): Parcel
      reads this, data
    {
      Parcel(wLength, data[..], transmit)
    }
  }

  class PacketFilterMassStorage {
    const config: Config
    const tag: array<byte>
    var state: Kind
    var blockWrites: bool
    var inbandBlockWrites: bool
    var blockCount: dword
    var blockOffset: dword
    var baseAddress: dword
    var blockCache: map<dword, seq<byte>>
    var pipe: seq<byte>

    function Value(): Filter
      reads this, tag
    {
      Filter(config, state, tag[..], blockWrites, inbandBlockWrites, blockCount, blockOffset, baseAddress, blockCache,
          pipe)
    }

    constructor (config: Config, blockWrites: bool)
      requires config.inbandSignalling ==> config.unblockPassword != [] && config.blockPassword != []
      ensures fresh(tag) && Valid(Value())
      ensures Value() == Filter(config, Idle, [0, 0, 0, 0], blockWrites, blockWrites, 0, 0, 0, map[], [])
    {
      this.config := config;
      tag := new byte[4](_ => 0);
      state, blockCount, blockOffset, baseAddress := Idle, 0, 0, 0;
      this.blockWrites, inbandBlockWrites := blockWrites, blockWrites;
      blockCache, pipe := map[], [];
    }

    method QueuePacket()
      modifies this`pipe
      ensures pipe == old(pipe) + tag[..]
    {
      pipe := pipe + tag[..];
    }

    method CacheRead(address: dword, data: array<byte>)
      requires data.Length >= BLOCK_SIZE && Valid(Value()) && data != tag
      modifies this`blockCache, data
      ensures if address in old(blockCache)
              then blockCache == old(blockCache) && data[..] == old(blockCache)[address] + old(data[BLOCK_SIZE..])
              else blockCache == old(blockCache)[address := old(data[..BLOCK_SIZE])] && data[..] == old(data[..])
    {
      if address !in blockCache {
        blockCache := blockCache[address := data[..BLOCK_SIZE]];
      } else {
        Memcpy(data, 0, blockCache[address]);
      }
    }

    method CacheWrite(address: dword, data: array<byte>)
      requires data.Length >= BLOCK_SIZE
      modifies this`blockCache
      ensures blockCache == old(blockCache)[address := data[..BLOCK_SIZE]]
    {
      blockCache := blockCache[address := data[..BLOCK_SIZE]];
    }

    method Search(data: array<byte>, password: seq<byte>) returns (found: bool)
      requires data.Length >= BLOCK_SIZE && password != []
      ensures found == Hunt(data[..], password, 0, 0)
    {
      var i, ptr := 0, 0;
      while i < BLOCK_SIZE - |password|
        invariant 0 <= i <= BLOCK_SIZE && 0 <= ptr < |password|
        invariant Hunt(data[..], password, i, ptr) == Hunt(data[..], password, 0, 0)
      {
        if data[i] == password[ptr] {
          ptr := ptr + 1;
        } else {
          ptr := 0;
        }
        if ptr == |password| {
          return true;
        }
        i := i + 1;
      }
      return false;
    }

    method CheckForPassword(data: array<byte>)
      requires data.Length >= BLOCK_SIZE && Valid(Value()) && config.inbandSignalling
      modifies this`inbandBlockWrites
      ensures inbandBlockWrites == Switched(old(Value()), data[..])
    {
      if inbandBlockWrites {
        var found := Search(data, config.unblockPassword);
        if found {
          inbandBlockWrites := false;
        }
      } else {
        var found := Search(data, config.blockPassword);
        if found {
          inbandBlockWrites := true;
        }
      }
    }

    /** What both commands set. */
    method StartBlocks(data: array<byte>)
      requires data.Length >= CBW_LENGTH
      modifies this`blockCount, this`baseAddress, this`blockOffset
      ensures blockCount == Blocks(data[..]) && baseAddress == Lba(data[..]) && blockOffset == 0
    {
      hide Word, Dword;
      blockCount := Word(data[0x17], data[0x16]);
      baseAddress := Dword(data[0x11], data[0x12], data[0x13], data[0x14]);
      blockOffset := 0;
    }

    method KeepTag(data: array<byte>)
      requires data.Length >= CBW_LENGTH && tag.Length == 4 && data != tag
      modifies tag
      ensures tag[..] == data[..][4..8]
    {
      tag[0], tag[1], tag[2], tag[3] := data[4], data[5], data[6], data[7];
    }

    /** The branch of `filter_packet` for a command. */
    method TakeCommand(packet: Packet)
      requires Valid(Value()) && packet.data.Length >= CBW_LENGTH && packet.data != tag
      modifies this, tag, packet`transmit
      ensures packet.data == old(packet.data)
      ensures (Value(), packet.Value()) == OnCommand(old(Value()), old(packet.Value()))
    {
      hide Lba, Blocks;
      var data := packet.data;
      assert tag.Length == |tag[..]| == 4;
      if data[0x0f] == READ_10 {
        state := ReadData;
        StartBlocks(data);
      } else if data[0x0f] == WRITE_10 {
        state := WriteData;
        if config.inbandSignalling {
          blockWrites := inbandBlockWrites;
        }
        if blockWrites {
          packet.transmit := false;
        }
        KeepTag(data);
        StartBlocks(data);
      }
    }

    /** The branch for data of a write. */
    method TakeWrite(packet: Packet)
      requires Valid(Value()) && packet.data.Length >= BLOCK_SIZE && packet.data != tag
      modifies this, packet`transmit
      ensures packet.data == old(packet.data)
      ensures (Value(), packet.Value()) == OnWrite(old(Value()), old(packet.Value()))
    {
      hide Hunt;
      assert packet.data[..][..BLOCK_SIZE] == packet.data[..BLOCK_SIZE];
      if config.cacheBlocks {
        CacheWrite(U32(blockOffset + baseAddress), packet.data);
      }
      if config.inbandSignalling {
        CheckForPassword(packet.data);
      }
      if blockWrites {
        packet.transmit := false;
        blockOffset := U32(blockOffset + 1);
        if blockOffset == blockCount {
          QueuePacket();
        }
      }
    }

    /** The branch for data of a read. */
    method TakeRead(packet: Packet)
      requires Valid(Value()) && packet.data.Length >= BLOCK_SIZE && packet.data != tag
      modifies this, packet.data
      ensures packet.data == old(packet.data)
      ensures (Value(), packet.Value()) == OnRead(old(Value()), old(packet.Value()))
    {
      ghost var was := packet.data[..];
      assert was[..BLOCK_SIZE] == packet.data[..BLOCK_SIZE] && was[BLOCK_SIZE..] == packet.data[BLOCK_SIZE..];
      if config.cacheBlocks {
        CacheRead(U32(blockOffset + baseAddress), packet.data);
      }
      blockOffset := U32(blockOffset + 1);
    }

    method FilterPacket(packet: Packet)
      requires Valid(Value()) && Readable(Value(), packet.Value()) && packet.data != tag
      modifies this, tag, packet`transmit, packet.data
      ensures packet.data == old(packet.data)
      ensures (Value(), packet.Value()) == Step(old(Value()), old(packet.Value()))
    {
      hide Hunt;
      var kind := Unknown;
      var data := packet.data;
      if packet.wLength == 31 && data[0] == 0x55 && data[1] == 0x53 && data[2] == 0x42 && data[3] == 0x43 {
        kind := CommandWrapper;
      }
      if packet.wLength == 13 && data[0] == 0x55 && data[1] == 0x53 && data[2] == 0x42 && data[3] == 0x53 {
        kind := StatusWrapper;
      }
      if kind == Unknown && packet.wLength > 64 {
        kind := state;
      }
      match kind
      case CommandWrapper => TakeCommand(packet);
      case WriteData => TakeWrite(packet);
      case ReadData => TakeRead(packet);
      case StatusWrapper => state := Idle;
      case _ =>
    }

    /** Reads one tag off the pipe, which the injector was told is readable, and makes up its status. */
    method GetPackets() returns (packet: Packet)
      requires |pipe| >= 4
      modifies this`pipe
      ensures pipe == old(pipe)[4..]
      ensures fresh(packet) && fresh(packet.data)
      ensures packet.Value() == Parcel(CSW_LENGTH, Csw(old(pipe)[..4]), true)
    {
      var tagBuf := pipe[..4];
      pipe := pipe[4..];
      var buf := new byte[13](_ => 0);
      Memcpy(buf, 0, [0x55, 0x53, 0x42, 0x53] + tagBuf);
      packet := new Packet(buf, 13);
      assert packet.data[..] == Csw(tagBuf);
    }
  }
}
