/** The descriptor block handed to gadgetfs: every configuration printed twice, once per speed, and the second time with
    the polling intervals of a full-speed device rewritten for high speed. */
module GadgetDescriptor {
  import opened Wire
  import opened Records
  import opened Buffers
  import opened Interfaces
  import opened InterfaceGroups
  import opened Configurations

  // ---------------------------------------------------------------- the new interval

  function Pow2(n: nat): (p: nat)
    ensures p >= 1
  {
    if n == 0 then 1 else 2 * Pow2(n - 1)
  }

  /** The whole part of the base-2 logarithm. */
  function Log2(x: nat): (n: nat)
    requires x >= 1
    ensures Pow2(n) <= x < Pow2(n + 1)
  {
    if x == 1 then 0 else 1 + Log2(x / 2)
  }

  /** `log2(8 * oldValue) + 1`, truncated to a byte. The logarithm of zero has no value, and what the conversion of it
      to a byte yields is up to the machine: `zero`. */
  function NewInterval(previous: byte, zero: byte): byte {
    if previous == 0 then zero else U8(Log2(8 * previous) + 1)
  }

  lemma {:induction false} Pow2Monotone(m: nat, n: nat)
    requires m <= n
    ensures Pow2(m) <= Pow2(n)
    decreases n - m
  {
    if m < n {
      Pow2Monotone(m + 1, n);
    }
  }

  /** The new value n satisfies 2^(n-1) <= 8 * previous < 2^n, the high-speed encoding of an interval of that many
      microframes rounded down to a power of two. */
  lemma NewIntervalEncodes(previous: byte, zero: byte)
    requires previous >= 1
    ensures var n := NewInterval(previous, zero);
            4 <= n <= 11 && Pow2(n - 1) <= 8 * previous < Pow2(n)
  {
    hide Pow2, Log2;
    var l := Log2(8 * previous);
    SmallPowers();
    if l >= 11 {
      Pow2Monotone(11, l);
    }
    if l < 3 {
      Pow2Monotone(l + 1, 3);
    }
  }

  lemma SmallPowers()
    ensures Pow2(3) == 8 && Pow2(4) == 16 && Pow2(5) == 32 && Pow2(6) == 64 && Pow2(7) == 128
    ensures Pow2(8) == 256 && Pow2(9) == 512 && Pow2(10) == 1024 && Pow2(11) == 2048
  {
    assert Pow2(2) == 4;
    assert Pow2(5) == 32;
    assert Pow2(7) == 128;
    assert Pow2(9) == 512;
  }

  /** The one interval that is its own conversion is 6, besides 0 where the machine makes 0 of it. */
  lemma IntervalFixed(previous: byte, zero: byte)
    ensures NewInterval(previous, zero) == previous <==> previous == 6 || previous == zero == 0
  {
    if previous >= 1 {
      NewIntervalEncodes(previous, zero);
      hide NewInterval, Pow2, Log2;
      SmallPowers();
      var n := NewInterval(previous, zero);
      assert n == 4 || n == 5 || n == 6 || n == 7 || n == 8 || n == 9 || n == 10 || n == 11;
    }
  }

  // ---------------------------------------------------------------- what the walk is meant to do

  function FasterEndpoint(r: Endpoint, zero: byte): (f: Endpoint)
    requires |r| >= 7
    ensures |f| == |r| && f[0] == r[0]
  {
    r[6 := NewInterval(r[6], zero)]
  }

  function FasterEndpoints(eps: seq<Endpoint>, zero: byte): (r: seq<Endpoint>)
    requires forall k :: 0 <= k < |eps| ==> |eps[k]| >= 7
    ensures |r| == |eps| && forall k :: 0 <= k < |eps| ==> r[k] == FasterEndpoint(eps[k], zero)
  {
    seq(|eps|, k requires 0 <= k < |eps| => FasterEndpoint(eps[k], zero))
  }

  /** Every endpoint slot of the setting is filled with a seven-byte record. */
  predicate Filled(i: Interface) {
    && i.Intact()
    && forall k :: 0 <= k < |i.endpoints| ==> i.endpoints[k].Some? && |i.endpoints[k].value| == 7
  }

  function EndpointList(i: Interface): (r: seq<Endpoint>)
    requires Filled(i)
    ensures |r| == i.EndpointCount() && forall k :: 0 <= k < |r| ==> i.endpoints[k] == Some(r[k])
    ensures forall k :: 0 <= k < |r| ==> |r[k]| == 7 && r[k][0] == 7
  {
    seq(|i.endpoints|, k requires 0 <= k < |i.endpoints| => i.endpoints[k].value)
  }

  /** The setting with every polling interval rewritten. */
  function Faster(i: Interface, zero: byte): Interface
    requires Filled(i)
  {
    i.(endpoints := Slots(i.EndpointCount(), FasterEndpoints(EndpointList(i), zero)))
  }

  /** The records of a setting in front of its endpoints. */
  function Head(i: Interface): seq<Record> {
    [i.descriptor] + i.HidRecords() + i.generics
  }

  lemma PrintedFaster(i: Interface, zero: byte)
    requires Filled(i)
    ensures i.Printed() == Head(i) + EndpointList(i)
    ensures Faster(i, zero).Printed() == Head(i) + FasterEndpoints(EndpointList(i), zero)
  {
    PresentAll(i.endpoints, EndpointList(i));
    PresentSlots(i.EndpointCount(), FasterEndpoints(EndpointList(i), zero));
  }

  // ---------------------------------------------------------------- the walk

  /** The bytes and the cursor after `count` rounds of the inner loop from cursor `p` on. None if it leaves the bytes.
      */
  function WalkEndpoints(bytes: seq<byte>, p: nat, count: nat, zero: byte): Option<(seq<byte>, nat)>
    decreases count
  {
    if count == 0 then Some((bytes, p))
    else if p + 6 >= |bytes| then None
    else
      var patched := bytes[p + 6 := NewInterval(bytes[p + 6], zero)];
      WalkEndpoints(patched, p + patched[p], count - 1, zero)
  }

  /** Past the records of a setting in front of its endpoints, then over as many endpoint records as it says. */
  function WalkSetting(bytes: seq<byte>, p: nat, i: Interface, zero: byte): Option<(seq<byte>, nat)> {
    WalkEndpoints(bytes, p + |Flatten(Head(i))|, i.EndpointCount(), zero)
  }

  /** The bytes after the walk over the active settings of a configuration, one after the other. */
  function WalkSettings(bytes: seq<byte>, p: nat, active: seq<Interface>, zero: byte): Option<seq<byte>>
    decreases |active|
  {
    if active == [] then Some(bytes)
    else
      var one := WalkSetting(bytes, p, active[0], zero);
      if one.None? then None else WalkSettings(one.value.0, one.value.1, active[1..], zero)
  }

  /** The settings the walk asks for: the active one of each interface number. */
  ghost function Active(cfg: Configuration): (r: seq<Interface>)
    requires cfg.Valid() && forall n :: 0 <= n < cfg.groups.Length ==> cfg.GetInterface(n).Some?
    reads cfg, cfg.groups, cfg.groups[..]
    ensures |r| == cfg.groups.Length && forall n :: 0 <= n < |r| ==> r[n] == cfg.GetInterface(n).value
  {
    seq(cfg.groups.Length, n requires 0 <= n < cfg.groups.Length && cfg.Valid() && cfg.GetInterface(n).Some?
                             reads cfg, cfg.groups, cfg.groups[..] => cfg.GetInterface(n).value)
  }

  lemma ActiveIntact(cfg: Configuration, n: nat)
    requires cfg.Valid() && n < cfg.groups.Length && cfg.GetInterface(n).Some?
    ensures cfg.GetInterface(n).value.Intact()
  {
    hide Interface.Intact;
  }

  /** The inner loops: from the start of the setting at `pointer`, past its interface, HID and generic records, then
      over its endpoint records. */
  method PatchSetting(i: Interface, buf: array<byte>, pointer: nat, zero: byte) returns (p: nat)
    requires i.Intact() && WalkSetting(buf[..], pointer, i, zero).Some?
    modifies buf
    ensures Some((buf[..], p)) == WalkSetting(old(buf[..]), pointer, i, zero)
  {
    hide Flatten, Interface.Intact, NewInterval;
    p := SkipHead(i, pointer);
    ghost var target := WalkSetting(buf[..], pointer, i, zero);
    for j := 0 to i.EndpointCount()
      invariant WalkEndpoints(buf[..], p, i.EndpointCount() - j, zero) == target
    {
      ghost var bytes := buf[..];
      var newValue := NewInterval(buf[p + 6], zero);
      buf[p + 6] := newValue;
      assert buf[..] == bytes[p + 6 := newValue];
      p := p + buf[p];
    }
  }

  /** The cursor arithmetic past a setting's interface, HID and generic records. */
  method SkipHead(i: Interface, pointer: nat) returns (p: nat)
    requires i.Intact()
    ensures p == pointer + |Flatten(Head(i))|
  {
    hide Flatten, BeforeGeneric;
    PrintedSteps(i);
    FlattenNil();
    FlattenSnoc([], i.descriptor);
    assert [] + [i.descriptor] == [i.descriptor];
    p := pointer + i.descriptor[0];
    if i.hid.Some? {
      FlattenSnoc([i.descriptor], i.hid.value);
      p := p + i.hid.value[0];
    } else {
      assert [i.descriptor] + i.HidRecords() == [i.descriptor];
    }
    for g := 0 to |i.generics|
      invariant p == pointer + |Flatten(BeforeGeneric(i, g))|
    {
      assert BeforeGeneric(i, g + 1) == BeforeGeneric(i, g) + [i.generics[g]];
      FlattenSnoc(BeforeGeneric(i, g), i.generics[g]);
      assert WellFormed(i.generics[g]);
      p := p + i.generics[g][0];
    }
    assert BeforeGeneric(i, |i.generics|) == Head(i) by { HeadIs(i); }
  }

  lemma HeadIs(i: Interface)
    ensures BeforeGeneric(i, |i.generics|) == Head(i)
  {
  }

  /** The walk over a configuration's buffer. The header stays: the walk starts behind it. */
  method PatchIntervals(cfg: Configuration, buf: array<byte>, zero: byte)
    requires cfg.Valid() && forall n :: 0 <= n < cfg.groups.Length ==> cfg.GetInterface(n).Some?
    requires buf.Length >= 9 && buf[0] == 9 && buf[4] == cfg.descriptor[4]
    requires WalkSettings(buf[..], 9, Active(cfg), zero).Some?
    modifies buf
    ensures cfg.Table() == old(cfg.Table())
    ensures Some(buf[..]) == WalkSettings(old(buf[..]), 9, old(Active(cfg)), zero)
  {
    hide Interface.Intact, Group.Intact, WalkSetting;
    ghost var table, active := cfg.Table(), Active(cfg);
    ghost var target := WalkSettings(buf[..], 9, active, zero);
    var pointer: nat := buf[0];
    var count := buf[4];
    for k := 0 to count
      invariant cfg.Valid() && cfg.Table() == table
      invariant forall n :: 0 <= n < count ==> cfg.GetInterface(n) == Some(active[n])
      invariant WalkSettings(buf[..], pointer, active[k..], zero) == target
    {
      var i := cfg.GetInterface(k).value;
      ActiveIntact(cfg, k);
      assert active[k..][0] == i && active[k..][1..] == active[k + 1..];
      pointer := PatchSetting(i, buf, pointer, zero);
    }
    assert active[count..] == [];
  }

  // ---------------------------------------------------------------- the walk agrees with the printer

  lemma PokeMiddle(front: seq<byte>, r: seq<byte>, back: seq<byte>, at: nat, v: byte)
    requires at < |r|
    ensures (front + r + back)[|front| + at] == r[at]
    ensures (front + r + back)[|front| + at := v] == front + r[at := v] + back
  {
  }

  /** One round of the inner loop, at an endpoint record `r`. */
  lemma WalkOne(front: seq<byte>, r: Endpoint, back: seq<byte>, count: nat, zero: byte)
    requires |r| == 7 && r[0] == 7 && count > 0
    ensures var f := front + FasterEndpoint(r, zero);
            WalkEndpoints(front + r + back, |front|, count, zero) == WalkEndpoints(f + back, |f|, count - 1, zero)
  {
    PokeMiddle(front, r, back, 6, NewInterval(r[6], zero));
    hide NewInterval;
    assert (front + FasterEndpoint(r, zero) + back)[|front|] == 7;
  }

  lemma {:induction false} WalkEndpointsAgrees(front: seq<byte>, eps: seq<Endpoint>, back: seq<byte>, zero: byte)
    requires forall k :: 0 <= k < |eps| ==> |eps[k]| == 7 && eps[k][0] == 7
    ensures var f := front + Flatten(FasterEndpoints(eps, zero));
            WalkEndpoints(front + Flatten(eps) + back, |front|, |eps|, zero) == Some((f + back, |f|))
    decreases |eps|
  {
    hide WalkEndpoints, FasterEndpoint;
    if eps == [] {
      assert front + Flatten(eps) == front && front + Flatten(FasterEndpoints(eps, zero)) == front;
      WalkNone(front + back, |front|, zero);
    } else {
      var r, rest := eps[0], eps[1..];
      var f := FasterEndpoint(r, zero);
      assert FasterEndpoints(eps, zero)[1..] == FasterEndpoints(rest, zero);
      WalkEndpointsAgrees(front + f, rest, back, zero);
      WalkOne(front, r, Flatten(rest) + back, |eps|, zero);
      assert front + Flatten(eps) + back == front + r + (Flatten(rest) + back);
      assert front + f + Flatten(rest) + back == front + f + (Flatten(rest) + back);
      assert front + Flatten(FasterEndpoints(eps, zero)) == front + f + Flatten(FasterEndpoints(rest, zero));
    }
  }

  lemma WalkNone(bytes: seq<byte>, p: nat, zero: byte)
    ensures WalkEndpoints(bytes, p, 0, zero) == Some((bytes, p))
  {
  }

  /** Over the print of a filled setting the walk gives the print of the setting with new intervals, and ends behind
      it. */
  lemma WalkSettingAgrees(front: seq<byte>, i: Interface, back: seq<byte>, zero: byte)
    requires Filled(i)
    ensures var f := front + Flatten(Faster(i, zero).Printed());
            WalkSetting(front + Flatten(i.Printed()) + back, |front|, i, zero) == Some((f + back, |f|))
  {
    hide Flatten, Faster, FasterEndpoints, Interface.Printed, EndpointList, WalkEndpoints, Filled, Head;
    PrintedFaster(i, zero);
    var eps := EndpointList(i);
    var f := FasterEndpoints(eps, zero);
    var start := front + Flatten(Head(i));
    FlattenConcat(Head(i), eps);
    FlattenConcat(Head(i), f);
    WalkEndpointsAgrees(start, eps, back, zero);
    assert start + Flatten(eps) + back == front + Flatten(i.Printed()) + back;
    assert start + Flatten(f) == front + Flatten(Faster(i, zero).Printed());
  }

  /** Every interface number has exactly one alternate setting, which is filled and active: what makes the walk over
      active settings meet every printed byte. */
  predicate Single(slot: Option<Group>) {
    && slot.Some? && slot.value.Intact() && slot.value.alternateCount == 1
    && slot.value.interfaces[0].Some? && Filled(slot.value.interfaces[0].value)
  }

  predicate AllSingle(groups: Groups) {
    forall n :: 0 <= n < |groups| ==> Single(groups[n])
  }

  function OnlySetting(slot: Option<Group>): Interface
    requires Single(slot)
  {
    slot.value.interfaces[0].value
  }

  function FasterGroup(slot: Option<Group>, zero: byte): (r: Option<Group>)
    requires Single(slot)
    ensures r.Some? && r.value.Intact()
  {
    FasterIntact(OnlySetting(slot), zero);
    Some(Group(slot.value.number, 1, [Some(Faster(OnlySetting(slot), zero))]))
  }

  lemma FasterIntact(i: Interface, zero: byte)
    requires Filled(i)
    ensures Faster(i, zero).Intact()
  {
    hide NewInterval;
  }

  /** The table with every polling interval rewritten. */
  function FasterGroups(groups: Groups, zero: byte): (r: Groups)
    requires AllSingle(groups)
    ensures |r| == |groups| && GroupsIntact(r)
    ensures forall n :: 0 <= n < |r| ==> r[n] == FasterGroup(groups[n], zero)
  {
    seq(|groups|, n requires 0 <= n < |groups| => FasterGroup(groups[n], zero))
  }

  /** A defined configuration with one alternate setting per interface meets the walk's conditions. */
  lemma DefinedSingle(t: Tree, highSpeed: bool)
    requires t.Intact() && TreeDefined(t, highSpeed)
    requires forall n :: 0 <= n < |t.groups| && t.groups[n].Some? ==> t.groups[n].value.alternateCount == 1
    ensures AllSingle(t.groups)
  {
    forall n | 0 <= n < |t.groups|
      ensures Single(t.groups[n])
    {
      assert GroupPlaced(t.groups, n);
      assert SettingDefined(t.groups[n].value, 0);
    }
  }

  /** The settings of a table with one in each group. */
  function OnlySettings(groups: Groups): (r: seq<Interface>)
    requires AllSingle(groups)
    ensures |r| == |groups| && forall n :: 0 <= n < |r| ==> r[n] == OnlySetting(groups[n])
  {
    seq(|groups|, n requires 0 <= n < |groups| => OnlySetting(groups[n]))
  }

  lemma WalkSettingsCons(bytes: seq<byte>, p: nat, active: seq<Interface>, zero: byte, after: seq<byte>, q: nat)
    requires active != [] && WalkSetting(bytes, p, active[0], zero) == Some((after, q))
    ensures WalkSettings(bytes, p, active, zero) == WalkSettings(after, q, active[1..], zero)
  {
    hide WalkSetting;
  }

  lemma WalkSettingsNil(bytes: seq<byte>, p: nat, zero: byte)
    ensures WalkSettings(bytes, p, [], zero) == Some(bytes)
  {
  }

  /** The bytes such a table prints, before and after the walk, start with those of its first setting. */
  lemma {:induction false} BytesCons(groups: Groups, zero: byte)
    requires AllSingle(groups) && GroupsIntact(groups) && groups != []
    ensures AllSingle(groups[1..]) && GroupsIntact(groups[1..])
    ensures var i, rest := OnlySetting(groups[0]), groups[1..];
            && Bytes(Printed(groups)) == Flatten(i.Printed()) + Bytes(Printed(rest))
            && Bytes(Printed(FasterGroups(groups, zero))) ==
               Flatten(Faster(i, zero).Printed()) + Bytes(Printed(FasterGroups(rest, zero)))
  {
    WalkCons(groups, zero);
    hide FasterGroups, Faster, Interface.Printed, Flatten, Printed, AllPrinted, Single;
    var i, rest := OnlySetting(groups[0]), groups[1..];
    FlattenConcat(i.Printed(), AllPrinted(Printed(rest)));
    FlattenConcat(Faster(i, zero).Printed(), AllPrinted(Printed(FasterGroups(rest, zero))));
  }

  lemma NoBytes(zero: byte)
    ensures Bytes(Printed([])) == Bytes(Printed(FasterGroups([], zero))) == [] && OnlySettings([]) == []
  {
  }

  lemma OnlyFilled(groups: Groups)
    requires AllSingle(groups) && groups != []
    ensures Filled(OnlySetting(groups[0]))
    ensures AllSingle(groups[1..]) && OnlySettings(groups) == [OnlySetting(groups[0])] + OnlySettings(groups[1..])
  {
    hide Filled;
    assert forall n :: 0 <= n < |groups[1..]| ==> groups[1..][n] == groups[n + 1];
  }

  /** Over the print of such a table the walk gives the print of the table with every interval rewritten. */
  lemma {:induction false} WalkAgrees(front: seq<byte>, groups: Groups, zero: byte)
    requires AllSingle(groups) && GroupsIntact(groups)
    ensures WalkSettings(front + Bytes(Printed(groups)), |front|, OnlySettings(groups), zero) ==
            Some(front + Bytes(Printed(FasterGroups(groups, zero))))
    decreases |groups|
  {
    hide FasterGroups, Faster, Filled, Interface.Printed, WalkSetting, WalkSettings, Flatten, Printed, Bytes;
    hide Single, OnlySettings, OnlySetting, GroupsIntact;
    if groups == [] {
      NoBytes(zero);
      assert front + [] == front;
      WalkSettingsNil(front, |front|, zero);
    } else {
      OnlyFilled(groups);
      BytesCons(groups, zero);
      var i, rest := OnlySetting(groups[0]), groups[1..];
      var x, y := Flatten(i.Printed()), Flatten(Faster(i, zero).Printed());
      var back := Bytes(Printed(rest));
      WalkSettingAgrees(front, i, back, zero);
      assert front + (x + back) == front + x + back;
      WalkSettingsCons(front + x + back, |front|, OnlySettings(groups), zero, front + y + back, |front + y|);
      WalkAgrees(front + y, rest, zero);
      var faster := Bytes(Printed(FasterGroups(rest, zero)));
      assert front + (y + faster) == front + y + faster;
    }
  }

  // ---------------------------------------------------------------- what changes

  lemma {:induction false} SameLengths(x: seq<Record>, y: seq<Record>)
    requires |x| == |y| && forall k :: 0 <= k < |x| ==> |x[k]| == |y[k]|
    ensures |Flatten(x)| == |Flatten(y)|
  {
    if x != [] {
      SameLengths(x[1..], y[1..]);
    }
  }

  /** The patched record is the original but for the interval byte of an endpoint record. */
  predicate OnlyInterval(x: Record, y: Record, zero: byte) {
    if Kind(x) == ENDPOINT_TYPE && |x| >= 7 then y == x[6 := NewInterval(x[6], zero)] else y == x
  }

  /** So it is record by record. */
  predicate OnlyIntervals(x: seq<Record>, y: seq<Record>, zero: byte) {
    |y| == |x| && forall k :: 0 <= k < |x| ==> OnlyInterval(x[k], y[k], zero)
  }

  lemma OnlyIntervalsConcat(x: seq<Record>, y: seq<Record>, u: seq<Record>, v: seq<Record>, zero: byte)
    requires |x| == |y|
    ensures OnlyIntervals(x + u, y + v, zero) <==> OnlyIntervals(x, y, zero) && OnlyIntervals(u, v, zero)
  {
    hide OnlyInterval;
    if OnlyIntervals(x + u, y + v, zero) {
      assert forall k :: 0 <= k < |x| ==> (x + u)[k] == x[k] && (y + v)[k] == y[k];
      assert forall k :: 0 <= k < |u| ==> (x + u)[|x| + k] == u[k] && (y + v)[|x| + k] == v[k];
    }
  }

  /** Record by record, the lengths are the same. */
  predicate SameShape(x: seq<Record>, y: seq<Record>) {
    |y| == |x| && forall k :: 0 <= k < |x| ==> |x[k]| == |y[k]|
  }

  /** An endpoint record the walk does not visit, but which would keep its interval if it did. */
  predicate Unmoved(r: Record, zero: byte) {
    Kind(r) == ENDPOINT_TYPE && |r| >= 7 ==> r[6] == 6 || r[6] == zero == 0
  }

  /** The walk visits the endpoint slots of a setting. It does no harm that it leaves out endpoint records kept
      elsewhere. */
  predicate StraysUnmoved(i: Interface, zero: byte) {
    (i.hid.Some? ==> Unmoved(i.hid.value, zero)) && forall k :: 0 <= k < |i.generics| ==> Unmoved(i.generics[k], zero)
  }

  lemma HeadUnmoved(i: Interface, zero: byte)
    requires Kind(i.descriptor) != ENDPOINT_TYPE
    ensures OnlyIntervals(Head(i), Head(i), zero) <==> StraysUnmoved(i, zero)
  {
    var h, g := [i.descriptor] + i.HidRecords(), i.generics;
    assert Head(i) == h + g;
    OnlyIntervalsConcat(h, h, g, g, zero);
    forall r: Record ensures OnlyIntervals([r], [r], zero) <==> Unmoved(r, zero) {
      OneUnmoved(r, zero);
    }
    ListUnmoved(g, zero);
    OnlyIntervalsConcat([i.descriptor], [i.descriptor], i.HidRecords(), i.HidRecords(), zero);
  }

  lemma OneUnmoved(r: Record, zero: byte)
    ensures OnlyIntervals([r], [r], zero) <==> Unmoved(r, zero)
  {
    hide NewInterval;
    assert [r][0] == r;
    if |r| >= 7 {
      IntervalFixed(r[6], zero);
      var u := r[6 := NewInterval(r[6], zero)];
      assert u[6] == NewInterval(r[6], zero);
      assert u[6] == r[6] ==> u == r;
    }
  }

  lemma {:induction false} ListUnmoved(rs: seq<Record>, zero: byte)
    ensures OnlyIntervals(rs, rs, zero) <==> forall k :: 0 <= k < |rs| ==> Unmoved(rs[k], zero)
  {
    hide Unmoved;
    if rs != [] {
      OneUnmoved(rs[0], zero);
      ListUnmoved(rs[1..], zero);
      OnlyIntervalsConcat([rs[0]], [rs[0]], rs[1..], rs[1..], zero);
      assert rs == [rs[0]] + rs[1..];
    }
  }

  /** For one setting: its print changes in the intervals of endpoint records, in all of them and in nothing else,
      exactly when the endpoint records it keeps outside its endpoint slots need no change. */
  lemma WalkOnSetting(i: Interface, zero: byte)
    requires Filled(i) && InterfaceDefined(i)
    ensures OnlyIntervals(i.Printed(), Faster(i, zero).Printed(), zero) <==> StraysUnmoved(i, zero)
    ensures SameShape(i.Printed(), Faster(i, zero).Printed())
  {
    PrintedFaster(i, zero);
    assert Kind(i.descriptor) == INTERFACE_TYPE;
    HeadUnmoved(i, zero);
    var eps := EndpointList(i);
    assert forall k :: 0 <= k < |eps| ==> EndpointDefined(i.endpoints[k].value) && i.endpoints[k].value == eps[k];
    hide NewInterval, Interface.Printed, Faster, StraysUnmoved, Filled, InterfaceDefined;
    assert OnlyIntervals(eps, FasterEndpoints(eps, zero), zero);
    OnlyIntervalsConcat(Head(i), Head(i), eps, FasterEndpoints(eps, zero), zero);
  }

  lemma SameShapeConcat(x: seq<Record>, y: seq<Record>, u: seq<Record>, v: seq<Record>)
    requires SameShape(x, y) && SameShape(u, v)
    ensures SameShape(x + u, y + v)
  {
  }

  predicate AllStraysUnmoved(groups: Groups, zero: byte)
    requires AllSingle(groups)
  {
    forall n :: 0 <= n < |groups| ==> StraysUnmoved(OnlySetting(groups[n]), zero)
  }

  lemma StraysCons(groups: Groups, zero: byte)
    requires AllSingle(groups) && groups != []
    ensures AllSingle(groups[1..])
    ensures AllStraysUnmoved(groups, zero) <==>
            StraysUnmoved(OnlySetting(groups[0]), zero) && AllStraysUnmoved(groups[1..], zero)
  {
    hide StraysUnmoved, Single, OnlySetting;
    assert groups == [groups[0]] + groups[1..];
  }

  /** What a table with one setting in each group prints, from its first setting on, before and after the walk. */
  lemma {:induction false} WalkCons(groups: Groups, zero: byte)
    requires AllSingle(groups) && GroupsIntact(groups) && groups != []
    ensures AllSingle(groups[1..]) && GroupsIntact(groups[1..])
    ensures var i, rest := OnlySetting(groups[0]), groups[1..];
            && AllPrinted(Printed(groups)) == i.Printed() + AllPrinted(Printed(rest))
            && AllPrinted(Printed(FasterGroups(groups, zero))) ==
               Faster(i, zero).Printed() + AllPrinted(Printed(FasterGroups(rest, zero)))
  {
    hide FasterGroup, Faster, Filled, Interface.Printed, Interface.Intact;
    var i := OnlySetting(groups[0]);
    var f := FasterGroups(groups, zero);
    assert f[1..] == FasterGroups(groups[1..], zero);
    FirstPrinted(groups, i);
    FasterIs(groups[0], zero);
    FirstPrinted(f, Faster(i, zero));
  }

  /** The same for a table with one setting in each group. */
  lemma {:induction false} WalkChanges(groups: Groups, zero: byte)
    requires AllSingle(groups) && GroupsIntact(groups)
    requires forall n :: 0 <= n < |groups| ==> InterfaceDefined(OnlySetting(groups[n]))
    ensures var x, y := AllPrinted(Printed(groups)), AllPrinted(Printed(FasterGroups(groups, zero)));
            (OnlyIntervals(x, y, zero) <==> AllStraysUnmoved(groups, zero)) && SameShape(x, y)
  {
    if groups == [] {
      NothingChanges(zero);
    } else {
      var rest := groups[1..];
      assert forall n :: 0 <= n < |rest| ==> rest[n] == groups[n + 1];
      WalkCons(groups, zero);
      StraysCons(groups, zero);
      hide FasterGroups, Faster, Filled, Interface.Printed, OnlyIntervals, StraysUnmoved, InterfaceDefined, Printed;
      hide AllPrinted;
      hide AllStraysUnmoved;
      WalkChanges(rest, zero);
      var i := OnlySetting(groups[0]);
      WalkOnSetting(i, zero);
      var x, y := AllPrinted(Printed(rest)), AllPrinted(Printed(FasterGroups(rest, zero)));
      OnlyIntervalsConcat(i.Printed(), Faster(i, zero).Printed(), x, y, zero);
      SameShapeConcat(i.Printed(), Faster(i, zero).Printed(), x, y);
    }
  }

  lemma NothingChanges(zero: byte)
    ensures OnlyIntervals([], [], zero)
  {
  }

  lemma FasterIs(slot: Option<Group>, zero: byte)
    requires Single(slot)
    ensures Single(slot) && FasterGroup(slot, zero).value.alternateCount == 1
    ensures FasterGroup(slot, zero).value.interfaces == [Some(Faster(OnlySetting(slot), zero))]
  {
  }

  lemma {:induction false} FirstPrinted(groups: Groups, i: Interface)
    requires GroupsIntact(groups) && groups != [] && groups[0].Some?
    requires groups[0].value.alternateCount == 1 && groups[0].value.interfaces[..1] == [Some(i)]
    ensures GroupsIntact(groups[1..])
    ensures AllPrinted(Printed(groups)) == i.Printed() + AllPrinted(Printed(groups[1..]))
  {
    hide Interface.Printed, Interface.Intact;
    assert groups[0].value.Visible() == [Some(i)];
    assert Present([Some(i)]) == [i];
    assert Printed(groups) == [i] + Printed(groups[1..]);
  }

  /** On a configuration that validates, at either speed, and has one alternate setting per interface, the walk rewrites
      the interval of every endpoint record once and nothing else, exactly when the endpoint records kept outside
      endpoint slots need no change. The length never changes. */
  lemma WalkOnDefined(t: Tree, highSpeed: bool, zero: byte)
    requires t.Intact() && TreeDefined(t, highSpeed)
    requires forall n :: 0 <= n < |t.groups| && t.groups[n].Some? ==> t.groups[n].value.alternateCount == 1
    ensures AllSingle(t.groups)
    ensures OnlyIntervals(AllPrinted(Printed(t.groups)), AllPrinted(Printed(FasterGroups(t.groups, zero))), zero) <==>
            AllStraysUnmoved(t.groups, zero)
    ensures |Bytes(Printed(FasterGroups(t.groups, zero)))| == |Bytes(Printed(t.groups))|
  {
    hide OnlyIntervals, Filled, InterfaceDefined, StraysUnmoved, Printed, AllPrinted, FasterGroups;
    DefinedSingle(t, highSpeed);
    forall n | 0 <= n < |t.groups| ensures InterfaceDefined(OnlySetting(t.groups[n])) {
      assert GroupPlaced(t.groups, n) && Single(t.groups[n]);
      assert SettingDefined(t.groups[n].value, 0);
    }
    WalkChanges(t.groups, zero);
    SameLengths(AllPrinted(Printed(t.groups)), AllPrinted(Printed(FasterGroups(t.groups, zero))));
  }

  // ---------------------------------------------------------------- the whole block

  const USB_BUFSIZE: nat := 7168

  /** The header as it is handed to gadgetfs: plain configuration type, no remote wakeup, and the printed length. */
  function PatchedHeader(d: ConfigDescriptor, length: nat): ConfigDescriptor {
    d[1 := CONFIG_TYPE][7 := d[7] - d[7] / 0x20 % 2 * 0x20][2 := U8(length)][3 := U8(length / 0x100)]
  }

  /** The rewritten header states the length it is given, and differs from the original in nothing else but the type and
      the remote-wakeup bit, which is off. */
  lemma HeaderRewritten(d: ConfigDescriptor, length: nat)
    requires length < 0x1_0000
    ensures var h := PatchedHeader(d, length);
            && Word(h[2], h[3]) == length && h[1] == CONFIG_TYPE
            && h[7] / 0x20 % 2 == 0 && (h[7] == d[7] || h[7] == d[7] - 0x20)
            && forall k :: 0 <= k < 9 && k !in {1, 2, 3, 7} ==> h[k] == d[k]
  {
  }

  /** What one configuration contributes to one of the two passes. */
  function Contribution(t: Tree, adjust: bool, zero: byte): (r: seq<byte>)
    requires t.Intact() && (adjust ==> AllSingle(t.groups))
  {
    PatchedHeader(t.descriptor, 9 + |Bytes(Printed(t.groups))|)
    + Bytes(Printed(if adjust then FasterGroups(t.groups, zero) else t.groups))
  }

  /** Slot by slot: what the configurations of one pass contribute. */
  function Pass(ts: seq<Option<Tree>>, adjust: bool, zero: byte): seq<byte>
    requires Sound(ts, adjust)
  {
    if ts == [] then []
    else
      Pass(ts[..|ts| - 1], adjust, zero) +
      (if ts[|ts| - 1].Some? then Contribution(ts[|ts| - 1].value, adjust, zero) else [])
  }

  lemma FasterShape(i: Interface, zero: byte)
    requires Filled(i)
    ensures |Flatten(Faster(i, zero).Printed())| == |Flatten(i.Printed())|
  {
    PrintedFaster(i, zero);
    hide Interface.Printed, Faster, NewInterval, Head;
    var eps := EndpointList(i);
    SameLengths(Head(i) + eps, Head(i) + FasterEndpoints(eps, zero));
  }

  lemma {:induction false} FasterBytes(groups: Groups, zero: byte)
    requires AllSingle(groups) && GroupsIntact(groups)
    ensures |Bytes(Printed(FasterGroups(groups, zero)))| == |Bytes(Printed(groups))|
    decreases |groups|
  {
    hide FasterGroups, Faster, Filled, Interface.Printed, Flatten, Printed, Bytes, Single, OnlySetting, GroupsIntact;
    if groups == [] {
      NoBytes(zero);
    } else {
      OnlyFilled(groups);
      BytesCons(groups, zero);
      FasterShape(OnlySetting(groups[0]), zero);
      FasterBytes(groups[1..], zero);
    }
  }

  /** A contribution says of itself how long it is, is a plain configuration without remote wakeup, and has the header
      it was made from besides. Behind the header it is what the configuration prints, or on an adjusted pass what the
      walk makes of that. */
  lemma ContributionStates(t: Tree, adjust: bool, zero: byte)
    requires t.Intact() && (adjust ==> AllSingle(t.groups))
    requires 9 + |Bytes(Printed(t.groups))| < 0x1_0000
    ensures var c, printed := Contribution(t, adjust, zero), Bytes(Printed(t.groups));
            && |c| == 9 + |printed| && Word(c[2], c[3]) == |c|
            && c[1] == CONFIG_TYPE && c[7] / 0x20 % 2 == 0
            && (c[7] == t.descriptor[7] || c[7] == t.descriptor[7] - 0x20)
            && (forall k :: 0 <= k < 9 && k !in {1, 2, 3, 7} ==> c[k] == t.descriptor[k])
            && (!adjust ==> c[9..] == printed)
            && (adjust ==>
                  WalkSettings(t.descriptor + printed, 9, OnlySettings(t.groups), zero) == Some(t.descriptor + c[9..]))
  {
    hide Bytes, Printed, FasterGroups, PatchedHeader, OnlySettings, WalkSettings, AllSingle;
    var printed: seq<byte> := Bytes(Printed(t.groups));
    HeaderRewritten(t.descriptor, 9 + |printed|);
    var h: seq<byte> := PatchedHeader(t.descriptor, 9 + |printed|);
    if adjust {
      FasterBytes(t.groups, zero);
      WalkAgrees(t.descriptor, t.groups, zero);
      assert (h + Bytes(Printed(FasterGroups(t.groups, zero))))[9..] == Bytes(Printed(FasterGroups(t.groups, zero)));
    } else {
      assert (h + printed)[9..] == printed;
    }
  }

  // ---------------------------------------------------------------- reading the block

  /** What the configurations there are contribute, one after the other. */
  function Contributions(ts: seq<Option<Tree>>, adjust: bool, zero: byte): seq<seq<byte>>
    requires Sound(ts, adjust)
  {
    if ts == [] then []
    else
      var last := |ts| - 1;
      if ts[last].Some? then Contributions(ts[..last], adjust, zero) + [Contribution(ts[last].value, adjust, zero)]
      else Contributions(ts[..last], adjust, zero)
  }

  /** Stepping through the bytes from `p` by the length each configuration states finds `cs` and ends at `end`. */
  predicate ReadsAs(bytes: seq<byte>, p: nat, cs: seq<seq<byte>>, end: nat)
    decreases |cs|
  {
    if cs == [] then p == end
    else
      && p + 4 <= |bytes|
      && var length := Word(bytes[p + 2], bytes[p + 3]);
         && p + length <= |bytes| && bytes[p..p + length] == cs[0]
         && ReadsAs(bytes, p + length, cs[1..], end)
  }

  /** The bytes state their own length. */
  predicate Measured(c: seq<byte>) {
    |c| >= 4 && Word(c[2], c[3]) == |c|
  }

  lemma {:induction false} MeasuredRead(front: seq<byte>, cs: seq<seq<byte>>, back: seq<byte>)
    requires forall k :: 0 <= k < |cs| ==> Measured(cs[k])
    ensures ReadsAs(front + Flatten(cs) + back, |front|, cs, |front + Flatten(cs)|)
    decreases |cs|
  {
    if cs != [] {
      hide Flatten, ReadsAs, Measured;
      var c, rest := cs[0], cs[1..];
      FlattenFirst(cs);
      var bytes := front + Flatten(cs) + back;
      assert bytes == front + c + Flatten(rest) + back && front + Flatten(cs) == front + c + Flatten(rest);
      assert bytes[|front|..|front| + |c|] == c;
      MeasuredRead(front + c, rest, back);
      ReadsCons(bytes, |front|, cs, |front + Flatten(cs)|);
    } else {
      assert front + Flatten(cs) == front;
    }
  }

  lemma ReadsCons(bytes: seq<byte>, p: nat, cs: seq<seq<byte>>, end: nat)
    requires cs != [] && Measured(cs[0]) && p + |cs[0]| <= |bytes| && bytes[p..p + |cs[0]|] == cs[0]
    requires ReadsAs(bytes, p + |cs[0]|, cs[1..], end)
    ensures ReadsAs(bytes, p, cs, end)
  {
    assert bytes[p + 2] == cs[0][2] && bytes[p + 3] == cs[0][3];
  }

  lemma FlattenFirst(cs: seq<seq<byte>>)
    requires cs != []
    ensures Flatten(cs) == cs[0] + Flatten(cs[1..])
  {
  }

  lemma {:induction false} PassFlat(ts: seq<Option<Tree>>, adjust: bool, zero: byte)
    requires Sound(ts, adjust) && |Pass(ts, adjust, zero)| < 0x1_0000
    ensures Flatten(Contributions(ts, adjust, zero)) == Pass(ts, adjust, zero)
    ensures forall k :: 0 <= k < |Contributions(ts, adjust, zero)| ==> Measured(Contributions(ts, adjust, zero)[k])
  {
    hide Contribution, Tree.Intact, AllSingle;
    if ts == [] {
      FlattenNil();
    } else {
      var last := |ts| - 1;
      PassFlat(ts[..last], adjust, zero);
      if ts[last].Some? {
        var c := Contribution(ts[last].value, adjust, zero);
        FlattenSnoc(Contributions(ts[..last], adjust, zero), c);
        ContributionMeasured(ts[last].value, adjust, zero);
      }
    }
  }

  lemma ContributionMeasured(t: Tree, adjust: bool, zero: byte)
    requires t.Intact() && (adjust ==> AllSingle(t.groups)) && |Contribution(t, adjust, zero)| < 0x1_0000
    ensures Measured(Contribution(t, adjust, zero))
  {
    hide Bytes, Printed, FasterGroups, AllSingle;
    if adjust {
      FasterBytes(t.groups, zero);
    }
    hide WalkSettings;
    ContributionStates(t, adjust, zero);
  }

  /** Two passes one after the other are read back as their contributions, by the lengths these state. */
  lemma BlockRead(front: seq<byte>, full: seq<Option<Tree>>, high: seq<Option<Tree>>, adjust: bool, zero: byte,
                  back: seq<byte>)
    requires Sound(full, false) && Sound(high, adjust)
    requires |Pass(full, false, zero)| < 0x1_0000 && |Pass(high, adjust, zero)| < 0x1_0000
    ensures var x, y := Pass(full, false, zero), Pass(high, adjust, zero);
            ReadsAs(front + x + y + back, |front|, Contributions(full, false, zero) + Contributions(high, adjust, zero),
                    |front + x + y|)
  {
    hide Pass, Contributions, Measured;
    PassFlat(full, false, zero);
    PassFlat(high, adjust, zero);
    var cs, ds := Contributions(full, false, zero), Contributions(high, adjust, zero);
    FlattenConcat(cs, ds);
    MeasuredRead(front, cs + ds, back);
    hide ReadsAs, Flatten;
    assert front + Flatten(cs + ds) == front + Flatten(cs) + Flatten(ds);
  }

  /** `cfg` is the object behind the tree `t`, and on an adjusted pass its active settings are its only ones. */
  ghost predicate Stands(cfg: Configuration?, t: Option<Tree>, adjust: bool)
    reads cfg, if cfg == null then {} else {cfg.groups}, if cfg == null then [] else cfg.groups[..]
  {
    if cfg == null then t.None?
    else
      && cfg.Valid() && t == Some(cfg.Value()) && t.value.Intact()
      && (adjust ==> AllSingle(t.value.groups)
                     && forall n :: 0 <= n < cfg.groups.Length ==>
                          cfg.groups[n] != null && cfg.groups[n].activeAlternateIndex == 0)
  }

  /** With one alternate setting in each group, which is active, the active settings are the only ones. */
  lemma SingleActive(cfg: Configuration)
    requires cfg.Valid() && AllSingle(cfg.Table())
    requires forall n :: 0 <= n < cfg.groups.Length ==> cfg.groups[n] != null && cfg.groups[n].activeAlternateIndex == 0
    ensures forall n :: 0 <= n < cfg.groups.Length ==> cfg.GetInterface(n).Some?
    ensures Active(cfg) == OnlySettings(cfg.Table())
  {
    hide Filled, Interface.Intact;
    forall n | 0 <= n < cfg.groups.Length ensures cfg.GetInterface(n) == Some(OnlySetting(cfg.Table()[n])) {
      assert Single(cfg.Table()[n]) && cfg.Table()[n] == cfg.Slot(n);
    }
  }

  method PatchHeader(buf: array<byte>, length: nat)
    requires buf.Length >= 9
    modifies buf
    ensures buf[..9] == PatchedHeader(old(buf[..9]), length) && buf[9..] == old(buf[9..])
    ensures buf[0] == old(buf[0]) && buf[4] == old(buf[4])
  {
    buf[1] := CONFIG_TYPE;
    buf[7] := buf[7] - buf[7] / 0x20 % 2 * 0x20;
    buf[2], buf[3] := U8(length), U8(length / 0x100);
  }

  /** One configuration of a pass: print it, patch the header, and on an adjusted pass walk the endpoints. */
  method Contribute(cfg: Configuration, adjust: bool, zero: byte, ghost t: Tree) returns (buf: array<byte>)
    requires Stands(cfg, Some(t), adjust)
    ensures fresh(buf) && Stands(cfg, Some(t), adjust)
    ensures t.Intact() && (adjust ==> AllSingle(t.groups)) && buf[..] == Contribution(t, adjust, zero)
  {
    hide Bytes, Printed, FasterGroups, Single, PatchedHeader, WalkSettings;
    var length := cfg.GetFullDescriptorLength();
    buf := cfg.GetFullDescriptor();
    ghost var printed := Bytes(Printed(t.groups));
    assert buf[..9] == t.descriptor && buf[9..] == printed;
    PatchHeader(buf, length);
    assert buf[..] == buf[..9] + buf[9..];
    if adjust {
      ghost var header := buf[..9];
      SingleActive(cfg);
      WalkAgrees(header, t.groups, zero);
      PatchIntervals(cfg, buf, zero);
    }
  }

  ghost predicate AllStand(cfgs: seq<Configuration?>, ts: seq<Option<Tree>>, adjust: bool)
    reads cfgs,
          set k | 0 <= k < |cfgs| && cfgs[k] != null :: cfgs[k].groups,
          set k, m | 0 <= k < |cfgs| && cfgs[k] != null && 0 <= m < cfgs[k].groups.Length :: cfgs[k].groups[m]
  {
    && |cfgs| == |ts|
    && forall k :: 0 <= k < |cfgs| ==> Stands(cfgs[k], ts[k], adjust)
  }

  /** The trees of one pass can all be printed and, if asked, adjusted. */
  predicate Sound(ts: seq<Option<Tree>>, adjust: bool) {
    forall k :: 0 <= k < |ts| && ts[k].Some? ==> ts[k].value.Intact() && (adjust ==> AllSingle(ts[k].value.groups))
  }

  lemma PassStep(ts: seq<Option<Tree>>, k: nat, adjust: bool, zero: byte)
    requires Sound(ts, adjust) && k < |ts|
    ensures Pass(ts[..k + 1], adjust, zero) ==
            if ts[k].Some? then Pass(ts[..k], adjust, zero) + Contribution(ts[k].value, adjust, zero)
            else Pass(ts[..k], adjust, zero)
  {
    hide Contribution, Tree.Intact, AllSingle;
    var part := ts[..k + 1];
    assert part[..|part| - 1] == ts[..k] && part[|part| - 1] == ts[k];
  }

  lemma {:induction false} PassBound(ts: seq<Option<Tree>>, k: nat, adjust: bool, zero: byte)
    requires Sound(ts, adjust) && k <= |ts|
    ensures |Pass(ts[..k], adjust, zero)| <= |Pass(ts, adjust, zero)|
    decreases |ts| - k
  {
    hide Contribution, Tree.Intact, AllSingle;
    if k == |ts| {
      assert ts[..k] == ts;
    } else {
      PassStep(ts, k, adjust, zero);
      PassBound(ts, k + 1, adjust, zero);
    }
  }

  /** One of the two loops: every configuration there is appends its contribution at the cursor. */
  method RunPass(cfgs: seq<Configuration?>, adjust: bool, zero: byte, descriptor: array<byte>, start: nat,
                 ghost ts: seq<Option<Tree>>)
    returns (ptr: nat)
    requires AllStand(cfgs, ts, adjust) && Sound(ts, adjust)
    requires start + |Pass(ts, adjust, zero)| <= descriptor.Length
    modifies descriptor
    ensures ptr == start + |Pass(ts, adjust, zero)|
    ensures descriptor[..] == Overwrite(old(descriptor[..]), start, Pass(ts, adjust, zero))
    ensures AllStand(cfgs, ts, adjust)
  {
    hide Contribution, Tree.Intact, AllSingle, Overwrite, Pass, Stands;
    ghost var before := descriptor[..];
    ptr := start;
    NothingPassed(ts, adjust, zero);
    OverwriteNothing(before, start);
    for k := 0 to |cfgs|
      invariant AllStand(cfgs, ts, adjust)
      invariant ptr == start + |Pass(ts[..k], adjust, zero)| <= descriptor.Length
      invariant descriptor[..] == Overwrite(before, start, Pass(ts[..k], adjust, zero))
    {
      PassStep(ts, k, adjust, zero);
      PassBound(ts, k + 1, adjust, zero);
      StandsNull(cfgs[k], ts[k], adjust);
      if cfgs[k] != null {
        var buf := Contribute(cfgs[k], adjust, zero, ts[k].value);
        OverwriteMore(before, start, Pass(ts[..k], adjust, zero), buf[..]);
        Memcpy(descriptor, ptr, buf[..]);
        ptr := ptr + buf.Length;
      }
    }
    assert ts[..|ts|] == ts;
  }

  lemma NothingPassed(ts: seq<Option<Tree>>, adjust: bool, zero: byte)
    ensures Pass(ts[..0], adjust, zero) == []
  {
  }

  lemma StandsNull(cfg: Configuration?, t: Option<Tree>, adjust: bool)
    requires Stands(cfg, t, adjust)
    ensures cfg == null <==> t.None?
    ensures t.Some? ==> Stands(cfg, Some(t.value), adjust)
  {
  }

  /** `generate_descriptor`: four zero bytes, the configurations at full speed, the configurations at high speed, and
      the 18 bytes of the device descriptor. `qualifier` lists the configurations at the other speed, if the device has
      any; both lists are as long as the device descriptor says. Only a device that is not itself high speed has its
      intervals rewritten. */
  method GenerateDescriptor(device: seq<byte>, highSpeed: bool, cfgs: seq<Configuration?>,
                            qualifier: Option<seq<Configuration?>>, zero: byte,
                            ghost fullTrees: seq<Option<Tree>>, ghost highTrees: seq<Option<Tree>>)
    returns (descriptor: array<byte>)
    requires |device| == 18 && |cfgs| == device[17] && (qualifier.Some? ==> |qualifier.value| == device[17])
    requires AllStand(if highSpeed && qualifier.Some? then qualifier.value else cfgs, fullTrees, false)
    requires AllStand(if !highSpeed && qualifier.Some? then qualifier.value else cfgs, highTrees, !highSpeed)
    requires Sound(fullTrees, false) && Sound(highTrees, !highSpeed)
    requires 4 + |Pass(fullTrees, false, zero)| + |Pass(highTrees, !highSpeed, zero)| + 18 <= USB_BUFSIZE
    ensures fresh(descriptor)
    ensures descriptor[..] ==
            [0, 0, 0, 0] + Pass(fullTrees, false, zero) + Pass(highTrees, !highSpeed, zero) + device
    ensures ReadsAs(descriptor[..], 4, Contributions(fullTrees, false, zero)
            + Contributions(highTrees, !highSpeed, zero),
                    descriptor.Length - 18)
  {
    hide Pass, AllStand, Overwrite, ReadsAs, Contributions, Sound;
    BlockRead([0, 0, 0, 0], fullTrees, highTrees, !highSpeed, zero, device);
    ghost var first, second := Pass(fullTrees, false, zero), Pass(highTrees, !highSpeed, zero);
    var scratch := new byte[USB_BUFSIZE];
    ghost var before := scratch[..];
    Memcpy(scratch, 0, [0, 0, 0, 0]);
    var ptr := 4;
    OverwriteMore(before, 0, [0, 0, 0, 0], first);
    ptr := RunPass(
      if highSpeed && qualifier.Some? then qualifier.value else cfgs, false, zero, scratch, ptr, fullTrees);
    OverwriteMore(before, 0, [0, 0, 0, 0] + first, second);
    ptr := RunPass(if !highSpeed && qualifier.Some? then qualifier.value else cfgs, !highSpeed, zero, scratch, ptr,
                   highTrees);
    OverwriteMore(before, 0, [0, 0, 0, 0] + first + second, device);
    Memcpy(scratch, ptr, device);
    ptr := ptr + 18;
    OverwritePrefix(before, [0, 0, 0, 0] + first + second + device);
    descriptor := new byte[ptr](k requires 0 <= k < ptr reads scratch => scratch[k]);
    assert descriptor[..] == scratch[..ptr];
  }

  lemma OverwritePrefix(buf: seq<byte>, bytes: seq<byte>)
    requires |bytes| <= |buf|
    ensures Overwrite(buf, 0, bytes)[..|bytes|] == bytes
  {
  }
}
