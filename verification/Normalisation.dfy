/** Parsing a chain and printing the result: what order the records come out in, and whether any is lost. */
module Normalisation {
  import opened Wire
  import opened Records
  import opened Interfaces
  import opened InterfaceGroups
  import opened Configurations
  import opened Placement
  import opened RoundTrip

  /** The chain printed after parsing `rs` into a table of `n` groups. */
  function Normal(rs: seq<Record>, n: nat): seq<Record>
    requires ParsableChain(rs, n)
  {
    AllPrinted(Printed(ParsedGroups(rs, n)))
  }

  // ---------------------------------------------------------------- order

  predicate Before(x: Interface, y: Interface) {
    x.Number() < y.Number() || (x.Number() == y.Number() && x.Alternate() < y.Alternate())
  }

  /** By interface number, then by alternate setting, each pair at most once. */
  predicate InKeyOrder(ss: seq<Interface>) {
    forall j, k :: 0 <= j < k < |ss| ==> Before(ss[j], ss[k])
  }

  lemma {:induction false} PresentInOrder(table: seq<Option<Interface>>, n: nat)
    requires KeyedBy(table, n)
    ensures InKeyOrder(Present(table))
    ensures forall j :: 0 <= j < |Present(table)| ==>
              Present(table)[j].Number() == n && Present(table)[j].Alternate() < |table|
  {
    if table != [] {
      var k := |table| - 1;
      assert table == table[..k + 1] && KeyedBy(table[..k], n);
      PresentSnoc(table, k);
      PresentInOrder(table[..k], n);
      hide Present;
    }
  }

  /** What a placed table prints is in key order. */
  lemma {:induction false} PrintedInOrder(t: Groups)
    requires Placed(t)
    ensures InKeyOrder(Printed(t))
    ensures forall j :: 0 <= j < |Printed(t)| ==> Printed(t)[j].Number() < |t|
  {
    hide Interface.Intact, Placed, At, KeyedBy, Present;
    PlacedIntact(t);
    if t != [] {
      var n := |t| - 1;
      PlacedFront(t, n);
      PlacedIntact(t[..n]);
      PrintedInOrder(t[..n]);
      assert t == t[..n] + [t[n]];
      PrintedConcat(t[..n], [t[n]]);
      var last := if t[n].Some? then t[n].value.Printed() else [];
      assert Printed([t[n]]) == last + [] == last;
      if t[n].Some? {
        PlacedKeyed(t, n);
        PresentInOrder(t[n].value.Visible(), n);
      }
      hide Printed;
    }
  }

  lemma NoGroupsPlaced(n: nat)
    ensures Placed(NoGroups(n))
  {
  }

  lemma ParsedPlaced(rs: seq<Record>, n: nat)
    requires ParsableChain(rs, n)
    ensures Placed(ParsedGroups(rs, n))
  {
    NoGroupsPlaced(n);
    PlacedAddAll(NoGroups(n), Parsed(Blocks(rs), n));
  }

  /** The normal form prints the parsed settings by interface number and alternate setting. */
  lemma NormalOrder(rs: seq<Record>, n: nat)
    requires ParsableChain(rs, n)
    ensures Normal(rs, n) == AllPrinted(Printed(ParsedGroups(rs, n)))
    ensures InKeyOrder(Printed(ParsedGroups(rs, n)))
  {
    ParsedPlaced(rs, n);
    PrintedInOrder(ParsedGroups(rs, n));
  }

  // ---------------------------------------------------------------- loss

  /** The records a table prints. */
  function Recs(t: Groups): seq<Record>
    requires GroupsIntact(t)
  {
    AllPrinted(Printed(t))
  }

  /** The setting finds its slot empty, and its alternate number has a successor that fits a byte. */
  predicate FindsRoom(t: Groups, i: Interface)
    requires GroupsIntact(t) && i.Number() < |t|
  {
    i.Alternate() < 0xff && At(t, i.Number(), i.Alternate()).None?
  }

  /** Appending to a group keeps all it printed; replacing a setting, or overflowing the count, loses at least one
      record. */
  lemma GroupGain(g: Group, i: Interface)
    requires g.Intact() && i.Intact()
    ensures var was, now := AllPrinted(g.Printed()), AllPrinted(Add(g, i).Printed());
            if i.Alternate() < 0xff && g.GetInterface(i.Alternate()).None?
            then multiset(now) == multiset(was) + multiset(i.Printed())
            else |now| < |was| + |i.Printed()|
  {
    hide Interface.Intact, Interface.Printed;
    var a := i.Alternate();
    var table := g.Visible();
    if a >= g.alternateCount {
      if a < 0xff {
        var gap: seq<Option<Interface>> := seq(a - g.alternateCount, _ => None);
        assert Add(g, i).Visible() == table + (gap + [Some(i)]);
        hide Group.Intact, Add;
        AppendSlot(table, gap, i);
      } else {
        assert Add(g, i).Visible() == [];
        PrintsSome(i);
      }
    } else {
      assert table[a] == g.interfaces[a];
      assert Add(g, i).Visible() == table[a := Some(i)];
      hide Group.Intact, Add;
      ReplaceSlot(table, a, i);
    }
  }

  lemma AppendSlot(table: seq<Option<Interface>>, gap: seq<Option<Interface>>, i: Interface)
    requires forall k :: 0 <= k < |gap| ==> gap[k].None?
    ensures AllPrinted(Present(table + (gap + [Some(i)]))) == AllPrinted(Present(table)) + i.Printed()
  {
    hide Interface.Printed;
    assert Present([Some(i)]) == [i];
    assert AllPrinted([i]) == i.Printed() + [] == i.Printed();
    hide Present, AllPrinted;
    PresentConcat(table, gap + [Some(i)]);
    PresentConcat(gap, [Some(i)]);
    PresentNone(gap);
    assert [] + [i] == [i];
    AllPrintedConcat(Present(table), [i]);
  }

  lemma PrintsSome(i: Interface)
    ensures |i.Printed()| >= 1
  {
  }

  lemma ReplaceSlot(table: seq<Option<Interface>>, a: nat, i: Interface)
    requires a < |table|
    ensures var was, now := AllPrinted(Present(table)), AllPrinted(Present(table[a := Some(i)]));
            if table[a].None? then multiset(now) == multiset(was) + multiset(i.Printed())
            else |now| < |was| + |i.Printed()|
  {
    hide Interface.Printed;
    var front, back := table[..a], table[a + 1..];
    var prior := if table[a].Some? then [table[a].value] else [];
    assert table == front + ([table[a]] + back);
    assert table[a := Some(i)] == front + ([Some(i)] + back);
    PresentConcat(front, [table[a]] + back);
    PresentConcat([table[a]], back);
    PresentConcat(front, [Some(i)] + back);
    PresentConcat([Some(i)], back);
    assert Present([table[a]]) == prior && Present([Some(i)]) == [i];
    hide Present;
    PrintedMiddle(Present(front), prior, Present(back));
    PrintedMiddle(Present(front), [i], Present(back));
    PrintedOne(i);
    if table[a].Some? {
      PrintedOne(table[a].value);
    }
  }

  lemma PrintedOne(i: Interface)
    ensures AllPrinted([i]) == i.Printed() && |i.Printed()| >= 1
  {
    assert AllPrinted([i]) == i.Printed() + [] == i.Printed();
  }

  lemma PrintedMiddle(x: seq<Interface>, m: seq<Interface>, y: seq<Interface>)
    ensures AllPrinted(x + (m + y)) == AllPrinted(x) + (AllPrinted(m) + AllPrinted(y))
  {
    AllPrintedConcat(x, m + y);
    AllPrintedConcat(m, y);
  }

  /** What one slot of a table prints. */
  function SlotRecs(slot: Option<Group>): seq<Record>
    requires slot.Some? ==> slot.value.Intact()
  {
    if slot.Some? then AllPrinted(slot.value.Printed()) else []
  }

  lemma RecsAround(front: Groups, slot: Option<Group>, back: Groups)
    requires GroupsIntact(front) && GroupsIntact(back) && (slot.Some? ==> slot.value.Intact())
    ensures GroupsIntact(front + ([slot] + back))
    ensures Recs(front + ([slot] + back)) == Recs(front) + (SlotRecs(slot) + Recs(back))
  {
    hide Group.Intact, Group.Printed;
    PrintedConcat(front, [slot] + back);
    PrintedConcat([slot], back);
    var one := if slot.Some? then slot.value.Printed() else [];
    assert Printed([slot]) == one + [] == one;
    assert AllPrinted(one) == SlotRecs(slot);
    hide Printed;
    PrintedMiddle(Printed(front), one, Printed(back));
  }

  /** The same for a whole table. */
  lemma TableGain(t: Groups, i: Interface)
    requires GroupsIntact(t) && i.Intact() && i.Number() < |t|
    ensures var was, now := Recs(t), Recs(WithInterface(t, i));
            if FindsRoom(t, i) then multiset(now) == multiset(was) + multiset(i.Printed())
            else |now| < |was| + |i.Printed()|
  {
    hide Interface.Intact, Group.Intact, WithInterface, Add, Group.Printed, Group.GetInterface, FindsRoom, Recs;
    hide AllPrinted, SlotRecs;
    var g := GroupOf(t, i);
    var n := i.Number();
    GroupGain(g, i);
    var front, back := t[..n], t[n + 1..];
    SplitAround(t, n, Some(Add(g, i)));
    RecsAround(front, t[n], back);
    RecsAround(front, Some(Add(g, i)), back);
    SlotRecsSome(Add(g, i));
  }

  lemma SlotRecsSome(g: Group)
    requires g.Intact()
    ensures SlotRecs(Some(g)) == AllPrinted(g.Printed())
  {
  }

  /** The group that receives the setting. */
  lemma GroupOf(t: Groups, i: Interface) returns (g: Group)
    requires GroupsIntact(t) && i.Intact() && i.Number() < |t|
    ensures g.Intact() && WithInterface(t, i) == t[i.Number() := Some(Add(g, i))]
    ensures t[i.Number()].Some? ==> t[i.Number()].value.Intact()
    ensures SlotRecs(t[i.Number()]) == AllPrinted(g.Printed())
    ensures FindsRoom(t, i) <==> i.Alternate() < 0xff && g.GetInterface(i.Alternate()).None?
  {
    hide Interface.Intact;
    var n := i.Number();
    g := if t[n].Some? then t[n].value else Group(n, 0, []);
  }

  /** Every setting of the list finds room when its turn comes. */
  predicate AllFindRoom(t: Groups, ss: seq<Interface>)
    requires GroupsIntact(t) && Fit(ss, |t|)
    decreases |ss|
  {
    ss == [] || (FindsRoom(t, ss[0]) && AllFindRoom(WithInterface(t, ss[0]), ss[1..]))
  }

  lemma {:induction false} ListGain(t: Groups, ss: seq<Interface>)
    requires GroupsIntact(t) && Fit(ss, |t|)
    ensures var was, now := Recs(t), Recs(AddAll(t, ss));
            if AllFindRoom(t, ss) then multiset(now) == multiset(was) + multiset(AllPrinted(ss))
            else |now| < |was| + |AllPrinted(ss)|
    decreases |ss|
  {
    hide Interface.Intact, GroupsIntact, WithInterface, FindsRoom, Interface.Printed, Recs;
    if ss != [] {
      TableGain(t, ss[0]);
      var u := WithInterface(t, ss[0]);
      ListGain(u, ss[1..]);
      hide AllFindRoom;
      var was, mid, now, x, y := Recs(t), Recs(u), Recs(AddAll(t, ss)), ss[0].Printed(), AllPrinted(ss[1..]);
      assert AllPrinted(ss) == x + y;
      if AllFindRoom(t, ss) {
        RoomCons(t, ss);
        assert multiset(now) == (multiset(was) + multiset(x)) + multiset(y);
      } else {
        RoomCons(t, ss);
        if FindsRoom(t, ss[0]) {
          assert |mid| == |was| + |x| by { SameSize(mid, was + x); }
        } else if AllFindRoom(u, ss[1..]) {
          assert |now| == |mid| + |y| by { SameSize(now, mid + y); }
        }
      }
    }
  }

  lemma RoomCons(t: Groups, ss: seq<Interface>)
    requires GroupsIntact(t) && Fit(ss, |t|) && ss != []
    ensures Fit(ss[1..], |t|)
    ensures AllFindRoom(t, ss) <==> FindsRoom(t, ss[0]) && AllFindRoom(WithInterface(t, ss[0]), ss[1..])
  {
  }

  lemma SameSize(x: seq<Record>, y: seq<Record>)
    requires multiset(x) == multiset(y)
    ensures |x| == |y|
  {
    assert |multiset(x)| == |x| && |multiset(y)| == |y|;
  }

  predicate DistinctKeys(ss: seq<Interface>) {
    forall j, k :: 0 <= j < k < |ss| ==> ss[j].Key() != ss[k].Key()
  }

  /** Finding room one by one means distinct slots, all free at the start, none at alternate number 255. */
  lemma {:induction false} AllFindRoomIff(t: Groups, ss: seq<Interface>)
    requires GroupsIntact(t) && Fit(ss, |t|)
    ensures AllFindRoom(t, ss) <==>
              NoWrap(ss) && DistinctKeys(ss) && forall k :: 0 <= k < |ss| ==> FindsRoom(t, ss[k])
    decreases |ss|
  {
    hide Interface.Intact, GroupsIntact, WithInterface, At, AllFindRoom;
    if ss == [] {
      assert AllFindRoom(t, ss) by { RoomNil(t); }
    } else {
      RoomCons(t, ss);
      AllFindRoomIff(WithInterface(t, ss[0]), ss[1..]);
      if ss[0].Alternate() < 0xff {
        forall k | 1 <= k < |ss|
          ensures FindsRoom(WithInterface(t, ss[0]), ss[k]) <==> FindsRoom(t, ss[k]) && ss[0].Key() != ss[k].Key()
        {
          AtWithInterface(t, ss[0], ss[k].Number(), ss[k].Alternate());
        }
        assert forall k :: 1 <= k < |ss| ==> ss[k] == ss[1..][k - 1];
      }
    }
  }

  lemma RoomNil(t: Groups)
    requires GroupsIntact(t)
    ensures AllFindRoom(t, [])
  {
  }

  /** A setting keeps one HID record, the last one of its body. */
  predicate OneHid(b: Block) {
    |OfKind(b.body, HID_TYPE)| <= 1
  }

  /** Putting the parts of a block in another order keeps its records, unless a HID record is left out. */
  lemma PartsGain(head: Record, lead: seq<Record>, body: seq<Record>, kept: seq<Record>,
                  hids: seq<Record>, gens: seq<Record>, eps: seq<Record>)
    requires multiset(body) == multiset(gens) + multiset(hids) + multiset(eps)
    requires |body| == |gens| + |hids| + |eps|
    requires if |hids| <= 1 then kept == hids else |kept| == 1
    ensures var was, now := lead + [head] + body, [head] + kept + (lead + gens) + eps;
            if |hids| <= 1 then multiset(now) == multiset(was) else |now| < |was|
  {
  }

  lemma PartsOf(b: Block)
    requires b.Parsable()
    ensures var i, hids := InterfaceOf(b), OfKind(b.body, HID_TYPE);
            && i.Printed() == [b.head] + i.HidRecords() + (b.lead + Generics(b.body)) + OfKind(b.body, ENDPOINT_TYPE)
            && if |hids| <= 1 then i.HidRecords() == hids else |i.HidRecords()| == 1
  {
    PresentSlots(b.head[4], OfKind(b.body, ENDPOINT_TYPE));
    hide OfKind, Generics, Present, Slots;
  }

  /** Parsing a block keeps all of its records but the HID records that a later one replaces. */
  lemma BlockGain(b: Block)
    requires b.Parsable()
    ensures var was, now := b.Records(), InterfaceOf(b).Printed();
            if OneHid(b) then multiset(now) == multiset(was) else |now| < |was|
  {
    PartsOf(b);
    KindsPartition(b.body);
    hide OfKind, Generics, InterfaceOf, Interface.Printed, Interface.HidRecords, Block.Parsable;
    PartsGain(b.head, b.lead, b.body, InterfaceOf(b).HidRecords(),
              OfKind(b.body, HID_TYPE), Generics(b.body), OfKind(b.body, ENDPOINT_TYPE));
  }

  /** All records of a list of blocks. */
  function BlockRecords(bs: seq<Block>): seq<Record> {
    if bs == [] then [] else bs[0].Records() + BlockRecords(bs[1..])
  }

  lemma {:induction false} BlocksCover(rs: seq<Record>)
    requires Complete(rs)
    ensures BlockRecords(Blocks(rs)) == rs
    decreases |rs|
  {
    if rs != [] {
      var after := FirstBlock(rs);
      BlocksCover(after);
      hide Blocks;
      var b := Blocks(rs)[0];
      assert rs == b.Records() + after;
    }
  }

  predicate AllOneHid(bs: seq<Block>) {
    forall k :: 0 <= k < |bs| ==> OneHid(bs[k])
  }

  lemma {:induction false} BlocksGain(bs: seq<Block>, n: nat)
    requires ParsableAll(bs, n)
    ensures var was, now := BlockRecords(bs), AllPrinted(Parsed(bs, n));
            if AllOneHid(bs) then multiset(now) == multiset(was) else |now| < |was|
  {
    hide InterfaceOf, Block.Parsable, Block.Records, Interface.Printed, OneHid, AllWellFormed;
    if bs != [] {
      var b, rest := bs[0], bs[1..];
      BlockGain(b);
      BlocksGain(rest, n);
      assert AllOneHid(bs) <==> OneHid(b) && AllOneHid(rest) by {
        assert bs == [b] + rest;
      }
      var x, x', y, y' := b.Records(), InterfaceOf(b).Printed(), BlockRecords(rest), AllPrinted(Parsed(rest, n));
      assert BlockRecords(bs) == x + y && AllPrinted(Parsed(bs, n)) == x' + y';
      hide BlockRecords, AllPrinted, Parsed, AllOneHid;
      if OneHid(b) {
        SameSize(x', x);
      }
      if AllOneHid(rest) {
        SameSize(y', y);
      }
    }
  }

  // ---------------------------------------------------------------- the permutation theorem

  /** A block's (interface number, alternate setting). */
  function BlockKey(b: Block): (byte, byte)
    requires |b.head| == 9
  {
    (b.head[2], b.head[3])
  }

  /** No record is dropped: every block has at most one HID record, the (number, alternate) pairs are distinct, and none
      has alternate setting 255. */
  predicate LossFree(rs: seq<Record>, n: nat)
    requires ParsableChain(rs, n)
  {
    var bs := Blocks(rs);
    && AllOneHid(bs)
    && (forall k :: 0 <= k < |bs| ==> bs[k].head[3] < 0xff)
    && forall j, k :: 0 <= j < k < |bs| ==> BlockKey(bs[j]) != BlockKey(bs[k])
  }

  lemma ParsedKeys(bs: seq<Block>, n: nat)
    requires ParsableAll(bs, n)
    ensures forall k :: 0 <= k < |bs| ==> bs[k].Parsable() && Parsed(bs, n)[k].Key() == BlockKey(bs[k])
  {
    forall k | 0 <= k < |bs|
      ensures bs[k].Parsable() && Parsed(bs, n)[k].Key() == BlockKey(bs[k])
    {
      ParsedIs(bs, n, k);
    }
  }

  /** Loss-free means every setting finds room in the empty table, and keeps all its records. */
  lemma LossFreeIff(rs: seq<Record>, n: nat)
    requires ParsableChain(rs, n)
    ensures LossFree(rs, n) <==> AllOneHid(Blocks(rs)) && AllFindRoom(NoGroups(n), Parsed(Blocks(rs), n))
  {
    hide Interface.Intact, Block.Parsable, Blocks, Complete, AllFindRoom, AllWellFormed, AllOneHid, OneHid;
    var bs := Blocks(rs);
    var ss := Parsed(bs, n);
    ParsedKeys(bs, n);
    hide Parsed;
    AllFindRoomIff(NoGroups(n), ss);
    assert forall k :: 0 <= k < |ss| && ss[k].Alternate() < 0xff ==> FindsRoom(NoGroups(n), ss[k]);
  }

  /** Parsing and printing a chain permutes its records exactly when the chain is loss-free; otherwise records are
      lost. */
  lemma Permutation(rs: seq<Record>, n: nat)
    requires ParsableChain(rs, n)
    ensures multiset(Normal(rs, n)) == multiset(rs) <==> LossFree(rs, n)
    ensures !LossFree(rs, n) ==> |Normal(rs, n)| < |rs|
  {
    LossFreeIff(rs, n);
    NoRecs(n);
    ListGain(NoGroups(n), Parsed(Blocks(rs), n));
    BlocksGain(Blocks(rs), n);
    BlocksCover(rs);
    NormalIs(rs, n);
    hide Blocks, AllFindRoom, AllOneHid, Parsed, AllPrinted, Recs, Normal, LossFree, AddAll, BlockRecords, Fit;
    var listed, now := AllPrinted(Parsed(Blocks(rs), n)), Normal(rs, n);
    if AllFindRoom(NoGroups(n), Parsed(Blocks(rs), n)) {
      SameSize(now, listed);
    }
    if AllOneHid(Blocks(rs)) {
      SameSize(listed, rs);
    }
    if multiset(now) == multiset(rs) {
      SameSize(now, rs);
    }
  }

  lemma NormalIs(rs: seq<Record>, n: nat)
    requires ParsableChain(rs, n)
    ensures Normal(rs, n) == Recs(AddAll(NoGroups(n), Parsed(Blocks(rs), n)))
  {
  }

  lemma {:induction false} NoRecs(n: nat)
    ensures Recs(NoGroups(n)) == []
  {
    if n > 0 {
      NoRecs(n - 1);
      assert NoGroups(n)[1..] == NoGroups(n - 1);
    }
  }

  function Without(y: seq<Record>, k: nat): (r: seq<Record>)
    requires k < |y|
    ensures |r| == |y| - 1
  {
    y[..k] + y[k + 1..]
  }

  lemma DropOne(y: seq<Record>, k: nat)
    requires k < |y|
    ensures multiset(Without(y, k)) == multiset(y) - multiset{y[k]}
    ensures |Flatten(y)| == |y[k]| + |Flatten(Without(y, k))|
  {
    SplitAround(y, k, y[k]);
    FlattenConcat(y[..k], y[k + 1..]);
    FlattenConcat(y[..k], [y[k]] + y[k + 1..]);
    FlattenConcat([y[k]], y[k + 1..]);
    assert Flatten([y[k]]) == y[k] + [] == y[k];
  }

  /** Permuting records keeps the total number of bytes. */
  lemma {:induction false} SameTotal(x: seq<Record>, y: seq<Record>)
    requires multiset(x) == multiset(y)
    ensures |Flatten(x)| == |Flatten(y)|
    decreases |x|
  {
    hide Without;
    SameSize(x, y);
    if x != [] {
      assert x[0] in multiset(y);
      var k :| 0 <= k < |y| && y[k] == x[0];
      hide Flatten;
      DropOne(y, k);
      DropOne(x, 0);
      SameTotal(Without(x, 0), Without(y, k));
    }
  }

  lemma LossFreeTotal(rs: seq<Record>, n: nat)
    requires ParsableChain(rs, n) && LossFree(rs, n)
    ensures |Flatten(Normal(rs, n))| == |Flatten(rs)|
  {
    Permutation(rs, n);
    SameTotal(Normal(rs, n), rs);
  }
}
