/** Normalising a chain that was already normalised. */
module Idempotence {
  import opened Wire
  import opened Records
  import opened Interfaces
  import opened InterfaceGroups
  import opened Configurations
  import opened Placement
  import opened RoundTrip
  import opened Normalisation

  /** The setting read back from what `i` prints. */
  function Reparse(i: Interface): (r: Interface)
    ensures r.Key() == i.Key()
  {
    if PrintedBlock(i).Parsable() then InterfaceOf(PrintedBlock(i)) else i
  }

  function Rewritten(ss: seq<Interface>): (r: seq<Interface>)
    ensures |r| == |ss|
    ensures forall k :: 0 <= k < |ss| ==> r[k] == Reparse(ss[k])
  {
    if ss == [] then [] else [Reparse(ss[0])] + Rewritten(ss[1..])
  }

  function Redone(x: Option<Interface>): Option<Interface> {
    if x.None? then None else Some(Reparse(x.value))
  }

  lemma {:induction false} RewrittenConcat(x: seq<Interface>, y: seq<Interface>)
    ensures Rewritten(x + y) == Rewritten(x) + Rewritten(y)
  {
    hide Reparse;
    assert |Rewritten(x + y)| == |Rewritten(x) + Rewritten(y)|;
    assert forall k :: 0 <= k < |x + y| ==> Rewritten(x + y)[k] == (Rewritten(x) + Rewritten(y))[k];
  }

  // ---------------------------------------------------------------- settings that are read back in place

  /** Tables whose slots show corresponding settings print corresponding lists. */
  lemma {:induction false} PresentRedone(x: seq<Option<Interface>>, y: seq<Option<Interface>>)
    requires forall k :: 0 <= k < |x| || 0 <= k < |y| ==>
               (if k < |y| then y[k] else None) == Redone(if k < |x| then x[k] else None)
    ensures Present(y) == Rewritten(Present(x))
  {
    hide Reparse;
    if x == [] {
      assert forall k :: 0 <= k < |y| ==> y[k] == None;
      PresentNone(y);
    } else if y == [] {
      assert forall k :: 0 <= k < |x| ==> x[k] == None;
      PresentNone(x);
    } else {
      var x', y' := x[1..], y[1..];
      forall k | 0 <= k < |x'| || 0 <= k < |y'|
        ensures (if k < |y'| then y'[k] else None) == Redone(if k < |x'| then x'[k] else None)
      {
        assert (if k + 1 < |y| then y[k + 1] else None) == Redone(if k + 1 < |x| then x[k + 1] else None);
      }
      PresentRedone(x', y');
      assert y[0] == Redone(x[0]);
    }
  }

  lemma {:induction false} PrintedRedone(t: Groups, u: Groups)
    requires GroupsIntact(t) && GroupsIntact(u) && |t| == |u|
    requires forall n: nat, a: byte :: n < |t| ==> At(u, n, a) == Redone(At(t, n, a))
    ensures Printed(u) == Rewritten(Printed(t))
  {
    hide Interface.Intact, Reparse;
    if t != [] {
      forall n: nat, a: byte | n < |t| - 1
        ensures At(u[1..], n, a) == Redone(At(t[1..], n, a))
      {
        assert At(u, n + 1, a) == Redone(At(t, n + 1, a));
      }
      PrintedRedone(t[1..], u[1..]);
      SlotRedone(t, u);
      hide Rewritten, Redone, At, GroupsIntact;
      RewrittenConcat(SlotPrinted(t[0]), Printed(t[1..]));
    }
  }

  function SlotPrinted(slot: Option<Group>): seq<Interface>
    requires slot.Some? ==> slot.value.Intact()
  {
    if slot.Some? then slot.value.Printed() else []
  }

  function SlotTable(slot: Option<Group>): seq<Option<Interface>>
    requires slot.Some? ==> slot.value.Intact()
  {
    if slot.Some? then slot.value.Visible() else []
  }

  lemma SlotRedone(t: Groups, u: Groups)
    requires GroupsIntact(t) && GroupsIntact(u) && |t| == |u| && t != []
    requires forall n: nat, a: byte :: n < |t| ==> At(u, n, a) == Redone(At(t, n, a))
    ensures SlotPrinted(u[0]) == Rewritten(SlotPrinted(t[0]))
  {
    hide Interface.Intact, Reparse;
    var x, y := SlotTable(t[0]), SlotTable(u[0]);
    forall k | 0 <= k < |x| || 0 <= k < |y|
      ensures (if k < |y| then y[k] else None) == Redone(if k < |x| then x[k] else None)
    {
      assert At(u, 0, k) == Redone(At(t, 0, k));
    }
    PresentRedone(x, y);
    assert SlotPrinted(t[0]) == Present(x) && SlotPrinted(u[0]) == Present(y);
  }

  lemma {:induction false} LastWithRewritten(ss: seq<Interface>, n: nat, a: byte)
    ensures LastWith(Rewritten(ss), n, a) == Redone(LastWith(ss, n, a))
  {
    hide Reparse;
    if ss != [] {
      LastWithRewritten(ss[1..], n, a);
      assert Rewritten(ss)[1..] == Rewritten(ss[1..]);
    }
  }

  lemma {:induction false} ParsedRewritten(ss: seq<Interface>, n: nat)
    ensures ParsableAll(PrintedBlocks(ss), n) ==> Parsed(PrintedBlocks(ss), n) == Rewritten(ss)
  {
    hide InterfaceOf, PrintedBlock, Block.Parsable;
    if ss != [] && ParsableAll(PrintedBlocks(ss), n) {
      var bs := PrintedBlocks(ss);
      assert bs[1..] == PrintedBlocks(ss[1..]);
      ParsedRewritten(ss[1..], n);
      assert Parsed(bs, n) == [InterfaceOf(bs[0])] + Parsed(bs[1..], n);
    }
  }

  /** What the parser makes of any block is clean. */
  lemma ParsedClean(b: Block)
    requires b.Parsable() && AllWellFormed(b.Records()) && Kind(b.head) == INTERFACE_TYPE
    requires forall r :: r in b.lead + b.body ==> Kind(r) != INTERFACE_TYPE
    ensures Clean(InterfaceOf(b))
  {
    InterfaceOfIntact(b);
    OfKindAll(b.body, HID_TYPE);
    OfKindAll(b.body, ENDPOINT_TYPE);
    GenericsAll(b.body);
    hide Interface.Intact, AllWellFormed, OfKind, Generics;
    var i := InterfaceOf(b);
    var g := b.lead + Generics(b.body);
    assert forall r :: r in g ==> Kind(r) != INTERFACE_TYPE;
  }

  lemma PrintedClean(rs: seq<Record>, n: nat)
    requires ParsableChain(rs, n)
    ensures AllClean(Printed(ParsedGroups(rs, n)))
    ensures forall i :: i in Printed(ParsedGroups(rs, n)) ==> i in Parsed(Blocks(rs), n)
  {
    hide Interface.Intact, Block.Parsable, Blocks, Parsed, Complete, AllWellFormed, InterfaceOf, Clean, ParsedGroups;
    var t := ParsedGroups(rs, n);
    forall i | i in Printed(t)
      ensures Clean(i) && i in Parsed(Blocks(rs), n)
    {
      PrintedWasParsed(rs, n, i);
    }
  }

  lemma PrintedWasParsed(rs: seq<Record>, n: nat, i: Interface)
    requires ParsableChain(rs, n) && i in Printed(ParsedGroups(rs, n))
    ensures Clean(i) && i in Parsed(Blocks(rs), n)
  {
    hide Interface.Intact, Block.Parsable, Blocks, Parsed, Complete, AllWellFormed, InterfaceOf, Clean;
    var bs := Blocks(rs);
    var ss := Parsed(bs, n);
    var m, a := PrintedShown(ParsedGroups(rs, n), i);
    ShownWasAdded(NoGroups(n), ss, m, a);
    assert At(NoGroups(n), m, a) == None;
    var k :| 0 <= k < |ss| && ss[k] == i;
    ParsedIs(bs, n, k);
    BlockShapes(rs);
    LeadKinds(rs);
    ParsedClean(bs[k]);
  }

  lemma LeadKinds(rs: seq<Record>)
    ensures forall r :: r in Lead(rs) ==> Kind(r) != INTERFACE_TYPE
  {
  }

  /** The second pass: every printed setting is read back into its own slot. */
  lemma SecondPass(rs: seq<Record>, n: nat)
    requires ParsableChain(rs, n) && ParsableChain(Normal(rs, n), n)
    ensures var ss := Printed(ParsedGroups(rs, n));
            && Printed(ParsedGroups(Normal(rs, n), n)) == Rewritten(ss)
            && Normal(Normal(rs, n), n) == AllPrinted(Rewritten(ss))
  {
    hide Interface.Intact, Block.Parsable, Blocks, Complete, AllWellFormed, Clean, Redone, Placed, At, Rewritten;
    hide ParsableAll, Fit, NoWrap, PrintedBlocks;
    var t := ParsedGroups(rs, n);
    var ss := Printed(t);
    PrintedClean(rs, n);
    BlocksOfPrinted(ss);
    ParsedRewritten(ss, n);
    ParsedPlaced(rs, n);
    var u := ParsedGroups(Normal(rs, n), n);
    RewrittenNoWrap(t);
    forall m: nat, a: byte | m < n
      ensures At(u, m, a) == Redone(At(t, m, a))
    {
      AtAddAll(NoGroups(n), Rewritten(ss), m, a);
      ShowingLast(Rewritten(ss), m, a, None);
      LastWithRewritten(ss, m, a);
      LastWithPrinted(t, m, a);
      NothingAt(n, m, a);
    }
    PrintedRedone(t, u);
  }

  lemma NothingAt(n: nat, m: nat, a: byte)
    requires m < n
    ensures At(NoGroups(n), m, a) == None == Redone(None)
  {
  }

  lemma RewrittenNoWrap(t: Groups)
    requires Placed(t)
    ensures NoWrap(Rewritten(Printed(t)))
  {
    hide Interface.Intact, Placed;
    PlacedIntact(t);
    var ss := Printed(t);
    forall k | 0 <= k < |ss|
      ensures Rewritten(ss)[k].Alternate() < 0xff
    {
      var m, a := PrintedShown(t, ss[k]);
      PlacedKeyed(t, m);
      assert Rewritten(ss)[k].Key() == ss[k].Key();
    }
  }

  // ---------------------------------------------------------------- which settings print the same again

  /** A HID record comes first or not at all, and nothing else comes after an endpoint record. */
  predicate InOrder(x: seq<Record>) {
    && (forall k :: 0 < k < |x| ==> Kind(x[k]) != HID_TYPE)
    && forall j, k :: 0 <= j < k < |x| && Kind(x[j]) == ENDPOINT_TYPE ==> Kind(x[k]) == ENDPOINT_TYPE
  }

  function AsList(x: Option<Record>): seq<Record> {
    if x.Some? then [x.value] else []
  }

  /** What a list of records becomes when it is read back and printed: the last HID record, the generic ones, the
      endpoints. */
  function Sorted(x: seq<Record>): seq<Record> {
    AsList(LastOf(OfKind(x, HID_TYPE))) + Generics(x) + OfKind(x, ENDPOINT_TYPE)
  }

  lemma SortedSize(x: seq<Record>)
    ensures |Sorted(x)| <= |x|
  {
    KindsPartition(x);
  }

  lemma {:induction false} NoHidSorted(x: seq<Record>)
    requires InOrder(x) && (forall k :: 0 <= k < |x| ==> Kind(x[k]) != HID_TYPE)
    ensures OfKind(x, HID_TYPE) == [] && Generics(x) + OfKind(x, ENDPOINT_TYPE) == x
  {
    if x != [] {
      var y := x[1..];
      assert forall k :: 0 <= k < |y| ==> y[k] == x[k + 1];
      NoHidSorted(y);
      assert x == [x[0]] + y;
      if Kind(x[0]) == ENDPOINT_TYPE {
        assert forall r :: r in y ==> Kind(r) == ENDPOINT_TYPE;
        GenericsAll(y);
        assert Generics(x) == [];
      }
    }
  }

  lemma HidFirstSorted(h: Record, y: seq<Record>)
    requires Kind(h) == HID_TYPE
    requires OfKind(y, HID_TYPE) == [] && Generics(y) + OfKind(y, ENDPOINT_TYPE) == y
    ensures Sorted([h] + y) == [h] + y
  {
    var x := [h] + y;
    assert x[1..] == y;
    assert OfKind(x, HID_TYPE) == [h] + OfKind(y, HID_TYPE) == [h];
    assert Generics(x) == Generics(y) && OfKind(x, ENDPOINT_TYPE) == OfKind(y, ENDPOINT_TYPE);
    hide OfKind, Generics, Kind;
    assert Sorted(x) == [h] + (Generics(y) + OfKind(y, ENDPOINT_TYPE));
  }

  lemma SortedInOrder(x: seq<Record>)
    requires InOrder(x)
    ensures Sorted(x) == x
  {
    hide OfKind, Generics;
    if x != [] && Kind(x[0]) == HID_TYPE {
      var y := x[1..];
      assert forall k :: 0 <= k < |y| ==> y[k] == x[k + 1];
      NoHidSorted(y);
      HidFirstSorted(x[0], y);
      assert x == [x[0]] + y;
    } else {
      NoHidSorted(x);
      assert [] + Generics(x) == Generics(x);
    }
  }

  lemma InOrderSorted(x: seq<Record>)
    ensures InOrder(Sorted(x))
  {
    OfKindAll(x, HID_TYPE);
    OfKindAll(x, ENDPOINT_TYPE);
    GenericsAll(x);
    hide OfKind, Generics, Kind;
    var h, g, e := AsList(LastOf(OfKind(x, HID_TYPE))), Generics(x), OfKind(x, ENDPOINT_TYPE);
    assert |h| <= 1 && forall k :: 0 <= k < |h| ==> Kind(h[k]) == HID_TYPE;
    assert forall k :: 0 <= k < |g| ==> IsGeneric(g[k]);
    var s := h + g + e;
    forall k | 0 < k < |s|
      ensures Kind(s[k]) != HID_TYPE
    {
      assert s[k] in g || s[k] in e;
    }
    forall j, k | 0 <= j < k < |s| && Kind(s[j]) == ENDPOINT_TYPE
      ensures Kind(s[k]) == ENDPOINT_TYPE
    {
      assert s[k] == e[k - |h| - |g|];
    }
  }

  /** A list is in order exactly when reading it back and printing it changes nothing. */
  lemma SortedIff(x: seq<Record>)
    ensures Sorted(x) == x <==> InOrder(x)
  {
    hide Sorted, InOrder;
    if InOrder(x) {
      SortedInOrder(x);
    }
    InOrderSorted(x);
  }

  /** What a setting prints between its interface record and its endpoints. */
  function Extras(i: Interface): seq<Record> {
    i.HidRecords() + i.generics
  }

  lemma ReparseExtras(i: Interface)
    requires Clean(i) && PrintedBlock(i).Parsable()
    ensures Reparse(i).Printed() == [i.descriptor] + Sorted(Extras(i)) + Present(i.endpoints)
    ensures i.Printed() == [i.descriptor] + Extras(i) + Present(i.endpoints)
    ensures Reparse(i).generics == Generics(i.generics)
  {
    hide Clean, OfKind, Generics, Present, Slots, Block.Parsable, PrintedBlock, Kind, Reparse, Interface.Intact;
    hide InterfaceOf;
    ReparsedLists(i);
    HidLists(i);
    ReparsedFields(i);
    var r, x := Reparse(i), Extras(i);
    assert i.Printed() == [i.descriptor] + x + Present(i.endpoints);
    assert r.HidRecords() == AsList(LastOf(OfKind(x, HID_TYPE)));
    assert Present(r.endpoints) == OfKind(x, ENDPOINT_TYPE) + Present(i.endpoints);
  }

  lemma ReparsedFields(i: Interface)
    requires PrintedBlock(i).Parsable()
    ensures var r := Reparse(i);
            var body := PrintedBlock(i).body;
            && r.descriptor == i.descriptor && r.hid == LastOf(OfKind(body, HID_TYPE))
            && r.generics == Generics(body)
            && |OfKind(body, ENDPOINT_TYPE)| <= i.descriptor[4]
            && r.endpoints == Slots(i.descriptor[4], OfKind(body, ENDPOINT_TYPE))
            && Present(r.endpoints) == OfKind(body, ENDPOINT_TYPE)
  {
    PresentSlots(i.descriptor[4], OfKind(PrintedBlock(i).body, ENDPOINT_TYPE));
    assert [] + Generics(PrintedBlock(i).body) == Generics(PrintedBlock(i).body);
  }

  lemma HidLists(i: Interface)
    requires Clean(i)
    ensures var x := Extras(i);
            && OfKind(x, HID_TYPE) == i.HidRecords() + OfKind(i.generics, HID_TYPE)
            && OfKind(x, ENDPOINT_TYPE) == OfKind(i.generics, ENDPOINT_TYPE)
            && Generics(x) == Generics(i.generics)
  {
    var h, g := i.HidRecords(), i.generics;
    OfKindConcat(h, g, HID_TYPE);
    OfKindConcat(h, g, ENDPOINT_TYPE);
    GenericsConcat(h, g);
    hide Interface.Intact;
    OfKindAll(h, HID_TYPE);
    OfKindAll(h, ENDPOINT_TYPE);
    GenericsAll(h);
  }

  /** Printing a setting again gives the same records exactly when its extras are in order, and never more. */
  lemma ReparseIff(i: Interface)
    requires Clean(i) && PrintedBlock(i).Parsable()
    ensures Reparse(i).Printed() == i.Printed() <==> InOrder(Extras(i))
    ensures |Reparse(i).Printed()| <= |i.Printed()|
  {
    hide Clean, Reparse, Interface.Printed, Sorted, InOrder, Extras, Block.Parsable;
    ReparseExtras(i);
    SortedIff(Extras(i));
    SortedSize(Extras(i));
    var d, s, x, e := [i.descriptor], Sorted(Extras(i)), Extras(i), Present(i.endpoints);
    if d + s + e == d + x + e {
      assert |s| == |x|;
      assert s == (d + s + e)[1..1 + |s|];
      assert x == (d + x + e)[1..1 + |x|];
    }
  }

  predicate AllInOrder(ss: seq<Interface>) {
    forall k :: 0 <= k < |ss| ==> InOrder(Extras(ss[k]))
  }

  lemma PartsNoLonger(x: seq<Record>, y: seq<Record>, x': seq<Record>, y': seq<Record>)
    requires |x'| <= |x| && |y'| <= |y|
    ensures x' + y' == x + y <==> x' == x && y' == y
  {
    if x' + y' == x + y {
      assert |x' + y'| == |x + y|;
      assert x' == (x' + y')[..|x'|] && x == (x + y)[..|x|];
      assert y' == (x' + y')[|x'|..] && y == (x + y)[|x|..];
    }
  }

  lemma AllInOrderCons(ss: seq<Interface>)
    requires ss != []
    ensures AllInOrder(ss) <==> InOrder(Extras(ss[0])) && AllInOrder(ss[1..])
  {
    hide InOrder, Extras;
    assert ss == [ss[0]] + ss[1..];
  }

  lemma {:induction false} RewrittenIff(ss: seq<Interface>)
    requires AllClean(ss) && forall k :: 0 <= k < |ss| ==> PrintedBlock(ss[k]).Parsable()
    ensures AllPrinted(Rewritten(ss)) == AllPrinted(ss) <==> AllInOrder(ss)
    ensures |AllPrinted(Rewritten(ss))| <= |AllPrinted(ss)|
  {
    hide Clean, Reparse, Interface.Printed, InOrder, Extras, Block.Parsable, PrintedBlock, AllInOrder;
    if ss == [] {
      assert AllInOrder([]) by { NoneOutOfOrder(); }
    } else {
      ReparseIff(ss[0]);
      RewrittenIff(ss[1..]);
      AllInOrderCons(ss);
      var x, y := ss[0].Printed(), AllPrinted(ss[1..]);
      var x', y' := Reparse(ss[0]).Printed(), AllPrinted(Rewritten(ss[1..]));
      assert Rewritten(ss)[1..] == Rewritten(ss[1..]);
      assert AllPrinted(Rewritten(ss)) == x' + y' && AllPrinted(ss) == x + y;
      PartsNoLonger(x, y, x', y');
    }
  }

  lemma NoneOutOfOrder()
    ensures AllInOrder([])
  {
  }

  // ---------------------------------------------------------------- whether the second pass is possible

  /** What the first block of a chain prints between its interface record and its endpoints: its HID record, the records
      that came before its interface record, and the generic ones after it. */
  function FirstExtras(b: Block): seq<Record> {
    AsList(LastOf(OfKind(b.body, HID_TYPE))) + b.lead + Generics(b.body)
  }

  /** The block's leading endpoint records, which will be read back into the endpoint array, have the size of an
      endpoint descriptor and find room there besides the others. */
  predicate Rereadable(b: Block)
    requires |b.head| == 9
  {
    && (forall r :: r in OfKind(b.lead, ENDPOINT_TYPE) ==> |r| == 7)
    && |OfKind(b.lead, ENDPOINT_TYPE)| + |OfKind(b.body, ENDPOINT_TYPE)| <= b.head[4]
  }

  /** There is a first block, and no later one takes its place or makes its group's count wrap. */
  predicate FirstKept(rs: seq<Record>, n: nat)
    requires ParsableChain(rs, n)
  {
    var bs := Blocks(rs);
    && bs != [] && bs[0].head[3] < 0xff
    && forall j :: 0 < j < |bs| && bs[j].head[2] == bs[0].head[2] ==>
         bs[j].head[3] != bs[0].head[3] && bs[j].head[3] < 0xff
  }

  lemma HeadSizes(bs: seq<Block>, n: nat)
    requires ParsableAll(bs, n)
    ensures forall k :: 0 <= k < |bs| ==> |bs[k].head| == 9
  {
  }

  lemma KeptStays(rs: seq<Record>, n: nat)
    requires ParsableChain(rs, n)
    ensures FirstKept(rs, n) <==> Stays(Parsed(Blocks(rs), n), 0)
  {
    hide Interface.Intact, Block.Parsable, Blocks, Complete, AllWellFormed, InterfaceOf;
    var bs := Blocks(rs);
    ParsedKeys(bs, n);
    hide Parsed;
    var ss := Parsed(bs, n);
    HeadSizes(bs, n);
    assert forall k :: 0 <= k < |ss| ==> ss[k].Key() == BlockKey(bs[k]);
  }

  /** The records of a block that are read back into the endpoint array: those in front of the interface record come
      first. */
  lemma RereadLists(b: Block)
    requires b.Parsable() && Clean(InterfaceOf(b))
    ensures var i := InterfaceOf(b);
            && OfKind(PrintedBlock(i).body, ENDPOINT_TYPE) ==
                OfKind(b.lead, ENDPOINT_TYPE) + OfKind(b.body, ENDPOINT_TYPE)
            && |Generics(PrintedBlock(i).body)| < 0x100
  {
    var i, gens := InterfaceOf(b), Generics(b.body);
    ReparsedLists(i);
    PresentSlots(b.head[4], OfKind(b.body, ENDPOINT_TYPE));
    OfKindConcat(b.lead, gens, ENDPOINT_TYPE);
    GenericsAll(b.body);
    OfKindAll(gens, ENDPOINT_TYPE);
    GenericsFewer(i.generics);
    hide OfKind, Generics, Present, Slots, Clean, Kind, Interface.Intact;
    var lead := OfKind(b.lead, ENDPOINT_TYPE);
    assert lead + [] == lead;
  }

  /** A parsed setting can be read back exactly when its block is rereadable. */
  lemma ReadableAgain(b: Block)
    requires b.Parsable() && AllWellFormed(b.Records()) && Kind(b.head) == INTERFACE_TYPE
    requires forall r :: r in b.lead + b.body ==> Kind(r) != INTERFACE_TYPE
    ensures PrintedBlock(InterfaceOf(b)).Parsable() <==> Rereadable(b)
  {
    ParsedClean(b);
    RereadLists(b);
    hide OfKind, Generics, Clean, Kind, AllWellFormed, Interface.Intact, Present, Slots;
    var i := InterfaceOf(b);
    var body := PrintedBlock(i).body;
    var lead, eps := OfKind(b.lead, ENDPOINT_TYPE), OfKind(b.body, ENDPOINT_TYPE);
    assert [] + Generics(body) == Generics(body);
    assert forall r :: r in lead + eps <==> r in lead || r in eps;
  }

  lemma {:induction false} GenericsFewer(rs: seq<Record>)
    ensures |Generics(rs)| <= |rs|
  {
    if rs != [] {
      GenericsFewer(rs[1..]);
    }
  }

  /** Every printed setting was parsed from a block that stays. */
  lemma PrintedStays(rs: seq<Record>, n: nat, i: Interface) returns (k: nat)
    requires ParsableChain(rs, n) && i in Printed(ParsedGroups(rs, n))
    ensures k < |Blocks(rs)| && Parsed(Blocks(rs), n)[k] == i && Stays(Parsed(Blocks(rs), n), k)
  {
    hide Interface.Intact, Block.Parsable, Blocks, Parsed, Complete, AllWellFormed, Stays;
    var ss := Parsed(Blocks(rs), n);
    var m, a := PrintedShown(ParsedGroups(rs, n), i);
    AtAddAll(NoGroups(n), ss, m, a);
    k := ShownStays(ss, m, a, None);
  }

  /** And every block that stays is printed. */
  lemma StaysPrinted(rs: seq<Record>, n: nat, k: nat)
    requires ParsableChain(rs, n) && Stays(Parsed(Blocks(rs), n), k)
    ensures Parsed(Blocks(rs), n)[k] in Printed(ParsedGroups(rs, n))
  {
    hide Interface.Intact, Block.Parsable, Blocks, Parsed, Complete, AllWellFormed;
    var ss := Parsed(Blocks(rs), n);
    var m, a := ss[k].Number(), ss[k].Alternate();
    StaysShown(ss, k, None);
    AtAddAll(NoGroups(n), ss, m, a);
    ShownPrinted(ParsedGroups(rs, n), m, a);
  }

  /** What can be said of a setting from its block alone. Only the first block can have records in front of its
      interface record, and without them everything is well. */
  lemma BlockFacts(rs: seq<Record>, n: nat, k: nat)
    requires ParsableChain(rs, n) && k < |Blocks(rs)|
    ensures var b, i := Blocks(rs)[k], Parsed(Blocks(rs), n)[k];
            && |b.head| == 9
            && (PrintedBlock(i).Parsable() <==> Rereadable(b))
            && (InOrder(Extras(i)) <==> InOrder(FirstExtras(b)))
            && (k > 0 || Lead(rs) == [] ==> Rereadable(b) && InOrder(FirstExtras(b)))
  {
    hide Interface.Intact, InOrder, AllWellFormed, Blocks, Block.Parsable, Extras, FirstExtras, InterfaceOf, Complete;
    hide Rereadable;
    var b := Blocks(rs)[k];
    ParsedIs(Blocks(rs), n, k);
    BlockShapes(rs);
    LeadKinds(rs);
    ReadableAgain(b);
    ExtrasOf(b);
    if b.lead == [] {
      PureInOrder(b);
      PureRereadable(b);
    }
    assert |b.head| == 9 by { ParsableHead(b); }
  }

  lemma ParsableHead(b: Block)
    requires b.Parsable()
    ensures |b.head| == 9
  {
  }

  lemma PureRereadable(b: Block)
    requires b.Parsable() && b.lead == []
    ensures Rereadable(b)
  {
  }

  /** The normal form is a chain the parser can read exactly when each of its settings can be read back. */
  lemma NormalParsable(rs: seq<Record>, n: nat)
    requires ParsableChain(rs, n)
    ensures ParsableChain(Normal(rs, n), n) <==>
            forall i :: i in Printed(ParsedGroups(rs, n)) ==> PrintedBlock(i).Parsable()
  {
    hide ParsableChain, Clean, Block.Parsable, PrintedBlock, ParsedGroups, Printed;
    var ss := Printed(ParsedGroups(rs, n));
    PrintedClean(rs, n);
    PrintedNumbers(rs, n);
    if ParsableChain(Normal(rs, n), n) {
      SecondParsable(rs, n);
    }
    if forall i :: i in ss ==> PrintedBlock(i).Parsable() {
      ParsableWhole(ss, n);
    }
  }

  /** The second pass is possible exactly when the first block is rereadable, or not there to be read back. */
  lemma SecondPassPossible(rs: seq<Record>, n: nat)
    requires ParsableChain(rs, n)
    ensures FirstKept(rs, n) ==> |Blocks(rs)[0].head| == 9
    ensures ParsableChain(Normal(rs, n), n) <==> (FirstKept(rs, n) ==> Rereadable(Blocks(rs)[0]))
  {
    NormalParsable(rs, n);
    KeptStays(rs, n);
    hide ParsableChain, Block.Parsable, PrintedBlock, ParsedGroups, Printed, Blocks, Parsed, Rereadable, Stays, InOrder;
    hide Extras;
    hide FirstExtras, Normal;
    var ss, all := Printed(ParsedGroups(rs, n)), Parsed(Blocks(rs), n);
    if FirstKept(rs, n) {
      StaysPrinted(rs, n, 0);
      BlockFacts(rs, n, 0);
    }
    if FirstKept(rs, n) ==> Rereadable(Blocks(rs)[0]) {
      forall i | i in ss ensures PrintedBlock(i).Parsable() {
        var k := PrintedStays(rs, n, i);
        BlockFacts(rs, n, k);
      }
    }
  }

  // ---------------------------------------------------------------- the theorems

  lemma SecondParsable(rs: seq<Record>, n: nat)
    requires ParsableChain(rs, n) && ParsableChain(Normal(rs, n), n)
    ensures var ss := Printed(ParsedGroups(rs, n));
            AllClean(ss) && forall k :: 0 <= k < |ss| ==> PrintedBlock(ss[k]).Parsable()
  {
    hide Interface.Intact, Block.Parsable, Blocks, Complete, AllWellFormed, Clean, ParsedGroups;
    var ss := Printed(ParsedGroups(rs, n));
    PrintedClean(rs, n);
    BlocksOfPrinted(ss);
    forall k | 0 <= k < |ss|
      ensures PrintedBlock(ss[k]).Parsable()
    {
      assert Blocks(Normal(rs, n))[k].Parsable();
    }
  }

  /** Where the second pass is possible, it changes nothing exactly when every printed setting has its extras in order.
      */
  lemma SecondPassSame(rs: seq<Record>, n: nat)
    requires ParsableChain(rs, n) && ParsableChain(Normal(rs, n), n)
    ensures Normal(Normal(rs, n), n) == Normal(rs, n) <==> AllInOrder(Printed(ParsedGroups(rs, n)))
  {
    hide ParsableChain, Clean, AllInOrder, Block.Parsable, PrintedBlock;
    SecondParsable(rs, n);
    SecondPass(rs, n);
    RewrittenIff(Printed(ParsedGroups(rs, n)));
  }

  lemma AllInOrderIff(rs: seq<Record>, n: nat)
    requires ParsableChain(rs, n)
    ensures AllInOrder(Printed(ParsedGroups(rs, n))) <==> (FirstKept(rs, n) ==> InOrder(FirstExtras(Blocks(rs)[0])))
  {
    KeptStays(rs, n);
    hide ParsableChain, Block.Parsable, PrintedBlock, ParsedGroups, Printed, Blocks, Parsed, Rereadable, Stays, InOrder;
    hide Extras;
    hide FirstExtras;
    var ss, all := Printed(ParsedGroups(rs, n)), Parsed(Blocks(rs), n);
    if FirstKept(rs, n) {
      StaysPrinted(rs, n, 0);
      BlockFacts(rs, n, 0);
    }
    if FirstKept(rs, n) ==> InOrder(FirstExtras(Blocks(rs)[0])) {
      forall k | 0 <= k < |ss| ensures InOrder(Extras(ss[k])) {
        var j := PrintedStays(rs, n, ss[k]);
        BlockFacts(rs, n, j);
      }
    }
  }

  /** For every chain: normalising its normal form is possible, and changes nothing, exactly when the records in front
      of the first interface record do no harm. They do none if a later block takes the first one's place; if not, the
      endpoint records among them must be rereadable, and put between the block's HID record and its generic records
      they must be in order. */
  lemma NormalTwice(rs: seq<Record>, n: nat)
    requires ParsableChain(rs, n)
    ensures ParsableChain(Normal(rs, n), n) && Normal(Normal(rs, n), n) == Normal(rs, n) <==>
            (FirstKept(rs, n) ==> Rereadable(Blocks(rs)[0]) && InOrder(FirstExtras(Blocks(rs)[0])))
  {
    SecondPassPossible(rs, n);
    AllInOrderIff(rs, n);
    hide ParsableChain, FirstKept, Rereadable, InOrder, AllInOrder, Normal, Blocks, ParsedGroups, Printed, FirstExtras;
    if ParsableChain(Normal(rs, n), n) {
      SecondPassSame(rs, n);
    }
  }

  /** A chain that begins with an interface record is normalised by one pass, whatever records it loses. */
  lemma CleanTwice(rs: seq<Record>, n: nat)
    requires ParsableChain(rs, n) && Lead(rs) == []
    ensures ParsableChain(Normal(rs, n), n) && Normal(Normal(rs, n), n) == Normal(rs, n)
  {
    hide Rereadable, InOrder, Normal, Blocks, Parsed, ParsedGroups, FirstExtras, Block.Parsable, Printed, Complete;
    hide AllWellFormed;
    NormalTwice(rs, n);
    if FirstKept(rs, n) {
      BlockFacts(rs, n, 0);
    }
  }

  /** Settings that were read back once carry only generic records among their generic records. */
  lemma RewrittenInOrder(ss: seq<Interface>)
    requires AllClean(ss) && forall k :: 0 <= k < |ss| ==> PrintedBlock(ss[k]).Parsable()
    ensures AllInOrder(Rewritten(ss))
  {
    hide Block.Parsable, PrintedBlock, Reparse, InOrder, Extras;
    forall k | 0 <= k < |ss|
      ensures InOrder(Extras(Rewritten(ss)[k]))
    {
      ReparsedInOrder(ss[k]);
    }
  }

  lemma ReparsedInOrder(i: Interface)
    requires PrintedBlock(i).Parsable()
    ensures InOrder(Extras(Reparse(i)))
  {
    hide InOrder, Extras, FirstExtras, InterfaceOf, Block.Parsable;
    ExtrasOf(PrintedBlock(i));
    PureInOrder(PrintedBlock(i));
  }

  /** A setting that was read back once can be read back again. */
  lemma AgainParsable(i: Interface)
    requires Clean(i) && PrintedBlock(i).Parsable()
    ensures Clean(Reparse(i)) && PrintedBlock(Reparse(i)).Parsable()
  {
    hide Interface.Intact, AllWellFormed, InterfaceOf;
    var b, r := PrintedBlock(i), Reparse(i);
    CleanBody(i);
    CleanHead(i);
    assert b.Records() == i.Printed();
    ParsedClean(b);
    ReparsedFields(i);
    ReparsedLists(r);
    GenericsAll(b.body);
    TidyGenerics(r.generics);
    hide OfKind, Generics, Present, Clean;
    var again := PrintedBlock(r);
    assert OfKind(again.body, ENDPOINT_TYPE) == OfKind(b.body, ENDPOINT_TYPE);
    assert again.lead + Generics(again.body) == r.generics;
    assert b.lead + Generics(b.body) == r.generics;
    CleanHead(r);
  }

  /** A list of clean settings whose blocks can be parsed is a chain that can be parsed. */
  lemma ParsableWhole(ss: seq<Interface>, n: nat)
    requires AllClean(ss)
    requires forall k :: 0 <= k < |ss| ==> PrintedBlock(ss[k]).Parsable() && ss[k].Number() < n
    ensures ParsableChain(AllPrinted(ss), n)
  {
    hide Clean, Block.Parsable, AllWellFormed, Blocks, Complete, Interface.Printed, PrintedBlock, AllPrinted;
    BlocksOfPrinted(ss);
    var bs := PrintedBlocks(ss);
    forall k | 0 <= k < |ss|
      ensures bs[k].Parsable() && AllWellFormed(bs[k].Records()) && |bs[k].head| == 9 && bs[k].head[2] < n
    {
      PrintedBlockSound(ss[k]);
    }
  }

  lemma PrintedBlockSound(i: Interface)
    requires Clean(i)
    ensures AllWellFormed(PrintedBlock(i).Records()) && PrintedBlock(i).head == i.descriptor
  {
    hide Clean, AllWellFormed;
    CleanBody(i);
    assert PrintedBlock(i).Records() == i.Printed();
  }

  lemma PrintedNumbers(rs: seq<Record>, n: nat)
    requires ParsableChain(rs, n)
    ensures forall i :: i in Printed(ParsedGroups(rs, n)) ==> i.Number() < n
  {
    hide ParsableChain;
    ParsedPlaced(rs, n);
    PrintedInOrder(ParsedGroups(rs, n));
  }

  /** When the second pass is possible the third is, and it changes nothing. */
  lemma NormalThrice(rs: seq<Record>, n: nat)
    requires ParsableChain(rs, n) && (FirstKept(rs, n) ==> Rereadable(Blocks(rs)[0]))
    ensures ParsableChain(Normal(rs, n), n) && ParsableChain(Normal(Normal(rs, n), n), n)
    ensures Normal(Normal(Normal(rs, n), n), n) == Normal(Normal(rs, n), n)
  {
    SecondPassPossible(rs, n);
    hide ParsableChain, Clean, AllInOrder, Block.Parsable, PrintedBlock, Reparse, FirstKept, Rereadable;
    var ss := Printed(ParsedGroups(rs, n));
    SecondParsable(rs, n);
    SecondPass(rs, n);
    PrintedNumbers(rs, n);
    hide Normal, ParsedGroups, Printed;
    forall k | 0 <= k < |ss|
      ensures Clean(Rewritten(ss)[k]) && PrintedBlock(Rewritten(ss)[k]).Parsable() && Rewritten(ss)[k].Number() < n
    {
      AgainParsable(ss[k]);
      assert Rewritten(ss)[k].Key() == ss[k].Key();
    }
    ParsableWhole(Rewritten(ss), n);
    RewrittenInOrder(ss);
    SecondPassSame(Normal(rs, n), n);
  }

  /** A block without records in front of its interface record has its extras in order. */
  lemma PureInOrder(b: Block)
    requires b.lead == []
    ensures InOrder(FirstExtras(b))
  {
    OfKindAll(b.body, HID_TYPE);
    GenericsAll(b.body);
    hide OfKind, Generics, Kind;
    var h, g, x := AsList(LastOf(OfKind(b.body, HID_TYPE))), Generics(b.body), FirstExtras(b);
    assert x == h + g;
    assert forall k :: 0 <= k < |g| ==> IsGeneric(g[k]);
    assert forall k :: 0 <= k < |h| ==> Kind(h[k]) == HID_TYPE;
  }

  lemma ExtrasOf(b: Block)
    requires b.Parsable()
    ensures Extras(InterfaceOf(b)) == FirstExtras(b)
  {
    hide OfKind, Generics;
  }

  lemma {:induction false} ShownPrinted(t: Groups, n: nat, a: byte)
    requires GroupsIntact(t) && n < |t| && At(t, n, a).Some?
    ensures At(t, n, a).value in Printed(t)
  {
    hide Interface.Intact;
    var x := At(t, n, a).value;
    if n == 0 {
      PresentMember(t[0].value.Visible(), x);
      assert t[0].value.Visible()[a] == Some(x);
    } else {
      ShownPrinted(t[1..], n - 1, a);
    }
  }

  /** On a loss-free chain the first block is always there to be read back. */
  lemma LossFreeTwice(rs: seq<Record>, n: nat)
    requires ParsableChain(rs, n) && LossFree(rs, n)
    ensures ParsableChain(Normal(rs, n), n) <==> rs == [] || Rereadable(Blocks(rs)[0])
    ensures ParsableChain(Normal(rs, n), n) && Normal(Normal(rs, n), n) == Normal(rs, n) <==>
            rs == [] || (Rereadable(Blocks(rs)[0]) && InOrder(FirstExtras(Blocks(rs)[0])))
  {
    LossFreeKept(rs, n);
    hide FirstKept, Rereadable, InOrder, LossFree, Normal, Blocks, ParsableChain, FirstExtras;
    SecondPassPossible(rs, n);
    NormalTwice(rs, n);
  }

  lemma LossFreeKept(rs: seq<Record>, n: nat)
    requires ParsableChain(rs, n) && LossFree(rs, n)
    ensures FirstKept(rs, n) <==> rs != []
    ensures rs != [] ==> Blocks(rs) != []
  {
    hide AllOneHid, Block.Parsable, AllWellFormed, Blocks, Complete;
    if rs == [] {
      NoBlocks();
    } else {
      assert Blocks(rs) != [] by { hide ParsableAll; var after := FirstBlock(rs); }
      var bs := Blocks(rs);
      HeadSizes(bs, n);
      assert forall j :: 0 < j < |bs| ==> BlockKey(bs[0]) != BlockKey(bs[j]);
    }
  }

  /** An endpoint record in front of the interface record, and a class-specific record behind it. */
  const STRAY_ENDPOINT: Record := [7, 5, 0x81, 2, 8, 0, 0]
  const ONE_ENDPOINT: InterfaceDescriptor := [9, 4, 0, 0, 1, 0, 0, 0, 0]
  const CLASS_RECORD: Record := [3, 0x24, 0]

  /** A chain of one stray record, an interface record and a record behind it is one block. */
  lemma ThreeRecordBlock(x: Record, h: Record, y: Record)
    requires Kind(x) != INTERFACE_TYPE && Kind(h) == INTERFACE_TYPE && Kind(y) != INTERFACE_TYPE
    ensures Complete([x, h, y]) && Blocks([x, h, y]) == [Block([x], h, [y])]
  {
    hide Kind;
    var rs := [x, h, y];
    LeadIs([x], [h, y]);
    LeadIs([y], []);
    assert [x] + [h, y] == rs && rs[2..] == [y] == [y] + [];
    assert [y][1..] == [];
    hide Lead;
    assert Blocks([]) == [] by { NoBlocks(); }
  }

  /** A chain of one sound block can be parsed and loses nothing. */
  lemma OneBlock(rs: seq<Record>, b: Block)
    requires Complete(rs) && Blocks(rs) == [b] && b.Parsable() && AllWellFormed(b.Records())
    requires b.head[2] == b.head[3] == 0 && OfKind(b.body, HID_TYPE) == []
    ensures ParsableChain(rs, 1) && LossFree(rs, 1)
  {
    hide Block.Parsable, AllWellFormed, Blocks, Complete, OfKind;
    ParsableHead(b);
  }

  /** A list of one record, sorted by kind. */
  lemma OneRecord(r: Record, kind: byte)
    ensures OfKind([r], kind) == if Kind(r) == kind then [r] else []
    ensures Generics([r]) == if IsGeneric(r) then [r] else []
  {
    hide Kind;
    assert [r][1..] == [];
    assert OfKind([], kind) == [] && Generics([]) == [];
    assert [r] + [] == [r];
  }

  lemma StrayBlock()
    ensures var b := Block([STRAY_ENDPOINT], ONE_ENDPOINT, [CLASS_RECORD]);
            && b.Parsable() && AllWellFormed(b.Records()) && OfKind(b.body, HID_TYPE) == []
            && Rereadable(b) && !InOrder(FirstExtras(b))
  {
    var b := Block([STRAY_ENDPOINT], ONE_ENDPOINT, [CLASS_RECORD]);
    assert Kind(CLASS_RECORD) == 0x24 && Kind(STRAY_ENDPOINT) == ENDPOINT_TYPE;
    hide OfKind, Generics, Kind, InOrder, FirstExtras;
    OneRecord(CLASS_RECORD, HID_TYPE);
    OneRecord(CLASS_RECORD, ENDPOINT_TYPE);
    OneRecord(STRAY_ENDPOINT, ENDPOINT_TYPE);
    StrayOutOfOrder(b);
  }

  /** A chain whose second normalisation differs from its first: the stray endpoint record is printed in front of the
      class-specific record, and read back it moves behind it. */
  lemma StrayEndpointMoves()
    ensures var rs := [STRAY_ENDPOINT, ONE_ENDPOINT, CLASS_RECORD];
            && ParsableChain(rs, 1) && LossFree(rs, 1) && ParsableChain(Normal(rs, 1), 1)
            && Normal(Normal(rs, 1), 1) != Normal(rs, 1)
  {
    hide InOrder, FirstExtras, Normal, Rereadable, LossFree, ParsableChain, Block.Parsable, AllWellFormed, OfKind;
    hide Complete, Blocks;
    var rs: seq<Record> := [STRAY_ENDPOINT, ONE_ENDPOINT, CLASS_RECORD];
    StrayBlock();
    ThreeRecordBlock(STRAY_ENDPOINT, ONE_ENDPOINT, CLASS_RECORD);
    OneBlock(rs, Block([STRAY_ENDPOINT], ONE_ENDPOINT, [CLASS_RECORD]));
    LossFreeTwice(rs, 1);
  }

  lemma StrayOutOfOrder(b: Block)
    requires b.lead == [STRAY_ENDPOINT] && OfKind(b.body, HID_TYPE) == [] && Generics(b.body) == [CLASS_RECORD]
    ensures !InOrder(FirstExtras(b))
  {
    var x := FirstExtras(b);
    assert x == [STRAY_ENDPOINT, CLASS_RECORD];
    assert Kind(x[0]) == ENDPOINT_TYPE && Kind(x[1]) != ENDPOINT_TYPE;
  }

  /** An interface record that has room for no endpoint. */
  const NO_ENDPOINT: InterfaceDescriptor := [9, 4, 0, 0, 0, 0, 0, 0, 0]

  lemma TwoRecordBlock(x: Record, h: Record)
    requires Kind(x) != INTERFACE_TYPE && Kind(h) == INTERFACE_TYPE
    ensures Complete([x, h]) && Blocks([x, h]) == [Block([x], h, [])]
  {
    hide Kind;
    var rs := [x, h];
    LeadIs([x], [h]);
    LeadIs([], []);
    assert [x] + [h] == rs && rs[2..] == [] == [] + [];
    hide Lead;
    assert Blocks([]) == [] by { NoBlocks(); }
  }

  lemma TightBlock()
    ensures var b := Block([STRAY_ENDPOINT], NO_ENDPOINT, []);
            && b.Parsable() && AllWellFormed(b.Records())
            && !Rereadable(b) && InOrder(FirstExtras(b))
  {
    var b := Block([STRAY_ENDPOINT], NO_ENDPOINT, []);
    assert FirstExtras(b) == [STRAY_ENDPOINT];
    OneRecord(STRAY_ENDPOINT, ENDPOINT_TYPE);
  }

  /** A chain whose normal form the parser cannot read: the stray endpoint record is printed behind the interface
      record, and read back it is written past the end of an endpoint array that has no room. Its extras are in order.
      */
  lemma StrayEndpointOverflows()
    ensures var rs := [STRAY_ENDPOINT, NO_ENDPOINT];
            && ParsableChain(rs, 1) && LossFree(rs, 1) && Blocks(rs) != [] && InOrder(FirstExtras(Blocks(rs)[0]))
            && !ParsableChain(Normal(rs, 1), 1)
  {
    hide InOrder, FirstExtras, Normal, Rereadable, LossFree, ParsableChain, Block.Parsable, AllWellFormed, Complete;
    hide Blocks;
    var rs: seq<Record> := [STRAY_ENDPOINT, NO_ENDPOINT];
    TightBlock();
    TwoRecordBlock(STRAY_ENDPOINT, NO_ENDPOINT);
    OneBlock(rs, Block([STRAY_ENDPOINT], NO_ENDPOINT, []));
    LossFreeTwice(rs, 1);
  }
}
