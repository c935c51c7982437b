/** Parsing what was printed. */
module RoundTrip {
  import opened Wire
  import opened Records
  import opened Interfaces
  import opened InterfaceGroups
  import opened Configurations
  import opened Placement

  /** The records of a setting have the types their places say. */
  predicate Clean(i: Interface) {
    && i.Intact()
    && i.descriptor[1] == INTERFACE_TYPE
    && (i.hid.Some? ==> Kind(i.hid.value) == HID_TYPE)
    && (forall k :: 0 <= k < |i.generics| ==> Kind(i.generics[k]) != INTERFACE_TYPE)
    && forall k :: 0 <= k < |i.endpoints| && i.endpoints[k].Some? ==>
         Kind(i.endpoints[k].value) == ENDPOINT_TYPE && |i.endpoints[k].value| == 7
  }

  predicate AllClean(ss: seq<Interface>) {
    forall k :: 0 <= k < |ss| ==> Clean(ss[k])
  }

  /** The block a printed setting forms in the printed chain. */
  function PrintedBlock(i: Interface): Block {
    Block([], i.descriptor, i.HidRecords() + i.generics + Present(i.endpoints))
  }

  function PrintedBlocks(ss: seq<Interface>): (r: seq<Block>)
    ensures |r| == |ss|
    ensures forall k :: 0 <= k < |ss| ==> r[k] == PrintedBlock(ss[k])
  {
    if ss == [] then [] else [PrintedBlock(ss[0])] + PrintedBlocks(ss[1..])
  }

  lemma CleanBody(i: Interface)
    requires Clean(i)
    ensures var body := PrintedBlock(i).body;
            && i.Printed() == [i.descriptor] + body
            && AllWellFormed(i.Printed())
            && forall k :: 0 <= k < |body| ==> Kind(body[k]) != INTERFACE_TYPE
  {
    i.PrintedWellFormed();
    var body := PrintedBlock(i).body;
    assert i.Printed() == [i.descriptor] + body;
    forall k | 0 <= k < |body|
      ensures Kind(body[k]) != INTERFACE_TYPE
    {
      PresentMember(i.endpoints, body[k]);
      assert body[k] in i.HidRecords() || body[k] in i.generics || body[k] in Present(i.endpoints);
    }
  }

  lemma {:induction false} LeadIs(x: seq<Record>, y: seq<Record>)
    requires forall k :: 0 <= k < |x| ==> Kind(x[k]) != INTERFACE_TYPE
    requires y != [] ==> Kind(y[0]) == INTERFACE_TYPE
    ensures Lead(x + y) == x
  {
    if x == [] {
      assert x + y == y;
    } else {
      LeadIs(x[1..], y);
      assert (x + y)[0] == x[0] && (x + y)[1..] == x[1..] + y;
    }
  }

  /** A printed setting in front of a chain is the chain's first block. */
  lemma BlockInFront(i: Interface, later: seq<Record>)
    requires Clean(i)
    requires later != [] ==> Kind(later[0]) == INTERFACE_TYPE
    ensures var rs := i.Printed() + later;
            && rs != [] && Kind(rs[0]) == INTERFACE_TYPE && Complete(rs)
            && Blocks(rs) == [PrintedBlock(i)] + Blocks(later)
  {
    CleanBody(i);
    CleanHead(i);
    hide Clean, Interface.Printed, Kind;
    var body := PrintedBlock(i).body;
    var rs := i.Printed() + later;
    assert rs == [i.descriptor] + (body + later);
    assert Lead(rs) == [];
    assert rs[1..] == body + later;
    LeadIs(body, later);
    hide Lead;
    assert (body + later)[|body|..] == later;
  }

  lemma CleanHead(i: Interface)
    requires Clean(i)
    ensures Kind(i.descriptor) == INTERFACE_TYPE
  {
  }

  /** The blocks of a printed chain are the printed settings. */
  lemma {:induction false} BlocksOfPrinted(ss: seq<Interface>)
    requires AllClean(ss)
    ensures Complete(AllPrinted(ss)) && AllWellFormed(AllPrinted(ss))
    ensures Blocks(AllPrinted(ss)) == PrintedBlocks(ss)
    ensures ss != [] ==> AllPrinted(ss) != [] && Kind(AllPrinted(ss)[0]) == INTERFACE_TYPE
  {
    hide Clean, Interface.Printed, Kind, Blocks, PrintedBlock, Complete;
    if ss == [] {
      NoBlocks();
    } else {
      BlocksOfPrinted(ss[1..]);
      CleanBody(ss[0]);
      BlockInFront(ss[0], AllPrinted(ss[1..]));
    }
  }

  lemma NoBlocks()
    ensures Blocks([]) == [] && Complete([])
  {
  }

  /** A HID record and the endpoints of a clean setting are of their own kinds. */
  lemma CleanKinds(i: Interface)
    requires Clean(i)
    ensures forall r :: r in i.HidRecords() ==> Kind(r) == HID_TYPE
    ensures forall r :: r in Present(i.endpoints) ==> Kind(r) == ENDPOINT_TYPE
  {
    forall r | r in Present(i.endpoints)
      ensures Kind(r) == ENDPOINT_TYPE
    {
      PresentMember(i.endpoints, r);
      hide Present;
    }
  }

  lemma GenericsOfParts(h: seq<Record>, g: seq<Record>, e: seq<Record>)
    requires forall r :: r in h ==> Kind(r) == HID_TYPE
    requires forall r :: r in e ==> Kind(r) == ENDPOINT_TYPE
    ensures Generics(h + g + e) == Generics(g)
  {
    hide Kind, Generics;
    GenericsConcat(h + g, e);
    GenericsConcat(h, g);
    GenericsNone(h);
    GenericsNone(e);
    assert [] + Generics(g) + [] == Generics(g);
  }

  /** The lists a printed setting is sorted into when it is read back. */
  lemma ReparsedLists(i: Interface)
    requires Clean(i)
    ensures var body := PrintedBlock(i).body;
            && OfKind(body, HID_TYPE) == i.HidRecords() + OfKind(i.generics, HID_TYPE)
            && OfKind(body, ENDPOINT_TYPE) == OfKind(i.generics, ENDPOINT_TYPE) + Present(i.endpoints)
            && Generics(body) == Generics(i.generics)
  {
    hide Clean, Present, Kind, OfKind, Generics;
    CleanKinds(i);
    var h, g, e := i.HidRecords(), i.generics, Present(i.endpoints);
    ThreeParts(h, g, e, HID_TYPE);
    ThreeParts(h, g, e, ENDPOINT_TYPE);
    GenericsOfParts(h, g, e);
  }

  lemma GenericsNone(rs: seq<Record>)
    requires (forall r :: r in rs ==> Kind(r) == HID_TYPE) || (forall r :: r in rs ==> Kind(r) == ENDPOINT_TYPE)
    ensures Generics(rs) == []
  {
    GenericsAll(rs);
  }

  lemma ThreeParts(h: seq<Record>, g: seq<Record>, e: seq<Record>, kind: byte)
    requires kind == HID_TYPE || kind == ENDPOINT_TYPE
    requires forall r :: r in h ==> Kind(r) == HID_TYPE
    requires forall r :: r in e ==> Kind(r) == ENDPOINT_TYPE
    ensures OfKind(h + g + e, kind) ==
            if kind == HID_TYPE then h + OfKind(g, kind) else OfKind(g, kind) + e
  {
    hide Kind;
    OfKindConcat(h + g, e, kind);
    OfKindConcat(h, g, kind);
    OfKindAll(h, kind);
    OfKindAll(e, kind);
    hide OfKind;
    if kind == HID_TYPE {
      assert OfKind(e, kind) == [];
    } else {
      assert OfKind(h, kind) == [];
    }
  }

  /** Nothing among the generic records would be read back as something else, and every endpoint slot is filled. */
  predicate Tidy(i: Interface) {
    && Clean(i)
    && (forall k :: 0 <= k < |i.generics| ==> IsGeneric(i.generics[k]))
    && forall k :: 0 <= k < |i.endpoints| ==> i.endpoints[k].Some?
  }

  predicate AllTidy(ss: seq<Interface>) {
    forall k :: 0 <= k < |ss| ==> Tidy(ss[k])
  }

  function Values<T>(xs: seq<Option<T>>): (r: seq<T>)
    requires forall k :: 0 <= k < |xs| ==> xs[k].Some?
    ensures |r| == |xs| && forall k :: 0 <= k < |xs| ==> xs[k] == Some(r[k])
  {
    seq(|xs|, k requires 0 <= k < |xs| => xs[k].value)
  }

  /** A tidy setting reads back as itself. */
  lemma ReparseTidy(i: Interface)
    requires Tidy(i)
    ensures PrintedBlock(i).Parsable() && AllWellFormed(PrintedBlock(i).Records())
    ensures InterfaceOf(PrintedBlock(i)) == i
  {
    hide Clean, Kind, OfKind, Generics, AllWellFormed, Interface.Printed, Slots, Present, IsGeneric;
    ReparsedLists(i);
    CleanBody(i);
    TidyGenerics(i.generics);
    TidyCounts(i);
    var eps := TidyEndpoints(i);
    var b := PrintedBlock(i);
    assert b.Records() == i.Printed();
    assert OfKind(b.body, HID_TYPE) == i.HidRecords();
    assert OfKind(b.body, ENDPOINT_TYPE) == eps;
    assert b.lead + Generics(b.body) == i.generics;
  }

  lemma TidyEndpoints(i: Interface) returns (eps: seq<Endpoint>)
    requires Tidy(i)
    ensures Present(i.endpoints) == eps && |eps| == i.descriptor[4] && Slots(i.descriptor[4], eps) == i.endpoints
    ensures forall r :: r in eps ==> |r| == 7
  {
    eps := Values(i.endpoints);
    PresentAll(i.endpoints, eps);
  }

  lemma TidyCounts(i: Interface)
    requires Tidy(i)
    ensures |i.endpoints| == i.descriptor[4] && |i.generics| < 0x100 && |i.descriptor| == 9 && WellFormed(i.descriptor)
  {
  }

  lemma TidyGenerics(g: seq<Record>)
    requires forall k :: 0 <= k < |g| ==> IsGeneric(g[k])
    ensures OfKind(g, HID_TYPE) == [] && OfKind(g, ENDPOINT_TYPE) == [] && Generics(g) == g
  {
    OfKindAll(g, HID_TYPE);
    OfKindAll(g, ENDPOINT_TYPE);
    GenericsAll(g);
  }

  lemma {:induction false} ParsedPrinted(ss: seq<Interface>, n: nat)
    requires AllTidy(ss) && forall k :: 0 <= k < |ss| ==> ss[k].Number() < n
    ensures ParsableAll(PrintedBlocks(ss), n) && Parsed(PrintedBlocks(ss), n) == ss
  {
    hide Tidy, InterfaceOf, PrintedBlock, Block.Parsable, AllWellFormed;
    if ss != [] {
      ParsedPrinted(ss[1..], n);
      ReparseTidy(ss[0]);
      PrintedBlockHead(ss[0]);
      ParsableCons(PrintedBlock(ss[0]), PrintedBlocks(ss[1..]), n);
      assert ss == [ss[0]] + ss[1..];
    }
  }

  lemma ParsableCons(b: Block, bs: seq<Block>, n: nat)
    requires b.Parsable() && AllWellFormed(b.Records()) && b.head[2] < n && ParsableAll(bs, n)
    ensures ParsableAll([b] + bs, n) && Parsed([b] + bs, n) == [InterfaceOf(b)] + Parsed(bs, n)
  {
    hide Block.Parsable, AllWellFormed, InterfaceOf, Block.Records;
    assert ([b] + bs)[1..] == bs;
  }

  lemma PrintedBlockHead(i: Interface)
    ensures PrintedBlock(i).head == i.descriptor
  {
  }

  /** The tables that parsing builds out of settings with alternate numbers below 255: no slack at the end of a group.
      */
  predicate Snug(t: Groups) {
    forall n :: 0 <= n < |t| && t[n].Some? ==> SnugGroup(t[n].value, n)
  }

  predicate SnugGroup(g: Group, n: nat) {
    g.number == n && 0 < |g.interfaces| < 0x100 && g.interfaces[|g.interfaces| - 1].Some?
  }

  lemma {:induction false} SnugAddAll(t: Groups, ss: seq<Interface>)
    requires GroupsIntact(t) && Fit(ss, |t|) && NoWrap(ss) && Snug(t)
    ensures Snug(AddAll(t, ss))
    decreases |ss|
  {
    hide Interface.Intact;
    if ss != [] {
      SnugAddAll(WithInterface(t, ss[0]), ss[1..]);
    }
  }

  /** Snug tables that show the same settings are the same. */
  lemma SameTable(t: Groups, u: Groups)
    requires GroupsIntact(t) && GroupsIntact(u) && Snug(t) && Snug(u) && |t| == |u|
    requires forall n: nat, a: byte :: n < |t| ==> At(t, n, a) == At(u, n, a)
    ensures t == u
  {
    hide Interface.Intact;
    forall n | 0 <= n < |t|
      ensures t[n] == u[n]
    {
      SameGroup(t, u, n);
    }
  }

  lemma SameGroup(t: Groups, u: Groups, n: nat)
    requires GroupsIntact(t) && GroupsIntact(u) && |t| == |u| && n < |t|
    requires t[n].Some? ==> SnugGroup(t[n].value, n)
    requires u[n].Some? ==> SnugGroup(u[n].value, n)
    requires forall a: byte :: At(t, n, a) == At(u, n, a)
    ensures t[n] == u[n]
  {
    hide Interface.Intact;
    if t[n].Some? {
      assert At(t, n, |t[n].value.interfaces| - 1).Some?;
    }
    if u[n].Some? {
      assert At(u, n, |u[n].value.interfaces| - 1).Some?;
    }
    assert t[n].Some? <==> u[n].Some?;
    if t[n].Some? {
      var x, y := t[n].value.interfaces, u[n].value.interfaces;
      assert |x| == |y|;
      forall a | 0 <= a < |x|
        ensures x[a] == y[a]
      {
        assert At(t, n, a) == At(u, n, a);
      }
      assert x == y;
      assert t[n].value.number == u[n].value.number == n;
    }
  }

  /** Adding a snug table's printed settings to an empty table rebuilds it. */
  lemma Rebuild(t: Groups)
    requires Placed(t) && Snug(t) && Fit(Printed(t), |t|) && NoWrap(Printed(t))
    ensures AddAll(NoGroups(|t|), Printed(t)) == t
  {
    hide Interface.Intact, Placed, Snug;
    PlacedIntact(t);
    var u := AddAll(NoGroups(|t|), Printed(t));
    forall n: nat, a: byte | n < |t|
      ensures At(t, n, a) == At(u, n, a)
    {
      AtAddAll(NoGroups(|t|), Printed(t), n, a);
      ShowingLast(Printed(t), n, a, None);
      LastWithPrinted(t, n, a);
      assert At(NoGroups(|t|), n, a) == None;
    }
    assert Snug(NoGroups(|t|)) by { NoGroupsSnug(|t|); }
    SnugAddAll(NoGroups(|t|), Printed(t));
    SameTable(t, u);
  }

  lemma NoGroupsSnug(n: nat)
    ensures Snug(NoGroups(n))
  {
  }

  // ---------------------------------------------------------------- the theorem

  /** The HID record and the generic records of a setting are of types the parser files under those headings. */
  predicate WellTyped(i: Interface) {
    && (i.hid.Some? ==> Kind(i.hid.value) == HID_TYPE)
    && forall k :: 0 <= k < |i.generics| ==> IsGeneric(i.generics[k]) && Kind(i.generics[k]) != INTERFACE_TYPE
  }

  predicate AllWellTyped(ss: seq<Interface>) {
    forall k :: 0 <= k < |ss| ==> WellTyped(ss[k])
  }

  /** Everything printed is shown by some slot. */
  lemma {:induction false} PrintedShown(t: Groups, x: Interface) returns (n: nat, a: byte)
    requires GroupsIntact(t) && x in Printed(t)
    ensures n < |t| && At(t, n, a) == Some(x)
  {
    hide Interface.Intact;
    if t[0].Some? && x in t[0].value.Printed() {
      var table := t[0].value.Visible();
      PresentMember(table, x);
      var k :| 0 <= k < |table| && table[k] == Some(x);
      n, a := 0, k;
    } else {
      assert x in Printed(t[1..]);
      n, a := PrintedShown(t[1..], x);
      n := n + 1;
    }
  }

  lemma DefinedShown(t: Tree, highSpeed: bool, n: nat, a: byte)
    requires t.Intact() && TreeDefined(t, highSpeed) && n < |t.groups|
    ensures At(t.groups, n, a).Some? ==>
              var i := At(t.groups, n, a).value;
              i.Key() == (n, a) && i.Intact() && InterfaceDefined(i) && a < 0xff
  {
    hide Interface.Intact, InterfaceDefined;
    assert GroupPlaced(t.groups, n);
    var g := t.groups[n].value;
    if a < g.alternateCount {
      assert SettingDefined(g, a);
    }
  }

  lemma DefinedSnug(t: Tree, highSpeed: bool)
    requires t.Intact() && TreeDefined(t, highSpeed)
    ensures Placed(t.groups) && Snug(t.groups)
  {
    forall n: nat, a: byte | n < |t.groups|
      ensures At(t.groups, n, a).Some? ==> At(t.groups, n, a).value.Key() == (n, a)
    {
      DefinedShown(t, highSpeed, n, a);
    }
    forall n | 0 <= n < |t.groups|
      ensures t.groups[n].Some? && SnugGroup(t.groups[n].value, n)
    {
      hide Interface.Intact, InterfaceDefined;
      assert GroupPlaced(t.groups, n);
      var g := t.groups[n].value;
      assert SettingDefined(g, g.alternateCount - 1);
    }
  }

  lemma DefinedPrinted(t: Tree, highSpeed: bool)
    requires t.Intact() && TreeDefined(t, highSpeed)
    ensures var ss := Printed(t.groups);
            && Fit(ss, |t.groups|) && NoWrap(ss)
            && (AllWellTyped(ss) ==> AllTidy(ss))
  {
    var ss := Printed(t.groups);
    forall k | 0 <= k < |ss|
      ensures ss[k].Intact() && ss[k].Number() < |t.groups| && ss[k].Alternate() < 0xff
      ensures WellTyped(ss[k]) ==> Tidy(ss[k])
    {
      hide Interface.Intact, InterfaceDefined, TreeDefined;
      var n, a := PrintedShown(t.groups, ss[k]);
      DefinedShown(t, highSpeed, n, a);
      DefinedTidy(ss[k]);
    }
  }

  lemma DefinedTidy(i: Interface)
    requires i.Intact() && InterfaceDefined(i)
    ensures WellTyped(i) ==> Tidy(i)
  {
  }

  /** Everything a table shows after adding a list comes from the list or was there before. */
  lemma ShownWasAdded(t: Groups, ss: seq<Interface>, n: nat, a: byte)
    requires GroupsIntact(t) && Fit(ss, |t|) && n < |t|
    ensures At(AddAll(t, ss), n, a).Some? ==>
              At(AddAll(t, ss), n, a) == At(t, n, a) || At(AddAll(t, ss), n, a).value in ss
  {
    hide Interface.Intact, At, AddAll;
    AtAddAll(t, ss, n, a);
    if Showing(ss, n, a, At(t, n, a)).Some? {
      var k := ShownStays(ss, n, a, At(t, n, a));
    }
  }

  /** Only the first block of a chain has records before its interface record, and only if the chain starts with
      them. Every block has an interface record and no other. */
  lemma {:induction false} BlockShapes(rs: seq<Record>)
    requires Complete(rs)
    ensures forall k :: 0 <= k < |Blocks(rs)| ==>
              && Blocks(rs)[k].lead == (if k == 0 then Lead(rs) else [])
              && Kind(Blocks(rs)[k].head) == INTERFACE_TYPE
              && (forall r :: r in Blocks(rs)[k].body ==> Kind(r) != INTERFACE_TYPE)
    decreases |rs|
  {
    hide Kind, Blocks, Lead;
    if rs == [] {
      NoBlocks();
    } else {
      var after := FirstBlock(rs);
      BlockShapes(after);
      LeadAfter(after);
      FirstLead(rs);
      var bs := Blocks(rs);
      assert forall k :: 1 <= k < |bs| ==> bs[k] == Blocks(after)[k - 1];
    }
  }

  lemma FirstLead(rs: seq<Record>)
    requires Blocks(rs) != []
    ensures Blocks(rs)[0].lead == Lead(rs)
  {
    hide Lead;
  }

  lemma LeadAfter(rs: seq<Record>)
    requires rs != [] ==> Kind(rs[0]) == INTERFACE_TYPE
    ensures Lead(rs) == []
  {
  }

  lemma ParsedWellTyped(b: Block)
    requires b.Parsable() && b.lead == [] && forall r :: r in b.body ==> Kind(r) != INTERFACE_TYPE
    ensures WellTyped(InterfaceOf(b))
  {
    OfKindAll(b.body, HID_TYPE);
    GenericsAll(b.body);
    hide OfKind, Generics, Slots, Kind;
    assert [] + Generics(b.body) == Generics(b.body);
  }

  /** A chain that starts with an interface record only parses into well-typed settings. */
  lemma ParsedAllWellTyped(rs: seq<Record>, n: nat, m: nat, a: byte)
    requires ParsableChain(rs, n) && Lead(rs) == [] && m < n
    ensures At(ParsedGroups(rs, n), m, a).Some? ==> WellTyped(At(ParsedGroups(rs, n), m, a).value)
  {
    hide WellTyped, InterfaceOf, Block.Parsable, Blocks, Parsed, Complete;
    var bs := Blocks(rs);
    var ss := Parsed(bs, n);
    var t := ParsedGroups(rs, n);
    ShownWasAdded(NoGroups(n), ss, m, a);
    if At(t, m, a).Some? {
      assert At(NoGroups(n), m, a) == None;
      var k :| 0 <= k < |ss| && ss[k] == At(t, m, a).value;
      ParsedIs(bs, n, k);
      BlockShapes(rs);
      ParsedWellTyped(bs[k]);
    }
  }

  /** The bytes a configuration prints. */
  function PrintedBytes(t: Tree): seq<byte>
    requires GroupsIntact(t.groups)
  {
    t.descriptor + Bytes(Printed(t.groups))
  }

  /** The bytes can be parsed, and parsing them gives the same tree. */
  predicate ReadsBackAs(buf: seq<byte>, t: Tree)
    requires |buf| >= 9 && IsChain(buf, 9)
  {
    && buf[..9] == t.descriptor
    && ParsableChain(RecordsAt(buf, 9), buf[4])
    && ParsedGroups(RecordsAt(buf, 9), buf[4]) == t.groups
  }

  /** Parsing what a defined configuration prints rebuilds it, exactly when its HID and generic records are of types
      the parser files under those headings. */
  lemma RoundTrip(t: Tree, highSpeed: bool)
    requires t.Intact() && TreeDefined(t, highSpeed)
    ensures IsChain(PrintedBytes(t), 9)
    ensures ReadsBackAs(PrintedBytes(t), t) <==> AllWellTyped(Printed(t.groups))
  {
    hide TreeDefined, AllWellTyped, ReadsBackAs, PrintedBytes;
    PrintedChain(t, highSpeed);
    if AllWellTyped(Printed(t.groups)) {
      WellTypedReadsBack(t, highSpeed);
    }
    ReadsBackWellTyped(t, highSpeed);
  }

  lemma WellTypedReadsBack(t: Tree, highSpeed: bool)
    requires t.Intact() && TreeDefined(t, highSpeed) && AllWellTyped(Printed(t.groups))
    ensures IsChain(PrintedBytes(t), 9) && ReadsBackAs(PrintedBytes(t), t)
  {
    hide Interface.Intact, TreeDefined, AllWellTyped, AllTidy, Placed, Snug, Fit, NoWrap, ParsableChain, ParsedGroups;
    PrintedChain(t, highSpeed);
    DefinedSnug(t, highSpeed);
    DefinedPrinted(t, highSpeed);
    TidyChain(Printed(t.groups), |t.groups|);
    Rebuild(t.groups);
  }

  lemma ReadsBackWellTyped(t: Tree, highSpeed: bool)
    requires t.Intact() && TreeDefined(t, highSpeed)
    ensures IsChain(PrintedBytes(t), 9) && ReadsBackAs(PrintedBytes(t), t) ==> AllWellTyped(Printed(t.groups))
  {
    hide TreeDefined, WellTyped, ParsableChain, ParsedGroups, Complete, Interface.Intact;
    PrintedChain(t, highSpeed);
    if ReadsBackAs(PrintedBytes(t), t) {
      var ss := Printed(t.groups);
      forall k | 0 <= k < |ss|
        ensures WellTyped(ss[k])
      {
        var m, a := PrintedShown(t.groups, ss[k]);
        DefinedHeads(t, highSpeed);
        LeadOfPrinted(ss);
        ParsedAllWellTyped(AllPrinted(ss), |t.groups|, m, a);
      }
    }
  }

  lemma DefinedHeads(t: Tree, highSpeed: bool)
    requires t.Intact() && TreeDefined(t, highSpeed)
    ensures var ss := Printed(t.groups);
            forall k :: 0 <= k < |ss| ==> ss[k].descriptor[1] == INTERFACE_TYPE
  {
    hide TreeDefined, Interface.Intact;
    var ss := Printed(t.groups);
    forall k | 0 <= k < |ss|
      ensures ss[k].descriptor[1] == INTERFACE_TYPE
    {
      var m, a := PrintedShown(t.groups, ss[k]);
      DefinedShown(t, highSpeed, m, a);
    }
  }

  lemma PrintedChain(t: Tree, highSpeed: bool)
    requires t.Intact() && TreeDefined(t, highSpeed)
    ensures var buf := PrintedBytes(t);
            && IsChain(buf, 9) && RecordsAt(buf, 9) == AllPrinted(Printed(t.groups))
            && buf[..9] == t.descriptor && buf[4] == |t.groups|
  {
    hide TreeDefined, Interface.Intact;
    DefinedPrinted(t, highSpeed);
    IntactPrinted(Printed(t.groups));
    RecordsAtFlatten(t.descriptor, AllPrinted(Printed(t.groups)));
  }

  lemma {:induction false} IntactPrinted(ss: seq<Interface>)
    requires forall k :: 0 <= k < |ss| ==> ss[k].Intact()
    ensures AllWellFormed(AllPrinted(ss))
  {
    hide Interface.Intact, Interface.Printed;
    if ss != [] {
      ss[0].PrintedWellFormed();
      IntactPrinted(ss[1..]);
    }
  }

  lemma LeadOfPrinted(ss: seq<Interface>)
    requires forall k :: 0 <= k < |ss| ==> ss[k].descriptor[1] == INTERFACE_TYPE
    ensures Lead(AllPrinted(ss)) == []
  {
    if ss != [] {
      assert AllPrinted(ss)[0] == ss[0].descriptor;
    }
  }

  lemma TidyChain(ss: seq<Interface>, n: nat)
    requires AllTidy(ss) && Fit(ss, n)
    ensures ParsableChain(AllPrinted(ss), n)
    ensures ParsedGroups(AllPrinted(ss), n) == AddAll(NoGroups(n), ss)
  {
    hide Interface.Intact, Blocks, Complete;
    assert AllClean(ss);
    BlocksOfPrinted(ss);
    ParsedPrinted(ss, n);
  }
}
