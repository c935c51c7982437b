/** Configurations that validate and whose polling intervals the walk rewrites only in part. */
module WalkFailures {
  import opened Wire
  import opened Records
  import opened Interfaces
  import opened InterfaceGroups
  import opened Configurations
  import opened Idempotence
  import opened GadgetDescriptor

  // ---------------------------------------------------------------- an endpoint record outside the endpoint slots

  const FIRST_ENDPOINT: Record := [7, 5, 0x81, 2, 8, 0, 1]
  const SECOND_ENDPOINT: Record := [7, 5, 0x82, 2, 8, 0, 1]

  /** An endpoint record in front of the interface record, and another one behind it. */
  const STRAY_CHAIN: seq<Record> := [FIRST_ENDPOINT, ONE_ENDPOINT, SECOND_ENDPOINT]

  const STRAY_SETTING: Interface := Interface(ONE_ENDPOINT, None, [FIRST_ENDPOINT], [Some(SECOND_ENDPOINT)])

  lemma StrayBlockParsed()
    ensures var b := Block([FIRST_ENDPOINT], ONE_ENDPOINT, [SECOND_ENDPOINT]);
            b.Parsable() && AllWellFormed(b.Records()) && InterfaceOf(b) == STRAY_SETTING
  {
    var b := Block([FIRST_ENDPOINT], ONE_ENDPOINT, [SECOND_ENDPOINT]);
    assert Kind(SECOND_ENDPOINT) == ENDPOINT_TYPE;
    hide OfKind, Generics, Kind;
    OneRecord(SECOND_ENDPOINT, ENDPOINT_TYPE);
    OneRecord(SECOND_ENDPOINT, HID_TYPE);
    assert !IsGeneric(SECOND_ENDPOINT);
    assert [FIRST_ENDPOINT] + [] == [FIRST_ENDPOINT];
    assert Slots(1, [SECOND_ENDPOINT]) == [Some(SECOND_ENDPOINT)];
  }

  lemma OneSettingTable(i: Interface)
    requires i.Intact() && i.Key() == (0, 0)
    ensures AddAll(NoGroups(1), [i]) == [Some(Group(0, 1, [Some(i)]))]
  {
    hide Interface.Intact;
    var g := Add(Group(0, 0, []), i);
    assert g.interfaces == [Some(i)];
    var t := WithInterface(NoGroups(1), i);
    assert t == [Some(g)];
    assert AddAll(t, []) == t;
    assert [i][1..] == [];
  }

  lemma ParsedOne(b: Block)
    requires b.Parsable() && ParsableAll([b], 1)
    ensures Parsed([b], 1) == [InterfaceOf(b)]
  {
    hide InterfaceOf, Block.Parsable, AllWellFormed;
    ParsedIs([b], 1, 0);
  }

  lemma OneParsable(b: Block)
    requires b.Parsable() && AllWellFormed(b.Records()) && b.head[2] == 0
    ensures ParsableAll([b], 1)
  {
    hide AllWellFormed, OfKind, Generics;
  }

  lemma OneBlockParsed(rs: seq<Record>, b: Block, i: Interface)
    requires Complete(rs) && Blocks(rs) == [b] && b.Parsable() && AllWellFormed(b.Records()) && b.head[2] == 0
    requires i == InterfaceOf(b) && i.Intact() && i.Key() == (0, 0)
    ensures ParsableChain(rs, 1) && ParsedGroups(rs, 1) == [Some(Group(0, 1, [Some(i)]))]
  {
    hide Blocks, Complete, Block.Parsable, AllWellFormed, InterfaceOf, Parsed, AddAll, ParsableAll, Interface.Intact;
    OneParsable(b);
    ParsedOne(b);
    OneSettingTable(i);
  }

  /** Parsing the chain gives a table with one setting, whose first endpoint record is a generic one. */
  lemma StrayParsed()
    ensures ParsableChain(STRAY_CHAIN, 1) && ParsedGroups(STRAY_CHAIN, 1) == [Some(Group(0, 1, [Some(STRAY_SETTING)]))]
  {
    hide Blocks, Complete, Block.Parsable, AllWellFormed, InterfaceOf, ParsableChain, ParsedGroups, Interface.Intact;
    ThreeRecordBlock(FIRST_ENDPOINT, ONE_ENDPOINT, SECOND_ENDPOINT);
    StrayBlockParsed();
    StraySettingDefined();
    OneBlockParsed(STRAY_CHAIN, Block([FIRST_ENDPOINT], ONE_ENDPOINT, [SECOND_ENDPOINT]), STRAY_SETTING);
  }

  /** What a setting with one generic record and one endpoint prints. */
  lemma OneGroupPrinted(i: Interface)
    requires i.Intact() && i.Key() == (0, 0)
    ensures var groups := [Some(Group(0, 1, [Some(i)]))];
            GroupsIntact(groups) && Printed(groups) == [i] && Bytes(Printed(groups)) == Flatten(i.Printed())
  {
    hide Interface.Intact, Interface.Printed;
    var g := Group(0, 1, [Some(i)]);
    assert g.Visible() == [Some(i)];
    assert Present([Some(i)]) == [i];
    assert Printed([Some(g)]) == [i] + [] == [i];
    BytesOne(i);
  }

  lemma ThreeRecords(a: Record, b: Record, c: Record)
    ensures |Flatten([a, b, c])| == |a| + |b| + |c|
  {
    hide Flatten;
    assert [a] + [b, c] == [a, b, c];
    FlattenConcat([a], [b, c]);
    OneFlat(a);
    TwoFlat(b, c);
  }

  lemma StrayPrinted()
    ensures STRAY_SETTING.Printed() == [ONE_ENDPOINT, FIRST_ENDPOINT, SECOND_ENDPOINT]
    ensures |Flatten(STRAY_SETTING.Printed())| == 23
  {
    assert Present([Some(SECOND_ENDPOINT)]) == [SECOND_ENDPOINT];
    assert STRAY_SETTING.Printed() == [ONE_ENDPOINT] + [] + [FIRST_ENDPOINT] + [SECOND_ENDPOINT];
    hide Flatten, Present;
    var head: Record := ONE_ENDPOINT;
    assert |head| == 9;
    ThreeRecords(head, FIRST_ENDPOINT, SECOND_ENDPOINT);
    assert STRAY_SETTING.Printed() == [head, FIRST_ENDPOINT, SECOND_ENDPOINT];
  }

  lemma StraySettingDefined()
    ensures STRAY_SETTING.Intact() && InterfaceDefined(STRAY_SETTING) && Filled(STRAY_SETTING)
    ensures forall zero :: !StraysUnmoved(STRAY_SETTING, zero)
  {
    assert forall zero :: !Unmoved(STRAY_SETTING.generics[0], zero);
  }

  /** A configuration with one setting validates if the setting does and the header says how long it is. */
  lemma OneSettingDefined(t: Tree, i: Interface)
    requires i.Intact() && i.Key() == (0, 0) && InterfaceDefined(i)
    requires t.groups == [Some(Group(0, 1, [Some(i)]))] && t.descriptor[0] == 9 && t.InterfaceCount() == 1
    requires t.descriptor[1] == CONFIG_TYPE && t.descriptor[7] == 0x80
    requires t.TotalLength() == 9 + |Flatten(i.Printed())|
    ensures t.Intact() && TreeDefined(t, false)
  {
    OneGroupPrinted(i);
    hide Interface.Intact, InterfaceDefined, Printed, Bytes, Flatten, Interface.Printed;
    var g := Group(0, 1, [Some(i)]);
    assert SettingDefined(g, 0);
    assert GroupPlaced(t.groups, 0);
  }

  lemma OneSettingWalk(t: Tree, i: Interface, zero: byte)
    requires t.Intact() && TreeDefined(t, false) && t.groups == [Some(Group(0, 1, [Some(i)]))]
    ensures AllSingle(t.groups)
    ensures OnlyIntervals(AllPrinted(Printed(t.groups)), AllPrinted(Printed(FasterGroups(t.groups, zero))), zero) <==>
            StraysUnmoved(i, zero)
  {
    hide Interface.Intact, TreeDefined, Printed, AllPrinted, FasterGroups, OnlyIntervals, StraysUnmoved, Filled;
    WalkOnDefined(t, false, zero);
    assert OnlySetting(t.groups[0]) == i;
  }

  /** A configuration that is parsed from a chain, validates, has one alternate setting per interface, and whose first
      endpoint record keeps interval 1 through the walk. */
  lemma StrayUnpatched(zero: byte)
    ensures ParsableChain(STRAY_CHAIN, 1)
    ensures var t := Tree([9, 2, 32, 0, 1, 1, 0, 0x80, 0], ParsedGroups(STRAY_CHAIN, 1));
            && t.Intact() && TreeDefined(t, false) && AllSingle(t.groups)
            && !OnlyIntervals(AllPrinted(Printed(t.groups)), AllPrinted(Printed(FasterGroups(t.groups, zero))), zero)
  {
    hide ParsableChain, ParsedGroups, OnlyIntervals, Interface.Intact, InterfaceDefined, Filled, FasterGroups;
    hide AllPrinted;
    hide StraysUnmoved, TreeDefined, Tree.Intact, AllSingle, Printed, GroupsIntact, Interface.Printed, Flatten;
    StrayParsed();
    StraySettingDefined();
    StrayPrinted();
    var t := Tree([9, 2, 32, 0, 1, 1, 0, 0x80, 0], ParsedGroups(STRAY_CHAIN, 1));
    OneSettingDefined(t, STRAY_SETTING);
    OneSettingWalk(t, STRAY_SETTING, zero);
  }

  // ---------------------------------------------------------------- several alternate settings

  const SETTING_0: Interface := Interface([9, 4, 0, 0, 1, 0, 0, 0, 0], None, [], [Some(FIRST_ENDPOINT)])
  const SETTING_1: Interface := Interface([9, 4, 0, 1, 1, 0, 0, 0, 0], None, [], [Some(FIRST_ENDPOINT)])

  const TWO_SETTINGS: Group := Group(0, 2, [Some(SETTING_0), Some(SETTING_1)])

  const TWO_HEADER: ConfigDescriptor := [9, 2, 41, 0, 1, 1, 0, 0x80, 0]

  lemma SettingPrinted(i: Interface)
    requires i == SETTING_0 || i == SETTING_1
    ensures i.Printed() == [i.descriptor, FIRST_ENDPOINT]
    ensures |Flatten(i.Printed())| == 16
  {
    assert Present([Some(FIRST_ENDPOINT)]) == [FIRST_ENDPOINT];
    var head: Record := i.descriptor;
    assert i.Printed() == [head] + [] + [] + [FIRST_ENDPOINT];
    TwoFlat(head, FIRST_ENDPOINT);
    assert i.Printed() == [head] + [FIRST_ENDPOINT];
  }

  lemma SettingFacts(i: Interface)
    requires i == SETTING_0 || i == SETTING_1
    ensures i.Intact() && InterfaceDefined(i) && Filled(i)
  {
  }

  lemma TwoPrinted()
    ensures GroupsIntact([Some(TWO_SETTINGS)]) && Printed([Some(TWO_SETTINGS)]) == [SETTING_0, SETTING_1]
    ensures Bytes(Printed([Some(TWO_SETTINGS)])) == Flatten(SETTING_0.Printed()) + Flatten(SETTING_1.Printed())
  {
    SettingFacts(SETTING_0);
    SettingFacts(SETTING_1);
    hide Interface.Intact, Interface.Printed, Flatten;
    var table := [Some(SETTING_0), Some(SETTING_1)];
    assert TWO_SETTINGS.Visible() == table && table[1..] == [Some(SETTING_1)];
    assert Present(table[1..]) == [SETTING_1];
    assert Present(table) == [SETTING_0] + [SETTING_1];
    assert Printed([Some(TWO_SETTINGS)]) == Present(table) + [];
    BytesOne(SETTING_0);
    BytesOne(SETTING_1);
    BytesConcat([SETTING_0], [SETTING_1]);
    assert [SETTING_0] + [SETTING_1] == [SETTING_0, SETTING_1];
  }

  lemma TwoDefined()
    ensures var t := Tree(TWO_HEADER, [Some(TWO_SETTINGS)]); t.Intact() && TreeDefined(t, false)
  {
    SettingFacts(SETTING_0);
    SettingFacts(SETTING_1);
    SettingPrinted(SETTING_0);
    SettingPrinted(SETTING_1);
    TwoPrinted();
    hide Interface.Intact, Interface.Printed, Flatten, Bytes, Printed, InterfaceDefined, Filled;
    var t := Tree(TWO_HEADER, [Some(TWO_SETTINGS)]);
    assert SettingDefined(TWO_SETTINGS, 0) && SettingDefined(TWO_SETTINGS, 1);
    assert GroupPlaced(t.groups, 0);
  }

  /** The interval of an endpoint record that is 1 has a new value, so patching the setting changes its bytes. */
  lemma PatchChanges(zero: byte)
    ensures Flatten(Faster(SETTING_1, zero).Printed()) != Flatten(SETTING_1.Printed())
  {
    SettingFacts(SETTING_1);
    SettingPrinted(SETTING_1);
    PrintedFaster(SETTING_1, zero);
    IntervalFixed(1, zero);
    var head: Record := SETTING_1.descriptor;
    assert EndpointList(SETTING_1) == [FIRST_ENDPOINT];
    hide NewInterval, Interface.Printed, Faster, Filled;
    var f := FasterEndpoint(FIRST_ENDPOINT, zero);
    assert FasterEndpoints([FIRST_ENDPOINT], zero) == [f];
    assert Head(SETTING_1) == [head];
    assert f[6] != FIRST_ENDPOINT[6];
    TwoFlat(head, FIRST_ENDPOINT);
    TwoFlat(head, f);
    assert (head + f)[15] == f[6] && (head + FIRST_ENDPOINT)[15] == FIRST_ENDPOINT[6];
  }

  lemma OneFlat(a: Record)
    ensures Flatten([a]) == a
  {
    assert [a][1..] == [] && Flatten([]) == [] && a + [] == a;
  }

  lemma TwoFlat(a: Record, b: Record)
    ensures Flatten([a] + [b]) == a + b && Flatten([a, b]) == a + b
  {
    hide Flatten;
    assert [a] + [b] == [a, b];
    FlattenConcat([a], [b]);
    OneFlat(a);
    OneFlat(b);
  }

  /** A configuration that validates and has two alternate settings: the walk over the active one leaves the other's
      interval as it was. */
  lemma AlternateUnpatched(zero: byte)
    ensures var t := Tree(TWO_HEADER, [Some(TWO_SETTINGS)]);
            && t.Intact() && TreeDefined(t, false)
            && WalkSettings(TWO_HEADER + Bytes(Printed(t.groups)), 9, [SETTING_0], zero) ==
               Some(TWO_HEADER + Flatten(Faster(SETTING_0, zero).Printed()) + Flatten(SETTING_1.Printed()))
    ensures Flatten(SETTING_1.Printed()) != Flatten(Faster(SETTING_1, zero).Printed())
  {
    TwoDefined();
    TwoPrinted();
    PatchChanges(zero);
    SettingFacts(SETTING_0);
    hide Interface.Intact, Interface.Printed, Flatten, Bytes, Printed, Filled, Faster, WalkSetting, WalkSettings;
    hide TreeDefined, Tree.Intact, GroupsIntact;
    OneWalked(TWO_HEADER, SETTING_0, Flatten(SETTING_1.Printed()), zero);
  }

  lemma OneWalked(front: seq<byte>, i: Interface, back: seq<byte>, zero: byte)
    requires Filled(i)
    ensures WalkSettings(front + (Flatten(i.Printed()) + back), |front|, [i], zero) ==
            Some(front + Flatten(Faster(i, zero).Printed()) + back)
  {
    hide Interface.Printed, Flatten, Faster, WalkSetting, WalkSettings, Filled;
    WalkSettingAgrees(front, i, back, zero);
    var x, f := Flatten(i.Printed()), front + Flatten(Faster(i, zero).Printed());
    assert front + (x + back) == front + x + back;
    WalkSettingsCons(front + x + back, |front|, [i], zero, f + back, |f|);
    WalkSettingsNil(f + back, |f|, zero);
    assert [i][1..] == [];
  }
}
