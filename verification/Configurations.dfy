/** A configuration: its descriptor and one group of alternate settings per interface number
    (section 9.6.3 of the USB 2.0 specification). */
module Configurations {
  import opened Wire
  import opened Records
  import opened Buffers
  import opened DefinitionErrors
  import opened Interfaces
  import opened InterfaceGroups

  // The nine bytes of a usb_config_descriptor.
  type ConfigDescriptor = d: seq<byte> | |d| == 9 witness [9, 2, 9, 0, 0, 1, 0, 0x80, 0]

  /** The slots of the interface table. */
  type Groups = seq<Option<Group>>

  predicate GroupsIntact(groups: Groups) {
    forall n :: 0 <= n < |groups| && groups[n].Some? ==> groups[n].value.Intact()
  }

  datatype Tree = Tree(descriptor: ConfigDescriptor, groups: Groups) {
    function TotalLength(): word { Word(descriptor[2], descriptor[3]) }

    function InterfaceCount(): byte { descriptor[4] }

    predicate Intact() {
      descriptor[0] == 9 && |groups| == InterfaceCount() && GroupsIntact(groups)
    }
  }

  /** The settings of a table in the order they are printed: by interface number, then by alternate setting. */
  function Printed(groups: Groups): seq<Interface>
    requires GroupsIntact(groups)
  {
    if groups == [] then []
    else (if groups[0].Some? then groups[0].value.Printed() else []) + Printed(groups[1..])
  }

  lemma {:induction false} PrintedConcat(a: Groups, b: Groups)
    requires GroupsIntact(a) && GroupsIntact(b)
    ensures Printed(a + b) == Printed(a) + Printed(b)
  {
    hide Group.Printed;
    if a == [] {
      assert a + b == b;
    } else {
      PrintedConcat(a[1..], b);
      assert (a + b)[0] == a[0] && (a + b)[1..] == a[1..] + b;
      var first := if a[0].Some? then a[0].value.Printed() else [];
      assert Printed(a + b) == first + (Printed(a[1..]) + Printed(b));
    }
  }

  /** The table after `add_interface`. */
  function WithInterface(groups: Groups, i: Interface): (r: Groups)
    requires GroupsIntact(groups) && i.Intact() && i.Number() < |groups|
    ensures GroupsIntact(r) && |r| == |groups|
  {
    var n := i.Number();
    var g := if groups[n].Some? then groups[n].value else Group(n, 0, []);
    groups[n := Some(Add(g, i))]
  }

  /** Every setting has its place in a table of `n` groups. */
  predicate Fit(settings: seq<Interface>, n: nat) {
    forall k :: 0 <= k < |settings| ==> settings[k].Intact() && settings[k].Number() < n
  }

  /** The table after adding a list of settings one by one. */
  function AddAll(groups: Groups, settings: seq<Interface>): (r: Groups)
    requires GroupsIntact(groups) && Fit(settings, |groups|)
    ensures GroupsIntact(r) && |r| == |groups|
    decreases |settings|
  {
    if settings == [] then groups else AddAll(WithInterface(groups, settings[0]), settings[1..])
  }

  /** The table calloc returns. */
  function NoGroups(n: nat): (r: Groups)
    ensures |r| == n && GroupsIntact(r)
  {
    seq(n, _ => None)
  }

  /** Every block can be parsed and names an interface number below `n`. */
  predicate ParsableAll(bs: seq<Block>, n: nat) {
    forall k :: 0 <= k < |bs| ==> bs[k].Parsable() && AllWellFormed(bs[k].Records()) && bs[k].head[2] < n
  }

  lemma FirstParsable(bs: seq<Block>, n: nat)
    requires ParsableAll(bs, n) && bs != []
    ensures bs[0].Parsable() && InterfaceOf(bs[0]).Intact() && InterfaceOf(bs[0]).Number() < n
    ensures ParsableAll(bs[1..], n)
  {
    InterfaceOfIntact(bs[0]);
    hide OfKind, Generics, AllWellFormed, Interface.Intact;
  }

  /** The settings parsed from a list of blocks. */
  function Parsed(bs: seq<Block>, n: nat): (r: seq<Interface>)
    requires ParsableAll(bs, n)
    ensures |r| == |bs| && Fit(r, n)
  {
    if bs == [] then []
    else
      FirstParsable(bs, n);
      [InterfaceOf(bs[0])] + Parsed(bs[1..], n)
  }

  /** What the parse loop may assume of the bytes behind the configuration descriptor. */
  predicate ParsableChain(rs: seq<Record>, n: nat) {
    Complete(rs) && ParsableAll(Blocks(rs), n)
  }

  /** What the program takes for granted of a reply: its records fit the structures they are read into, and its
      interface numbers fit the table. */
  predicate Fitting(rs: seq<Record>, n: nat) {
    Complete(rs) && forall k :: 0 <= k < |Blocks(rs)| ==> Blocks(rs)[k].Parsable() && Blocks(rs)[k].head[2] < n
  }

  /** The blocks of a chain hold no other records than the chain. */
  lemma {:induction false} BlocksWithin(rs: seq<Record>, k: nat)
    requires Complete(rs) && k < |Blocks(rs)|
    ensures forall r :: r in Blocks(rs)[k].Records() ==> r in rs
    decreases |rs|
  {
    hide Blocks, Complete, Kind;
    assert rs != [] by { NoRecords(rs); }
    var after := FirstBlock(rs);
    var b := Blocks(rs)[0];
    assert rs == b.Records() + after;
    if k > 0 {
      BlocksWithin(after, k - 1);
      assert forall r :: r in after ==> r in rs;
    }
  }

  lemma NoRecords(rs: seq<Record>)
    ensures rs == [] ==> Blocks(rs) == []
  {
  }

  /** The records stepped over in a buffer are well-formed, so nothing more needs to be asked of them. */
  lemma FittingParsable(buf: seq<byte>, p: nat, n: nat)
    requires IsChain(buf, p) && Fitting(RecordsAt(buf, p), n)
    ensures ParsableChain(RecordsAt(buf, p), n)
  {
    RecordsAtWellFormed(buf, p);
    var rs := RecordsAt(buf, p);
    hide Blocks, Complete, RecordsAt, Block.Parsable, Block.Records;
    forall k | 0 <= k < |Blocks(rs)| ensures AllWellFormed(Blocks(rs)[k].Records()) {
      BlocksWithin(rs, k);
    }
  }

  ghost predicate HasBlock(rs: seq<Record>, m: nat) {
    exists k :: 0 <= k < |Blocks(rs)| && |Blocks(rs)[k].head| == 9 && Blocks(rs)[k].head[2] == m
  }

  /** Every interface number below `n` has a block. */
  ghost predicate Numbered(rs: seq<Record>, n: nat) {
    forall m :: 0 <= m < n ==> HasBlock(rs, m)
  }

  lemma {:induction false} AddAllFills(groups: Groups, settings: seq<Interface>, m: nat)
    requires GroupsIntact(groups) && Fit(settings, |groups|) && m < |groups|
    ensures AddAll(groups, settings)[m].Some? <==>
            groups[m].Some? || exists k :: 0 <= k < |settings| && settings[k].Number() == m
    decreases |settings|
  {
    hide Interface.Intact, Add;
    if settings != [] {
      AddAllFills(WithInterface(groups, settings[0]), settings[1..], m);
      assert settings == [settings[0]] + settings[1..];
    }
  }

  lemma {:induction false} ParsedIs(bs: seq<Block>, n: nat, k: nat)
    requires ParsableAll(bs, n) && k < |bs|
    ensures Parsed(bs, n)[k] == InterfaceOf(bs[k])
  {
    hide InterfaceOf, Block.Parsable;
    if k > 0 {
      ParsedIs(bs[1..], n, k - 1);
    }
  }

  lemma ParsedNumber(bs: seq<Block>, n: nat, k: nat)
    requires ParsableAll(bs, n) && k < |bs|
    ensures |bs[k].head| == 9 && Parsed(bs, n)[k].Number() == bs[k].head[2]
  {
    ParsedIs(bs, n, k);
    hide AllWellFormed, OfKind, Generics, Parsed;
  }

  /** The table parsed from a chain with blocks for all numbers has no empty slot. */
  lemma NumberedFills(rs: seq<Record>, n: nat)
    requires ParsableChain(rs, n) && Numbered(rs, n)
    ensures forall m :: 0 <= m < n ==> ParsedGroups(rs, n)[m].Some?
  {
    hide Blocks, Complete, Block.Parsable, AllWellFormed;
    forall m | 0 <= m < n ensures ParsedGroups(rs, n)[m].Some? {
      assert HasBlock(rs, m);
      var k :| 0 <= k < |Blocks(rs)| && |Blocks(rs)[k].head| == 9 && Blocks(rs)[k].head[2] == m;
      ParsedNumber(Blocks(rs), n, k);
      AddAllFills(NoGroups(n), Parsed(Blocks(rs), n), m);
    }
  }

  /** The table parsed from a chain. */
  function ParsedGroups(rs: seq<Record>, n: nat): (r: Groups)
    requires ParsableChain(rs, n)
    ensures GroupsIntact(r) && |r| == n
  {
    AddAll(NoGroups(n), Parsed(Blocks(rs), n))
  }

  /** Adding the settings still to be parsed from `rs` to the table `t` gives `target`. */
  ghost predicate Outstanding(t: Groups, rs: seq<Record>, n: nat, target: Groups) {
    && GroupsIntact(t) && |t| == n && ParsableChain(rs, n)
    && AddAll(t, Parsed(Blocks(rs), n)) == target
  }

  lemma OutstandingAtFirst(rs: seq<Record>, n: nat)
    requires ParsableChain(rs, n)
    ensures Outstanding(NoGroups(n), rs, n, ParsedGroups(rs, n))
  {
  }

  lemma NothingOutstanding(t: Groups, n: nat, target: Groups)
    requires Outstanding(t, [], n, target)
    ensures t == target
  {
  }

  /** One round of the parse loop on a table `t`: the first block becomes a setting that fits, and adding it and then
      the settings of the rest of the chain gives what adding the settings of the whole chain does. */
  lemma ParseRound(t: Groups, rs: seq<Record>, n: nat) returns (b: Block, after: seq<Record>)
    requires ParsableChain(rs, n) && rs != [] && GroupsIntact(t) && |t| == n
    ensures SplitsOff(rs, b, after) && b.Parsable()
    ensures InterfaceOf(b).Intact() && InterfaceOf(b).Number() < n
    ensures ParsableChain(after, n)
    ensures AddAll(WithInterface(t, InterfaceOf(b)), Parsed(Blocks(after), n)) == AddAll(t, Parsed(Blocks(rs), n))
  {
    hide SplitsOff, InterfaceOf, WithInterface, Complete, Blocks, Block.Parsable, AllWellFormed, GroupsIntact;
    after := FirstBlock(rs);
    var bs := Blocks(rs);
    b := bs[0];
    InterfaceOfIntact(b);
    var first := InterfaceOf(b);
    var tail := bs[1..];
    assert forall k :: 0 <= k < |tail| ==> tail[k] == bs[k + 1];
    assert ParsableAll(tail, n);
    assert Parsed(bs, n) == [first] + Parsed(tail, n);
    assert first.Number() < n by {
      assert Parsed(bs, n)[0].Number() < n;
    }
    assert Parsed(bs, n)[1..] == Parsed(tail, n);
  }

  /** The bytes of a table with one more slot. */
  lemma TableStep(groups: Groups, n: nat)
    requires GroupsIntact(groups) && n < |groups|
    ensures GroupsIntact(groups[..n]) && GroupsIntact(groups[..n + 1])
    ensures var part := Bytes(Printed(groups[..n]));
            Bytes(Printed(groups[..n + 1])) ==
            if groups[n].Some? then part + Bytes(groups[n].value.Printed()) else part
    ensures |Bytes(Printed(groups[..n + 1]))| <= |Bytes(Printed(groups))|
  {
    hide Bytes, Group.Printed;
    assert groups[..n + 1] == groups[..n] + [groups[n]];
    PrintedConcat(groups[..n], [groups[n]]);
    var one := if groups[n].Some? then groups[n].value.Printed() else [];
    assert Printed([groups[n]]) == one + [] == one;
    BytesConcat(Printed(groups[..n]), one);
    assert groups[n].None? ==> Printed(groups[..n]) + one == Printed(groups[..n]);
    assert groups == groups[..n + 1] + groups[n + 1..];
    PrintedConcat(groups[..n + 1], groups[n + 1..]);
    BytesConcat(Printed(groups[..n + 1]), Printed(groups[n + 1..]));
  }

  lemma TableNone(groups: Groups)
    ensures GroupsIntact(groups[..0]) && Bytes(Printed(groups[..0])) == []
  {
  }

  // ---------------------------------------------------------------- validation

  predicate GroupPlaced(groups: Groups, n: nat)
    requires GroupsIntact(groups) && n < |groups|
  {
    groups[n].Some? && groups[n].value.number == n && GroupDefined(groups[n].value)
  }

  /** A configuration is defined when its header is sound, its stated length is what it prints, and every slot of the
      interface table holds a defined group that bears the slot's number. */
  predicate TreeDefined(t: Tree, highSpeed: bool)
    requires t.Intact()
  {
    && t.descriptor[1] == (if highSpeed then OTHER_SPEED_TYPE else CONFIG_TYPE)
    && t.TotalLength() == 9 + |Bytes(Printed(t.groups))|
    && t.InterfaceCount() != 0
    && t.descriptor[7] >= 0x80 && t.descriptor[7] % 0x20 == 0
    && forall n :: 0 <= n < |t.groups| ==> GroupPlaced(t.groups, n)
  }

  /** How reports name the configuration: its value, with the high bit set for the other speed. */
  function ConfigId(t: Tree, highSpeed: bool): byte {
    if highSpeed then 0x80 + t.descriptor[5] % 0x80 else t.descriptor[5]
  }

  /** The verdict on the first slot from `n` on that has something wrong. */
  function GroupsError(groups: Groups, n: nat, configId: byte): (e: DefinitionError)
    requires GroupsIntact(groups) && n <= |groups| < 0x100
    ensures e.Ok() ==> e == OK
    ensures e.Ok() <==> forall m :: n <= m < |groups| ==> GroupPlaced(groups, m)
    decreases |groups| - n
  {
    if n == |groups| then OK
    else if groups[n].None? then
      assert !GroupPlaced(groups, n);
      DefinitionError(NullObject, 0, InterfaceGroupObject, configId, n, 0, 0)
    else if groups[n].value.number != n then
      assert !GroupPlaced(groups, n);
      DefinitionError(MisplacedObject, groups[n].value.number, InterfaceGroupObject, configId, n, 0, 0)
    else
      var e := GroupError(groups[n].value, configId);
      assert GroupPlaced(groups, n) <==> e.Ok();
      if !e.Ok() then e else GroupsError(groups, n + 1, configId)
  }

  /** The verdict on the configuration: no error exactly when it is defined. */
  function TreeError(t: Tree, highSpeed: bool): (e: DefinitionError)
    requires |t.groups| == t.InterfaceCount() && GroupsIntact(t.groups)
    ensures e.Ok() ==> e == OK
    ensures e.Ok() <==> t.Intact() && TreeDefined(t, highSpeed)
  {
    var subject := if highSpeed then OtherSpeedConfigObject else ConfigObject;
    var Invalid := (detail: word) =>
        DefinitionError(InvalidDescriptor, detail, subject, ConfigId(t, highSpeed), 0, 0, 0);
    if t.descriptor[0] != 9 then Invalid(1)
    else if t.descriptor[1] != (if highSpeed then OTHER_SPEED_TYPE else CONFIG_TYPE) then Invalid(2)
    else if t.TotalLength() != 9 + |Bytes(Printed(t.groups))| then Invalid(3)
    else if t.InterfaceCount() == 0 then Invalid(5)
    else if t.descriptor[7] < 0x80 || t.descriptor[7] % 0x20 != 0 then Invalid(8)
    else GroupsError(t.groups, 0, ConfigId(t, highSpeed))
  }

  class Configuration {
    var descriptor: ConfigDescriptor
    const groups: array<InterfaceGroup?>

    ghost predicate Valid()
      reads this, groups, groups[..]
    {
      && groups.Length == descriptor[4]
      && (forall n :: 0 <= n < groups.Length && groups[n] != null ==> groups[n].Valid())
      && forall m, n :: 0 <= m < n < groups.Length && groups[m] != null ==> groups[m] != groups[n]
    }

    ghost function Slot(n: nat): Option<Group>
      requires n < groups.Length
      reads this, groups, groups[n]
    {
      if groups[n] == null then None else Some(groups[n].Value())
    }

    ghost function Table(): (r: Groups)
      reads this, groups, groups[..]
      ensures |r| == groups.Length
    {
      seq(groups.Length, n requires 0 <= n < groups.Length reads this, groups, groups[..] => Slot(n))
    }

    ghost function Value(): Tree
      reads this, groups, groups[..]
    {
      Tree(descriptor, Table())
    }

    lemma TableIntact()
      requires Valid()
      ensures GroupsIntact(Table())
    {
    }

    /** The parsing constructor, given the device's whole reply to GET_DESCRIPTOR and its answers to GET_INTERFACE. Its
        last loop dereferences every slot of the table. */
    constructor (reply: seq<byte>, answers: seq<byte>)
      requires |reply| >= 9 && IsChain(reply, 9) && Fitting(RecordsAt(reply, 9), reply[4])
      requires Numbered(RecordsAt(reply, 9), reply[4]) && |answers| == reply[4]
      ensures Valid() && fresh(groups)
      ensures descriptor == reply[..9]
      ensures ParsableChain(RecordsAt(reply, 9), reply[4]) && Table() == ParsedGroups(RecordsAt(reply, 9), reply[4])
      ensures forall n :: 0 <= n < groups.Length ==>
                groups[n] != null && fresh(groups[n]) &&
                groups[n].activeAlternateIndex == if groups[n].alternateCount == 1 then 0 else answers[n]
    {
      hide IsChain, RecordsAt, ParsedGroups, ParsableChain, Fitting, Numbered;
      FittingParsable(reply, 9, reply[4]);
      NumberedFills(RecordsAt(reply, 9), reply[4]);
      descriptor := reply[..9];
      groups := new InterfaceGroup?[reply[4]](_ => null);
      new;
      ghost var target := ParsedGroups(RecordsAt(reply, 9), reply[4]);
      ReadInterfaces(reply);
      forall m | 0 <= m < groups.Length ensures groups[m] != null {
        assert target[m].Some? && Slot(m) == Table()[m];
      }
      QueryActive(answers);
    }

    /** The parse loop, on a table still empty. */
    method ReadInterfaces(reply: seq<byte>)
      requires |reply| >= 9 && groups.Length == reply[4] && descriptor == reply[..9]
      requires forall k :: 0 <= k < groups.Length ==> groups[k] == null
      requires IsChain(reply, 9) && ParsableChain(RecordsAt(reply, 9), reply[4])
      modifies groups
      ensures Valid() && Table() == ParsedGroups(RecordsAt(reply, 9), reply[4])
      ensures forall k :: 0 <= k < groups.Length && groups[k] != null ==> fresh(groups[k])
    {
      hide IsChain, RecordsAt, SplitsOff, InterfaceOf, WithInterface, ParsableChain, ParsedGroups, AddAll, Parsed;
      hide GroupsIntact, Blocks;
      hide Block.Parsable, Interface.Intact;
      var n, e, p := reply[4], |reply|, 9;
      ghost var rs := RecordsAt(reply, 9);
      ghost var target := ParsedGroups(rs, n);
      OutstandingAtFirst(rs, n);
      assert Table() == NoGroups(n);
      while p < e
        invariant 9 <= p <= e && IsChain(reply, p) && rs == RecordsAt(reply, p)
        invariant Valid() && forall k :: 0 <= k < n && groups[k] != null ==> fresh(groups[k])
        invariant Outstanding(Table(), rs, n, target)
        decreases e - p
      {
        ghost var b, after := ParseRound(Table(), rs, n);
        var i: Interface;
        i, p := ParseInterface(reply, p, e, b, after);
        AddInterface(i);
        rs := after;
      }
      NothingOutstanding(Table(), n, target);
    }

    method AddInterface(i: Interface)
      requires Valid() && i.Intact() && i.Number() < groups.Length
      modifies groups, groups[i.Number()]
      ensures Valid() && GroupsIntact(old(Table()))
      ensures Table() == WithInterface(old(Table()), i)
      ensures forall n :: 0 <= n < groups.Length ==> groups[n] == old(groups[n]) || fresh(groups[n])
    {
      TableIntact();
      var number := i.Number();
      ghost var was := Table();
      if groups[number] == null {
        groups[number] := new InterfaceGroup(number);
      }
      groups[number].AddInterface(i);
      assert forall n :: 0 <= n < groups.Length && n != number ==> Slot(n) == was[n];
    }

    method GetFullDescriptorLength() returns (total: nat)
      requires Valid() && descriptor[0] == 9
      ensures GroupsIntact(Table()) && total == 9 + |Bytes(Printed(Table()))|
    {
      hide Bytes, Group.Printed, Printed, Flatten;
      TableIntact();
      ghost var table := Table();
      TableNone(table);
      total := descriptor[0];
      for n := 0 to descriptor[4]
        invariant GroupsIntact(table[..n]) && total == 9 + |Bytes(Printed(table[..n]))|
      {
        TableStep(table, n);
        assert table[n] == Slot(n);
        if groups[n] != null {
          var length := groups[n].GetFullDescriptorLength();
          total := total + length;
        }
      }
      assert table[..descriptor[4]] == table;
    }

    /** `get_full_descriptor`: the whole configuration in one new buffer. */
    method GetFullDescriptor() returns (buf: array<byte>)
      requires Valid() && descriptor[0] == 9
      ensures GroupsIntact(Table()) && Table() == old(Table())
      ensures fresh(buf) && buf[..] == descriptor + Bytes(Printed(Table()))
    {
      hide Bytes, Group.Printed, Printed, Flatten, Overwrite;
      TableIntact();
      ghost var table := Table();
      TableNone(table);
      var length := GetFullDescriptorLength();
      buf := new byte[length];
      ghost var before := buf[..];
      Memcpy(buf, 0, descriptor);
      var p := descriptor[0];
      assert descriptor + [] == descriptor;
      for n := 0 to descriptor[4]
        invariant GroupsIntact(table[..n]) && Table() == table
        invariant p == 9 + |Bytes(Printed(table[..n]))| <= buf.Length
        invariant buf[..] == Overwrite(before, 0, descriptor + Bytes(Printed(table[..n])))
      {
        TableStep(table, n);
        assert table[n] == Slot(n);
        if groups[n] != null {
          ghost var part := descriptor + Bytes(Printed(table[..n]));
          ghost var more := Bytes(groups[n].Value().Printed());
          OverwriteMore(before, 0, part, more);
          assert part + more == descriptor + (Bytes(Printed(table[..n])) + more);
          p := groups[n].PrintGroup(buf, p);
        }
      }
      assert table[..descriptor[4]] == table;
      OverwriteAll(before, descriptor + Bytes(Printed(table)));
    }

    /** `is_defined`. */
    method IsDefined(highSpeed: bool) returns (rc: DefinitionError)
      requires Valid()
      ensures GroupsIntact(Table()) && rc == TreeError(Value(), highSpeed)
    {
      hide Bytes, Group.Printed, Printed, GroupError, GroupPlaced, Group.Intact, GroupDefined;
      TableIntact();
      ghost var table := Table();
      var subject := if highSpeed then OtherSpeedConfigObject else ConfigObject;
      var configId: byte := if highSpeed then 0x80 + descriptor[5] % 0x80 else descriptor[5];
      if descriptor[0] != 9 {
        return DefinitionError(InvalidDescriptor, 1, subject, configId, 0, 0, 0);
      }
      if descriptor[1] != (if highSpeed then OTHER_SPEED_TYPE else CONFIG_TYPE) {
        return DefinitionError(InvalidDescriptor, 2, subject, configId, 0, 0, 0);
      }
      var length := GetFullDescriptorLength();
      if Word(descriptor[2], descriptor[3]) != length {
        return DefinitionError(InvalidDescriptor, 3, subject, configId, 0, 0, 0);
      }
      if descriptor[4] == 0 {
        return DefinitionError(InvalidDescriptor, 5, subject, configId, 0, 0, 0);
      }
      if descriptor[7] / 0x80 != 1 || descriptor[7] % 0x20 != 0 {
        return DefinitionError(InvalidDescriptor, 8, subject, configId, 0, 0, 0);
      }
      for n := 0 to descriptor[4]
        invariant GroupsError(table, 0, configId) == GroupsError(table, n, configId)
      {
        assert table[n] == Slot(n);
        if groups[n] == null {
          return DefinitionError(NullObject, 0, InterfaceGroupObject, configId, n, 0, 0);
        }
        if groups[n].number != n {
          return DefinitionError(MisplacedObject, groups[n].number, InterfaceGroupObject, configId, n, 0, 0);
        }
        rc := groups[n].IsDefined(configId);
        if !rc.Ok() {
          return;
        }
      }
      rc := OK;
    }

    /** The last loop of the parsing constructor: a group with one alternate setting has that one active, any other has
        the one the device answers to GET_INTERFACE. */
    method QueryActive(replies: seq<byte>)
      requires Valid() && |replies| == groups.Length
      requires forall n :: 0 <= n < groups.Length ==> groups[n] != null
      modifies (set n | 0 <= n < groups.Length && groups[n] != null :: groups[n])`activeAlternateIndex
      ensures Valid() && Table() == old(Table())
      ensures forall n :: 0 <= n < groups.Length ==>
                groups[n].activeAlternateIndex == if groups[n].alternateCount == 1 then 0 else replies[n]
    {
      for n := 0 to groups.Length
        invariant Valid() && Table() == old(Table())
        invariant forall m :: 0 <= m < n ==>
                    groups[m].activeAlternateIndex == if groups[m].alternateCount == 1 then 0 else replies[m]
      {
        groups[n].activeAlternateIndex := if groups[n].alternateCount == 1 then 0 else replies[n];
      }
    }

    /** `get_interface_alternate`. */
    function GetInterfaceAlternate(number: byte, alternate: byte): (r: Option<Interface>)
      requires Valid()
      reads this, groups, groups[..]
      ensures GroupsIntact(Table()) && r == LookUp(Table(), number, alternate)
    {
      TableIntact();
      if number >= descriptor[4] then None
      else if groups[number] == null then None
      else groups[number].Value().GetInterface(alternate)
    }

    /** `get_interface`: the active setting of interface `number`. */
    function GetInterface(number: byte): Option<Interface>
      requires Valid()
      reads this, groups, groups[..]
    {
      if number >= descriptor[4] then None
      else if groups[number] == null then None
      else if groups[number].activeAlternateIndex < 0 then None
      else groups[number].Value().GetInterface(U8(groups[number].activeAlternateIndex))
    }
  }

  // ---------------------------------------------------------------- lookups

  /** `get_interface_alternate` on the value of a configuration. */
  function LookUp(groups: Groups, number: byte, alternate: byte): Option<Interface>
    requires GroupsIntact(groups)
  {
    if number >= |groups| || groups[number].None? then None else groups[number].value.GetInterface(alternate)
  }

  /** On a defined configuration a lookup finds a setting exactly when both numbers are in range, and what it finds is
      defined and bears those numbers. */
  lemma LookUpTotal(t: Tree, highSpeed: bool, number: byte, alternate: byte)
    requires t.Intact() && TreeDefined(t, highSpeed)
    ensures LookUp(t.groups, number, alternate).Some? <==>
              number < t.InterfaceCount() && t.groups[number].Some? &&
              alternate < t.groups[number].value.alternateCount
    ensures LookUp(t.groups, number, alternate).Some? ==>
              var i := LookUp(t.groups, number, alternate).value;
              i.Key() == (number, alternate) && i.Intact() && InterfaceDefined(i)
  {
    if number < t.InterfaceCount() {
      assert GroupPlaced(t.groups, number);
      if alternate < t.groups[number].value.alternateCount {
        assert SettingDefined(t.groups[number].value, alternate);
      }
    }
  }
}
