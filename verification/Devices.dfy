/** A device: its descriptor (section 9.6.1 of the USB 2.0 specification), its configurations and its strings; without a
    device qualifier. */
module Devices {
  import opened Wire
  import opened DefinitionErrors
  import opened Interfaces
  import opened InterfaceGroups
  import opened Configurations
  import opened StringTables

  const DEVICE_TYPE: byte := 1

  // The eighteen bytes of a usb_device_descriptor.
  type DeviceDescriptor = d: seq<byte> | |d| == 18 witness seq(18, _ => 0)

  /** The configurations of a device, as far as they are there. */
  type Trees = seq<Option<Tree>>

  ghost predicate TreesIntact(cs: Trees) {
    |cs| < 0x100 && forall i :: 0 <= i < |cs| && cs[i].Some? ==>
        |cs[i].value.groups| == cs[i].value.InterfaceCount() && GroupsIntact(cs[i].value.groups)
  }

  // ---------------------------------------------------------------- configurations

  ghost predicate ConfigPlaced(cs: Trees, i: nat)
    requires i < |cs|
  {
    cs[i].Some? && cs[i].value.descriptor[5] == i + 1 && cs[i].value.Intact() && TreeDefined(cs[i].value, false)
  }

  /** The verdict on the configurations from the `i`-th on. */
  ghost function ConfigsError(cs: Trees, i: nat): (e: DefinitionError)
    requires TreesIntact(cs) && i <= |cs|
    ensures e.Ok() ==> e == OK
    ensures e.Ok() <==> forall m :: i <= m < |cs| ==> ConfigPlaced(cs, m)
    decreases |cs| - i
  {
    if i == |cs| then OK
    else if cs[i].None? then
      assert !ConfigPlaced(cs, i);
      DefinitionError(NullObject, 0, ConfigObject, i + 1, 0, 0, 0)
    else if cs[i].value.descriptor[5] != i + 1 then
      assert !ConfigPlaced(cs, i);
      DefinitionError(MisplacedObject, cs[i].value.descriptor[5], ConfigObject, i + 1, 0, 0, 0)
    else
      var e := TreeError(cs[i].value, false);
      assert ConfigPlaced(cs, i) <==> e.Ok();
      if !e.Ok() then e else ConfigsError(cs, i + 1)
  }

  // ---------------------------------------------------------------- string references

  /** The strings the alternate settings of a group refer to, from the `k`-th on. */
  function AlternateNames(g: Group, k: nat): seq<byte>
    requires g.Intact() && k <= g.alternateCount
    decreases g.alternateCount - k
  {
    if k == g.alternateCount then []
    else if g.interfaces[k].Some? then [g.interfaces[k].value.descriptor[8]] + AlternateNames(g, k + 1)
    else AlternateNames(g, k + 1)
  }

  function GroupNames(groups: Groups, j: nat): seq<byte>
    requires GroupsIntact(groups) && j <= |groups|
    decreases |groups| - j
  {
    if j == |groups| then []
    else if groups[j].Some? then AlternateNames(groups[j].value, 0) + GroupNames(groups, j + 1)
    else GroupNames(groups, j + 1)
  }

  ghost function ConfigNames(cs: Trees, i: nat): seq<byte>
    requires TreesIntact(cs) && i <= |cs|
    decreases |cs| - i
  {
    if i == |cs| then []
    else if cs[i].Some? then [cs[i].value.descriptor[6]] + GroupNames(cs[i].value.groups, 0) + ConfigNames(cs, i + 1)
    else ConfigNames(cs, i + 1)
  }

  /** The strings the device, its configurations and their settings refer to, in the order they are checked. */
  ghost function Names(d: DeviceDescriptor, cs: Trees): seq<byte>
    requires TreesIntact(cs)
  {
    [d[14], d[15], d[16]] + ConfigNames(cs, 0)
  }

  ghost predicate Covered(names: seq<byte>, t: Table) {
    forall x :: x in names ==> x < |t|
  }

  /** The verdict on the first string of the list that is not defined. */
  ghost function FirstError(names: seq<byte>, t: Table, languages: seq<word>): (e: DefinitionError)
    requires Covered(names, t)
    ensures e.Ok() ==> e == OK
    ensures e.Ok() <==> forall x :: x in names ==> StringDefined(t, languages, x)
  {
    if names == [] then OK
    else
      assert names == [names[0]] + names[1..];
      assert names[0] in names && forall x :: x in names[1..] ==> x in names;
      var e := StringError(t, languages, names[0]);
      if !e.Ok() then e else FirstError(names[1..], t, languages)
  }

  lemma {:induction false} FirstErrorConcat(a: seq<byte>, b: seq<byte>, t: Table, languages: seq<word>)
    requires Covered(a + b, t)
    ensures Covered(a, t) && Covered(b, t)
    ensures var e := FirstError(a, t, languages);
            FirstError(a + b, t, languages) == if e.Ok() then FirstError(b, t, languages) else e
  {
    hide StringDefined;
    assert forall x :: x in a || x in b ==> x in a + b;
    if a == [] {
      assert a + b == b;
    } else {
      assert (a + b)[1..] == a[1..] + b && forall x :: x in (a + b)[1..] ==> x in a + b;
      FirstErrorConcat(a[1..], b, t, languages);
    }
  }

  lemma FirstErrorCons(x: byte, b: seq<byte>, t: Table, languages: seq<word>)
    requires Covered([x] + b, t)
    ensures x < |t| && Covered(b, t)
    ensures var e := StringError(t, languages, x);
            FirstError([x] + b, t, languages) == if e.Ok() then FirstError(b, t, languages) else e
  {
    hide StringDefined;
    assert x in [x] + b && forall y :: y in b ==> y in [x] + b;
    assert ([x] + b)[1..] == b;
  }

  // ---------------------------------------------------------------- the verdict on a device

  /** The verdict on the device. Details are numbers of descriptor bytes, counted from one. */
  ghost function DeviceError(d: DeviceDescriptor, cs: Trees, t: Table,
      languages: Option<seq<word>>): (e: DefinitionError)
    requires TreesIntact(cs) && |cs| == d[17] && Covered(Names(d, cs), t)
    ensures e.Ok() ==> e == OK
    ensures e.Ok() <==> DeviceDefined(d, cs, t, languages)
  {
    var Invalid := (detail: word) => DefinitionError(InvalidDescriptor, detail, DeviceObject, 0, 0, 0, 0);
    if d[0] != 18 then Invalid(1)
    else if d[1] != DEVICE_TYPE then Invalid(2)
    else if d[7] !in {8, 16, 32, 64} then Invalid(8)
    else if d[17] == 0 then Invalid(18)
    else if !ConfigsError(cs, 0).Ok() then ConfigsError(cs, 0)
    else if languages.None? then DefinitionError(NullObject, 0, StringObject, 0, 0, 0, 0)
    else if languages.value == [] then DefinitionError(MissingLanguage, 0, StringObject, 0, 0, 0, 0)
    else FirstError(Names(d, cs), t, languages.value)
  }

  /** A device is defined when its descriptor is sound, its configurations are defined and numbered from one, and every
      string it refers to is there in every language listed, of which there is one at least. */
  ghost predicate DeviceDefined(d: DeviceDescriptor, cs: Trees, t: Table, languages: Option<seq<word>>)
    requires TreesIntact(cs)
  {
    && d[0] == 18 && d[1] == DEVICE_TYPE && d[7] in {8, 16, 32, 64} && d[17] != 0
    && (forall i :: 0 <= i < |cs| ==> ConfigPlaced(cs, i))
    && languages.Some? && languages.value != []
    && forall x :: x in Names(d, cs) ==> StringDefined(t, languages.value, x)
  }

  lemma {:induction false} AlternateNamed(g: Group, k: nat, a: nat)
    requires g.Intact() && k <= a < g.alternateCount && g.interfaces[a].Some?
    ensures g.interfaces[a].value.descriptor[8] in AlternateNames(g, k)
    decreases a - k
  {
    if k < a {
      AlternateNamed(g, k + 1, a);
    }
  }

  lemma {:induction false} GroupNamed(groups: Groups, j: nat, n: nat, a: nat)
    requires GroupsIntact(groups) && j <= n < |groups| && groups[n].Some?
    requires a < groups[n].value.alternateCount && groups[n].value.interfaces[a].Some?
    ensures groups[n].value.interfaces[a].value.descriptor[8] in GroupNames(groups, j)
    decreases n - j
  {
    hide Interface.Intact;
    if j < n {
      GroupNamed(groups, j + 1, n, a);
    } else {
      AlternateNamed(groups[n].value, 0, a);
    }
  }

  lemma {:induction false} ConfigNamed(cs: Trees, j: nat, i: nat, x: byte)
    requires TreesIntact(cs) && j <= i < |cs| && cs[i].Some?
    requires x == cs[i].value.descriptor[6] || x in GroupNames(cs[i].value.groups, 0)
    ensures x in ConfigNames(cs, j)
    decreases i - j
  {
    hide GroupNames, GroupsIntact;
    if j < i {
      ConfigNamed(cs, j + 1, i, x);
    }
  }

  /** String `x` is that of an alternate setting of the group. */
  ghost predicate SettingRefers(g: Group, x: byte)
    requires g.Intact()
  {
    exists a :: 0 <= a < g.alternateCount && g.interfaces[a].Some? && g.interfaces[a].value.descriptor[8] == x
  }

  ghost predicate GroupRefers(groups: Groups, x: byte)
    requires GroupsIntact(groups)
  {
    exists n :: 0 <= n < |groups| && groups[n].Some? && SettingRefers(groups[n].value, x)
  }

  /** String `x` is that of a configuration or of one of its settings. */
  ghost predicate ConfigRefers(cs: Trees, i: nat, x: byte)
    requires TreesIntact(cs) && i < |cs|
  {
    cs[i].Some? && (x == cs[i].value.descriptor[6] || GroupRefers(cs[i].value.groups, x))
  }

  lemma {:induction false} AlternateNamesOnly(g: Group, k: nat, x: byte)
    requires g.Intact() && k <= g.alternateCount && x in AlternateNames(g, k)
    ensures SettingRefers(g, x)
    decreases g.alternateCount - k
  {
    hide Interface.Intact;
    if !(g.interfaces[k].Some? && g.interfaces[k].value.descriptor[8] == x) {
      AlternateNamesOnly(g, k + 1, x);
    }
  }

  lemma {:induction false} GroupNamesOnly(groups: Groups, j: nat, x: byte)
    requires GroupsIntact(groups) && j <= |groups| && x in GroupNames(groups, j)
    ensures GroupRefers(groups, x)
    decreases |groups| - j
  {
    hide Interface.Intact, AlternateNames, SettingRefers;
    if groups[j].Some? && x in AlternateNames(groups[j].value, 0) {
      AlternateNamesOnly(groups[j].value, 0, x);
    } else {
      GroupNamesOnly(groups, j + 1, x);
    }
  }

  lemma {:induction false} ConfigNamesOnly(cs: Trees, i: nat, x: byte)
    requires TreesIntact(cs) && i <= |cs| && x in ConfigNames(cs, i)
    ensures exists m :: 0 <= m < |cs| && ConfigRefers(cs, m, x)
    decreases |cs| - i
  {
    hide GroupNames, GroupRefers, GroupsIntact;
    if cs[i].Some? && (x == cs[i].value.descriptor[6] || x in GroupNames(cs[i].value.groups, 0)) {
      if x in GroupNames(cs[i].value.groups, 0) {
        GroupNamesOnly(cs[i].value.groups, 0, x);
      }
      assert ConfigRefers(cs, i, x);
    } else {
      ConfigNamesOnly(cs, i + 1, x);
    }
  }

  /** The strings that are checked are exactly those of the device, its configurations and all their settings. */
  lemma NamesAre(d: DeviceDescriptor, cs: Trees, x: byte)
    requires TreesIntact(cs)
    ensures x in Names(d, cs) <==>
            x == d[14] || x == d[15] || x == d[16] || exists i :: 0 <= i < |cs| && ConfigRefers(cs, i, x)
  {
    hide ConfigNames, GroupNames, Interface.Intact;
    if x in ConfigNames(cs, 0) {
      ConfigNamesOnly(cs, 0, x);
    }
    if i :| 0 <= i < |cs| && ConfigRefers(cs, i, x) {
      var groups := cs[i].value.groups;
      if x != cs[i].value.descriptor[6] {
        var n :| 0 <= n < |groups| && groups[n].Some? && SettingRefers(groups[n].value, x);
        var g := groups[n].value;
        var a :| 0 <= a < g.alternateCount && g.interfaces[a].Some? && g.interfaces[a].value.descriptor[8] == x;
        GroupNamed(groups, 0, n, a);
      }
      ConfigNamed(cs, 0, i, x);
    }
  }

  /** On a device that validates, everything a host may ask for is there: each configuration prints as many bytes as it
      says, each alternate setting in range is found under its numbers, and its string is there in every language
      listed, as are those of the configuration and the device. */
  lemma LookupsTotal(d: DeviceDescriptor, cs: Trees, t: Table, languages: seq<word>, i: nat, n: byte, a: byte)
    requires TreesIntact(cs) && |cs| == d[17] && Covered(Names(d, cs), t)
    requires DeviceError(d, cs, t, Some(languages)).Ok()
    requires i < d[17]
    ensures cs[i].Some?
    ensures var c := cs[i].value;
            && c.TotalLength() == 9 + |Bytes(Printed(c.groups))|
            && StringDefined(t, languages, c.descriptor[6])
            && (n < c.InterfaceCount() ==> c.groups[n].Some?)
            && (n < c.InterfaceCount() && a < c.groups[n].value.alternateCount ==>
                  && Configurations.LookUp(c.groups, n, a).Some?
                  && var s := Configurations.LookUp(c.groups, n, a).value;
                     s.Key() == (n, a) && StringDefined(t, languages, s.descriptor[8]))
    ensures forall k :: 14 <= k <= 16 ==> StringDefined(t, languages, d[k])
  {
    hide StringDefined, Bytes, Printed, GroupNames, ConfigNames, Interface.Intact, InterfaceDefined, GroupDefined;
    assert ConfigPlaced(cs, i);
    var c := cs[i].value;
    ConfigNamed(cs, 0, i, c.descriptor[6]);
    if n < c.InterfaceCount() {
      assert GroupPlaced(c.groups, n);
      if a < c.groups[n].value.alternateCount {
        LookUpTotal(c, false, n, a);
        GroupNamed(c.groups, 0, n, a);
        ConfigNamed(cs, 0, i, c.groups[n].value.interfaces[a].value.descriptor[8]);
      }
    }
  }

  // ---------------------------------------------------------------- the device itself

  class Device {
    var descriptor: DeviceDescriptor
    const configurations: array<Configuration?>
    const strings: StringTable

    ghost predicate Valid()
      reads *
    {
      && configurations.Length == descriptor[17]
      && strings.Valid() && (strings.HasList() ==> strings.List().Sound())
      && forall i :: 0 <= i < configurations.Length && configurations[i] != null ==> configurations[i].Valid()
    }

    ghost function ConfigTrees(): (r: Trees)
      requires Valid()
      reads *
      ensures |r| == configurations.Length && TreesIntact(r)
    {
      var r := seq(configurations.Length, i requires 0 <= i < configurations.Length reads * =>
        if configurations[i] == null then None else Some(configurations[i].Value()));
      assert TreesIntact(r) by {
        forall i | 0 <= i < configurations.Length && configurations[i] != null
          ensures GroupsIntact(configurations[i].Value().groups)
        {
          configurations[i].TableIntact();
        }
      }
      r
    }

    ghost function Languages(): Option<seq<word>>
      reads *
    {
      if strings.HasList() then Some(strings.List().wData) else None
    }

    /** A device made from its descriptor alone, with no configuration filled in yet. */
    constructor (d: DeviceDescriptor)
      ensures Valid() && descriptor == d && Languages() == Some([US_ENGLISH])
      ensures ConfigTrees() == seq(d[17], _ => None)
    {
      descriptor := d;
      configurations := new Configuration?[d[17]](_ => null);
      strings := new StringTable();
    }

    /** The part of `is_defined` about the strings of one group of alternate settings. */
    method AlternatesDefined(group: InterfaceGroup) returns (rc: DefinitionError)
      requires group.Valid() && strings.Valid() && strings.HasList() && strings.List().Sound()
      requires GroupDefined(group.Value()) && Covered(AlternateNames(group.Value(), 0), strings.Rows())
      ensures rc == FirstError(AlternateNames(group.Value(), 0), strings.Rows(), strings.List().wData)
    {
      hide StringDefined, Interface.Intact, InterfaceDefined, StringError;
      ghost var g, t, ls := group.Value(), strings.Rows(), strings.List().wData;
      for k := 0 to group.alternateCount
        invariant Covered(AlternateNames(g, k), t)
        invariant FirstError(AlternateNames(g, 0), t, ls) == FirstError(AlternateNames(g, k), t, ls)
      {
        assert SettingDefined(g, k);
        var name := group.interfaces[k].value.descriptor[8];
        FirstErrorCons(name, AlternateNames(g, k + 1), t, ls);
        rc := strings.IsStringDefined(name);
        if !rc.Ok() {
          return;
        }
      }
      rc := OK;
    }

    /** The part about the strings of one configuration's settings. */
    method GroupsDefined(c: Configuration) returns (rc: DefinitionError)
      requires c.Valid() && strings.Valid() && strings.HasList() && strings.List().Sound()
      requires GroupsIntact(c.Table()) && forall n :: 0 <= n < |c.Table()| ==> GroupPlaced(c.Table(), n)
      requires Covered(GroupNames(c.Table(), 0), strings.Rows())
      ensures rc == FirstError(GroupNames(c.Table(), 0), strings.Rows(), strings.List().wData)
    {
      hide StringDefined, Interface.Intact, Group.Intact, GroupDefined, AlternateNames, FirstError;
      ghost var groups, t, ls := c.Table(), strings.Rows(), strings.List().wData;
      for j := 0 to c.descriptor[4]
        invariant Covered(GroupNames(groups, j), t)
        invariant FirstError(GroupNames(groups, 0), t, ls) == FirstError(GroupNames(groups, j), t, ls)
      {
        assert GroupPlaced(groups, j) && groups[j] == c.Slot(j);
        FirstErrorConcat(AlternateNames(groups[j].value, 0), GroupNames(groups, j + 1), t, ls);
        rc := AlternatesDefined(c.groups[j]);
        if !rc.Ok() {
          return;
        }
      }
      NoError(t, ls);
      rc := OK;
    }

    lemma NoError(t: Table, ls: seq<word>)
      ensures FirstError([], t, ls) == OK
    {
    }

    /** The part about the configurations' own strings and their settings'. */
    method NamesDefined() returns (rc: DefinitionError)
      requires Valid() && strings.HasList()
      requires forall i :: 0 <= i < |ConfigTrees()| ==> ConfigPlaced(ConfigTrees(), i)
      requires Covered(ConfigNames(ConfigTrees(), 0), strings.Rows())
      ensures rc == FirstError(ConfigNames(ConfigTrees(), 0), strings.Rows(), strings.List().wData)
    {
      hide StringDefined, GroupsIntact, GroupNames, FirstError, StringError;
      ghost var cs, t, ls := ConfigTrees(), strings.Rows(), strings.List().wData;
      for i := 0 to descriptor[17]
        invariant Covered(ConfigNames(cs, i), t)
        invariant FirstError(ConfigNames(cs, 0), t, ls) == FirstError(ConfigNames(cs, i), t, ls)
      {
        assert ConfigPlaced(cs, i);
        var c := configurations[i];
        ghost var names := GroupNames(cs[i].value.groups, 0);
        assert [c.descriptor[6]] + names + ConfigNames(cs, i + 1) ==
            [c.descriptor[6]] + (names + ConfigNames(cs, i + 1));
        FirstErrorCons(c.descriptor[6], names + ConfigNames(cs, i + 1), t, ls);
        FirstErrorConcat(names, ConfigNames(cs, i + 1), t, ls);
        rc := strings.IsStringDefined(c.descriptor[6]);
        if !rc.Ok() {
          return;
        }
        rc := GroupsDefined(c);
        if !rc.Ok() {
          return;
        }
      }
      NoError(t, ls);
      rc := OK;
    }

    /** The device's own strings, then the others. */
    method StringsDefined() returns (rc: DefinitionError)
      requires Valid() && strings.HasList()
      requires forall i :: 0 <= i < |ConfigTrees()| ==> ConfigPlaced(ConfigTrees(), i)
      requires Covered(Names(descriptor, ConfigTrees()), strings.Rows())
      ensures rc == FirstError(Names(descriptor, ConfigTrees()), strings.Rows(), strings.List().wData)
    {
      hide StringDefined, FirstError, StringError, ConfigPlaced;
      var d := descriptor;
      ghost var t, ls, rest := strings.Rows(), strings.List().wData, ConfigNames(ConfigTrees(), 0);
      assert Names(d, ConfigTrees()) == [d[14]] + ([d[15]] + ([d[16]] + rest));
      FirstErrorCons(d[14], [d[15]] + ([d[16]] + rest), t, ls);
      FirstErrorCons(d[15], [d[16]] + rest, t, ls);
      FirstErrorCons(d[16], rest, t, ls);
      rc := strings.IsStringDefined(d[14]);
      if !rc.Ok() {
        return;
      }
      rc := strings.IsStringDefined(d[15]);
      if !rc.Ok() {
        return;
      }
      rc := strings.IsStringDefined(d[16]);
      if !rc.Ok() {
        return;
      }
      rc := NamesDefined();
    }

    /** The part about the configurations. */
    method ConfigurationsDefined() returns (rc: DefinitionError)
      requires Valid()
      ensures rc == ConfigsError(ConfigTrees(), 0)
    {
      hide GroupsIntact, TreeError, TreeDefined;
      ghost var cs := ConfigTrees();
      for i := 0 to descriptor[17]
        invariant ConfigsError(cs, 0) == ConfigsError(cs, i)
      {
        if configurations[i] == null {
          return DefinitionError(NullObject, 0, ConfigObject, i + 1, 0, 0, 0);
        }
        var value := configurations[i].descriptor[5];
        if value != i + 1 {
          return DefinitionError(MisplacedObject, value, ConfigObject, i + 1, 0, 0, 0);
        }
        rc := configurations[i].IsDefined(false);
        if !rc.Ok() {
          return;
        }
      }
      rc := OK;
    }

    /** `is_defined`, on a device without qualifier whose references lie within the string table. */
    method IsDefined() returns (rc: DefinitionError)
      requires Valid() && Covered(Names(descriptor, ConfigTrees()), strings.Rows())
      ensures rc == DeviceError(descriptor, ConfigTrees(), strings.Rows(), Languages())
    {
      hide StringDefined, GroupsIntact, GroupNames, FirstError, StringError, ConfigNames, TreeError, TreeDefined;
      var d := descriptor;
      ghost var cs := ConfigTrees();
      if d[0] != 18 {
        return DefinitionError(InvalidDescriptor, 1, DeviceObject, 0, 0, 0, 0);
      }
      if d[1] != DEVICE_TYPE {
        return DefinitionError(InvalidDescriptor, 2, DeviceObject, 0, 0, 0, 0);
      }
      if d[7] != 8 && d[7] != 16 && d[7] != 32 && d[7] != 64 {
        return DefinitionError(InvalidDescriptor, 8, DeviceObject, 0, 0, 0, 0);
      }
      if d[17] == 0 {
        return DefinitionError(InvalidDescriptor, 18, DeviceObject, 0, 0, 0, 0);
      }
      rc := ConfigurationsDefined();
      if !rc.Ok() {
        return;
      }
      if !strings.HasList() {
        return DefinitionError(NullObject, 0, StringObject, 0, 0, 0, 0);
      }
      if strings.List().GetCharCount() == 0 {
        return DefinitionError(MissingLanguage, 0, StringObject, 0, 0, 0, 0);
      }
      rc := StringsDefined();
    }
  }
}
