/** The alternate settings of one interface number: a table indexed by alternate setting that grows on demand. */
module InterfaceGroups {
  import opened Wire
  import opened Records
  import opened Buffers
  import opened DefinitionErrors
  import opened Interfaces

  /** What a group holds. `alternateCount` is a byte, so it is the table's size only below 256. */
  datatype Group = Group(number: byte, alternateCount: byte, interfaces: seq<Option<Interface>>) {
    predicate Intact() {
      && |interfaces| <= 0x100
      && alternateCount == U8(|interfaces|)
      && forall k :: 0 <= k < |interfaces| && interfaces[k].Some? ==> interfaces[k].value.Intact()
    }

    /** The part of the table the loops and lookups see. */
    function Visible(): (r: seq<Option<Interface>>)
      requires Intact()
    {
      interfaces[..alternateCount]
    }

    /** `get_interface`. */
    function GetInterface(alternate: byte): Option<Interface>
      requires Intact()
    {
      if alternate >= alternateCount then None else interfaces[alternate]
    }

    /** The settings in the order they are printed. */
    function Printed(): seq<Interface>
      requires Intact()
    {
      Present(Visible())
    }
  }

  /** The group after `add_interface`: the table is enlarged if the alternate setting lies outside the counted part,
      and the setting takes its slot, replacing what was there. */
  function Add(g: Group, i: Interface): (r: Group)
    requires g.Intact() && i.Intact()
    ensures r.Intact() && r.number == g.number
  {
    var a := i.Alternate();
    if a >= g.alternateCount
    then g.(alternateCount := U8(a + 1),
            interfaces := g.interfaces[..g.alternateCount] + seq(a - g.alternateCount, _ => None) + [Some(i)])
    else g.(interfaces := g.interfaces[a := Some(i)])
  }

  /** What the group shows afterwards: the setting under its own number and everything else as before. Alternate setting
      255 makes the count wrap to zero, and the group shows nothing. */
  lemma AddShows(g: Group, i: Interface, a: byte)
    requires g.Intact() && i.Intact()
    ensures Add(g, i).GetInterface(a) ==
            if i.Alternate() == 0xff then None else if a == i.Alternate() then Some(i) else g.GetInterface(a)
  {
    hide Interface.Intact;
  }

  /** The records of a list of settings, in order. */
  function AllPrinted(settings: seq<Interface>): seq<Record> {
    if settings == [] then [] else settings[0].Printed() + AllPrinted(settings[1..])
  }

  lemma {:induction false} AllPrintedConcat(a: seq<Interface>, b: seq<Interface>)
    ensures AllPrinted(a + b) == AllPrinted(a) + AllPrinted(b)
  {
    hide Interface.Printed;
    if a == [] {
      assert a + b == b;
    } else {
      AllPrintedConcat(a[1..], b);
      assert (a + b)[0] == a[0] && (a + b)[1..] == a[1..] + b;
      assert AllPrinted(a + b) == a[0].Printed() + (AllPrinted(a[1..]) + AllPrinted(b));
    }
  }

  /** The bytes of a list of settings. */
  function Bytes(settings: seq<Interface>): seq<byte> {
    Flatten(AllPrinted(settings))
  }

  lemma BytesConcat(a: seq<Interface>, b: seq<Interface>)
    ensures Bytes(a + b) == Bytes(a) + Bytes(b)
  {
    AllPrintedConcat(a, b);
    FlattenConcat(AllPrinted(a), AllPrinted(b));
  }

  lemma BytesOne(i: Interface)
    ensures Bytes([i]) == Flatten(i.Printed())
  {
    assert AllPrinted([i]) == i.Printed() + [] == i.Printed();
  }

  /** One more slot of a table adds its setting's bytes, and the bytes of a part never exceed those of the whole. */
  lemma BytesStep(table: seq<Option<Interface>>, k: nat)
    requires k < |table|
    ensures Bytes(Present(table[..k + 1])) ==
            if table[k].Some? then Bytes(Present(table[..k])) + Flatten(table[k].value.Printed())
            else Bytes(Present(table[..k]))
    ensures |Bytes(Present(table[..k + 1]))| <= |Bytes(Present(table))|
  {
    hide Interface.Printed, Flatten, AllPrinted, Bytes;
    PresentSnoc(table, k);
    if table[k].Some? {
      BytesConcat(Present(table[..k]), [table[k].value]);
      BytesOne(table[k].value);
    } else {
      assert Present(table[..k + 1]) == Present(table[..k]);
    }
    assert table == table[..k + 1] + table[k + 1..];
    PresentConcat(table[..k + 1], table[k + 1..]);
    BytesConcat(Present(table[..k + 1]), Present(table[k + 1..]));
  }

  class InterfaceGroup {
    const number: byte
    var alternateCount: byte
    var interfaces: seq<Option<Interface>>
    var activeAlternateIndex: int

    function Value(): Group
      reads this
    {
      Group(number, alternateCount, interfaces)
    }

    predicate Valid()
      reads this
    {
      Value().Intact()
    }

    constructor (number: byte)
      ensures Valid() && Value() == Group(number, 0, []) && activeAlternateIndex == -1
    {
      this.number := number;
      alternateCount, interfaces, activeAlternateIndex := 0, [], -1;
    }

    method AddInterface(i: Interface)
      requires Valid() && i.Intact()
      modifies this`alternateCount, this`interfaces
      ensures Valid() && Value() == Add(old(Value()), i)
    {
      var alternate := i.Alternate();
      if alternate >= alternateCount {
        var newInterfaces: seq<Option<Interface>> := seq(alternate + 1, _ => None);
        if alternateCount != 0 {
          newInterfaces := interfaces[..alternateCount] + newInterfaces[alternateCount..];
        }
        interfaces := newInterfaces;
        alternateCount := U8(alternate + 1);
      }
      interfaces := interfaces[alternate := Some(i)];
      assert Value() == Add(old(Value()), i);
    }

    method GetFullDescriptorLength() returns (total: nat)
      requires Valid()
      ensures total == |Bytes(Value().Printed())|
    {
      hide Interface.Printed, Flatten, Bytes, Present;
      total := 0;
      ghost var table := Value().Visible();
      BytesNone(table);
      for k := 0 to alternateCount
        invariant total == |Bytes(Present(table[..k]))|
      {
        BytesStep(table, k);
        assert table[k] == interfaces[k];
        if interfaces[k].Some? {
          var length := Interfaces.GetFullDescriptorLength(interfaces[k].value);
          total := total + length;
        }
      }
      assert table[..alternateCount] == table;
    }

    /** `get_full_descriptor`: writes every setting at cursor `start` and leaves the cursor behind the last one. */
    method PrintGroup(dst: array<byte>, start: nat) returns (p: nat)
      requires Valid() && start + |Bytes(Value().Printed())| <= dst.Length
      modifies dst
      ensures p == start + |Bytes(Value().Printed())|
      ensures dst[..] == Overwrite(old(dst[..]), start, Bytes(Value().Printed()))
    {
      hide Interface.Printed, Flatten, Bytes, Present, Overwrite;
      ghost var before := dst[..];
      ghost var table := Value().Visible();
      p := start;
      BytesNone(table);
      OverwriteNothing(before, start);
      assert table[..alternateCount] == table;
      for k := 0 to alternateCount
        invariant p == start + |Bytes(Present(table[..k]))| <= dst.Length
        invariant dst[..] == Overwrite(before, start, Bytes(Present(table[..k])))
      {
        BytesStep(table, k);
        assert table[k] == interfaces[k];
        if interfaces[k].Some? {
          OverwriteMore(before, start, Bytes(Present(table[..k])), Flatten(interfaces[k].value.Printed()));
          p := PrintInterface(interfaces[k].value, dst, p);
        }
      }
    }

    /** `is_defined`. */
    method IsDefined(configId: byte) returns (rc: DefinitionError)
      requires Valid()
      ensures rc == GroupError(Value(), configId)
    {
      ghost var g := Value();
      if alternateCount == 0 {
        return DefinitionError(NullObject, 0, InterfaceObject, configId, number, 0, 0);
      }
      for k := 0 to alternateCount
        invariant SettingsError(g, 0, configId) == SettingsError(g, k, configId)
      {
        if interfaces[k].None? {
          return DefinitionError(NullObject, 0, InterfaceObject, configId, number, k, 0);
        }
        var i := interfaces[k].value;
        if i.Number() != number {
          return DefinitionError(MisplacedIfNum, i.Alternate(), InterfaceObject, configId, number, k, 0);
        }
        if i.Alternate() != k {
          return DefinitionError(MisplacedObject, i.Alternate(), InterfaceObject, configId, number, k, 0);
        }
        rc := InterfaceIsDefined(i, configId, number);
        if !rc.Ok() {
          return;
        }
      }
      rc := OK;
    }
  }

  /** A group is defined when it has settings and every slot holds a defined setting that names this group and slot. */
  predicate GroupDefined(g: Group)
    requires g.Intact()
  {
    && g.alternateCount != 0
    && forall k :: 0 <= k < g.alternateCount ==> SettingDefined(g, k)
  }

  predicate SettingDefined(g: Group, k: byte)
    requires g.Intact() && k < g.alternateCount
  {
    && g.interfaces[k].Some?
    && g.interfaces[k].value.Key() == (g.number, k)
    && InterfaceDefined(g.interfaces[k].value)
  }

  /** The verdict on slot `k`: missing, naming another interface number, naming another slot, or its own verdict. */
  function SettingError(g: Group, k: byte, configId: byte): (e: DefinitionError)
    requires g.Intact() && k < g.alternateCount
    ensures e.Ok() ==> e == OK
    ensures e.Ok() <==> SettingDefined(g, k)
  {
    if g.interfaces[k].None? then DefinitionError(NullObject, 0, InterfaceObject, configId, g.number, k, 0)
    else
      var i := g.interfaces[k].value;
      if i.Number() != g.number
      then DefinitionError(MisplacedIfNum, i.Alternate(), InterfaceObject, configId, g.number, k, 0)
      else if i.Alternate() != k
      then DefinitionError(MisplacedObject, i.Alternate(), InterfaceObject, configId, g.number, k, 0)
      else InterfaceError(i, configId, g.number)
  }

  /** The verdict on the first slot from `k` on that has something wrong. */
  function SettingsError(g: Group, k: nat, configId: byte): (e: DefinitionError)
    requires g.Intact() && k <= g.alternateCount
    ensures e.Ok() ==> e == OK
    ensures e.Ok() <==> forall m: byte :: k <= m < g.alternateCount ==> SettingDefined(g, m)
    decreases g.alternateCount - k
  {
    if k == g.alternateCount then OK
    else
      var e := SettingError(g, k, configId);
      if !e.Ok() then e else SettingsError(g, k + 1, configId)
  }

  /** The verdict on the group: no error exactly when the group is defined. */
  function GroupError(g: Group, configId: byte): (e: DefinitionError)
    requires g.Intact()
    ensures e.Ok() ==> e == OK
    ensures e.Ok() <==> GroupDefined(g)
  {
    if g.alternateCount == 0 then DefinitionError(NullObject, 0, InterfaceObject, configId, g.number, 0, 0)
    else SettingsError(g, 0, configId)
  }

  lemma BytesNone(table: seq<Option<Interface>>)
    ensures Bytes(Present(table[..0])) == []
  {
  }
}
