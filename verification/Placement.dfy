/** How the interface table of a configuration relates to the list of settings added to it, and to the list printed. */
module Placement {
  import opened Wire
  import opened Records
  import opened Interfaces
  import opened InterfaceGroups
  import opened Configurations

  /** What slot `a` of group `n` shows to lookups and printing. */
  function At(t: Groups, n: nat, a: byte): Option<Interface>
    requires GroupsIntact(t) && n < |t|
  {
    if t[n].None? then None else t[n].value.GetInterface(a)
  }

  /** Every visible setting bears the numbers of its slot. */
  predicate Placed(t: Groups) {
    && GroupsIntact(t)
    && forall n: nat, a: byte :: n < |t| && At(t, n, a).Some? ==> At(t, n, a).value.Key() == (n, a)
  }

  /** The last setting of a list that bears the numbers `n` and `a`. */
  function LastWith(ss: seq<Interface>, n: nat, a: byte): Option<Interface> {
    if ss == [] then None
    else
      var later := LastWith(ss[1..], n, a);
      if later.Some? then later
      else if ss[0].Key() == (n, a) then Some(ss[0])
      else None
  }

  /** No setting has the alternate number whose successor does not fit a byte. */
  predicate NoWrap(ss: seq<Interface>) {
    forall k :: 0 <= k < |ss| ==> ss[k].Alternate() < 0xff
  }

  /** What slot `a` of group `n` shows after `i` was added, if it showed `was` before. Alternate setting 255 makes its
      group's count wrap to zero, so that the group shows nothing. */
  function Effect(i: Interface, n: nat, a: byte, was: Option<Interface>): Option<Interface> {
    if i.Number() != n then was
    else if i.Alternate() == 0xff then None
    else if i.Alternate() == a then Some(i)
    else was
  }

  /** What the slot shows after a whole list was added. */
  function Showing(ss: seq<Interface>, n: nat, a: byte, was: Option<Interface>): Option<Interface>
    decreases |ss|
  {
    if ss == [] then was else Showing(ss[1..], n, a, Effect(ss[0], n, a, was))
  }

  lemma AtWithInterface(t: Groups, i: Interface, n: nat, a: byte)
    requires GroupsIntact(t) && i.Intact() && i.Number() < |t| && n < |t|
    ensures At(WithInterface(t, i), n, a) == Effect(i, n, a, At(t, n, a))
  {
    hide Interface.Intact, Add;
    var m := i.Number();
    AddShows(if t[m].Some? then t[m].value else Group(m, 0, []), i, a);
  }

  lemma PlacedWithInterface(t: Groups, i: Interface)
    requires Placed(t) && i.Intact() && i.Number() < |t|
    ensures Placed(WithInterface(t, i))
  {
    hide Interface.Intact;
    var r := WithInterface(t, i);
    forall n: nat, a: byte | n < |r| && At(r, n, a).Some?
      ensures At(r, n, a).value.Key() == (n, a)
    {
      AtWithInterface(t, i, n, a);
    }
  }

  lemma {:induction false} PlacedAddAll(t: Groups, ss: seq<Interface>)
    requires Placed(t) && Fit(ss, |t|)
    ensures Placed(AddAll(t, ss))
    decreases |ss|
  {
    hide WithInterface, Placed;
    if ss != [] {
      PlacedWithInterface(t, ss[0]);
      assert GroupsIntact(t) by { PlacedIntact(t); }
      PlacedAddAll(WithInterface(t, ss[0]), ss[1..]);
    }
  }

  lemma PlacedIntact(t: Groups)
    requires Placed(t)
    ensures GroupsIntact(t)
  {
  }

  lemma {:induction false} AtAddAll(t: Groups, ss: seq<Interface>, n: nat, a: byte)
    requires GroupsIntact(t) && Fit(ss, |t|) && n < |t|
    ensures At(AddAll(t, ss), n, a) == Showing(ss, n, a, At(t, n, a))
    decreases |ss|
  {
    hide WithInterface, At, Interface.Intact, GroupsIntact, Effect;
    if ss != [] {
      AtWithInterface(t, ss[0], n, a);
      AtAddAll(WithInterface(t, ss[0]), ss[1..], n, a);
    }
  }

  /** Without alternate setting 255 a slot shows the last setting of the list that names it, or what it showed before.
      */
  lemma {:induction false} ShowingLast(ss: seq<Interface>, n: nat, a: byte, was: Option<Interface>)
    requires NoWrap(ss)
    ensures Showing(ss, n, a, was) == if LastWith(ss, n, a).Some? then LastWith(ss, n, a) else was
    decreases |ss|
  {
    if ss != [] {
      ShowingLast(ss[1..], n, a, Effect(ss[0], n, a, was));
    }
  }

  /** The `k`-th setting of the list stays: no later one takes its slot or makes its group's count wrap. */
  predicate Stays(ss: seq<Interface>, k: nat) {
    && k < |ss| && ss[k].Alternate() < 0xff
    && forall j :: k < j < |ss| && ss[j].Number() == ss[k].Number() ==>
         ss[j].Alternate() != ss[k].Alternate() && ss[j].Alternate() < 0xff
  }

  lemma {:induction false} StaysShown(ss: seq<Interface>, k: nat, was: Option<Interface>)
    requires Stays(ss, k)
    ensures Showing(ss, ss[k].Number(), ss[k].Alternate(), was) == Some(ss[k])
    decreases |ss|
  {
    var i := ss[k];
    var next := Effect(ss[0], i.Number(), i.Alternate(), was);
    if k == 0 {
      Untouched(ss[1..], i.Number(), i.Alternate(), next);
    } else {
      StaysShown(ss[1..], k - 1, next);
    }
  }

  lemma {:induction false} Untouched(ss: seq<Interface>, n: nat, a: byte, was: Option<Interface>)
    requires forall j :: 0 <= j < |ss| && ss[j].Number() == n ==> ss[j].Alternate() != a && ss[j].Alternate() < 0xff
    ensures Showing(ss, n, a, was) == was
    decreases |ss|
  {
    if ss != [] {
      assert ss[0].Number() == n ==> ss[0].Alternate() != a && ss[0].Alternate() < 0xff;
      assert forall j :: 0 <= j < |ss[1..]| ==> ss[1..][j] == ss[j + 1];
      Untouched(ss[1..], n, a, was);
    }
  }

  /** What a slot shows was there before, or is a setting that stays. */
  lemma {:induction false} ShownStays(ss: seq<Interface>, n: nat, a: byte, was: Option<Interface>) returns (k: nat)
    requires Showing(ss, n, a, was).Some?
    ensures k == |ss| ==> Showing(ss, n, a, was) == was
    ensures k < |ss| ==> Stays(ss, k) && Showing(ss, n, a, was) == Some(ss[k]) && ss[k].Key() == (n, a)
    ensures k == |ss| ==> forall j :: 0 <= j < |ss| && ss[j].Number() == n ==>
            ss[j].Alternate() != a && ss[j].Alternate() < 0xff
    ensures k <= |ss|
    decreases |ss|
  {
    if ss == [] {
      k := 0;
    } else {
      k := ShownStays(ss[1..], n, a, Effect(ss[0], n, a, was));
      assert forall j :: 1 <= j < |ss| ==> ss[j] == ss[1..][j - 1];
      if k < |ss[1..]| || ss[0].Number() != n || ss[0].Alternate() != a {
        k := k + 1;
      } else {
        k := 0;
      }
    }
  }

  lemma {:induction false} LastWithConcat(x: seq<Interface>, y: seq<Interface>, n: nat, a: byte)
    ensures LastWith(x + y, n, a) == if LastWith(y, n, a).Some? then LastWith(y, n, a) else LastWith(x, n, a)
  {
    if x == [] {
      assert x + y == y;
    } else {
      LastWithConcat(x[1..], y, n, a);
      assert (x + y)[0] == x[0] && (x + y)[1..] == x[1..] + y;
    }
  }

  /** The settings of one slot table, each in the slot it names. */
  predicate KeyedBy(table: seq<Option<Interface>>, n: nat) {
    forall k :: 0 <= k < |table| && table[k].Some? ==> table[k].value.Key() == (n, k)
  }

  lemma {:induction false} LastWithPresent(table: seq<Option<Interface>>, n: nat, m: nat, a: byte)
    requires KeyedBy(table, n)
    ensures LastWith(Present(table), m, a) == if m == n && a < |table| then table[a] else None
  {
    if table != [] {
      var k := |table| - 1;
      assert table == table[..k + 1] && KeyedBy(table[..k], n);
      PresentSnoc(table, k);
      LastWithPresent(table[..k], n, m, a);
      if table[k].Some? {
        LastWithConcat(Present(table[..k]), [table[k].value], m, a);
        assert LastWith([table[k].value], m, a) == if m == n && a == k then table[k] else None;
      } else {
        assert Present(table) == Present(table[..k]);
      }
    }
  }

  lemma PlacedKeyed(t: Groups, n: nat)
    requires Placed(t) && n < |t| && t[n].Some?
    ensures t[n].value.Intact() && KeyedBy(t[n].value.Visible(), n)
    ensures forall a: byte :: At(t, n, a) ==
              if a < |t[n].value.Visible()| then t[n].value.Visible()[a] else None
  {
    hide Interface.Intact;
    var table := t[n].value.Visible();
    forall k | 0 <= k < |table| && table[k].Some?
      ensures table[k].value.Key() == (n, k)
    {
      assert At(t, n, k) == table[k];
    }
  }

  lemma PlacedFront(t: Groups, n: nat)
    requires Placed(t) && n <= |t|
    ensures Placed(t[..n])
    ensures forall m: nat, a: byte :: m < n ==> At(t[..n], m, a) == At(t, m, a)
  {
    hide Interface.Intact;
  }

  /** The printed list of a placed table names each slot at most once, and with the setting the slot shows. */
  lemma {:induction false} LastWithPrinted(t: Groups, m: nat, a: byte)
    requires Placed(t)
    ensures LastWith(Printed(t), m, a) == if m < |t| then At(t, m, a) else None
  {
    hide Interface.Intact, Placed, At, KeyedBy;
    PlacedIntact(t);
    if t != [] {
      var n := |t| - 1;
      PlacedFront(t, n);
      PlacedIntact(t[..n]);
      LastWithPrinted(t[..n], m, a);
      assert t == t[..n] + [t[n]];
      PrintedConcat(t[..n], [t[n]]);
      var last := if t[n].Some? then t[n].value.Printed() else [];
      assert Printed([t[n]]) == last + [] == last;
      LastWithConcat(Printed(t[..n]), last, m, a);
      if t[n].Some? {
        PlacedKeyed(t, n);
        LastWithPresent(t[n].value.Visible(), n, m, a);
      } else {
        assert At(t, n, a) == None by { AtIs(t, n, a); }
      }
    }
  }

  lemma AtIs(t: Groups, n: nat, a: byte)
    requires GroupsIntact(t) && n < |t|
    ensures At(t, n, a) == if t[n].None? then None else t[n].value.GetInterface(a)
  {
  }
}
