/** A descriptor chain: records laid end to end, each starting with its own length and type
    (section 9.5 of the USB 2.0 specification). */
module Records {
  import opened Wire

  // The bytes of one descriptor.
  type Record = seq<byte>

  const CONFIG_TYPE: byte := 2
  const INTERFACE_TYPE: byte := 4
  const ENDPOINT_TYPE: byte := 5
  const OTHER_SPEED_TYPE: byte := 7
  const HID_TYPE: byte := 0x21

  /** The record's length byte matches what is stored, and there is a type byte. */
  predicate WellFormed(r: Record) {
    |r| >= 2 && r[0] == |r|
  }

  predicate AllWellFormed(rs: seq<Record>) {
    forall r :: r in rs ==> WellFormed(r)
  }

  /** The type byte. */
  function Kind(r: Record): byte {
    if |r| >= 2 then r[1] else 0
  }

  /** Stepping by the length byte from cursor `p` ends exactly at the end of `buf`. */
  predicate IsChain(buf: seq<byte>, p: nat)
    decreases |buf| - p
  {
    p == |buf| || (p + 1 < |buf| && buf[p] >= 2 && p + buf[p] <= |buf| && IsChain(buf, p + buf[p]))
  }

  /** The records met by stepping from cursor `p` to the end of `buf`. */
  function RecordsAt(buf: seq<byte>, p: nat): (rs: seq<Record>)
    requires IsChain(buf, p)
    ensures rs == [] <==> p == |buf|
    decreases |buf| - p
  {
    if p == |buf| then [] else [buf[p..p + buf[p]]] + RecordsAt(buf, p + buf[p])
  }

  function Flatten(rs: seq<Record>): seq<byte> {
    if rs == [] then [] else rs[0] + Flatten(rs[1..])
  }

  lemma FlattenNil()
    ensures Flatten([]) == []
  {
  }

  lemma {:induction false} FlattenConcat(a: seq<Record>, b: seq<Record>)
    ensures Flatten(a + b) == Flatten(a) + Flatten(b)
  {
    if a == [] {
      assert a + b == b;
    } else {
      FlattenConcat(a[1..], b);
      assert (a + b)[1..] == a[1..] + b;
      assert Flatten(a + b) == a[0] + (Flatten(a[1..]) + Flatten(b));
    }
  }

  lemma FlattenSnoc(a: seq<Record>, r: Record)
    ensures Flatten(a + [r]) == Flatten(a) + r
  {
    FlattenConcat(a, [r]);
    assert Flatten([r]) == r;
  }

  lemma AllWellFormedCons(rs: seq<Record>)
    requires rs != []
    ensures AllWellFormed(rs) <==> WellFormed(rs[0]) && AllWellFormed(rs[1..])
  {
    assert rs == [rs[0]] + rs[1..];
  }

  /** Stepping through records laid end to end finds exactly those records. */
  lemma {:induction false} RecordsAtFlatten(before: seq<byte>, rs: seq<Record>)
    requires AllWellFormed(rs)
    ensures IsChain(before + Flatten(rs), |before|)
    ensures RecordsAt(before + Flatten(rs), |before|) == rs
    decreases |rs|
  {
    hide AllWellFormed;
    if rs != [] {
      AllWellFormedCons(rs);
      var r, rest := rs[0], rs[1..];
      RecordsAtFlatten(before + r, rest);
      var p, q := |before|, |before| + |r|;
      var buf := before + Flatten(rs);
      assert buf == before + r + Flatten(rest) && q == |before + r|;
      assert RecordsAt(buf, q) == rest;
      assert WellFormed(r) && buf[p] == |r| && buf[p..q] == r;
      assert RecordsAt(buf, p) == [r] + rest;
    }
  }

  /** One step of the cursor: `n` records of `rs` have been passed. */
  lemma NextRecord(buf: seq<byte>, p: nat, rs: seq<Record>, n: nat)
    requires p < |buf| && IsChain(buf, p)
    requires n <= |rs| && RecordsAt(buf, p) == rs[n..]
    ensures n < |rs| && p + 1 < |buf| && p + 2 <= p + buf[p] <= |buf| && IsChain(buf, p + buf[p])
    ensures rs[n] == buf[p..p + buf[p]] && Kind(rs[n]) == buf[p + 1]
    ensures RecordsAt(buf, p + buf[p]) == rs[n + 1..]
  {
    var all := RecordsAt(buf, p);
    assert all[0] == buf[p..p + buf[p]] && all[1..] == RecordsAt(buf, p + buf[p]);
    assert rs[n] == rs[n..][0] && rs[n + 1..] == rs[n..][1..];
  }

  lemma RecordsAtWellFormed(buf: seq<byte>, p: nat)
    requires IsChain(buf, p)
    ensures AllWellFormed(RecordsAt(buf, p))
    decreases |buf| - p
  {
    if p < |buf| {
      RecordsAtWellFormed(buf, p + buf[p]);
    }
  }

  /** And laying the records found back end to end gives the bytes stepped over. */
  lemma {:induction false} FlattenRecordsAt(buf: seq<byte>, p: nat)
    requires p <= |buf| && IsChain(buf, p)
    ensures Flatten(RecordsAt(buf, p)) == buf[p..]
    decreases |buf| - p
  {
    if p < |buf| {
      FlattenRecordsAt(buf, p + buf[p]);
      assert buf[p..] == buf[p..p + buf[p]] + buf[p + buf[p]..];
      assert RecordsAt(buf, p)[1..] == RecordsAt(buf, p + buf[p]);
    }
  }

  /** The records of one type, in order. */
  function OfKind(rs: seq<Record>, kind: byte): seq<Record> {
    if rs == [] then []
    else if Kind(rs[0]) == kind then [rs[0]] + OfKind(rs[1..], kind)
    else OfKind(rs[1..], kind)
  }

  /** The records an interface keeps in its list of generic descriptors. */
  predicate IsGeneric(r: Record) {
    Kind(r) != ENDPOINT_TYPE && Kind(r) != HID_TYPE
  }

  function Generics(rs: seq<Record>): seq<Record> {
    if rs == [] then []
    else if IsGeneric(rs[0]) then [rs[0]] + Generics(rs[1..])
    else Generics(rs[1..])
  }

  lemma {:induction false} OfKindConcat(a: seq<Record>, b: seq<Record>, kind: byte)
    ensures OfKind(a + b, kind) == OfKind(a, kind) + OfKind(b, kind)
  {
    if a == [] {
      assert a + b == b;
    } else {
      OfKindConcat(a[1..], b, kind);
      assert (a + b)[0] == a[0] && (a + b)[1..] == a[1..] + b;
    }
  }

  lemma {:induction false} GenericsConcat(a: seq<Record>, b: seq<Record>)
    ensures Generics(a + b) == Generics(a) + Generics(b)
  {
    if a == [] {
      assert a + b == b;
    } else {
      GenericsConcat(a[1..], b);
      assert (a + b)[0] == a[0] && (a + b)[1..] == a[1..] + b;
    }
  }

  lemma {:induction false} OfKindAll(rs: seq<Record>, kind: byte)
    ensures forall r :: r in OfKind(rs, kind) ==> Kind(r) == kind && r in rs
    ensures (forall r :: r in rs ==> Kind(r) == kind) ==> OfKind(rs, kind) == rs
    ensures (forall r :: r in rs ==> Kind(r) != kind) ==> OfKind(rs, kind) == []
    ensures |OfKind(rs, kind)| <= |rs|
    ensures OfKind(rs, kind) == rs ==> forall r :: r in rs ==> Kind(r) == kind
  {
    if rs != [] {
      OfKindAll(rs[1..], kind);
      assert rs == [rs[0]] + rs[1..];
    }
  }

  lemma {:induction false} GenericsAll(rs: seq<Record>)
    ensures forall r :: r in Generics(rs) ==> IsGeneric(r) && r in rs
    ensures (forall r :: r in rs ==> IsGeneric(r)) ==> Generics(rs) == rs
    ensures (forall r :: r in rs ==> !IsGeneric(r)) ==> Generics(rs) == []
  {
    if rs != [] {
      GenericsAll(rs[1..]);
      assert rs == [rs[0]] + rs[1..];
    }
  }

  /** The three classes of body records partition the body. */
  lemma {:induction false} KindsPartition(rs: seq<Record>)
    ensures multiset(rs) ==
            multiset(Generics(rs)) + multiset(OfKind(rs, HID_TYPE)) + multiset(OfKind(rs, ENDPOINT_TYPE))
    ensures |rs| == |Generics(rs)| + |OfKind(rs, HID_TYPE)| + |OfKind(rs, ENDPOINT_TYPE)|
  {
    if rs != [] {
      KindsPartition(rs[1..]);
      assert rs == [rs[0]] + rs[1..];
    }
  }
}
