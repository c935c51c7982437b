/** One alternate setting of an interface: its parser, its printer and its validator. */
module Interfaces {
  import opened Wire
  import opened Records
  import opened Buffers
  import opened DefinitionErrors

  // The nine bytes of a usb_interface_descriptor (section 9.6.5 of the USB 2.0 specification).
  type InterfaceDescriptor = d: seq<byte> | |d| == 9 witness [9, 4, 0, 0, 0, 0, 0, 0, 0]

  // An endpoint is the bytes of its descriptor (section 9.6.6).
  type Endpoint = Record

  datatype Interface = Interface(
    descriptor: InterfaceDescriptor,
    hid: Option<Record>,
    generics: seq<Record>,
    endpoints: seq<Option<Endpoint>>)
  {
    function Number(): byte { descriptor[2] }

    function Alternate(): byte { descriptor[3] }

    function EndpointCount(): byte { descriptor[4] }

    /** Where the setting belongs in its configuration. */
    function Key(): (byte, byte) { (Number(), Alternate()) }

    /** The arrays have the sizes their counters say, and every stored record is as long as its length byte. */
    predicate Intact() {
      && descriptor[0] == 9
      && |endpoints| == EndpointCount()
      && |generics| < 0x100
      && (hid.Some? ==> WellFormed(hid.value))
      && AllWellFormed(generics)
      && forall k :: 0 <= k < |endpoints| && endpoints[k].Some? ==>
           WellFormed(endpoints[k].value) && |endpoints[k].value| >= 7
    }

    function HidRecords(): seq<Record> {
      if hid.Some? then [hid.value] else []
    }

    /** The records of the setting in the order they are printed. */
    function Printed(): seq<Record> {
      [descriptor] + HidRecords() + generics + Present(endpoints)
    }

    lemma PrintedWellFormed()
      requires Intact()
      ensures AllWellFormed(Printed())
    {
      forall r | r in Present(endpoints) ensures WellFormed(r) {
        PresentMember(endpoints, r);
      }
    }
  }

  // ---------------------------------------------------------------- parsing

  /** The part of a chain that one interface takes: the records before its interface record, that record, and the
      records after it up to the next interface record. */
  datatype Block = Block(lead: seq<Record>, head: Record, body: seq<Record>) {
    function Records(): seq<Record> { lead + [head] + body }

    /** What parsing this block may assume: the record sizes the fixed-size structures hold, room in the endpoint array,
        and a generic count that fits its byte. */
    predicate Parsable() {
      && |head| == 9
      && WellFormed(head)
      && (forall r :: r in OfKind(body, ENDPOINT_TYPE) ==> |r| == 7)
      && |OfKind(body, ENDPOINT_TYPE)| <= head[4]
      && |lead + Generics(body)| < 0x100
    }

    /** The block as far as its first `n` body records. */
    function Taken(n: nat): Block
      requires n <= |body|
    {
      Block(lead, head, body[..n])
    }

    lemma TakenParsable(n: nat)
      requires Parsable() && n <= |body|
      ensures Taken(n).Parsable()
    {
      assert body == body[..n] + body[n..];
      OfKindConcat(body[..n], body[n..], ENDPOINT_TYPE);
      GenericsConcat(body[..n], body[n..]);
    }

    /** The state of the parser's second loop after the first `n` body records. */
    ghost predicate Reading(n: nat, endpoints: seq<Option<Endpoint>>, ep: nat, hid: Option<Record>,
                            generics: seq<Record>)
    {
      && n <= |body| && Taken(n).Parsable()
      && ep == |OfKind(body[..n], ENDPOINT_TYPE)|
      && Interface(head, hid, generics, endpoints) == InterfaceOf(Taken(n))
    }

    lemma ReadingStarts()
      requires Parsable()
      ensures Reading(0, seq(head[4], _ => None), 0, None, lead)
    {
      TakenParsable(0);
      assert lead + Generics(body[..0]) == lead;
    }

    lemma ReadingEnds(endpoints: seq<Option<Endpoint>>, ep: nat, hid: Option<Record>, generics: seq<Record>)
      requires Parsable() && Reading(|body|, endpoints, ep, hid, generics)
      ensures Interface(head, hid, generics, endpoints) == InterfaceOf(this)
    {
      assert Taken(|body|) == this;
    }

    lemma ReadsEndpoint(n: nat, endpoints: seq<Option<Endpoint>>, ep: nat, hid: Option<Record>, generics: seq<Record>)
      requires Parsable() && Reading(n, endpoints, ep, hid, generics)
      requires n < |body| && Kind(body[n]) == ENDPOINT_TYPE
      ensures ep < |endpoints| && |body[n]| == 7
      ensures Reading(n + 1, endpoints[ep := Some(body[n])], ep + 1, hid, generics)
    {
      TakenParsable(n + 1);
      TakenLists(n);
      assert body[n] in OfKind(body[..n + 1], ENDPOINT_TYPE);
      SlotsStep(head[4], OfKind(body[..n], ENDPOINT_TYPE), body[n]);
    }

    lemma ReadsHid(n: nat, endpoints: seq<Option<Endpoint>>, ep: nat, hid: Option<Record>, generics: seq<Record>)
      requires Parsable() && Reading(n, endpoints, ep, hid, generics)
      requires n < |body| && Kind(body[n]) == HID_TYPE
      ensures Reading(n + 1, endpoints, ep, Some(body[n]), generics)
    {
      TakenParsable(n + 1);
      TakenLists(n);
      hide OfKind, Generics, Slots, Kind, Parsable;
    }

    lemma ReadsGeneric(n: nat, endpoints: seq<Option<Endpoint>>, ep: nat, hid: Option<Record>, generics: seq<Record>)
      requires Parsable() && Reading(n, endpoints, ep, hid, generics)
      requires n < |body| && IsGeneric(body[n])
      ensures Reading(n + 1, endpoints, ep, hid, generics + [body[n]])
    {
      TakenParsable(n + 1);
      TakenLists(n);
      hide OfKind, Generics, Slots, Kind, Parsable, LastOf;
      assert lead + (Generics(body[..n]) + [body[n]]) == lead + Generics(body[..n]) + [body[n]];
    }

    /** One more body record joins exactly one of the three lists. */
    lemma TakenLists(n: nat)
      requires n < |body|
      ensures var eps, eps' := OfKind(body[..n], ENDPOINT_TYPE), OfKind(body[..n + 1], ENDPOINT_TYPE);
              eps' == if Kind(body[n]) == ENDPOINT_TYPE then eps + [body[n]] else eps
      ensures var hids, hids' := OfKind(body[..n], HID_TYPE), OfKind(body[..n + 1], HID_TYPE);
              hids' == if Kind(body[n]) == HID_TYPE then hids + [body[n]] else hids
      ensures var gens, gens' := Generics(body[..n]), Generics(body[..n + 1]);
              gens' == if IsGeneric(body[n]) then gens + [body[n]] else gens
    {
      assert body[..n + 1] == body[..n] + [body[n]];
      OfKindConcat(body[..n], [body[n]], ENDPOINT_TYPE);
      OfKindConcat(body[..n], [body[n]], HID_TYPE);
      GenericsConcat(body[..n], [body[n]]);
    }
  }

  /** `b` is what one parse takes from the front of `rs`, and `after` is what it leaves. */
  predicate SplitsOff(rs: seq<Record>, b: Block, after: seq<Record>) {
    && rs == b.lead + [b.head] + b.body + after
    && Kind(b.head) == INTERFACE_TYPE
    && (forall k :: 0 <= k < |b.lead| ==> Kind(b.lead[k]) != INTERFACE_TYPE)
    && (forall k :: 0 <= k < |b.body| ==> Kind(b.body[k]) != INTERFACE_TYPE)
    && (after != [] ==> Kind(after[0]) == INTERFACE_TYPE)
  }

  /** The records before the first interface record. */
  function Lead(rs: seq<Record>): (r: seq<Record>)
    ensures r <= rs
    ensures forall k :: 0 <= k < |r| ==> Kind(r[k]) != INTERFACE_TYPE
    ensures |r| < |rs| ==> Kind(rs[|r|]) == INTERFACE_TYPE
  {
    if rs == [] || Kind(rs[0]) == INTERFACE_TYPE then [] else [rs[0]] + Lead(rs[1..])
  }

  /** The blocks of a chain, one per interface record. */
  function Blocks(rs: seq<Record>): seq<Block> {
    var lead := Lead(rs);
    if |lead| == |rs| then []
    else
      var rest := rs[|lead| + 1..];
      var body := Lead(rest);
      [Block(lead, rs[|lead|], body)] + Blocks(rest[|body|..])
  }

  /** Nothing comes after the last interface's body: the chain is empty or has an interface record. */
  predicate Complete(rs: seq<Record>) {
    rs == [] || |Lead(rs)| < |rs|
  }

  /** Taking the first block off a chain leaves a chain whose blocks are the others. */
  lemma FirstBlock(rs: seq<Record>) returns (after: seq<Record>)
    requires Complete(rs) && rs != []
    ensures Blocks(rs) != [] && SplitsOff(rs, Blocks(rs)[0], after)
    ensures Blocks(after) == Blocks(rs)[1..] && Complete(after)
    ensures |after| < |rs|
  {
    hide Kind, Lead;
    var lead := Lead(rs);
    var rest := rs[|lead| + 1..];
    var body := Lead(rest);
    after := rest[|body|..];
    assert rest == body + after;
    assert rs == lead + [rs[|lead|]] + rest;
    assert after != [] ==> after[0] == rest[|body|];
  }

  lemma SplitsOffAt(rs: seq<Record>, b: Block, after: seq<Record>)
    requires SplitsOff(rs, b, after) && b.Parsable()
    ensures |b.lead| < |rs| && rs[..|b.lead|] == b.lead && rs[|b.lead|] == b.head && Kind(b.head) == INTERFACE_TYPE
    ensures |b.head| == 9 && forall k :: 0 <= k < |b.lead| ==> Kind(rs[k]) != INTERFACE_TYPE
    ensures var rest := rs[|b.lead| + 1..];
            && b.body <= rest && rest[|b.body|..] == after
            && (forall k :: 0 <= k < |b.body| ==> Kind(rest[k]) != INTERFACE_TYPE)
            && (|b.body| < |rest| ==> Kind(rest[|b.body|]) == INTERFACE_TYPE)
  {
    hide Kind, OfKind, Generics, WellFormed;
    CutAround(rs, b.lead, b.head, b.body + after);
    assert rs == b.lead + [b.head] + (b.body + after);
    var rest := b.body + after;
    assert forall k :: 0 <= k < |b.body| ==> rest[k] == b.body[k];
    assert after != [] ==> rest[|b.body|] == after[0];
  }

  lemma CutAround(rs: seq<Record>, x: seq<Record>, h: Record, y: seq<Record>)
    ensures rs == x + [h] + y ==>
              |x| < |rs| && rs[..|x|] == x && rs[|x|] == h && rs[|x| + 1..] == y && forall k :: 0 <= k < |x| ==>
                  rs[k] == x[k]
  {
  }

  function LastOf(rs: seq<Record>): Option<Record> {
    if rs == [] then None else Some(rs[|rs| - 1])
  }

  /** An array of `n` endpoint pointers of which the first ones are filled. */
  function Slots(n: nat, eps: seq<Endpoint>): (r: seq<Option<Endpoint>>)
    requires |eps| <= n
  {
    seq(n, k requires 0 <= k < n => if k < |eps| then Some(eps[k]) else None)
  }

  lemma PresentSlots(n: nat, eps: seq<Endpoint>)
    requires |eps| <= n
    ensures Present(Slots(n, eps)) == eps
  {
    var s := Slots(n, eps);
    assert s == s[..|eps|] + s[|eps|..];
    PresentConcat(s[..|eps|], s[|eps|..]);
    PresentAll(s[..|eps|], eps);
    PresentNone(s[|eps|..]);
  }

  lemma SlotsStep(n: nat, eps: seq<Endpoint>, r: Endpoint)
    requires |eps| < n
    ensures Slots(n, eps + [r]) == Slots(n, eps)[|eps| := Some(r)]
  {
  }

  /** What parsing one block produces. */
  function InterfaceOf(b: Block): Interface
    requires b.Parsable()
  {
    Interface(b.head, LastOf(OfKind(b.body, HID_TYPE)), b.lead + Generics(b.body),
              Slots(b.head[4], OfKind(b.body, ENDPOINT_TYPE)))
  }

  lemma InterfaceOfIntact(b: Block)
    requires b.Parsable() && AllWellFormed(b.Records())
    ensures InterfaceOf(b).Intact()
  {
    GenericsAll(b.body);
    OfKindAll(b.body, HID_TYPE);
    OfKindAll(b.body, ENDPOINT_TYPE);
  }

  /** The first loop of the parsing constructor: records before the interface record become generic descriptors.
      `rs` are the records from the cursor on, of which the first `n` come before the interface record. */
  method ReadLeading(buf: seq<byte>, start: nat, e: nat, ghost rs: seq<Record>, ghost n: nat)
    returns (generics: seq<Record>, p: nat)
    requires start < e == |buf| && IsChain(buf, start) && RecordsAt(buf, start) == rs
    requires n < |rs| && Kind(rs[n]) == INTERFACE_TYPE
    requires forall k :: 0 <= k < n ==> Kind(rs[k]) != INTERFACE_TYPE
    ensures start <= p < e && IsChain(buf, p)
    ensures generics == rs[..n] && RecordsAt(buf, p) == rs[n..]
  {
    generics := [];
    p := start;
    NextRecord(buf, p, rs, 0);
    while buf[p + 1] != INTERFACE_TYPE && p < e
      invariant start <= p < e && p + 1 < e && IsChain(buf, p)
      invariant |generics| <= n && generics == rs[..|generics|]
      invariant RecordsAt(buf, p) == rs[|generics|..] && Kind(rs[|generics|]) == buf[p + 1]
      decreases e - p
    {
      NextRecord(buf, p, rs, |generics|);
      generics := generics + [buf[p..p + buf[p]]];
      p := p + buf[p];
      NextRecord(buf, p, rs, |generics|);
    }
  }

  /** The second loop: records after the interface record fill the endpoint array, the HID pointer and the generics.
      `rs` are the records from the cursor on, of which the body of `b` comes first. */
  method ReadBody(buf: seq<byte>, start: nat, e: nat, count: byte, lead: seq<Record>, ghost rs: seq<Record>,
                  ghost b: Block)
    returns (endpoints: seq<Option<Endpoint>>, hid: Option<Record>, generics: seq<Record>, p: nat)
    requires start <= e == |buf| && IsChain(buf, start) && RecordsAt(buf, start) == rs
    requires b.Parsable() && b.lead == lead && b.head[4] == count
    requires b.body <= rs && forall k :: 0 <= k < |b.body| ==> Kind(rs[k]) != INTERFACE_TYPE
    requires |b.body| < |rs| ==> Kind(rs[|b.body|]) == INTERFACE_TYPE
    ensures start <= p <= e && IsChain(buf, p) && RecordsAt(buf, p) == rs[|b.body|..]
    ensures Interface(b.head, hid, generics, endpoints) == InterfaceOf(b)
  {
    hide InterfaceOf, Block.Parsable, Block.Reading, Kind, RecordsAt, IsChain;
    ghost var n := 0;
    endpoints := seq(count, _ => None);
    var ep := 0;
    hid, generics, p := None, lead, start;
    b.ReadingStarts();
    if p < e {
      NextRecord(buf, p, rs, 0);
    }
    while p < e && buf[p + 1] != INTERFACE_TYPE
      invariant start <= p <= e && IsChain(buf, p)
      invariant n <= |b.body| && RecordsAt(buf, p) == rs[n..]
      invariant p < e ==> p + 1 < e && n < |rs| && Kind(rs[n]) == buf[p + 1]
      invariant b.Reading(n, endpoints, ep, hid, generics)
      decreases e - p
    {
      NextRecord(buf, p, rs, n);
      assert rs[n] == b.body[n];
      if buf[p + 1] == ENDPOINT_TYPE {
        b.ReadsEndpoint(n, endpoints, ep, hid, generics);
        endpoints := endpoints[ep := Some(buf[p..p + 7])];
        ep := ep + 1;
      } else {
        if buf[p + 1] == HID_TYPE {
          b.ReadsHid(n, endpoints, ep, hid, generics);
          hid := Some(buf[p..p + buf[p]]);
        } else {
          b.ReadsGeneric(n, endpoints, ep, hid, generics);
          generics := generics + [buf[p..p + buf[p]]];
        }
      }
      p := p + buf[p];
      n := n + 1;
      if p < e {
        NextRecord(buf, p, rs, n);
      }
    }
    b.ReadingEnds(endpoints, ep, hid, generics);
  }

  /** The parsing constructor: reads one block from cursor `start` and leaves the cursor behind it. */
  method ParseInterface(buf: seq<byte>, start: nat, e: nat, ghost b: Block, ghost after: seq<Record>)
    returns (i: Interface, p: nat)
    requires start < e == |buf| && IsChain(buf, start)
    requires SplitsOff(RecordsAt(buf, start), b, after) && b.Parsable()
    ensures start < p <= e && IsChain(buf, p)
    ensures i == InterfaceOf(b) && RecordsAt(buf, p) == after
  {
    hide InterfaceOf, SplitsOff, Block.Parsable;
    ghost var rs, n := RecordsAt(buf, start), |b.lead|;
    SplitsOffAt(rs, b, after);
    var lead;
    lead, p := ReadLeading(buf, start, e, rs, n);
    NextRecord(buf, p, rs, n);
    var descriptor := buf[p..p + buf[p]];
    p := p + buf[p];
    var endpoints, hid, generics;
    endpoints, hid, generics, p := ReadBody(buf, p, e, descriptor[4], lead, rs[n + 1..], b);
    i := Interface(descriptor, hid, generics, endpoints);
  }

  // ---------------------------------------------------------------- printing

  /** How many bytes the setting prints. */
  function PrintedLength(i: Interface): nat {
    |Flatten(i.Printed())|
  }

  /** The records printed before the `k`-th generic record, and before the `k`-th endpoint slot. */
  function BeforeGeneric(i: Interface, k: nat): seq<Record>
    requires k <= |i.generics|
  {
    [i.descriptor] + i.HidRecords() + i.generics[..k]
  }

  function BeforeEndpoint(i: Interface, k: nat): seq<Record>
    requires k <= |i.endpoints|
  {
    [i.descriptor] + i.HidRecords() + i.generics + Present(i.endpoints[..k])
  }

  lemma PrintedStarts(i: Interface)
    ensures BeforeGeneric(i, 0) == [i.descriptor] + i.HidRecords()
    ensures BeforeEndpoint(i, 0) == BeforeGeneric(i, |i.generics|)
    ensures BeforeEndpoint(i, |i.endpoints|) == i.Printed()
  {
    assert Present(i.endpoints[..0]) == [];
    hide Present;
    assert i.endpoints[..|i.endpoints|] == i.endpoints;
    assert BeforeGeneric(i, |i.generics|) + [] == BeforeGeneric(i, |i.generics|);
  }

  /** The front of a printed list is no longer than the whole. */
  lemma FrontFits(i: Interface, front: seq<Record>, back: seq<Record>)
    requires i.Printed() == front + back
    ensures |Flatten(front)| <= PrintedLength(i)
  {
    hide Flatten, Interface.Printed;
    FlattenConcat(front, back);
  }

  lemma BeforeGenericFits(i: Interface, k: nat)
    requires k <= |i.generics|
    ensures |Flatten(BeforeGeneric(i, k))| <= PrintedLength(i)
  {
    hide Flatten, Present;
    assert i.generics == i.generics[..k] + i.generics[k..];
    assert i.Printed() == BeforeGeneric(i, k) + (i.generics[k..] + Present(i.endpoints));
    FrontFits(i, BeforeGeneric(i, k), i.generics[k..] + Present(i.endpoints));
  }

  lemma BeforeEndpointFits(i: Interface, k: nat)
    requires k <= |i.endpoints|
    ensures |Flatten(BeforeEndpoint(i, k))| <= PrintedLength(i)
  {
    hide Flatten, Present;
    assert i.endpoints == i.endpoints[..k] + i.endpoints[k..];
    PresentConcat(i.endpoints[..k], i.endpoints[k..]);
    assert i.Printed() == BeforeEndpoint(i, k) + Present(i.endpoints[k..]);
    FrontFits(i, BeforeEndpoint(i, k), Present(i.endpoints[k..]));
  }

  /** Each step of the printer extends what was printed by the next record, and never past the whole. */
  lemma PrintedSteps(i: Interface)
    ensures BeforeGeneric(i, 0) == [i.descriptor] + i.HidRecords()
    ensures forall k :: 0 <= k < |i.generics| ==> BeforeGeneric(i, k + 1) == BeforeGeneric(i, k) + [i.generics[k]]
    ensures BeforeEndpoint(i, 0) == BeforeGeneric(i, |i.generics|)
    ensures BeforeEndpoint(i, |i.endpoints|) == i.Printed()
    ensures |Flatten([i.descriptor])| <= PrintedLength(i)
    ensures forall k :: 0 <= k <= |i.generics| ==> |Flatten(BeforeGeneric(i, k))| <= PrintedLength(i)
    ensures forall k :: 0 <= k <= |i.endpoints| ==> |Flatten(BeforeEndpoint(i, k))| <= PrintedLength(i)
  {
    PrintedStarts(i);
    forall k | 0 <= k < |i.generics| ensures BeforeGeneric(i, k + 1) == BeforeGeneric(i, k) + [i.generics[k]] {
      BeforeGenericStep(i, k);
    }
    WholeFits(i);
    hide Present, Flatten, BeforeGeneric, BeforeEndpoint, PrintedLength, Interface.Printed;
    forall k | 0 <= k <= |i.generics| ensures |Flatten(BeforeGeneric(i, k))| <= PrintedLength(i) {
      BeforeGenericFits(i, k);
    }
    forall k | 0 <= k <= |i.endpoints| ensures |Flatten(BeforeEndpoint(i, k))| <= PrintedLength(i) {
      BeforeEndpointFits(i, k);
    }
  }

  lemma BeforeGenericStep(i: Interface, k: nat)
    requires k < |i.generics|
    ensures BeforeGeneric(i, k + 1) == BeforeGeneric(i, k) + [i.generics[k]]
  {
  }

  lemma WholeFits(i: Interface)
    ensures |Flatten([i.descriptor])| <= PrintedLength(i)
  {
    hide Present, Flatten;
    assert i.Printed() == [i.descriptor] + (i.HidRecords() + i.generics + Present(i.endpoints));
    FrontFits(i, [i.descriptor], i.HidRecords() + i.generics + Present(i.endpoints));
  }

  lemma BeforeEndpointStep(i: Interface, k: nat)
    requires k < |i.endpoints|
    ensures BeforeEndpoint(i, k + 1) ==
            if i.endpoints[k].Some? then BeforeEndpoint(i, k) + [i.endpoints[k].value] else BeforeEndpoint(i, k)
  {
    PresentSnoc(i.endpoints, k);
  }

  /** `get_full_descriptor_length`. */
  method GetFullDescriptorLength(i: Interface) returns (total: nat)
    requires i.Intact()
    ensures total == PrintedLength(i)
  {
    hide Present, Flatten, BeforeGeneric, BeforeEndpoint, Interface.Printed;
    PrintedSteps(i);
    FlattenNil();
    FlattenSnoc([], i.descriptor);
    assert [] + [i.descriptor] == [i.descriptor];
    total := i.descriptor[0];
    if i.hid.Some? {
      FlattenSnoc([i.descriptor], i.hid.value);
      total := total + i.hid.value[0];
    } else {
      assert [i.descriptor] + i.HidRecords() == [i.descriptor];
    }
    for k := 0 to |i.generics|
      invariant total == |Flatten(BeforeGeneric(i, k))|
    {
      assert BeforeGeneric(i, k + 1) == BeforeGeneric(i, k) + [i.generics[k]];
      FlattenSnoc(BeforeGeneric(i, k), i.generics[k]);
      assert WellFormed(i.generics[k]);
      total := total + i.generics[k][0];
    }
    for k := 0 to i.EndpointCount()
      invariant total == |Flatten(BeforeEndpoint(i, k))|
    {
      BeforeEndpointStep(i, k);
      if i.endpoints[k].Some? {
        FlattenSnoc(BeforeEndpoint(i, k), i.endpoints[k].value);
        total := total + i.endpoints[k].value[0];
      }
    }
  }

  /** `get_full_descriptor`: writes the setting at cursor `start` and leaves the cursor behind it. */
  method PrintInterface(i: Interface, dst: array<byte>, start: nat) returns (p: nat)
    requires i.Intact() && start + PrintedLength(i) <= dst.Length
    modifies dst
    ensures p == start + PrintedLength(i)
    ensures dst[..] == Overwrite(old(dst[..]), start, Flatten(i.Printed()))
  {
    hide Overwrite, Present, Flatten, BeforeGeneric, BeforeEndpoint, Interface.Printed;
    ghost var before := dst[..];
    PrintedSteps(i);
    OverwriteNothing(before, start);
    FlattenNil();
    assert [] + [i.descriptor] == [i.descriptor];
    p := Append(dst, start, start, before, [], i.descriptor);
    if i.hid.Some? {
      p := Append(dst, start, p, before, [i.descriptor], i.hid.value);
    } else {
      assert [i.descriptor] + i.HidRecords() == [i.descriptor];
    }
    for k := 0 to |i.generics|
      invariant p == start + |Flatten(BeforeGeneric(i, k))|
      invariant dst[..] == Overwrite(before, start, Flatten(BeforeGeneric(i, k)))
    {
      assert BeforeGeneric(i, k + 1) == BeforeGeneric(i, k) + [i.generics[k]];
      FlattenSnoc(BeforeGeneric(i, k), i.generics[k]);
      p := Append(dst, start, p, before, BeforeGeneric(i, k), i.generics[k]);
    }
    for k := 0 to i.EndpointCount()
      invariant p == start + |Flatten(BeforeEndpoint(i, k))|
      invariant dst[..] == Overwrite(before, start, Flatten(BeforeEndpoint(i, k)))
    {
      BeforeEndpointStep(i, k);
      if i.endpoints[k].Some? {
        FlattenSnoc(BeforeEndpoint(i, k), i.endpoints[k].value);
        p := Append(dst, start, p, before, BeforeEndpoint(i, k), i.endpoints[k].value);
      }
    }
  }

  // ---------------------------------------------------------------- validation

  /** What an endpoint descriptor must look like: type and length, reserved address and attribute bits zero, and an
      interval that fits the transfer type. */
  predicate EndpointDefined(d: Endpoint)
    requires |d| >= 7
  {
    && d[0] == 7 && d[1] == ENDPOINT_TYPE
    && d[2] / 0x10 % 8 == 0
    && (d[3] < 4 || (d[3] % 4 == 1 && d[3] < 0x40))
    && (d[3] % 4 == 1 ==> d[6] == 1)
    && (d[3] % 4 == 3 ==> d[6] != 1)
  }

  /** `Endpoint::is_defined`. */
  function EndpointError(d: Endpoint, configId: byte, number: byte, alternate: byte): (e: DefinitionError)
    requires |d| >= 7
    ensures e.Ok() <==> EndpointDefined(d)
  {
    var Invalid := (detail: word) =>
        DefinitionError(InvalidDescriptor, detail, EndpointObject, configId, number, alternate, d[2]);
    if d[0] != 7 then Invalid(1)
    else if d[1] != ENDPOINT_TYPE then Invalid(2)
    else if d[2] / 0x10 % 8 != 0 then Invalid(3)
    else if d[3] / 0x40 != 0 || (d[3] % 4 != 1 && d[3] / 4 != 0) then Invalid(4)
    else if (d[3] % 4 == 1 && d[6] != 1) || (d[3] % 4 == 3 && d[6] == 1) then Invalid(5)
    else OK
  }

  /** A setting is defined when its descriptor has the right length and type, every endpoint slot it declares is filled,
      and every endpoint is defined. */
  predicate InterfaceDefined(i: Interface)
    requires i.Intact()
  {
    && i.descriptor[0] == 9 && i.descriptor[1] == INTERFACE_TYPE
    && forall k :: 0 <= k < |i.endpoints| ==> i.endpoints[k].Some? && EndpointDefined(i.endpoints[k].value)
  }

  /** The verdict on endpoint slot `k`. */
  function SlotError(i: Interface, k: byte, configId: byte, number: byte): DefinitionError
    requires i.Intact() && k < |i.endpoints|
  {
    if i.endpoints[k].None?
    then DefinitionError(NullObject, 0, EndpointObject, configId, number, i.Alternate(), k)
    else EndpointError(i.endpoints[k].value, configId, number, i.Alternate())
  }

  /** The verdict on the interface record itself. */
  function HeadError(i: Interface, configId: byte, number: byte): DefinitionError {
    var Invalid := (detail: word) =>
        DefinitionError(InvalidDescriptor, detail, InterfaceObject, configId, number, i.Alternate(), 0);
    if i.descriptor[0] != 9 then Invalid(1)
    else if i.descriptor[1] != INTERFACE_TYPE then Invalid(2)
    else OK
  }

  /** The verdict on the first endpoint slot from `k` on that has something wrong. */
  function SlotsError(i: Interface, k: nat, configId: byte, number: byte): (e: DefinitionError)
    requires i.Intact() && k <= |i.endpoints|
    ensures e.Ok() ==> e == OK
    ensures e.Ok() <==> forall m :: k <= m < |i.endpoints| ==>
              i.endpoints[m].Some? && EndpointDefined(i.endpoints[m].value)
    decreases |i.endpoints| - k
  {
    if k == |i.endpoints| then OK
    else
      var e := SlotError(i, k, configId, number);
      if !e.Ok() then e else SlotsError(i, k + 1, configId, number)
  }

  /** The verdict on the setting: no error exactly when the setting is defined. */
  function InterfaceError(i: Interface, configId: byte, number: byte): (e: DefinitionError)
    requires i.Intact()
    ensures e.Ok() ==> e == OK
    ensures e.Ok() <==> InterfaceDefined(i)
  {
    var e := HeadError(i, configId, number);
    if !e.Ok() then e else SlotsError(i, 0, configId, number)
  }

  /** `Interface::is_defined`. */
  method InterfaceIsDefined(i: Interface, configId: byte, number: byte) returns (rc: DefinitionError)
    requires i.Intact()
    ensures rc == InterfaceError(i, configId, number)
  {
    rc := HeadError(i, configId, number);
    if !rc.Ok() {
      return;
    }
    for k := 0 to i.EndpointCount()
      invariant SlotsError(i, 0, configId, number) == SlotsError(i, k, configId, number)
    {
      rc := SlotError(i, k, configId, number);
      if !rc.Ok() {
        return;
      }
    }
    rc := OK;
  }
}
