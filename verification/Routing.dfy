/** The wiring of the data endpoints: one queue, one reader and one writer for each, the filters of each writer, and the
    queues each injector may put packets on. */
module Routing {
  import opened Wire
  import opened Interfaces
  import opened InterfaceGroups
  import opened Configurations
  import opened Devices
  import opened SafeQueues
  import opened Criteria
  import DataRelay

  type PacketQueue = SafeQueue<Option<DataRelay.Packet>>

  type MaybeQueue = SafeQueue?<Option<DataRelay.Packet>>

  class PacketFilter {
    const criteria: PluginCriteria

    constructor (criteria: PluginCriteria)
      ensures this.criteria == criteria
    {
      this.criteria := criteria;
    }
  }

  /** The two proxies packets come from and go to. */
  datatype Proxy = HostProxy | DeviceProxy

  class RelayReader {
    const site: Site
    const proxy: Proxy
    const sendQueue: PacketQueue

    constructor (site: Site, proxy: Proxy, queue: PacketQueue)
      ensures this.site == site && this.proxy == proxy && sendQueue == queue
    {
      this.site, this.proxy, sendQueue := site, proxy, queue;
    }
  }

  class RelayWriter {
    const site: Site
    const proxy: Proxy
    const recvQueue: PacketQueue
    var filters: seq<PacketFilter>

    constructor (site: Site, proxy: Proxy, queue: PacketQueue)
      ensures this.site == site && this.proxy == proxy && recvQueue == queue && filters == []
    {
      this.site, this.proxy, recvQueue, filters := site, proxy, queue, [];
    }

    method AddFilter(f: PacketFilter)
      modifies this
      ensures filters == old(filters) + [f]
    {
      filters := filters + [f];
    }
  }

  // ---------------------------------------------------------------- slots

  const SLOTS: nat := 32

  /** The place of an endpoint address in the tables: OUT endpoints first, then IN endpoints, by number. */
  function Slot(address: byte): (r: nat)
    ensures r < SLOTS && r % 16 == address % 16 && (r >= 16 <==> address >= 0x80)
  {
    (if address >= 0x80 then 16 else 0) + address % 16
  }

  /** Number zero is the control endpoint, which is wired elsewhere. */
  predicate IsDataSlot(j: int) {
    0 <= j < SLOTS && j % 16 != 0
  }

  predicate Isochronous(s: Site) {
    s.endpoint[3] % 4 == 1
  }

  /** The endpoints of one alternate setting, as far as they are there. */
  function EndpointSites(i: Interface, endpoints: seq<Option<Endpoint>>): seq<Site>
    requires forall k :: 0 <= k < |endpoints| && endpoints[k].Some? ==> |endpoints[k].value| >= 7
  {
    if endpoints == [] then []
    else
      var last := |endpoints| - 1;
      if endpoints[last].Some? then EndpointSites(i, endpoints[..last]) + [Site(endpoints[last].value, i)]
      else EndpointSites(i, endpoints[..last])
  }

  /** Every endpoint that is there is listed, in order, with its setting, and nothing else. */
  lemma {:induction false} EndpointSitesAre(i: Interface, endpoints: seq<Option<Endpoint>>)
    requires forall k :: 0 <= k < |endpoints| && endpoints[k].Some? ==> |endpoints[k].value| >= 7
    ensures var sites, present := EndpointSites(i, endpoints), Present(endpoints);
            && |sites| == |present|
            && forall k :: 0 <= k < |sites| ==> sites[k].endpoint == present[k] && sites[k].setting == i
  {
    if endpoints != [] {
      var last := |endpoints| - 1;
      EndpointSitesAre(i, endpoints[..last]);
      PresentSnoc(endpoints, last);
      assert endpoints[..last + 1] == endpoints;
      hide Present;
    }
  }

  ghost predicate AllIntact(settings: seq<Interface>) {
    forall k :: 0 <= k < |settings| ==> settings[k].Intact()
  }

  /** The endpoints of a list of settings: by setting and position. */
  function Sites(settings: seq<Interface>): seq<Site>
    requires AllIntact(settings)
  {
    if settings == [] then []
    else
      var last := |settings| - 1;
      assert settings[last].Intact();
      Sites(settings[..last]) + EndpointSites(settings[last], settings[last].endpoints)
  }

  /** The endpoint is one of the setting's. */
  predicate Has(i: Interface, e: Endpoint) {
    exists k :: 0 <= k < |i.endpoints| && i.endpoints[k] == Some(e)
  }

  /** An endpoint of one of the settings that can be relayed. */
  predicate Relayable(settings: seq<Interface>, s: Site) {
    s.setting in settings && Has(s.setting, s.endpoint) && !Isochronous(s)
  }

  lemma SettingSites(i: Interface, s: Site)
    requires i.Intact()
    ensures s in EndpointSites(i, i.endpoints) <==> s.setting == i && Has(i, s.endpoint)
  {
    hide Interface.Intact, EndpointSites;
    assert forall k :: 0 <= k < |i.endpoints| && i.endpoints[k].Some? ==>
        |i.endpoints[k].value| >= 7 by { EndpointSizes(i); }
    EndpointSitesAre(i, i.endpoints);
    var sites, present := EndpointSites(i, i.endpoints), Present(i.endpoints);
    PresentMember(i.endpoints, s.endpoint);
    hide Present;
    if s in sites {
      var k :| 0 <= k < |sites| && sites[k] == s;
      assert present[k] in present;
    }
    if s.setting == i && s.endpoint in present {
      var k :| 0 <= k < |present| && present[k] == s.endpoint;
      assert sites[k] == s;
    }
  }

  lemma EndpointSizes(i: Interface)
    requires i.Intact()
    ensures forall k :: 0 <= k < |i.endpoints| && i.endpoints[k].Some? ==> |i.endpoints[k].value| >= 7
  {
  }

  /** The sites of a list of settings are the endpoints of its settings. */
  lemma {:induction false} SitesAre(settings: seq<Interface>, s: Site)
    requires AllIntact(settings)
    ensures s in Sites(settings) <==> s.setting in settings && Has(s.setting, s.endpoint)
  {
    hide Interface.Intact, EndpointSites, Has;
    if settings != [] {
      var last := |settings| - 1;
      SitesAre(settings[..last], s);
      SettingSites(settings[last], s);
      assert settings == settings[..last] + [settings[last]];
    }
  }

  lemma SitesMore(settings: seq<Interface>, i: Interface)
    requires AllIntact(settings) && i.Intact()
    ensures AllIntact(settings + [i]) && Sites(settings + [i]) == Sites(settings) + EndpointSites(i, i.endpoints)
  {
    hide Interface.Intact;
    assert (settings + [i])[..|settings|] == settings;
  }

  /** The endpoint a slot is wired for: the last one with that direction and number that is not isochronous. */
  function SiteAt(sites: seq<Site>, j: nat): (r: Option<Site>)
    ensures r.None? ==> forall s <- sites :: Slot(s.endpoint[2]) == j ==> Isochronous(s)
  {
    if sites == [] then None
    else
      var s := sites[|sites| - 1];
      assert sites == sites[..|sites| - 1] + [s];
      if !Isochronous(s) && Slot(s.endpoint[2]) == j then Some(s) else SiteAt(sites[..|sites| - 1], j)
  }

  lemma {:induction false} SiteIsLast(sites: seq<Site>, j: nat) returns (k: nat)
    requires SiteAt(sites, j).Some?
    ensures k < |sites| && SiteAt(sites, j) == Some(sites[k])
    ensures Slot(sites[k].endpoint[2]) == j && !Isochronous(sites[k])
    ensures forall m :: k < m < |sites| && Slot(sites[m].endpoint[2]) == j ==> Isochronous(sites[m])
  {
    var last := |sites| - 1;
    if !Isochronous(sites[last]) && Slot(sites[last].endpoint[2]) == j {
      k := last;
    } else {
      k := SiteIsLast(sites[..last], j);
    }
  }

  lemma SiteAtMore(sites: seq<Site>, s: Site, j: nat)
    ensures SiteAt(sites + [s], j) == if !Isochronous(s) && Slot(s.endpoint[2]) == j then Some(s) else SiteAt(sites, j)
  {
    assert (sites + [s])[..|sites|] == sites;
  }

  /** Nothing is missing that the loops over a configuration dereference. */
  ghost predicate SettingFull(i: Interface) {
    i.Intact() && forall k :: 0 <= k < |i.endpoints| ==> i.endpoints[k].Some?
  }

  ghost predicate GroupFull(g: Group) {
    g.Intact() && forall k :: 0 <= k < g.alternateCount ==> g.interfaces[k].Some? && SettingFull(g.interfaces[k].value)
  }

  ghost predicate TableFull(t: Groups) {
    forall n :: 0 <= n < |t| ==> t[n].Some? && GroupFull(t[n].value)
  }

  /** Nothing is missing from a configuration that validates. */
  lemma DefinedFull(t: Tree, highSpeed: bool)
    requires t.Intact() && TreeDefined(t, highSpeed)
    ensures TableFull(t.groups)
  {
    hide Interface.Intact, Bytes, Printed;
    forall n | 0 <= n < |t.groups| ensures t.groups[n].Some? && GroupFull(t.groups[n].value) {
      assert GroupPlaced(t.groups, n);
      var g := t.groups[n].value;
      forall k | 0 <= k < g.alternateCount ensures g.interfaces[k].Some? && SettingFull(g.interfaces[k].value) {
        assert SettingDefined(g, k);
      }
    }
  }

  lemma FullIntact(t: Groups)
    requires TableFull(t)
    ensures GroupsIntact(t)
  {
  }

  /** What a table prints is what its groups print, one after the other, and intact. */
  lemma PrintedMore(t: Groups, n: nat)
    requires TableFull(t) && n < |t|
    ensures GroupsIntact(t[..n]) && GroupsIntact(t[..n + 1])
    ensures Printed(t[..n + 1]) == Printed(t[..n]) + t[n].value.Printed()
  {
    hide Group.Printed, SettingFull, Interface.Intact;
    FullIntact(t);
    assert t[..n + 1] == t[..n] + [t[n]];
    PrintedConcat(t[..n], [t[n]]);
    assert Printed([t[n]]) == t[n].value.Printed() + [] == t[n].value.Printed();
  }

  lemma {:induction false} PrintedAllIntact(t: Groups)
    requires GroupsIntact(t)
    ensures AllIntact(Printed(t))
  {
    hide Interface.Intact;
    if t != [] {
      PrintedAllIntact(t[1..]);
      if t[0].Some? {
        var table := t[0].value.Visible();
        forall i: Interface | i in Present(table) ensures i.Intact() {
          PresentMember(table, i);
        }
      }
    }
  }

  /** The filters that pass all four criteria for an endpoint, in the order they were registered. */
  function FiltersFor(filters: seq<PacketFilter>, d: DeviceDescriptor, c: ConfigDescriptor,
      s: Site): seq<PacketFilter> {
    if filters == [] then []
    else
      var f, before := filters[|filters| - 1], FiltersFor(filters[..|filters| - 1], d, c, s);
      if f.criteria.Relevant(d, c) && f.criteria.Fits(s) then before + [f] else before
  }

  /** A filter is applied exactly if it is registered and passes all four criteria. */
  lemma {:induction false} FiltersForAre(filters: seq<PacketFilter>, d: DeviceDescriptor, c: ConfigDescriptor, s: Site,
                                         f: PacketFilter)
    ensures f in FiltersFor(filters, d, c, s) <==>
            f in filters && f.criteria.device.Test(d) && f.criteria.configuration.Test(c)
            && f.criteria.endpoint.Test(s.endpoint) && f.criteria.interface.Test(s.setting)
  {
    hide DeviceCriteria.Test, ConfigurationCriteria.Test, EndpointCriteria.Test, InterfaceCriteria.Test;
    if filters != [] {
      var last := |filters| - 1;
      FiltersForAre(filters[..last], d, c, s, f);
      assert filters == filters[..last] + [filters[last]];
    }
  }

  /** Each filter that passes is applied once, and in the order of registration. */
  lemma {:induction false} FiltersForConcat(fs: seq<PacketFilter>, gs: seq<PacketFilter>, d: DeviceDescriptor,
                                            c: ConfigDescriptor, s: Site)
    ensures FiltersFor(fs + gs, d, c, s) == FiltersFor(fs, d, c, s) + FiltersFor(gs, d, c, s)
    decreases |gs|
  {
    hide PluginCriteria.Relevant, PluginCriteria.Fits;
    if gs == [] {
      assert fs + gs == fs;
    } else {
      var before, g := gs[..|gs| - 1], gs[|gs| - 1];
      assert gs == before + [g] && fs + gs == (fs + before) + [g];
      hide FiltersFor;
      FiltersForConcat(fs, before, d, c, s);
      FiltersMore(fs + before, g, d, c, s);
      FiltersMore(before, g, d, c, s);
    }
  }

  lemma FiltersForOne(f: PacketFilter, d: DeviceDescriptor, c: ConfigDescriptor, s: Site)
    ensures |FiltersFor([f], d, c, s)| <= 1
  {
    hide PluginCriteria.Relevant, PluginCriteria.Fits;
    assert [f] == [] + [f];
    FiltersMore([], f, d, c, s);
  }

  lemma FiltersMore(before: seq<PacketFilter>, f: PacketFilter, d: DeviceDescriptor, c: ConfigDescriptor, s: Site)
    ensures FiltersFor(before + [f], d, c, s) ==
            if f.criteria.Relevant(d, c) && f.criteria.Fits(s) then FiltersFor(before, d, c, s) + [f]
                else FiltersFor(before, d, c, s)
  {
    assert (before + [f])[..|before|] == before;
  }

  class Injector {
    const criteria: PluginCriteria
    const queues: array<MaybeQueue>

    constructor (criteria: PluginCriteria)
      ensures this.criteria == criteria && fresh(queues) && queues.Length == SLOTS
      ensures forall j :: 0 <= j < SLOTS ==> queues[j] == null
    {
      this.criteria := criteria;
      queues := new MaybeQueue[SLOTS](_ => null);
    }

    method SetQueue(epAddress: byte, queue: PacketQueue)
      requires queues.Length == SLOTS
      modifies queues
      ensures queues[..] == old(queues[..])[Slot(epAddress) := queue]
    {
      queues[Slot(epAddress)] := queue;
    }

    /** What `listen` does with a data packet: it goes to the queue of its own direction and number, ahead of the
        packets relayed, or back to the injector. */
    method Deliver(p: DataRelay.Packet) returns (fullPipe: bool)
      requires queues.Length == SLOTS
      modifies if queues[Slot(p.bEndpoint)] != null then {queues[Slot(p.bEndpoint)]} else {}
      ensures fullPipe <==> queues[Slot(p.bEndpoint)] == null
      ensures !fullPipe ==>
                var q := queues[Slot(p.bEndpoint)];
                q.Value() == old(q.Value()).EnqueuePriority(Some(p))
    {
      var queue := queues[Slot(p.bEndpoint)];
      fullPipe := queue == null;
      if queue != null {
        queue.EnqueuePriority(Some(p));
      }
    }
  }

  /** A slot is wired: there are a reader and a writer or neither, they share the slot's queue, and packets go from
      device to host for an IN endpoint and from host to device for an OUT endpoint. */
  ghost predicate Wired(s: Option<Site>, q: MaybeQueue, r: RelayReader?, w: RelayWriter?) {
    if s.None? then r == null && w == null
    else
      && q != null && r != null && w != null
      && r.site == w.site == s.value
      && r.sendQueue == w.recvQueue == q
      && if s.value.endpoint[2] >= 0x80 then r.proxy.DeviceProxy? && w.proxy.HostProxy?
         else r.proxy.HostProxy? && w.proxy.DeviceProxy?
  }

  /** The queue an injector holds for slot `j`: for a data slot the writer's if the injector fits its endpoint, else the
      one it held before. */
  function Route(i: PluginCriteria, d: DeviceDescriptor, c: ConfigDescriptor, j: nat, w: RelayWriter?,
                 was: MaybeQueue): MaybeQueue {
    if IsDataSlot(j) && w != null && i.Relevant(d, c) && i.Fits(w.site) then w.recvQueue else was
  }

  // ---------------------------------------------------------------- the tables

  class DataRelays {
    const endpoints: array<Option<Site>>
    const queues: array<MaybeQueue>
    const readers: array<RelayReader?>
    const writers: array<RelayWriter?>

    predicate Sized()
      reads this
    {
      endpoints.Length == SLOTS && queues.Length == SLOTS && readers.Length == SLOTS && writers.Length == SLOTS
    }

    /** Each data slot in use has an endpoint and a queue of its own. */
    ghost predicate Separate()
      requires Sized()
      reads this, endpoints, queues
    {
      && (forall j :: IsDataSlot(j) ==> (endpoints[j].Some? <==> queues[j] != null))
      && (forall i, j :: 0 <= i < SLOTS && IsDataSlot(j) && i != j && queues[j] != null ==> queues[i] != queues[j])
    }

    ghost predicate AllWired()
      requires Sized()
      reads this, endpoints, queues, readers, writers
    {
      forall j :: IsDataSlot(j) ==> Wired(endpoints[j], queues[j], readers[j], writers[j])
    }

    ghost predicate WritersApart()
      requires Sized()
      reads this, writers
    {
      forall i, j :: IsDataSlot(i) && IsDataSlot(j) && i != j && writers[i] != null ==> writers[i] != writers[j]
    }

    constructor ()
      ensures Sized() && fresh(endpoints) && fresh(queues) && fresh(readers) && fresh(writers)
      ensures forall j :: 0 <= j < SLOTS ==>
              endpoints[j].None? && queues[j] == null && readers[j] == null && writers[j] == null
    {
      endpoints := new Option<Site>[SLOTS](_ => None);
      queues := new MaybeQueue[SLOTS](_ => null);
      readers := new RelayReader?[SLOTS](_ => null);
      writers := new RelayWriter?[SLOTS](_ => null);
    }

    /** The slots are taken by the endpoints `sites`, each with a queue. */
    ghost predicate Placed(sites: seq<Site>)
      requires Sized()
      reads this, endpoints, queues
    {
      Separate() && forall j :: IsDataSlot(j) ==> endpoints[j] == SiteAt(sites, j)
    }

    /** The body of the first loop: an endpoint takes its slot, with a new queue. */
    method PlaceEndpoint(s: Site, ghost sites: seq<Site>)
      requires Sized() && Placed(sites)
      modifies endpoints, queues
      ensures Placed(sites + [s])
      ensures forall j :: 0 <= j < SLOTS ==> queues[j] == old(queues[j]) || fresh(queues[j])
    {
      hide SiteAt, Isochronous;
      forall j | 0 <= j < SLOTS ensures SiteAt(sites + [s], j) ==
          if !Isochronous(s) && Slot(s.endpoint[2]) == j then Some(s) else SiteAt(sites, j) {
        SiteAtMore(sites, s, j);
      }
      if !Isochronous(s) {
        var j := Slot(s.endpoint[2]);
        endpoints[j] := Some(s);
        queues[j] := new SafeQueue();
      }
    }

    /** The innermost loop: the endpoints of one alternate setting. */
    method PlaceSetting(i: Interface, ghost sites: seq<Site>)
      requires Sized() && Placed(sites) && SettingFull(i)
      modifies endpoints, queues
      ensures Placed(sites + EndpointSites(i, i.endpoints))
      ensures forall j :: 0 <= j < SLOTS ==> queues[j] == old(queues[j]) || fresh(queues[j])
    {
      hide Placed;
      assert sites + EndpointSites(i, i.endpoints[..0]) == sites;
      var count := i.EndpointCount();
      for k := 0 to count
        invariant Placed(sites + EndpointSites(i, i.endpoints[..k]))
        invariant forall j :: 0 <= j < SLOTS ==> queues[j] == old(queues[j]) || fresh(queues[j])
      {
        assert i.endpoints[..k + 1][..k] == i.endpoints[..k];
        var s := Site(i.endpoints[k].value, i);
        PlaceEndpoint(s, sites + EndpointSites(i, i.endpoints[..k]));
        assert sites + EndpointSites(i, i.endpoints[..k + 1]) == sites + EndpointSites(i, i.endpoints[..k]) + [s];
      }
      assert i.endpoints[..count] == i.endpoints;
    }

    /** The loop over the alternate settings of one interface. */
    method PlaceGroup(g: InterfaceGroup, ghost done: seq<Interface>)
      requires Sized() && GroupFull(g.Value()) && AllIntact(done) && Placed(Sites(done))
      modifies endpoints, queues
      ensures AllIntact(done + g.Value().Printed()) && Placed(Sites(done + g.Value().Printed()))
      ensures forall j :: 0 <= j < SLOTS ==> queues[j] == old(queues[j]) || fresh(queues[j])
    {
      hide Placed, Sites, Present, EndpointSites, Interface.Intact;
      ghost var table := g.Value().Visible();
      assert Present(table[..0]) == [] by { PresentNone(table[..0]); }
      assert done + [] == done;
      for k := 0 to g.alternateCount
        invariant AllIntact(done + Present(table[..k])) && Placed(Sites(done + Present(table[..k])))
        invariant forall j :: 0 <= j < SLOTS ==> queues[j] == old(queues[j]) || fresh(queues[j])
      {
        var i := g.interfaces[k].value;
        assert table[k] == Some(i) && SettingFull(i);
        ghost var now := done + Present(table[..k]);
        PresentSnoc(table, k);
        SitesMore(now, i);
        assert done + Present(table[..k + 1]) == now + [i];
        PlaceSetting(i, Sites(now));
      }
      assert table[..g.alternateCount] == table;
    }

    /** The first loop: every endpoint of every alternate setting of every interface takes its slot. */
    method EnumerateEndpoints(cfg: Configuration)
      requires Sized() && cfg.Valid() && TableFull(cfg.Table())
      requires forall j :: IsDataSlot(j) ==> endpoints[j].None? && queues[j] == null
      modifies endpoints, queues
      ensures cfg.Valid() && cfg.Table() == old(cfg.Table())
      ensures GroupsIntact(cfg.Table()) && AllIntact(Printed(cfg.Table())) && Placed(Sites(Printed(cfg.Table())))
      ensures forall j :: IsDataSlot(j) && queues[j] != null ==> fresh(queues[j])
      ensures InPlace()
    {
      hide Sites, Printed, Group.Printed, GroupFull;
      ghost var table := cfg.Table();
      FullIntact(table);
      NothingPrinted(table);
      for n := 0 to cfg.descriptor[4]
        invariant cfg.Valid() && cfg.Table() == table
        invariant GroupsIntact(table[..n]) && AllIntact(Printed(table[..n])) && Placed(Sites(Printed(table[..n])))
        invariant forall j :: IsDataSlot(j) && queues[j] != null ==> fresh(queues[j])
      {
        assert table[n] == cfg.Slot(n) && table[n].Some? && GroupFull(table[n].value);
        PrintedMore(table, n);
        PlaceGroup(cfg.groups[n], Printed(table[..n]));
      }
      assert table[..cfg.descriptor[4]] == table;
      PlacedInPlace(Sites(Printed(table)));
    }

    lemma NothingPrinted(t: Groups)
      requires Sized() && forall j :: IsDataSlot(j) ==> endpoints[j].None? && queues[j] == null
      ensures GroupsIntact(t[..0]) && AllIntact(Printed(t[..0])) && Placed(Sites(Printed(t[..0])))
    {
    }

    /** Each endpoint is in the place of its address. */
    ghost predicate InPlace()
      requires Sized()
      reads this, endpoints
    {
      forall j :: IsDataSlot(j) && endpoints[j].Some? ==> Slot(endpoints[j].value.endpoint[2]) == j
    }

    lemma PlacedInPlace(sites: seq<Site>)
      requires Sized() && Placed(sites)
      ensures InPlace()
    {
      hide SiteAt, Isochronous;
      forall j | IsDataSlot(j) && endpoints[j].Some? ensures Slot(endpoints[j].value.endpoint[2]) == j {
        var k := SiteIsLast(sites, j);
      }
    }

    /** A reader and a writer for one endpoint. */
    method CreateRelay(j: nat)
      requires Sized() && j < SLOTS && endpoints[j].Some? && queues[j] != null
      requires Slot(endpoints[j].value.endpoint[2]) == j
      modifies readers, writers
      ensures readers[..] == old(readers[..])[j := readers[j]] && writers[..] == old(writers[..])[j := writers[j]]
      ensures Wired(endpoints[j], queues[j], readers[j], writers[j])
      ensures fresh(writers[j]) && writers[j].filters == []
    {
      var source, sink := if j >= 16 then DeviceProxy else HostProxy, if j >= 16 then HostProxy else DeviceProxy;
      readers[j] := new RelayReader(endpoints[j].value, source, queues[j]);
      writers[j] := new RelayWriter(endpoints[j].value, sink, queues[j]);
    }

    /** The second loop: a reader and a writer for every data endpoint. */
    method CreateRelays()
      requires Sized() && Separate() && InPlace()
      requires forall j :: IsDataSlot(j) ==> readers[j] == null && writers[j] == null
      modifies readers, writers
      ensures AllWired() && WritersApart()
      ensures forall j :: IsDataSlot(j) && writers[j] != null ==> fresh(writers[j]) && writers[j].filters == []
      ensures forall j :: 0 <= j < SLOTS && !IsDataSlot(j) ==>
              readers[j] == old(readers[j]) && writers[j] == old(writers[j])
    {
      for j := 0 to SLOTS
        invariant forall i :: 0 <= i < SLOTS && !IsDataSlot(i) ==>
                readers[i] == old(readers[i]) && writers[i] == old(writers[i])
        invariant forall i :: IsDataSlot(i) && i < j ==> Wired(endpoints[i], queues[i], readers[i], writers[i])
        invariant forall i :: IsDataSlot(i) && j <= i ==> readers[i] == null && writers[i] == null
        invariant WritersApart()
        invariant forall i :: IsDataSlot(i) && writers[i] != null ==> fresh(writers[i]) && writers[i].filters == []
      {
        if IsDataSlot(j) && endpoints[j].Some? {
          CreateRelay(j);
        }
      }
    }

    /** The filters of slot `j` are those of `fs` that fit it. */
    ghost predicate Filtered(fs: seq<PacketFilter>, d: DeviceDescriptor, c: ConfigDescriptor, j: nat)
      requires Sized() && j < SLOTS
      reads this, writers, writers[j]
    {
      writers[j] != null ==> writers[j].filters == FiltersFor(fs, d, c, writers[j].site)
    }

    ghost function Writers(): set<RelayWriter>
      requires Sized()
      reads this, writers
    {
      set j | 0 <= j < SLOTS && IsDataSlot(j) && writers[j] != null :: writers[j]
    }

    /** One filter over all writers. */
    method ApplyFilter(f: PacketFilter, ghost before: seq<PacketFilter>, d: DeviceDescriptor, c: ConfigDescriptor)
      requires Sized() && WritersApart()
      requires forall j :: IsDataSlot(j) ==> Filtered(before, d, c, j)
      modifies Writers()
      ensures forall j :: IsDataSlot(j) ==> Filtered(before + [f], d, c, j)
    {
      hide PluginCriteria.Relevant, PluginCriteria.Fits, FiltersFor;
      ghost var after := before + [f];
      forall s: Site ensures FiltersFor(after, d, c, s) ==
          if f.criteria.Relevant(d, c) && f.criteria.Fits(s) then FiltersFor(before, d, c, s) + [f]
              else FiltersFor(before, d, c, s) {
        FiltersMore(before, f, d, c, s);
      }
      if f.criteria.Relevant(d, c) {
        for j := 0 to SLOTS
          invariant forall i :: IsDataSlot(i) && i < j ==> Filtered(after, d, c, i)
          invariant forall i :: IsDataSlot(i) && j <= i ==> Filtered(before, d, c, i)
        {
          assert IsDataSlot(j) ==> Filtered(before, d, c, j);
          if IsDataSlot(j) && writers[j] != null && f.criteria.Fits(writers[j].site) {
            writers[j].AddFilter(f);
          }
        }
      } else {
        forall j | IsDataSlot(j) ensures Filtered(after, d, c, j) {
          assert Filtered(before, d, c, j);
        }
      }
    }

    method ApplyFilters(fs: seq<PacketFilter>, d: DeviceDescriptor, c: ConfigDescriptor)
      requires Sized() && WritersApart()
      requires forall j :: IsDataSlot(j) ==> Filtered([], d, c, j)
      modifies Writers()
      ensures forall j :: IsDataSlot(j) ==> Filtered(fs, d, c, j)
    {
      var k := 0;
      while k < |fs|
        invariant 0 <= k <= |fs|
        invariant forall j :: IsDataSlot(j) ==> Filtered(fs[..k], d, c, j)
      {
        assert fs[..k + 1] == fs[..k] + [fs[k]];
        ApplyFilter(fs[k], fs[..k], d, c);
        k := k + 1;
      }
      assert fs[..k] == fs;
    }

    method ApplyInjector(i: Injector, d: DeviceDescriptor, c: ConfigDescriptor)
      requires Sized() && AllWired() && i.queues.Length == SLOTS && i.queues != queues
      modifies i.queues
      ensures forall j :: 0 <= j < SLOTS ==>
                i.queues[j] == Route(i.criteria, d, c, j, writers[j], old(i.queues[j]))
      ensures AllWired()
    {
      hide PluginCriteria.Relevant, PluginCriteria.Fits;
      if i.criteria.Relevant(d, c) {
        for j := 0 to SLOTS
          invariant AllWired()
          invariant forall k :: 0 <= k < j ==>
                      i.queues[k] == Route(i.criteria, d, c, k, writers[k], old(i.queues[k]))
          invariant forall k :: j <= k < SLOTS ==> i.queues[k] == old(i.queues[k])
        {
          if IsDataSlot(j) && writers[j] != null && i.criteria.Fits(writers[j].site) {
            i.SetQueue(if j >= 16 then 0x80 + j - 16 else j, writers[j].recvQueue);
          }
        }
      }
    }

    /** One injector after the other. */
    method ApplyInjectors(injectors: seq<Injector>, d: DeviceDescriptor, c: ConfigDescriptor)
      requires Sized() && AllWired()
      requires forall k :: 0 <= k < |injectors| ==> injectors[k].queues.Length == SLOTS && injectors[k].queues != queues
      requires forall k, m :: 0 <= k < m < |injectors| ==> injectors[k].queues != injectors[m].queues
      modifies set k | 0 <= k < |injectors| :: injectors[k].queues
      ensures AllWired()
      ensures forall k, j :: 0 <= k < |injectors| && 0 <= j < SLOTS ==>
                injectors[k].queues[j] == Route(injectors[k].criteria, d, c, j, writers[j], old(injectors[k].queues[j]))
    {
      hide PluginCriteria.Relevant, PluginCriteria.Fits, Route;
      for n := 0 to |injectors|
        invariant AllWired()
        invariant forall k, j :: 0 <= k < n && 0 <= j < SLOTS ==>
                    injectors[k].queues[j] ==
                        Route(injectors[k].criteria, d, c, j, writers[j], old(injectors[k].queues[j]))
        invariant forall k, j :: n <= k < |injectors| && 0 <= j < SLOTS ==>
                injectors[k].queues[j] == old(injectors[k].queues[j])
      {
        ApplyInjector(injectors[n], d, c);
      }
    }

    /** Every endpoint of the settings that is not isochronous has its place in use, with a reader and a writer, and
        every data place in use is wired for such an endpoint. */
    ghost predicate Serves(settings: seq<Interface>)
      requires Sized()
      reads this, endpoints, queues, readers, writers
    {
      && (forall s: Site :: Relayable(settings, s) && IsDataSlot(Slot(s.endpoint[2])) ==> Used(Slot(s.endpoint[2])))
      && forall j :: IsDataSlot(j) && endpoints[j].Some? ==>
           Relayable(settings, endpoints[j].value) && Slot(endpoints[j].value.endpoint[2]) == j
    }

    ghost predicate Used(j: nat)
      requires Sized() && j < SLOTS
      reads this, endpoints, queues, readers, writers
    {
      endpoints[j].Some? && queues[j] != null && readers[j] != null && writers[j] != null
    }

    lemma PlacedServes(settings: seq<Interface>)
      requires Sized() && AllIntact(settings) && Placed(Sites(settings)) && AllWired()
      ensures Serves(settings)
    {
      hide Interface.Intact, Sites, Has, Isochronous, AllIntact, SiteAt;
      forall s: Site | Relayable(settings, s) && IsDataSlot(Slot(s.endpoint[2]))
        ensures Used(Slot(s.endpoint[2]))
      {
        var j := Slot(s.endpoint[2]);
        SitesAre(settings, s);
        assert SiteAt(Sites(settings), j).Some?;
        assert Wired(endpoints[j], queues[j], readers[j], writers[j]);
      }
      forall j | IsDataSlot(j) && endpoints[j].Some?
        ensures Relayable(settings, endpoints[j].value) && Slot(endpoints[j].value.endpoint[2]) == j
      {
        var k := SiteIsLast(Sites(settings), j);
        SitesAre(settings, endpoints[j].value);
      }
    }

    /** Queues, readers, writers and filters, without the injectors. */
    method WireEndpoints(cfg: Configuration, fs: seq<PacketFilter>, d: DeviceDescriptor)
      requires Sized() && cfg.Valid() && TableFull(cfg.Table())
      requires forall j :: IsDataSlot(j) ==>
                 endpoints[j].None? && queues[j] == null && readers[j] == null && writers[j] == null
      modifies endpoints, queues, readers, writers
      ensures Separate() && AllWired() && WritersApart()
      ensures forall j :: IsDataSlot(j) && queues[j] != null ==> fresh(queues[j])
      ensures cfg.Table() == old(cfg.Table()) && GroupsIntact(cfg.Table()) && AllIntact(Printed(cfg.Table()))
      ensures Placed(Sites(Printed(cfg.Table()))) && Serves(Printed(cfg.Table()))
      ensures forall j :: 0 <= j < SLOTS && !IsDataSlot(j) ==>
                readers[j] == old(readers[j]) && writers[j] == old(writers[j])
      ensures forall j :: IsDataSlot(j) ==> Filtered(fs, d, cfg.descriptor, j)
    {
      hide PluginCriteria.Relevant, PluginCriteria.Fits, FiltersFor, Sites, Printed, TableFull, SiteAt;
      hide Wired, AllWired, WritersApart, Serves, InPlace;
      EnumerateEndpoints(cfg);
      CreateRelays();
      NoFilters(d, cfg.descriptor);
      ApplyFilters(fs, d, cfg.descriptor);
      PlacedServes(Printed(cfg.Table()));
    }

    /** The first `start_data_relaying` of the device. Afterwards every data endpoint of the active configuration has a
        new queue of its own that its reader and its writer share, each writer has exactly the filters that fit it, in
        order, and each injector has exactly the queues of the endpoints it fits. The reader and the writer of the
        control endpoint stay, and so do the queues the injectors hold for it. */
    method StartDataRelaying(cfg: Configuration, fs: seq<PacketFilter>, injectors: seq<Injector>, d: DeviceDescriptor)
      requires Sized() && cfg.Valid() && TableFull(cfg.Table())
      requires forall j :: IsDataSlot(j) ==>
                 endpoints[j].None? && queues[j] == null && readers[j] == null && writers[j] == null
      requires forall k :: 0 <= k < |injectors| ==> injectors[k].queues.Length == SLOTS && injectors[k].queues != queues
      requires forall k, m :: 0 <= k < m < |injectors| ==> injectors[k].queues != injectors[m].queues
      modifies endpoints, queues, readers, writers, set k | 0 <= k < |injectors| :: injectors[k].queues
      ensures Separate() && AllWired() && WritersApart()
      ensures forall j :: IsDataSlot(j) && queues[j] != null ==> fresh(queues[j])
      ensures cfg.Table() == old(cfg.Table()) && GroupsIntact(cfg.Table()) && AllIntact(Printed(cfg.Table()))
      ensures Placed(Sites(Printed(cfg.Table()))) && Serves(Printed(cfg.Table()))
      ensures forall j :: 0 <= j < SLOTS && !IsDataSlot(j) ==>
                readers[j] == old(readers[j]) && writers[j] == old(writers[j])
      ensures forall j :: IsDataSlot(j) ==> Filtered(fs, d, cfg.descriptor, j)
      ensures forall k, j :: 0 <= k < |injectors| && 0 <= j < SLOTS ==>
                Stocked(injectors[k], d, cfg.descriptor, j, old(injectors[k].queues[j]))
    {
      hide PluginCriteria.Relevant, PluginCriteria.Fits, Route, FiltersFor, Sites, Printed, TableFull, SiteAt;
      hide Wired, AllWired, WritersApart, Serves, Fed, Placed;
      WireEndpoints(cfg, fs, d);
      ApplyInjectors(injectors, d, cfg.descriptor);
      forall k, j | 0 <= k < |injectors| && 0 <= j < SLOTS
        ensures Stocked(injectors[k], d, cfg.descriptor, j, old(injectors[k].queues[j]))
      {
        RouteIs(injectors[k].criteria, d, cfg.descriptor, j, old(injectors[k].queues[j]));
      }
    }

    /** The injector passes all four criteria for the endpoint of data place `j`. */
    ghost predicate Fed(i: PluginCriteria, d: DeviceDescriptor, c: ConfigDescriptor, j: nat)
      requires Sized() && j < SLOTS
      reads this, endpoints
    {
      && IsDataSlot(j) && endpoints[j].Some?
      && i.device.Test(d) && i.configuration.Test(c)
      && i.endpoint.Test(endpoints[j].value.endpoint) && i.interface.Test(endpoints[j].value.setting)
    }

    /** For place `j` the injector has the queue of the endpoint there if it fits it, else the one it had. */
    ghost predicate Stocked(i: Injector, d: DeviceDescriptor, c: ConfigDescriptor, j: nat, was: MaybeQueue)
      requires Sized() && j < SLOTS
      reads this, endpoints, queues, i.queues
    {
      i.queues.Length == SLOTS && i.queues[j] == if Fed(i.criteria, d, c, j) then queues[j] else was
    }

    lemma RouteIs(i: PluginCriteria, d: DeviceDescriptor, c: ConfigDescriptor, j: nat, was: MaybeQueue)
      requires Sized() && AllWired() && j < SLOTS
      ensures Route(i, d, c, j, writers[j], was) == if Fed(i, d, c, j) then queues[j] else was
    {
      hide DeviceCriteria.Test, ConfigurationCriteria.Test, EndpointCriteria.Test, InterfaceCriteria.Test;
      assert IsDataSlot(j) ==> Wired(endpoints[j], queues[j], readers[j], writers[j]);
    }

    /** A packet injected for one endpoint never lands on another endpoint's queue. */
    lemma InjectedStaysHome(i: Injector, d: DeviceDescriptor, c: ConfigDescriptor, p: DataRelay.Packet, j: nat)
      requires Sized() && Separate() && AllWired() && i.queues.Length == SLOTS
      requires forall k :: 0 <= k < SLOTS && IsDataSlot(k) ==>
              i.queues[k] == Route(i.criteria, d, c, k, writers[k], null)
      requires IsDataSlot(Slot(p.bEndpoint)) && j < SLOTS && j != Slot(p.bEndpoint) && queues[j] != null
      ensures i.queues[Slot(p.bEndpoint)] != queues[j]
    {
      hide PluginCriteria.Relevant, PluginCriteria.Fits;
      var home := Slot(p.bEndpoint);
      assert Wired(endpoints[home], queues[home], readers[home], writers[home]);
    }

    lemma NoFilters(d: DeviceDescriptor, c: ConfigDescriptor)
      requires Sized() && forall j :: IsDataSlot(j) && writers[j] != null ==> writers[j].filters == []
      ensures forall j :: IsDataSlot(j) ==> Filtered([], d, c, j)
    {
    }
  }
}
