/** Setup packets and the two passes the setup writer makes over its filters, one before and one after the device is
    asked. */
module SetupFilters {
  import opened Wire

  datatype Request = Request(bRequestType: byte, bRequest: byte, wValue: word, wIndex: word, wLength: word)

  /** A setup packet. `id` numbers the host's requests; it is not part of the program and no filter can change it. */
  datatype Setup = Setup(
    id: nat, request: Request, data: seq<byte>,
    filter: bool, transmit: bool,
    filterOut: bool, transmitOut: bool, filterIn: bool, transmitIn: bool)

  function NewSetup(id: nat, request: Request, data: seq<byte>): Setup {
    Setup(id, request, data, true, true, true, true, true, true)
  }

  /** A filter as it stands when a pass begins: which packets it picks in which direction, and what it makes of them. */
  datatype Filter = Filter(test: (Setup, bool) -> bool, apply: (Setup, bool) -> Setup)

  // The filters of endpoint 0. The loops over them count in one byte, and with more filters need not end.
  type FilterChain = fs: seq<Filter> | |fs| < 0x100 witness []

  /** What filter `f` leaves of `s`. */
  function Filtered(f: Filter, s: Setup, directionOut: bool): (r: Setup)
    ensures r.id == s.id
  {
    if f.test(s, directionOut) then f.apply(s, directionOut).(id := s.id) else s
  }

  /** What filters `i` up to `j` leave of `s`, one after the other. */
  function Through(fs: seq<Filter>, s: Setup, directionOut: bool, i: nat, j: nat): (r: Setup)
    requires i <= j <= |fs|
    ensures r.id == s.id
  {
    if i == j then s else Filtered(fs[j - 1], Through(fs, s, directionOut, i, j - 1), directionOut)
  }

  /** Filters that do not pick the packet leave it alone. */
  lemma {:induction false} NonePicks(fs: seq<Filter>, s: Setup, directionOut: bool, i: nat, j: nat)
    requires i <= j <= |fs| && forall k :: i <= k < j ==> !fs[k].test(s, directionOut)
    ensures Through(fs, s, directionOut, i, j) == s
  {
    if i < j {
      NonePicks(fs, s, directionOut, i, j - 1);
    }
  }

  /** The one filter that picks the packet makes of it what it does on its own. */
  lemma {:induction false} OnePicks(fs: seq<Filter>, s: Setup, directionOut: bool, i: nat, k: nat, j: nat)
    requires i <= k < j <= |fs| && fs[k].test(s, directionOut)
    requires forall m :: i <= m < k ==> !fs[m].test(s, directionOut)
    requires var r := fs[k].apply(s, directionOut).(id := s.id);
             forall m :: k < m < j ==> !fs[m].test(r, directionOut)
    ensures Through(fs, s, directionOut, i, j) == fs[k].apply(s, directionOut).(id := s.id)
  {
    if j == k + 1 {
      NonePicks(fs, s, directionOut, i, k);
    } else {
      OnePicks(fs, s, directionOut, i, k, j - 1);
    }
  }

  /** Whether a pass that starts at filter `i` ends before filter `j`: each filter up to there was still wanted, and the
      next is not wanted or not there. */
  ghost predicate Ends(fs: seq<Filter>, s: Setup, directionOut: bool, i: nat, j: nat) {
    && i <= j <= |fs|
    && (forall k :: i <= k < j ==> Wanted(Through(fs, s, directionOut, i, k), directionOut))
    && (j < |fs| ==> !Wanted(Through(fs, s, directionOut, i, j), directionOut))
  }

  predicate Wanted(s: Setup, directionOut: bool) {
    if directionOut then s.filterOut else s.filterIn
  }

  /** Where the pass from filter `i` on ends. */
  function Reach(fs: seq<Filter>, s: Setup, directionOut: bool, i: nat): (j: nat)
    requires i <= |fs|
    ensures Ends(fs, s, directionOut, i, j)
  {
    ReachFrom(fs, s, directionOut, i, i)
  }

  function ReachFrom(fs: seq<Filter>, s: Setup, directionOut: bool, i: nat, k: nat): (j: nat)
    requires i <= k <= |fs|
    requires forall m :: i <= m < k ==> Wanted(Through(fs, s, directionOut, i, m), directionOut)
    ensures Ends(fs, s, directionOut, i, j)
    decreases |fs| - k
  {
    if k < |fs|
        && Wanted(Through(fs, s, directionOut, i, k), directionOut) then ReachFrom(fs, s, directionOut, i, k + 1) else k
  }

  lemma EndsOnce(fs: seq<Filter>, s: Setup, directionOut: bool, i: nat, j: nat, k: nat)
    requires Ends(fs, s, directionOut, i, j) && Ends(fs, s, directionOut, i, k)
    ensures j == k
  {
    hide Through, Wanted;
  }

  /** The first pass, over the host's request. */
  function OutPass(fs: seq<Filter>, s: Setup): (r: Setup)
    ensures r.id == s.id
  {
    if s.filter then Through(fs, s, true, 0, Reach(fs, s, true, 0)) else s
  }

  /** The filter the second pass starts at. A request that reads from the device starts over; a request that writes to
      it carries on from where the first pass over `s` ended, so filters that saw the request do not see the reply. */
  function InStart(fs: seq<Filter>, s: Setup, isIn: bool): (j: nat)
    ensures j <= |fs|
  {
    if isIn || !s.filter then 0 else Reach(fs, s, true, 0)
  }

  /** The second pass, over the device's reply, from filter `j` on. */
  function InPass(fs: seq<Filter>, s: Setup, j: nat): (r: Setup)
    requires j <= |fs|
    ensures r.id == s.id
  {
    if s.filter then Through(fs, s, false, j, Reach(fs, s, false, j)) else s
  }

  /** A first pass in which every filter is wanted ends behind the last one. */
  lemma SeenByAll(fs: seq<Filter>, s: Setup)
    requires s.filter && forall k :: 0 <= k < |fs| ==> Through(fs, s, true, 0, k).filterOut
    ensures InStart(fs, s, false) == |fs|
  {
    assert Ends(fs, s, true, 0, |fs|) by {
      hide Through;
    }
    EndsOnce(fs, s, true, 0, |fs|, Reach(fs, s, true, 0));
  }

  /** `for (j = ...; j < filters.size() && s->filter_...; j++)`, with `j` in one byte: more filters than a byte can
      count are no harm when the pass ends before them. */
  method Pass(fs: seq<Filter>, s: Setup, directionOut: bool, start: byte) returns (r: Setup, j: byte)
    requires start <= |fs| && Reach(fs, s, directionOut, start) < 0x100
    ensures Ends(fs, s, directionOut, start, j) && r == Through(fs, s, directionOut, start, j)
  {
    ghost var end := Reach(fs, s, directionOut, start);
    r, j := s, start;
    while j < |fs| && Wanted(r, directionOut)
      invariant start <= j <= end
      invariant r == Through(fs, s, directionOut, start, j)
      invariant forall k :: start <= k < j ==> Wanted(Through(fs, s, directionOut, start, k), directionOut)
    {
      if fs[j].test(r, directionOut) {
        r := fs[j].apply(r, directionOut).(id := r.id);
      }
      assert j < end;
      j := j + 1;
    }
  }

  /** The writer's first pass. Without filtering its counter is left as it was. */
  method FilterOut(fs: seq<Filter>, s: Setup, j0: byte) returns (r: Setup, j: byte)
    requires s.filter ==> Reach(fs, s, true, 0) < 0x100
    ensures r == OutPass(fs, s)
    ensures s.filter ==> j == InStart(fs, s, false)
  {
    r, j := s, j0;
    if s.filter {
      r, j := Pass(fs, s, true, 0);
      EndsOnce(fs, s, true, 0, j, Reach(fs, s, true, 0));
    }
  }

  /** The writer's second pass. */
  method FilterIn(fs: seq<Filter>, s: Setup, start: byte) returns (r: Setup)
    requires start <= |fs| && (s.filter ==> Reach(fs, s, false, start) < 0x100)
    ensures r == InPass(fs, s, start)
  {
    r := s;
    if s.filter {
      var j;
      r, j := Pass(fs, s, false, start);
      EndsOnce(fs, s, false, start, j, Reach(fs, s, false, start));
    }
  }
}
