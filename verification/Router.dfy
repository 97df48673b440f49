/** Longest-prefix-match routing over a 33-level hash index (section 5.2.4.3 of RFC 1812). */
module RouterModel {
  import opened Basics
  import opened Ipv4Wire

  datatype Target = Target(iface: nat, hop: Option<U32>)

  datatype Route = Route(prefix: U32, length: nat, target: Target)

  /** A shift by the full width is undefined in C++; the count is taken modulo 32, as the shift instruction does. */
  function ShiftRight(x: U32, n: nat): U32 { DivBelow(x, Pow2(n % 32)); Quotient(x, Pow2(n % 32)) }

  function Quotient(x: nat, d: nat): nat { if d == 0 then 0 else x / d }

  lemma {:induction false} DivBelow(x: U32, d: nat)
    ensures 0 <= Quotient(x, d) <= x
  {
    if d > 0 { DivLess(x, d); }
  }

  /** `get_mask`: where a route is filed. */
  function Key(prefix: U32, length: nat): U32
    requires length <= 32
  {
    ShiftRight(prefix, 32 - length)
  }

  /** The first `length` bits of an address. */
  function Leading(x: U32, length: nat): nat
    requires length <= 32
  {
    Quotient(x, Pow2(32 - length))
  }

  predicate Matches(r: Route, dst: U32)
    requires r.length <= 32
  {
    Leading(r.prefix, r.length) == Leading(dst, r.length)
  }

  type Level = map<U32, Target>

  /** One level for each prefix length. */
  type Table = t: seq<Level> | |t| == 33 witness EmptyLevels(33)

  function EmptyLevels(n: nat): (t: seq<Level>)
    ensures |t| == n && forall i | 0 <= i < n :: t[i] == map[]
  {
    if n == 0 then [] else EmptyLevels(n - 1) + [map[]]
  }

  function AddRoute(t: Table, r: Route): Table
    requires r.length <= 32
  {
    var level: Level := t[r.length];
    t[r.length := level[Key(r.prefix, r.length) := r.target]]
  }

  predicate Lengths(routes: seq<Route>) { forall k | 0 <= k < |routes| :: routes[k].length <= 32 }

  function Build(routes: seq<Route>): Table
    requires Lengths(routes)
  {
    if routes == [] then EmptyLevels(33)
    else AddRoute(Build(routes[..|routes| - 1]), routes[|routes| - 1])
  }

  /** From level `i` down, with the address already shifted to that level. */
  function LookupFrom(t: Table, i: int, shifted: U32): Option<Target>
    requires i <= 32
    decreases i + 1
  {
    if i < 0 then None
    else if shifted in t[i] then Some(t[i][shifted])
    else LookupFrom(t, i - 1, shifted / 2)
  }

  function Lookup(t: Table, dst: U32): Option<Target> { LookupFrom(t, 32, dst) }

  const NO_INTERFACE: nat := 0xFFFF_FFFF

  datatype Decision = Drop | Forward(iface: nat, hop: U32)

  /** What becomes of a datagram: `ttl-- < 2` drops it, and so does the value that stands for no interface. */
  function Decide(t: Table, h: IPv4Header): Decision {
    if h.ttl < 2 then Drop
    else
      match Lookup(t, h.dst)
      case None => Drop
      case Some(target) =>
        if target.iface == NO_INTERFACE then Drop
        else Forward(target.iface, if target.hop.Some? then target.hop.value else h.dst)
  }

  /** The header as it goes on: the time to live is counted down in eight bits. */
  function Forwarded(h: IPv4Header): IPv4Header { h.(ttl := (h.ttl - 1) % 256) }

  /** How many of the routers along a path forward a datagram. */
  function Hops(path: seq<Table>, h: IPv4Header): nat {
    if path == [] || Decide(path[0], h).Drop? then 0 else 1 + Hops(path[1..], Forwarded(h))
  }

  /** No path is endless, not even a loop: with time to live `ttl` at most `ttl - 1` routers forward a datagram, and
      exactly the first so many if all of them have a way for it. */
  lemma {:induction false} TimeToLive(path: seq<Table>, h: IPv4Header)
    ensures Hops(path, h) <= Min(|path|, Max(0, h.ttl - 1))
    ensures (forall k | 0 <= k < |path| :: Lookup(path[k], h.dst).Some? &&
                                           Lookup(path[k], h.dst).value.iface != NO_INTERFACE) ==>
              Hops(path, h) == Min(|path|, Max(0, h.ttl - 1))
    decreases |path|
  {
    if path != [] && h.ttl >= 2 {
      assert Forwarded(h).ttl == h.ttl - 1 && Forwarded(h).dst == h.dst;
      TimeToLive(path[1..], Forwarded(h));
      assert forall k | 0 <= k < |path| - 1 :: path[1..][k] == path[k + 1];
    }
  }

  // ---------------------------------------------------------------- the plain scan

  /** The longest match; of equally long ones the last in the list. */
  function Best(routes: seq<Route>, dst: U32): Option<Route>
    requires Lengths(routes)
  {
    if routes == [] then None
    else
      var best := Best(routes[..|routes| - 1], dst);
      var last := routes[|routes| - 1];
      if Matches(last, dst) && (best.None? || best.value.length <= last.length) then Some(last) else best
  }

  /** Route `k` matches, no match is longer, and no later match is as long. */
  ghost predicate LongestAt(routes: seq<Route>, dst: U32, k: nat)
    requires Lengths(routes)
  {
    && k < |routes| && Matches(routes[k], dst)
    && (forall j | 0 <= j < |routes| && Matches(routes[j], dst) :: routes[j].length <= routes[k].length)
    && (forall j | k < j < |routes| && Matches(routes[j], dst) :: routes[j].length < routes[k].length)
  }

  ghost predicate NoneMatches(routes: seq<Route>, dst: U32)
    requires Lengths(routes)
  {
    forall j | 0 <= j < |routes| :: !Matches(routes[j], dst)
  }

  lemma {:induction false} LongestStays(routes: seq<Route>, dst: U32, k: nat)
    requires Lengths(routes) && routes != []
    requires var front := routes[..|routes| - 1]; Lengths(front) && LongestAt(front, dst, k)
    requires var last := routes[|routes| - 1]; Matches(last, dst) ==> last.length < routes[k].length
    ensures LongestAt(routes, dst, k)
  {
    var front := routes[..|routes| - 1];
    assert forall j | 0 <= j < |front| :: front[j] == routes[j];
  }

  /** What the scan returns, said without a scan. */
  lemma {:induction false} BestIsLongest(routes: seq<Route>, dst: U32) returns (k: nat)
    requires Lengths(routes)
    ensures Best(routes, dst).None? ==> NoneMatches(routes, dst)
    ensures Best(routes, dst).Some? ==> LongestAt(routes, dst, k) && routes[k] == Best(routes, dst).value
    decreases |routes|
  {
    k := 0;
    if routes != [] {
      var n := |routes| - 1;
      var front := routes[..n];
      assert forall j | 0 <= j < n :: front[j] == routes[j];
      k := BestIsLongest(front, dst);
      var b := Best(front, dst);
      if Matches(routes[n], dst) && (b.None? || b.value.length <= routes[n].length) {
        k := n;
      } else if b.Some? {
        LongestStays(routes, dst, k);
      }
    }
  }

  // ---------------------------------------------------------------- filing

  /** A route is filed where lookups for its addresses will come by. */
  predicate Findable(r: Route) { r.length > 0 || r.prefix == 0 }

  lemma {:induction false} QuotientPow32(x: U32)
    ensures Quotient(x, Pow2(32)) == 0
  {
    Pow2Splits(16, 16);
    Pow2Values();
    assert Pow2(32) == TWO32;
    DivZero(x);
  }

  lemma DivZero(x: U32)
    ensures x / TWO32 == 0
  {
  }

  /** Exactly the routes with a non-zero length, and default routes written with prefix zero. */
  lemma {:induction false} FindableIff(r: Route)
    requires r.length <= 32
    ensures Findable(r) <==> Key(r.prefix, r.length) == Leading(r.prefix, r.length)
    ensures Findable(r) <==> forall dst: U32 | Matches(r, dst) :: Leading(dst, r.length) == Key(r.prefix, r.length)
  {
    if r.length == 0 {
      QuotientPow32(r.prefix);
      assert Pow2(0) == 1;
      assert Key(r.prefix, 0) == r.prefix;
      assert Matches(r, r.prefix);
    }
    assert Matches(r, r.prefix);
  }

  lemma {:induction false} HalveQuotient(x: nat, n: nat)
    ensures Quotient(x, Pow2(n)) / 2 == Quotient(x, Pow2(n + 1))
  {
    Pow2Monotone(n, n);
    var b := Pow2(n);
    assert Pow2(n + 1) == b * 2;
    DivDiv(x, b, 2);
  }

  // ---------------------------------------------------------------- the index agrees with the scan

  /** The last findable route of length `i` that matches. */
  function LastAt(routes: seq<Route>, dst: U32, i: nat): Option<Target>
    requires Lengths(routes) && i <= 32
  {
    if routes == [] then None
    else
      var last := routes[|routes| - 1];
      if last.length == i && Findable(last) && Matches(last, dst) then Some(last.target)
      else LastAt(routes[..|routes| - 1], dst, i)
  }

  lemma {:induction false} LeadingZero(x: U32)
    ensures Leading(x, 0) == 0
  {
    QuotientPow32(x);
  }

  /** A route is filed under an address's leading bits exactly if it can be found and matches. */
  lemma {:induction false} FiledIff(r: Route, dst: U32)
    requires r.length <= 32
    ensures Key(r.prefix, r.length) == Leading(dst, r.length) <==> Findable(r) && Matches(r, dst)
  {
    FindableIff(r);
    if r.length == 0 {
      LeadingZero(dst);
      LeadingZero(r.prefix);
    }
  }

  /** What a level has under a key. */
  function Filed(level: Level, key: nat): Option<Target> {
    if key in level then Some(level[key]) else None
  }

  lemma {:induction false} AddedAt(t: Table, r: Route, i: nat, key: nat)
    requires r.length <= 32 && i <= 32
    ensures Filed(AddRoute(t, r)[i], key) ==
            if r.length == i && Key(r.prefix, r.length) == key then Some(r.target) else Filed(t[i], key)
  {
  }

  /** Each level of the index holds, under the address's leading bits, the last such route. */
  lemma {:induction false} LevelHolds(routes: seq<Route>, dst: U32, i: nat)
    requires Lengths(routes) && i <= 32
    ensures LastAt(routes, dst, i) == Filed(Build(routes)[i], Leading(dst, i))
    decreases |routes|
  {
    if routes != [] {
      var front, last := routes[..|routes| - 1], routes[|routes| - 1];
      assert forall j | 0 <= j < |front| :: front[j] == routes[j];
      LevelHolds(front, dst, i);
      FiledIff(last, dst);
      AddedAt(Build(front), last, i, Leading(dst, i));
    }
  }

  function BestFrom(routes: seq<Route>, dst: U32, i: int): Option<Target>
    requires Lengths(routes) && i <= 32
    decreases i + 1
  {
    if i < 0 then None
    else if LastAt(routes, dst, i).Some? then LastAt(routes, dst, i)
    else BestFrom(routes, dst, i - 1)
  }

  lemma {:induction false} LookupLevels(routes: seq<Route>, dst: U32, i: int, shifted: U32)
    requires Lengths(routes) && i <= 32
    requires i >= 0 ==> shifted == Leading(dst, i)
    ensures LookupFrom(Build(routes), i, shifted) == BestFrom(routes, dst, i)
    decreases i + 1
  {
    if i >= 0 {
      LevelHolds(routes, dst, i);
      if i > 0 { HalveQuotient(dst, 32 - i); }
      LookupLevels(routes, dst, i - 1, shifted / 2);
    }
  }

  function Usable(routes: seq<Route>): seq<Route> {
    if routes == [] then []
    else Usable(routes[..|routes| - 1]) + if Findable(routes[|routes| - 1]) then [routes[|routes| - 1]] else []
  }

  lemma {:induction false} UsableLengths(routes: seq<Route>)
    requires Lengths(routes)
    ensures Lengths(Usable(routes))
    decreases |routes|
  {
    if routes != [] {
      var front := routes[..|routes| - 1];
      assert forall j | 0 <= j < |front| :: front[j] == routes[j];
      UsableLengths(front);
    }
  }

  function TargetOf(r: Option<Route>): Option<Target> {
    match r
    case None => None
    case Some(route) => Some(route.target)
  }

  /** Scanning level by level finds the same route as scanning the list once. */
  lemma {:induction false} ScansAgree(routes: seq<Route>, dst: U32, i: int)
    requires Lengths(routes) && Lengths(Usable(routes)) && i <= 32
    requires Best(Usable(routes), dst).Some? ==> Best(Usable(routes), dst).value.length <= i
    ensures BestFrom(routes, dst, i) == TargetOf(Best(Usable(routes), dst))
    decreases i + 1
  {
    if i >= 0 {
      LastAtIsBest(routes, dst, i);
      if LastAt(routes, dst, i).None? { ScansAgree(routes, dst, i - 1); }
    }
  }

  /** When no usable match is longer than `i`, the last match of length `i` is the best, and if there is none
      the best is shorter. */
  lemma {:induction false} LastAtIsBest(routes: seq<Route>, dst: U32, i: nat)
    requires Lengths(routes) && Lengths(Usable(routes)) && i <= 32
    requires Best(Usable(routes), dst).Some? ==> Best(Usable(routes), dst).value.length <= i
    ensures var b := Best(Usable(routes), dst);
            if b.Some? && b.value.length == i then LastAt(routes, dst, i) == Some(b.value.target)
            else LastAt(routes, dst, i).None?
    decreases |routes|
  {
    if routes != [] {
      var front, last := routes[..|routes| - 1], routes[|routes| - 1];
      assert forall j | 0 <= j < |front| :: front[j] == routes[j];
      UsableLengths(front);
      if Findable(last) {
        var u := Usable(routes);
        assert u[..|u| - 1] == Usable(front) && u[|u| - 1] == last;
      } else {
        assert Usable(routes) == Usable(front);
      }
      LastAtIsBest(front, dst, i);
    }
  }

  /** For every list of routes and every address, the index picks the longest prefix among the usable routes,
      the one added last among equally long ones. */
  lemma {:induction false} LookupIsBest(routes: seq<Route>, dst: U32)
    requires Lengths(routes)
    ensures Lengths(Usable(routes)) && Lookup(Build(routes), dst) == TargetOf(Best(Usable(routes), dst))
  {
    UsableLengths(routes);
    if Best(Usable(routes), dst).Some? { BestLength(Usable(routes), dst); }
    assert Pow2(0) == 1;
    LookupLevels(routes, dst, 32, dst);
    ScansAgree(routes, dst, 32);
  }

  lemma {:induction false} BestLength(routes: seq<Route>, dst: U32)
    requires Lengths(routes) && Best(routes, dst).Some?
    ensures Best(routes, dst).value.length <= 32
  {
    var _ := BestIsLongest(routes, dst);
  }

  lemma {:induction false} AllUsable(routes: seq<Route>)
    requires forall k | 0 <= k < |routes| :: Findable(routes[k])
    ensures Usable(routes) == routes
    decreases |routes|
  {
    if routes != [] {
      AllUsable(routes[..|routes| - 1]);
      assert routes == routes[..|routes| - 1] + [routes[|routes| - 1]];
    }
  }

  /** With default routes written as prefix zero, the router is a longest-prefix-match router: a datagram is
      dropped exactly when its time to live is below two or no route (with an interface) matches, and otherwise
      goes where the best route says. */
  lemma {:induction false} LongestPrefixMatch(routes: seq<Route>, h: IPv4Header)
    requires Lengths(routes) && forall k | 0 <= k < |routes| :: Findable(routes[k])
    ensures var best := Best(routes, h.dst);
            Decide(Build(routes), h) ==
              if h.ttl < 2 || best.None? || best.value.target.iface == NO_INTERFACE then Drop
              else Forward(best.value.target.iface,
                           if best.value.target.hop.Some? then best.value.target.hop.value else h.dst)
  {
    LookupIsBest(routes, h.dst);
    AllUsable(routes);
  }

  /** A default route written with any other prefix is never used. */
  lemma {:induction false} MisfiledDefault(prefix: U32, target: Target, dst: U32)
    requires prefix != 0
    ensures var r := Route(prefix, 0, target);
            Matches(r, dst) && Lookup(Build([r]), dst) == None
  {
    var r := Route(prefix, 0, target);
    LeadingZero(prefix);
    LeadingZero(dst);
    LookupIsBest([r], dst);
    assert [r][..0] == [];
    assert Usable([r]) == [];
  }
}

/** The router object: an array of hash maps written in place. */
module Routers {
  import opened Basics
  import opened Ipv4Wire
  import opened RouterModel

  class Router {
    const forwardTable: array<Level>

    ghost predicate Valid()
    {
      forwardTable.Length == 33
    }

    ghost function State(): Table
      requires Valid()
      reads forwardTable
    {
      forwardTable[..]
    }

    constructor ()
      ensures Valid() && fresh(forwardTable) && State() == EmptyLevels(33)
    {
      forwardTable := new Level[33](_ => map[]);
      new;
      assert forwardTable[..] == EmptyLevels(33);
    }

    method AddRoute(prefix: U32, length: nat, hop: Option<U32>, iface: nat)
      requires Valid() && length <= 32
      modifies forwardTable
      ensures State() == RouterModel.AddRoute(old(State()), Route(prefix, length, Target(iface, hop)))
    {
      forwardTable[length] := forwardTable[length][Key(prefix, length) := Target(iface, hop)];
    }

    /** The decision, and the header with its time to live counted down in eight bits. */
    method RouteOneDatagram(header: IPv4Header) returns (decision: Decision, forwarded: IPv4Header)
      requires Valid()
      ensures decision == Decide(State(), header)
      ensures forwarded == Forwarded(header)
    {
      forwarded := header.(ttl := (header.ttl - 1) % 256);
      if header.ttl < 2 {
        return Drop, forwarded;
      }
      var address := header.dst;
      var target := Target(NO_INTERFACE, None);
      var i := 32;
      while i >= 0
        invariant -1 <= i <= 32
        invariant Lookup(State(), header.dst) == LookupFrom(State(), i, address)
        invariant target == Target(NO_INTERFACE, None)
        decreases i
      {
        if address in forwardTable[i] {
          target := forwardTable[i][address];
          break;
        }
        address := address / 2;
        i := i - 1;
      }
      if target.iface == NO_INTERFACE {
        return Drop, forwarded;
      }
      decision := Forward(target.iface, if target.hop.Some? then target.hop.value else header.dst);
    }
  }
}
