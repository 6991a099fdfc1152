/** Choice of the gateways that send a multicast frame (internal/downlink/multicast/min_gw_set.go).

    The graph joins one gateway, the hub, to all others and every device to the gateways that
    heard it. Kruskal's algorithm is the greedy loop over edges in order of weight; which gateway
    becomes the hub and how equal weights are ordered is left open, as Go's map iteration and its
    unstable sort leave it. SNR values and weights are reals.
 */
module GatewaySet {
  import opened Common

  datatype RXInfo = RXInfo(gatewayId: int, snr: real)

  /** spreadFactor is that of the data-rate of the last uplink, 0 when the data-rate is unknown. */
  datatype RXInfoSet = RXInfoSet(devEUI: int, spreadFactor: int, items: seq<RXInfo>)

  /** A star edge leads from the hub to another gateway, any other from a device to a gateway. */
  datatype Edge = Edge(from: int, to: int, star: bool)

  const REQUIRED_SNR: map<int, real> :=
    map[6 := -5.0, 7 := -7.5, 8 := -10.0, 9 := -12.5, 10 := -15.0, 11 := -17.5, 12 := -20.0]

  /** The installation margin is added only to a value that the table has. */
  function RequiredSNR(spreadFactor: int, margin: real): real {
    if spreadFactor in REQUIRED_SNR then REQUIRED_SNR[spreadFactor] + margin else 0.0
  }

  ghost predicate HeardWell(rx: RXInfoSet, margin: real, i: nat)
    requires i < |rx.items|
  {
    rx.items[i].snr >= RequiredSNR(rx.spreadFactor, margin)
  }

  /** The gateways that may serve the device: those that heard it well, or all when none did. */
  ghost function Candidates(rx: RXInfoSet, margin: real): set<int> {
    set i | && 0 <= i < |rx.items|
            && (HeardWell(rx, margin, i) || forall j :: 0 <= j < |rx.items| ==> !HeardWell(rx, margin, j))
      :: rx.items[i].gatewayId
  }

  ghost function CandidatesOf(rxs: seq<RXInfoSet>, margin: real, dev: int): set<int> {
    set k, g | 0 <= k < |rxs| && rxs[k].devEUI == dev && g in Candidates(rxs[k], margin) :: g
  }

  ghost function EdgesOf(rx: RXInfoSet, margin: real): set<Edge> {
    set g | g in Candidates(rx, margin) :: Edge(rx.devEUI, g, false)
  }

  ghost function DeviceEdges(rxs: seq<RXInfoSet>, margin: real): set<Edge> {
    set k, e | 0 <= k < |rxs| && e in EdgesOf(rxs[k], margin) :: e
  }

  ghost function Gateways(rxs: seq<RXInfoSet>): set<int> {
    set k, i | 0 <= k < |rxs| && 0 <= i < |rxs[k].items| :: rxs[k].items[i].gatewayId
  }

  ghost function StarEdges(hub: int, gateways: set<int>): set<Edge> {
    set g | g in gateways && g != hub :: Edge(hub, g, true)
  }

  /** Devices that at least one gateway heard. */
  ghost function HeardDevices(rxs: seq<RXInfoSet>): set<int> {
    set k | 0 <= k < |rxs| && rxs[k].items != [] :: rxs[k].devEUI
  }

  function Neighbours(edges: set<Edge>, node: int): set<int> {
    (set e | e in edges && e.to == node :: e.from) + (set e | e in edges && e.from == node :: e.to)
  }

  function Degree(edges: set<Edge>, node: int): nat {
    |Neighbours(edges, node)|
  }

  function Weight(edges: set<Edge>, e: Edge): real {
    if e.star then -999.0
    else if Degree(edges, e.to) == 0 then 1.0
    else 1.0 / Degree(edges, e.to) as real
  }

  /** order lists the edges by ascending weight, ties in any order. */
  ghost predicate ByWeight(order: seq<Edge>, edges: set<Edge>) {
    && NoDuplicates(order)
    && (forall e :: e in edges <==> e in order)
    && (forall i, j :: 0 <= i < j < |order| ==> Weight(edges, order[i]) <= Weight(edges, order[j]))
  }

  /** The shape of the graph: a star of gateways around the hub, and edges from devices to gateways. */
  ghost predicate IsGraph(edges: set<Edge>, hub: int, gateways: set<int>) {
    && hub in gateways
    && (forall e :: e in edges && e.star ==> e.from == hub && e.to != hub && e.to in gateways)
    && (forall g :: g in gateways && g != hub ==> Edge(hub, g, true) in edges)
    && (forall e :: e in edges && !e.star ==> e.from !in gateways && e.to in gateways)
  }

  /** Position i holds the first edge of its device. */
  ghost predicate FirstOfDevice(order: seq<Edge>, i: nat)
    requires i < |order|
  {
    !order[i].star && forall j :: 0 <= j < i ==> order[j].star || order[j].from != order[i].from
  }

  /** What the greedy loop keeps of the first n edges: the star, and each device's first edge. */
  ghost predicate KeptFrom(forest: set<Edge>, order: seq<Edge>, n: nat)
    requires n <= |order|
  {
    forall e :: e in forest <==> exists i :: 0 <= i < n && order[i] == e && (e.star || FirstOfDevice(order, i))
  }

  lemma WeightSign(edges: set<Edge>, e: Edge)
    ensures if e.star then Weight(edges, e) < 0.0 else 0.0 < Weight(edges, e)
  {
  }

  lemma StarsFirst(order: seq<Edge>, edges: set<Edge>, i: nat, j: nat)
    requires ByWeight(order, edges) && i < |order| && j < |order| && order[j].star && !order[i].star
    ensures j < i
  {
    hide Weight;
    WeightSign(edges, order[i]);
    WeightSign(edges, order[j]);
  }

  /** The end of the edge that is not yet joined when the edge is kept. */
  function NewEnd(e: Edge): int {
    if e.star then e.to else e.from
  }

  function OldEnd(e: Edge): int {
    if e.star then e.from else e.to
  }

  /** The nodes joined to the hub after the first n edges. */
  ghost function Joined(order: seq<Edge>, n: nat, hub: int): set<int>
    requires n <= |order|
  {
    {hub} + set i | 0 <= i < n :: NewEnd(order[i])
  }

  /** A kept edge joins a new node to the hub's component; any other edge has both ends in it. */
  lemma KruskalStep(order: seq<Edge>, edges: set<Edge>, hub: int, gateways: set<int>, n: nat)
    requires IsGraph(edges, hub, gateways) && ByWeight(order, edges) && n < |order|
    ensures OldEnd(order[n]) in Joined(order, n, hub)
    ensures NewEnd(order[n]) !in Joined(order, n, hub) <==> order[n].star || FirstOfDevice(order, n)
  {
    hide Weight;
    if order[n].star {
      StarStep(order, edges, hub, gateways, n);
    } else {
      DeviceStep(order, edges, hub, gateways, n);
    }
  }

  lemma StarStep(order: seq<Edge>, edges: set<Edge>, hub: int, gateways: set<int>, n: nat)
    requires IsGraph(edges, hub, gateways) && ByWeight(order, edges) && n < |order| && order[n].star
    ensures order[n].from == hub && order[n].to !in Joined(order, n, hub)
  {
    hide Weight;
    var e := order[n];
    assert e in edges;
    forall i | 0 <= i < n ensures NewEnd(order[i]) != e.to {
      assert order[i] in edges;
      if !order[i].star {
        StarsFirst(order, edges, i, n);
      }
    }
  }

  lemma DeviceStep(order: seq<Edge>, edges: set<Edge>, hub: int, gateways: set<int>, n: nat)
    requires IsGraph(edges, hub, gateways) && ByWeight(order, edges) && n < |order| && !order[n].star
    ensures order[n].to in Joined(order, n, hub)
    ensures order[n].from !in Joined(order, n, hub) <==> FirstOfDevice(order, n)
  {
    hide Weight;
    var e := order[n];
    assert e in edges;
    if e.to != hub {
      var s := Edge(hub, e.to, true);
      assert s in edges;
      var j :| 0 <= j < |order| && order[j] == s;
      StarsFirst(order, edges, n, j);
      assert NewEnd(order[j]) == e.to;
    }
    forall i | 0 <= i < n && order[i].star ensures order[i].to != e.from {
      assert order[i] in edges;
    }
    if FirstOfDevice(order, n) {
      forall i | 0 <= i < n ensures NewEnd(order[i]) != e.from {
      }
    } else {
      var j :| 0 <= j < n && !order[j].star && order[j].from == e.from;
      assert NewEnd(order[j]) == e.from;
    }
  }

  /** The union-find structure: two nodes have equal representatives when both are joined to the hub. */
  ghost predicate Represents(rep: map<int, int>, joined: set<int>) {
    forall x, y :: x in rep && y in rep ==> (rep[x] == rep[y] <==> x == y || (x in joined && y in joined))
  }

  function Union(rep: map<int, int>, from: int, to: int): map<int, int> {
    map x | x in rep :: if rep[x] == from then to else rep[x]
  }

  lemma UnionRepresents(rep: map<int, int>, joined: set<int>, a: int, b: int)
    requires Represents(rep, joined) && a in rep && b in rep
    requires (a in joined) != (b in joined)
    ensures Represents(Union(rep, rep[a], rep[b]), joined + {a, b})
  {
  }

  lemma JoinedStep(order: seq<Edge>, n: nat, hub: int)
    requires n < |order|
    ensures Joined(order, n + 1, hub) == Joined(order, n, hub) + {NewEnd(order[n])}
  {
  }

  lemma KeptStep(forest: set<Edge>, order: seq<Edge>, n: nat)
    requires n < |order| && KeptFrom(forest, order, n)
    ensures KeptFrom(if order[n].star || FirstOfDevice(order, n) then forest + {order[n]} else forest, order, n + 1)
  {
    hide FirstOfDevice;
  }

  lemma KruskalStart(rep: map<int, int>, order: seq<Edge>, hub: int)
    requires forall x :: x in rep ==> rep[x] == x
    ensures Represents(rep, Joined(order, 0, hub)) && KeptFrom({}, order, 0)
  {
  }

  /** Every node a class of its own. */
  function MakeSets(order: seq<Edge>): (rep: map<int, int>)
    ensures forall x :: x in rep ==> rep[x] == x
    ensures forall i :: 0 <= i < |order| ==> order[i].from in rep && order[i].to in rep
  {
    var nodes := (set i | 0 <= i < |order| :: order[i].from) + (set i | 0 <= i < |order| :: order[i].to);
    map x | x in nodes :: x
  }

  /** gonum's path.Kruskal: edges in order, each kept when its ends are not connected yet. */
  method Kruskal(order: seq<Edge>, ghost edges: set<Edge>, ghost hub: int, ghost gateways: set<int>)
    returns (forest: set<Edge>)
    requires IsGraph(edges, hub, gateways) && ByWeight(order, edges)
    ensures KeptFrom(forest, order, |order|)
  {
    hide Weight, IsGraph, ByWeight, FirstOfDevice, KeptFrom, Joined, MakeSets;
    var rep := MakeSets(order);
    ghost var nodes := rep.Keys;
    forest := {};
    KruskalStart(rep, order, hub);
    for n := 0 to |order|
      invariant rep.Keys == nodes
      invariant Represents(rep, Joined(order, n, hub))
      invariant KeptFrom(forest, order, n)
    {
      KruskalStep(order, edges, hub, gateways, n);
      JoinedStep(order, n, hub);
      KeptStep(forest, order, n);
      var e := order[n];
      ghost var joined := Joined(order, n, hub);
      if rep[e.from] != rep[e.to] {
        UnionRepresents(rep, joined, e.from, e.to);
        assert joined + {e.from, e.to} == Joined(order, n + 1, hub);
        rep := Union(rep, rep[e.from], rep[e.to]);
        forest := forest + {e};
      } else {
        assert joined == Joined(order, n + 1, hub);
      }
    }
  }

  lemma {:induction false} Lightest(edges: set<Edge>, rest: set<Edge>) returns (e: Edge)
    requires rest != {}
    ensures e in rest && forall f :: f in rest ==> Weight(edges, e) <= Weight(edges, f)
  {
    hide Weight;
    e :| e in rest;
    if rest != {e} {
      var y := Lightest(edges, rest - {e});
      if Weight(edges, y) < Weight(edges, e) {
        e := y;
      }
    }
  }

  /** Sorts by weight; which of several equally light edges comes first is left open. */
  method SortByWeight(edges: set<Edge>) returns (order: seq<Edge>)
    ensures ByWeight(order, edges)
  {
    hide Weight;
    order := [];
    var rest := edges;
    while rest != {}
      invariant forall e :: e in edges <==> e in rest || e in order
      invariant forall e :: e in rest ==> e !in order
      invariant NoDuplicates(order)
      invariant forall i, j :: 0 <= i < j < |order| ==> Weight(edges, order[i]) <= Weight(edges, order[j])
      invariant forall i, e :: 0 <= i < |order| && e in rest ==> Weight(edges, order[i]) <= Weight(edges, e)
      decreases rest
    {
      ghost var lightest := Lightest(edges, rest);
      var e :| e in rest && forall f :: f in rest ==> Weight(edges, e) <= Weight(edges, f);
      order, rest := order + [e], rest - {e};
    }
  }

  /** The gateways of all receptions, in the arbitrary order of Go's map iteration. */
  method GetGatewaySet(rxs: seq<RXInfoSet>) returns (out: seq<int>)
    ensures NoDuplicates(out) && forall g :: g in out <==> g in Gateways(rxs)
  {
    var gwSet: set<int> := {};
    for k := 0 to |rxs|
      invariant gwSet == Gateways(rxs[..k])
    {
      for i := 0 to |rxs[k].items|
        invariant gwSet == Gateways(rxs[..k]) + set j | 0 <= j < i :: rxs[k].items[j].gatewayId
      {
        gwSet := gwSet + {rxs[k].items[i].gatewayId};
      }
      GatewaysStep(rxs, k);
    }
    assert rxs[..|rxs|] == rxs;
    out := [];
    ghost var all := gwSet;
    while gwSet != {}
      invariant forall g :: g in all <==> g in gwSet || g in out
      invariant forall g :: g in gwSet ==> g !in out
      invariant NoDuplicates(out)
      decreases gwSet
    {
      var g :| g in gwSet;
      out, gwSet := out + [g], gwSet - {g};
    }
  }

  lemma GatewaysStep(rxs: seq<RXInfoSet>, k: nat)
    requires k < |rxs|
    ensures Gateways(rxs[..k + 1]) == Gateways(rxs[..k]) + set j | 0 <= j < |rxs[k].items| :: rxs[k].items[j].gatewayId
  {
    var s := set j | 0 <= j < |rxs[k].items| :: rxs[k].items[j].gatewayId;
    forall g | g in s ensures g in Gateways(rxs[..k + 1]) {
      var j :| 0 <= j < |rxs[k].items| && rxs[k].items[j].gatewayId == g;
      assert rxs[..k + 1][k].items[j].gatewayId == g;
    }
    forall g | g in Gateways(rxs[..k]) ensures g in Gateways(rxs[..k + 1]) {
      var l, i :| 0 <= l < k && 0 <= i < |rxs[..k][l].items| && rxs[..k][l].items[i].gatewayId == g;
      assert rxs[..k + 1][l].items[i].gatewayId == g;
    }
    forall g | g in Gateways(rxs[..k + 1]) ensures g in Gateways(rxs[..k]) + s {
      var l, i :| 0 <= l < k + 1 && 0 <= i < |rxs[..k + 1][l].items| && rxs[..k + 1][l].items[i].gatewayId == g;
      if l < k {
        assert rxs[..k][l].items[i].gatewayId == g;
      }
    }
  }

  /** Adds the edges of every device to the graph. */
  method AddDeviceEdges(edges: set<Edge>, rxs: seq<RXInfoSet>, margin: real) returns (out: set<Edge>)
    ensures out == edges + DeviceEdges(rxs, margin)
  {
    out := edges;
    for k := 0 to |rxs|
      invariant out == edges + DeviceEdges(rxs[..k], margin)
    {
      var rx := rxs[k];
      var reqSNR := RequiredSNR(rx.spreadFactor, margin);
      var hasReqSNR := false;
      for i := 0 to |rx.items|
        invariant hasReqSNR <==> exists j: nat :: j < i && HeardWell(rx, margin, j)
      {
        if rx.items[i].snr >= reqSNR {
          hasReqSNR := true;
          assert HeardWell(rx, margin, i);
        }
      }
      ghost var before := out;
      for i := 0 to |rx.items|
        invariant out == before + set j | 0 <= j < i && (HeardWell(rx, margin, j) || !hasReqSNR)
                                    :: Edge(rx.devEUI, rx.items[j].gatewayId, false)
      {
        if rx.items[i].snr < reqSNR && hasReqSNR {
          continue;
        }
        out := out + {Edge(rx.devEUI, rx.items[i].gatewayId, false)};
      }
      DeviceEdgesStep(rxs, margin, k);
    }
    assert rxs[..|rxs|] == rxs;
  }

  lemma DeviceEdgesStep(rxs: seq<RXInfoSet>, margin: real, k: nat)
    requires k < |rxs|
    ensures DeviceEdges(rxs[..k + 1], margin) == DeviceEdges(rxs[..k], margin) + EdgesOf(rxs[k], margin)
  {
    hide EdgesOf;
    forall e | e in DeviceEdges(rxs[..k], margin) ensures e in DeviceEdges(rxs[..k + 1], margin) {
      var l :| 0 <= l < k && e in EdgesOf(rxs[..k][l], margin);
      assert rxs[..k + 1][l] == rxs[..k][l];
    }
    forall e | e in EdgesOf(rxs[k], margin) ensures e in DeviceEdges(rxs[..k + 1], margin) {
      assert rxs[..k + 1][k] == rxs[k];
    }
    forall e | e in DeviceEdges(rxs[..k + 1], margin)
      ensures e in DeviceEdges(rxs[..k], margin) + EdgesOf(rxs[k], margin)
    {
      var l :| 0 <= l < k + 1 && e in EdgesOf(rxs[..k + 1][l], margin);
      if l < k {
        assert rxs[..k][l] == rxs[..k + 1][l];
      }
    }
  }

  ghost predicate Disjoint(rxs: seq<RXInfoSet>) {
    forall k :: 0 <= k < |rxs| ==> rxs[k].devEUI !in Gateways(rxs)
  }

  ghost function Graph(rxs: seq<RXInfoSet>, margin: real, hub: int): set<Edge> {
    StarEdges(hub, Gateways(rxs)) + DeviceEdges(rxs, margin)
  }

  lemma GraphShape(rxs: seq<RXInfoSet>, margin: real, hub: int)
    requires Disjoint(rxs) && hub in Gateways(rxs)
    ensures IsGraph(Graph(rxs, margin, hub), hub, Gateways(rxs))
  {
    forall e | e in DeviceEdges(rxs, margin) ensures !e.star && e.from !in Gateways(rxs) && e.to in Gateways(rxs) {
      var k :| 0 <= k < |rxs| && e in EdgesOf(rxs[k], margin);
      assert e.from == rxs[k].devEUI;
    }
  }

  /** Every device that was heard is served by one of its candidates of greatest degree. */
  ghost predicate Serves(rxs: seq<RXInfoSet>, margin: real, edges: set<Edge>, assignment: map<int, int>) {
    && assignment.Keys == HeardDevices(rxs)
    && forall d :: d in assignment ==>
                     && assignment[d] in CandidatesOf(rxs, margin, d)
                     && forall g ::
                          g in CandidatesOf(rxs, margin, d) ==> Degree(edges, g) <= Degree(edges, assignment[d])
  }

  lemma EdgeIsCandidate(rxs: seq<RXInfoSet>, margin: real, dev: int, gw: int)
    ensures Edge(dev, gw, false) in DeviceEdges(rxs, margin) <==> gw in CandidatesOf(rxs, margin, dev)
  {
    if gw in CandidatesOf(rxs, margin, dev) {
      var k :| 0 <= k < |rxs| && rxs[k].devEUI == dev && gw in Candidates(rxs[k], margin);
      assert Edge(dev, gw, false) in EdgesOf(rxs[k], margin);
    }
  }

  lemma HeardHasCandidate(rxs: seq<RXInfoSet>, margin: real, dev: int)
    ensures dev in HeardDevices(rxs) <==> CandidatesOf(rxs, margin, dev) != {}
  {
    if dev in HeardDevices(rxs) {
      var k :| 0 <= k < |rxs| && rxs[k].items != [] && rxs[k].devEUI == dev;
      var i := if j :| 0 <= j < |rxs[k].items| && HeardWell(rxs[k], margin, j) then j else 0;
      assert rxs[k].items[i].gatewayId in Candidates(rxs[k], margin);
      assert rxs[k].items[i].gatewayId in CandidatesOf(rxs, margin, dev);
    }
  }

  /** What it means that a gateway heard a device well: beyond the installation margin the SNR reaches
      -5 dB for spreading factor 6, and 2.5 dB less for each further one. Without a known spreading
      factor it must not be negative. */
  lemma HeardWellMeans(rx: RXInfoSet, margin: real, i: nat)
    requires i < |rx.items|
    ensures 6 <= rx.spreadFactor <= 12 ==>
              (HeardWell(rx, margin, i) <==> rx.items[i].snr - margin >= -5.0 - 2.5 * (rx.spreadFactor - 6) as real)
    ensures rx.spreadFactor < 6 || rx.spreadFactor > 12 ==> (HeardWell(rx, margin, i) <==> rx.items[i].snr >= 0.0)
  {
    if rx.spreadFactor == 6 { } else if rx.spreadFactor == 7 { } else if rx.spreadFactor == 8 { }
  }

  /** A gateway may serve a device exactly when it heard it well, or heard it and nobody heard it well. */
  lemma CandidatesMean(rx: RXInfoSet, margin: real, gw: int)
    requires 6 <= rx.spreadFactor <= 12
    ensures var limit := margin - 5.0 - 2.5 * (rx.spreadFactor - 6) as real;
            gw in Candidates(rx, margin) <==>
            && (exists i :: 0 <= i < |rx.items| && rx.items[i].gatewayId == gw)
            && ((exists i :: 0 <= i < |rx.items| && rx.items[i].gatewayId == gw && rx.items[i].snr >= limit)
                || forall i :: 0 <= i < |rx.items| ==> rx.items[i].snr < limit)
  {
    forall i: nat | i < |rx.items|
      ensures HeardWell(rx, margin, i) <==> rx.items[i].snr >= margin - 5.0 - 2.5 * (rx.spreadFactor - 6) as real
    {
      HeardWellMeans(rx, margin, i);
    }
    hide HeardWell;
  }

  /** Only the difference between SNR and margin counts. */
  lemma CandidatesShift(rx: RXInfoSet, louder: RXInfoSet, margin: real, d: real)
    requires 6 <= rx.spreadFactor <= 12 && louder.spreadFactor == rx.spreadFactor && |louder.items| == |rx.items|
    requires forall i :: 0 <= i < |rx.items| ==>
                           && louder.items[i].gatewayId == rx.items[i].gatewayId
                           && louder.items[i].snr == rx.items[i].snr + d
    ensures Candidates(louder, margin + d) == Candidates(rx, margin)
  {
    forall i: nat | i < |rx.items| ensures HeardWell(louder, margin + d, i) <==> HeardWell(rx, margin, i) {
      HeardWellMeans(rx, margin, i);
      HeardWellMeans(louder, margin + d, i);
    }
    hide HeardWell;
    SameCandidates(rx, margin, louder, margin + d);
    SameCandidates(louder, margin + d, rx, margin);
  }

  lemma SameCandidates(a: RXInfoSet, m: real, b: RXInfoSet, n: real)
    requires |a.items| == |b.items| && forall i :: 0 <= i < |a.items| ==> a.items[i].gatewayId == b.items[i].gatewayId
    requires forall i: nat :: i < |a.items| ==> (HeardWell(a, m, i) <==> HeardWell(b, n, i))
    ensures Candidates(a, m) <= Candidates(b, n)
  {
    hide HeardWell;
    forall g | g in Candidates(a, m) ensures g in Candidates(b, n) {
      var i :| && 0 <= i < |a.items| && a.items[i].gatewayId == g
               && (HeardWell(a, m, i) || forall j :: 0 <= j < |a.items| ==> !HeardWell(a, m, j));
      assert b.items[i].gatewayId == g;
    }
  }

  lemma RealTimes(x: real, a: real, b: real)
    requires 0.0 < x && a <= b
    ensures x * a <= x * b && (a < b ==> x * a < x * b)
  {
    assert x * b - x * a == x * (b - a);
  }

  lemma ReciprocalDecreases(d: real, c: real)
    requires 0.0 < d < c
    ensures 1.0 / c < 1.0 / d
  {
    var x, y := 1.0 / d, 1.0 / c;
    assert x * d == 1.0 && y * c == 1.0;
    RealTimes(x, d, c);
    if x <= y {
      RealTimes(c, x, y);
    }
  }

  lemma LighterHasGreaterDegree(edges: set<Edge>, e: Edge, f: Edge)
    requires e in edges && f in edges && !e.star && !f.star && Weight(edges, e) <= Weight(edges, f)
    ensures Degree(edges, f.to) <= Degree(edges, e.to)
  {
    assert e.from in Neighbours(edges, e.to) && f.from in Neighbours(edges, f.to);
    var d, c := Degree(edges, e.to), Degree(edges, f.to);
    if d < c {
      ReciprocalDecreases(d as real, c as real);
    }
  }

  /** Each device with an edge has a first one. */
  lemma {:induction false} FirstExists(order: seq<Edge>, i: nat)
    requires i < |order| && !order[i].star
    ensures exists j :: 0 <= j <= i && FirstOfDevice(order, j) && order[j].from == order[i].from
    decreases i
  {
    if !FirstOfDevice(order, i) {
      var j :| 0 <= j < i && !order[j].star && order[j].from == order[i].from;
      FirstExists(order, j);
    }
  }

  lemma FirstIsFirst(order: seq<Edge>, i: nat)
    requires i < |order| && FirstOfDevice(order, i)
    ensures !order[i].star
    ensures forall j :: 0 <= j < |order| && !order[j].star && order[j].from == order[i].from ==> i <= j
    ensures forall j :: 0 <= j < |order| && FirstOfDevice(order, j) && order[j].from == order[i].from ==> i == j
  {
  }

  /** The devices' forest edges, one per heard device, read as an assignment. */
  lemma ForestAssigns(rxs: seq<RXInfoSet>, margin: real, hub: int, order: seq<Edge>, forest: set<Edge>)
    returns (assignment: map<int, int>)
    requires ByWeight(order, Graph(rxs, margin, hub)) && KeptFrom(forest, order, |order|)
    ensures Serves(rxs, margin, Graph(rxs, margin, hub), assignment)
    ensures forall e :: e in forest && !e.star <==> e.from in assignment && e == Edge(e.from, assignment[e.from], false)
  {
    hide Weight, Degree;
    var edges := Graph(rxs, margin, hub);
    assignment := map[];
    var rest := HeardDevices(rxs);
    while rest != {}
      invariant assignment.Keys + rest == HeardDevices(rxs) && assignment.Keys !! rest
      invariant forall d :: d in assignment ==> Assigned(rxs, margin, edges, order, forest, d, assignment[d])
      decreases rest
    {
      var d :| d in rest;
      var g := AssignOne(rxs, margin, hub, order, forest, d);
      assignment, rest := assignment[d := g], rest - {d};
    }
    forall e | e in forest && !e.star ensures e.from in assignment && e == Edge(e.from, assignment[e.from], false) {
      var i :| 0 <= i < |order| && order[i] == e && FirstOfDevice(order, i);
      assert e in edges;
      EdgeIsCandidate(rxs, margin, e.from, e.to);
      HeardHasCandidate(rxs, margin, e.from);
      assert Assigned(rxs, margin, edges, order, forest, e.from, assignment[e.from]);
    }
  }

  /** Gateway g serves device d: by the only forest edge of d, and no candidate has greater degree. */
  ghost predicate Assigned(rxs: seq<RXInfoSet>, margin: real, edges: set<Edge>, order: seq<Edge>, forest: set<Edge>,
                           d: int, g: int) {
    && Edge(d, g, false) in forest
    && (forall i :: 0 <= i < |order| && FirstOfDevice(order, i) && order[i].from == d ==> order[i].to == g)
    && g in CandidatesOf(rxs, margin, d)
    && forall h :: h in CandidatesOf(rxs, margin, d) ==> Degree(edges, h) <= Degree(edges, g)
  }

  lemma AssignOne(rxs: seq<RXInfoSet>, margin: real, hub: int, order: seq<Edge>, forest: set<Edge>, d: int)
    returns (g: int)
    requires ByWeight(order, Graph(rxs, margin, hub)) && KeptFrom(forest, order, |order|)
    requires d in HeardDevices(rxs)
    ensures Assigned(rxs, margin, Graph(rxs, margin, hub), order, forest, d, g)
  {
    hide Weight, Degree, HeardDevices, CandidatesOf, DeviceEdges, StarEdges, FirstOfDevice, NoDuplicates;
    var edges := Graph(rxs, margin, hub);
    HeardHasCandidate(rxs, margin, d);
    Inhabited(CandidatesOf(rxs, margin, d));
    var c :| c in CandidatesOf(rxs, margin, d);
    EdgeIsCandidate(rxs, margin, d, c);
    assert Edge(d, c, false) in edges;
    var k :| 0 <= k < |order| && order[k] == Edge(d, c, false);
    FirstExists(order, k);
    var i :| 0 <= i < |order| && FirstOfDevice(order, i) && order[i].from == d;
    FirstIsFirst(order, i);
    var e := order[i];
    g := e.to;
    assert e in edges;
    assert e == Edge(d, g, false);
    DeviceEdgeInGraph(rxs, margin, hub, e);
    EdgeIsCandidate(rxs, margin, d, g);
    forall h | h in CandidatesOf(rxs, margin, d) ensures Degree(edges, h) <= Degree(edges, g) {
      EdgeIsCandidate(rxs, margin, d, h);
      var f := Edge(d, h, false);
      assert f in edges;
      var j :| 0 <= j < |order| && order[j] == f;
      assert Weight(edges, e) <= Weight(edges, f);
      LighterHasGreaterDegree(edges, e, f);
    }
  }

  lemma DeviceEdgeInGraph(rxs: seq<RXInfoSet>, margin: real, hub: int, e: Edge)
    requires e in Graph(rxs, margin, hub) && !e.star
    ensures e in DeviceEdges(rxs, margin)
  {
  }

  ghost function Image(assignment: map<int, int>): set<int> {
    set d | d in assignment :: assignment[d]
  }

  lemma {:induction false} ImageNotMore(m: map<int, int>, keys: set<int>)
    requires keys <= m.Keys
    ensures |set d | d in keys :: m[d]| <= |keys|
  {
    var image := set d | d in keys :: m[d];
    if keys != {} {
      Inhabited(keys);
      var k :| k in keys;
      ImageNotMore(m, keys - {k});
      var smaller := set d | d in keys - {k} :: m[d];
      assert image == smaller + {m[k]};
    }
  }

  /** The chosen gateways: exactly those assigned to some device, so every heard device is covered
      and there are at most as many gateways as devices. Device and gateway identifiers must not
      overlap, as the graph has one node per identifier. */
  method GetMinimumGatewaySet(rxs: seq<RXInfoSet>, margin: real)
    returns (out: set<int>, ghost hub: int, ghost assignment: map<int, int>)
    requires Disjoint(rxs)
    ensures Gateways(rxs) != {} ==> hub in Gateways(rxs)
    ensures Serves(rxs, margin, Graph(rxs, margin, hub), assignment)
    ensures out == Image(assignment) && |out| <= |HeardDevices(rxs)|
  {
    hide Weight, Degree, ByWeight, KeptFrom;
    var gwSet := GetGatewaySet(rxs);
    var edges := {};
    hub := if gwSet == [] then 0 else gwSet[0];
    for i := 0 to |gwSet|
      invariant edges == set j | 1 <= j < i :: Edge(gwSet[0], gwSet[j], true)
    {
      if i == 0 {
        continue;
      }
      edges := edges + {Edge(gwSet[0], gwSet[i], true)};
    }
    StarIs(gwSet, edges, Gateways(rxs));
    edges := AddDeviceEdges(edges, rxs, margin);
    assert edges == Graph(rxs, margin, hub);
    var order := SortByWeight(edges);
    var forest := {};
    if gwSet != [] {
      GraphShape(rxs, margin, hub);
      forest := Kruskal(order, edges, hub, Gateways(rxs));
    } else {
      NoGateways(rxs, margin, order);
    }
    assignment := ForestAssigns(rxs, margin, hub, order, forest);
    out := set e | e in forest && !e.star :: e.to;
    OutIsAssigned(out, forest, assignment);
    ImageNotMore(assignment, assignment.Keys);
    assert out == set d | d in assignment.Keys :: assignment[d];
  }

  lemma OutIsAssigned(out: set<int>, forest: set<Edge>, assignment: map<int, int>)
    requires out == set e | e in forest && !e.star :: e.to
    requires forall e :: e in forest && !e.star <==>
              e.from in assignment && e == Edge(e.from, assignment[e.from], false)
    ensures out == Image(assignment)
  {
    forall d | d in assignment ensures assignment[d] in out {
      assert Edge(d, assignment[d], false) in forest;
    }
  }

  lemma StarIs(gwSet: seq<int>, edges: set<Edge>, gateways: set<int>)
    requires NoDuplicates(gwSet) && forall g :: g in gwSet <==> g in gateways
    requires edges == set j | 1 <= j < |gwSet| :: Edge(gwSet[0], gwSet[j], true)
    ensures edges == StarEdges(if gwSet == [] then 0 else gwSet[0], gateways)
  {
    if gwSet != [] {
      forall g | g in gateways && g != gwSet[0] ensures Edge(gwSet[0], g, true) in edges {
        var j :| 0 <= j < |gwSet| && gwSet[j] == g;
      }
    } else {
      assert forall g :: g in gateways ==> g in gwSet;
    }
  }

  lemma NoGateways(rxs: seq<RXInfoSet>, margin: real, order: seq<Edge>)
    requires Gateways(rxs) == {} && ByWeight(order, Graph(rxs, margin, 0))
    ensures KeptFrom({}, order, |order|)
  {
    assert forall k, i :: 0 <= k < |rxs| && 0 <= i < |rxs[k].items| ==> rxs[k].items[i].gatewayId in Gateways(rxs);
    assert Graph(rxs, margin, 0) == {};
    assert forall i :: 0 <= i < |order| ==> order[i] in Graph(rxs, margin, 0);
  }

  /** The chosen gateways cover every device that was heard, by a gateway that heard it. */
  lemma ChosenCover(rxs: seq<RXInfoSet>, margin: real, edges: set<Edge>, assignment: map<int, int>, k: nat)
    requires Serves(rxs, margin, edges, assignment)
    requires k < |rxs| && rxs[k].items != []
    ensures exists l, i :: 0 <= l < |rxs| && rxs[l].devEUI == rxs[k].devEUI && 0 <= i < |rxs[l].items|
                           && rxs[l].items[i].gatewayId in Image(assignment)
  {
    var d := rxs[k].devEUI;
    assert d in HeardDevices(rxs);
    var l :| 0 <= l < |rxs| && rxs[l].devEUI == d && assignment[d] in Candidates(rxs[l], margin);
  }

  /** When some gateway heard the device with the required SNR, the one that serves it did. */
  lemma ServedWell(rxs: seq<RXInfoSet>, margin: real, edges: set<Edge>, assignment: map<int, int>, k: nat, i: nat)
    requires Serves(rxs, margin, edges, assignment)
    requires forall l, m :: 0 <= l < m < |rxs| ==> rxs[l].devEUI != rxs[m].devEUI
    requires k < |rxs| && i < |rxs[k].items| && HeardWell(rxs[k], margin, i)
    ensures rxs[k].devEUI in assignment
    ensures exists j :: && 0 <= j < |rxs[k].items| && HeardWell(rxs[k], margin, j)
                        && rxs[k].items[j].gatewayId == assignment[rxs[k].devEUI]
  {
    var d := rxs[k].devEUI;
    assert d in HeardDevices(rxs);
    var l :| 0 <= l < |rxs| && rxs[l].devEUI == d && assignment[d] in Candidates(rxs[l], margin);
    assert l == k;
  }

  /** The devices that count a gateway among their candidates. */
  ghost function Covered(rxs: seq<RXInfoSet>, margin: real, gw: int): set<int> {
    set d | d in HeardDevices(rxs) && gw in CandidatesOf(rxs, margin, d)
  }

  /** The star edges of a gateway lead to the hub, those of the hub to all others. */
  ghost function StarOf(rxs: seq<RXInfoSet>, hub: int, gw: int): set<int> {
    if gw == hub then Gateways(rxs) - {hub} else {hub}
  }

  lemma NeighboursAre(rxs: seq<RXInfoSet>, margin: real, hub: int, gw: int, x: int)
    requires Disjoint(rxs) && hub in Gateways(rxs) && gw in Gateways(rxs)
    ensures x in Neighbours(Graph(rxs, margin, hub), gw) <==> x in StarOf(rxs, hub, gw) || x in Covered(rxs, margin, gw)
  {
    hide CandidatesOf, HeardDevices, Disjoint, Gateways, DeviceEdges;
    var edges := Graph(rxs, margin, hub);
    GraphShape(rxs, margin, hub);
    EdgeIsCandidate(rxs, margin, x, gw);
    HeardHasCandidate(rxs, margin, x);
    if x in StarOf(rxs, hub, gw) {
      assert (if gw == hub then Edge(hub, x, true) else Edge(hub, gw, true)) in edges;
    }
    if gw in CandidatesOf(rxs, margin, x) {
      assert Edge(x, gw, false) in edges;
    }
  }

  lemma StarNotCovered(rxs: seq<RXInfoSet>, margin: real, hub: int, gw: int)
    requires Disjoint(rxs) && hub in Gateways(rxs)
    ensures StarOf(rxs, hub, gw) !! Covered(rxs, margin, gw)
  {
    hide CandidatesOf, Gateways;
    assert forall d :: d in HeardDevices(rxs) ==> d !in Gateways(rxs);
  }

  /** What the weights really rank: the devices a gateway covers, plus one for every gateway but
      the hub, which instead gains one per other gateway. */
  lemma DegreeIs(rxs: seq<RXInfoSet>, margin: real, hub: int, gw: int)
    requires Disjoint(rxs) && hub in Gateways(rxs) && gw in Gateways(rxs)
    ensures Degree(Graph(rxs, margin, hub), gw) ==
            |Covered(rxs, margin, gw)| + if gw == hub then |Gateways(rxs)| - 1 else 1
  {
    var star := StarOf(rxs, hub, gw);
    hide Neighbours, Graph, Covered, Gateways, Disjoint;
    forall x ensures x in Neighbours(Graph(rxs, margin, hub), gw) <==> x in star || x in Covered(rxs, margin, gw) {
      NeighboursAre(rxs, margin, hub, gw, x);
    }
    assert Neighbours(Graph(rxs, margin, hub), gw) == star + Covered(rxs, margin, gw);
    StarNotCovered(rxs, margin, hub, gw);
  }

  /** The weights are documented to prefer the gateway that covers more devices. Between the hub
      and another gateway they do so only after crediting the hub with all gateways but two. */
  lemma HubIsFavoured(rxs: seq<RXInfoSet>, margin: real, hub: int, gw: int)
    requires Disjoint(rxs) && hub in Gateways(rxs) && gw in Gateways(rxs) && gw != hub
    ensures Degree(Graph(rxs, margin, hub), gw) <= Degree(Graph(rxs, margin, hub), hub) <==>
            |Covered(rxs, margin, gw)| <= |Covered(rxs, margin, hub)| + |Gateways(rxs)| - 2
  {
    DegreeIs(rxs, margin, hub, gw);
    DegreeIs(rxs, margin, hub, hub);
  }

  // When the result is a smallest cover

  /** What a gateway's degree counts besides the devices it covers. */
  ghost function Credit(rxs: seq<RXInfoSet>, hub: int, gw: int): int {
    if gw == hub then |Gateways(rxs)| - 1 else 1
  }

  ghost predicate CoversAll(rxs: seq<RXInfoSet>, margin: real, gw: int) {
    forall d :: d in HeardDevices(rxs) ==> gw in CandidatesOf(rxs, margin, d)
  }

  /** Every other candidate covers fewer devices than there are, its credit included. */
  ghost predicate Dominates(rxs: seq<RXInfoSet>, margin: real, hub: int, gw: int) {
    forall d, h :: d in HeardDevices(rxs) && h in CandidatesOf(rxs, margin, d) && h != gw ==>
                     |Covered(rxs, margin, h)| + Credit(rxs, hub, h) < |HeardDevices(rxs)| + Credit(rxs, hub, gw)
  }

  lemma CandidateIsGateway(rxs: seq<RXInfoSet>, margin: real, dev: int, gw: int)
    requires gw in CandidatesOf(rxs, margin, dev)
    ensures gw in Gateways(rxs)
  {
  }

  /** Domination compares degrees. */
  lemma DominatesIs(rxs: seq<RXInfoSet>, margin: real, hub: int, gw: int, dev: int, other: int)
    requires Disjoint(rxs) && hub in Gateways(rxs) && CoversAll(rxs, margin, gw)
    requires dev in HeardDevices(rxs) && other in CandidatesOf(rxs, margin, dev)
    ensures Degree(Graph(rxs, margin, hub), other) < Degree(Graph(rxs, margin, hub), gw) <==>
            |Covered(rxs, margin, other)| + Credit(rxs, hub, other) < |HeardDevices(rxs)| + Credit(rxs, hub, gw)
  {
    hide Degree, Graph, HeardDevices, CandidatesOf, Gateways, Disjoint;
    CandidateIsGateway(rxs, margin, dev, other);
    CandidateIsGateway(rxs, margin, dev, gw);
    DegreeIs(rxs, margin, hub, other);
    DegreeIs(rxs, margin, hub, gw);
    assert Covered(rxs, margin, gw) == HeardDevices(rxs);
  }

  lemma {:induction false} GreatestDegree(edges: set<Edge>, s: set<int>) returns (m: int)
    requires s != {}
    ensures m in s && forall x :: x in s ==> Degree(edges, x) <= Degree(edges, m)
  {
    hide Degree;
    Inhabited(s);
    m :| m in s;
    var rest := s - {m};
    assert s == rest + {m};
    if rest != {} {
      var n := GreatestDegree(edges, rest);
      if Degree(edges, m) < Degree(edges, n) {
        m := n;
      }
    }
  }

  ghost predicate ServesOne(rxs: seq<RXInfoSet>, margin: real, edges: set<Edge>, d: int, g: int) {
    && g in CandidatesOf(rxs, margin, d)
    && forall h :: h in CandidatesOf(rxs, margin, d) ==> Degree(edges, h) <= Degree(edges, g)
  }

  /** Some assignment serves all heard devices. */
  lemma SomeAssignment(rxs: seq<RXInfoSet>, margin: real, edges: set<Edge>) returns (assignment: map<int, int>)
    ensures Serves(rxs, margin, edges, assignment)
  {
    hide Degree, CandidatesOf, HeardDevices;
    assignment := map[];
    var rest := HeardDevices(rxs);
    while rest != {}
      invariant assignment.Keys + rest == HeardDevices(rxs) && assignment.Keys !! rest
      invariant forall d :: d in assignment ==> ServesOne(rxs, margin, edges, d, assignment[d])
      decreases rest
    {
      Inhabited(rest);
      var d :| d in rest;
      HeardHasCandidate(rxs, margin, d);
      var g := GreatestDegree(edges, CandidatesOf(rxs, margin, d));
      assignment, rest := assignment[d := g], rest - {d};
    }
    assert forall d :: d in assignment ==> ServesOne(rxs, margin, edges, d, assignment[d]);
  }

  /** A device with a candidate no worse than the gateway that serves it can be served by another one. */
  lemma Reassign(rxs: seq<RXInfoSet>, margin: real, edges: set<Edge>, assignment: map<int, int>, dev: int, gw: int,
                 other: int)
    returns (m: int)
    requires Serves(rxs, margin, edges, assignment) && dev in HeardDevices(rxs)
    requires other in CandidatesOf(rxs, margin, dev) && other != gw && gw in CandidatesOf(rxs, margin, dev)
    requires Degree(edges, gw) <= Degree(edges, other)
    ensures m != gw && Serves(rxs, margin, edges, assignment[dev := m])
  {
    hide Degree, CandidatesOf, HeardDevices;
    var others := CandidatesOf(rxs, margin, dev) - {gw};
    assert other in others;
    m := GreatestDegree(edges, others);
  }

  /** For a gateway that covers all heard devices: it is chosen alone, whatever the order of equal
      weights, exactly when it dominates the other candidates. */
  lemma ChosenAloneIff(rxs: seq<RXInfoSet>, margin: real, hub: int, gw: int)
    requires Disjoint(rxs) && hub in Gateways(rxs) && HeardDevices(rxs) != {} && CoversAll(rxs, margin, gw)
    ensures (forall a :: Serves(rxs, margin, Graph(rxs, margin, hub), a) ==> Image(a) == {gw}) <==>
              Dominates(rxs, margin, hub, gw)
  {
    hide Degree, Graph, HeardDevices, CandidatesOf, Gateways, Covered, Credit, Disjoint;
    var edges := Graph(rxs, margin, hub);
    if Dominates(rxs, margin, hub, gw) {
      forall a | Serves(rxs, margin, edges, a) ensures Image(a) == {gw} {
        forall d | d in a ensures a[d] == gw {
          DominatesIs(rxs, margin, hub, gw, d, a[d]);
        }
        assert a.Keys != {};
        Inhabited(a.Keys);
      }
    } else {
      var d, h :| d in HeardDevices(rxs) && h in CandidatesOf(rxs, margin, d) && h != gw
                  && !(|Covered(rxs, margin, h)| + Credit(rxs, hub, h) < |HeardDevices(rxs)| + Credit(rxs, hub, gw));
      DominatesIs(rxs, margin, hub, gw, d, h);
      var a := SomeAssignment(rxs, margin, edges);
      var m := Reassign(rxs, margin, edges, a, d, gw, h);
      assert a[d := m][d] in Image(a[d := m]);
    }
  }

  lemma ImageNotEmpty(rxs: seq<RXInfoSet>, margin: real, edges: set<Edge>, a: map<int, int>)
    requires Serves(rxs, margin, edges, a) && HeardDevices(rxs) != {}
    ensures Image(a) != {}
  {
    hide HeardDevices;
    Inhabited(a.Keys);
    var d :| d in a.Keys;
    assert a[d] in Image(a);
  }

  lemma SingletonOf(s: set<int>, x: int)
    requires |s| == 1 && x in s
    ensures s == {x}
  {
    assert s == {x} + (s - {x});
  }

  /** So where one gateway could do, the result is sure to be a smallest cover exactly when there is
      only one device, or one such gateway dominates. */
  lemma SmallestWhereOneSufficesIff(rxs: seq<RXInfoSet>, margin: real, hub: int)
    requires Disjoint(rxs) && hub in Gateways(rxs) && HeardDevices(rxs) != {}
    requires exists gw :: CoversAll(rxs, margin, gw)
    ensures (forall a :: Serves(rxs, margin, Graph(rxs, margin, hub), a) ==> |Image(a)| == 1) <==>
            |HeardDevices(rxs)| == 1 || exists gw :: CoversAll(rxs, margin, gw) && Dominates(rxs, margin, hub, gw)
  {
    hide Degree, Graph, HeardDevices, CandidatesOf, Gateways, Covered, Disjoint, Dominates, CoversAll;
    var edges := Graph(rxs, margin, hub);
    if |HeardDevices(rxs)| == 1 {
      forall a | Serves(rxs, margin, edges, a) ensures |Image(a)| == 1 {
        ImageNotMore(a, a.Keys);
        assert Image(a) == set d | d in a.Keys :: a[d];
        ImageNotEmpty(rxs, margin, edges, a);
      }
    } else if gw :| CoversAll(rxs, margin, gw) && Dominates(rxs, margin, hub, gw) {
      ChosenAloneIff(rxs, margin, hub, gw);
    } else {
      var a := SomeChoiceOfTwo(rxs, margin, hub);
    }
  }

  lemma SomeChoiceOfTwo(rxs: seq<RXInfoSet>, margin: real, hub: int) returns (a: map<int, int>)
    requires Disjoint(rxs) && hub in Gateways(rxs) && |HeardDevices(rxs)| > 1
    requires !exists gw :: CoversAll(rxs, margin, gw) && Dominates(rxs, margin, hub, gw)
    ensures Serves(rxs, margin, Graph(rxs, margin, hub), a) && |Image(a)| != 1
  {
    hide Degree, Graph, HeardDevices, CandidatesOf, Gateways, Covered, Credit, Disjoint;
    var edges := Graph(rxs, margin, hub);
    a := SomeAssignment(rxs, margin, edges);
    if |Image(a)| == 1 {
      Inhabited(Image(a));
      var gw :| gw in Image(a);
      SingletonOf(Image(a), gw);
      assert forall d :: d in a ==> a[d] in Image(a);
      assert CoversAll(rxs, margin, gw);
      var d, h :| d in HeardDevices(rxs) && h in CandidatesOf(rxs, margin, d) && h != gw
                  && !(|Covered(rxs, margin, h)| + Credit(rxs, hub, h) < |HeardDevices(rxs)| + Credit(rxs, hub, gw));
      DominatesIs(rxs, margin, hub, gw, d, h);
      var m := Reassign(rxs, margin, edges, a, d, gw, h);
      var b := a[d := m];
      var rest := HeardDevices(rxs) - {d};
      assert HeardDevices(rxs) == rest + {d};
      Inhabited(rest);
      var e :| e in rest;
      assert b[d] == m && b[e] == gw && b[d] in Image(b) && b[e] in Image(b);
      if |Image(b)| == 1 {
        SingletonOf(Image(b), m);
        assert false;
      }
      a := b;
    }
  }

  /** Among equally light edges the preferred ones come first. */
  ghost predicate PrefersAmongEqual(order: seq<Edge>, edges: set<Edge>, preferred: set<Edge>) {
    forall i, j ::
      0 <= i < j < |order| && order[j] in preferred && Weight(edges, order[i]) == Weight(edges, order[j]) ==>
        order[i] in preferred
  }

  lemma {:induction false} PreferredFirst(edges: set<Edge>, preferred: set<Edge>, rest: set<Edge>) returns (e: Edge)
    requires rest != {}
    ensures e in rest && forall f :: f in rest ==> Weight(edges, e) <= Weight(edges, f)
    ensures forall f :: f in rest && f in preferred && Weight(edges, e) == Weight(edges, f) ==> e in preferred
  {
    hide Weight;
    e := Lightest(edges, rest);
    if f :| f in rest && f in preferred && Weight(edges, e) == Weight(edges, f) {
      e := f;
    }
  }

  lemma PreferringOrder(edges: set<Edge>, preferred: set<Edge>) returns (order: seq<Edge>)
    ensures ByWeight(order, edges) && PrefersAmongEqual(order, edges, preferred)
  {
    hide Weight;
    order := [];
    var rest := edges;
    while rest != {}
      invariant forall e :: e in edges <==> e in rest || e in order
      invariant forall e :: e in rest ==> e !in order
      invariant NoDuplicates(order)
      invariant forall i, j :: 0 <= i < j < |order| ==> Weight(edges, order[i]) <= Weight(edges, order[j])
      invariant forall i, e :: 0 <= i < |order| && e in rest ==> Weight(edges, order[i]) <= Weight(edges, e)
      invariant PrefersAmongEqual(order, edges, preferred)
      invariant forall i, e ::
                  0 <= i < |order| && e in rest && e in preferred && Weight(edges, order[i]) == Weight(edges, e) ==>
                    order[i] in preferred
      decreases rest
    {
      var e := PreferredFirst(edges, preferred, rest);
      order, rest := order + [e], rest - {e};
    }
  }

  lemma GreaterDegreeIsLighter(edges: set<Edge>, e: Edge, f: Edge)
    requires e in edges && f in edges && !e.star && !f.star && Degree(edges, f.to) <= Degree(edges, e.to)
    ensures Weight(edges, e) <= Weight(edges, f)
  {
    assert e.from in Neighbours(edges, e.to) && f.from in Neighbours(edges, f.to);
    var d, c := Degree(edges, e.to), Degree(edges, f.to);
    if c < d {
      ReciprocalDecreases(c as real, d as real);
    }
  }

  /** Serving is all that is certain: every assignment that serves the devices comes from some order of
      the edges by weight. */
  lemma EveryChoiceHappens(rxs: seq<RXInfoSet>, margin: real, hub: int, a: map<int, int>)
    returns (order: seq<Edge>, forest: set<Edge>)
    requires Serves(rxs, margin, Graph(rxs, margin, hub), a)
    ensures ByWeight(order, Graph(rxs, margin, hub)) && KeptFrom(forest, order, |order|)
    ensures forall e :: e in forest && !e.star <==> e.from in a && e == Edge(e.from, a[e.from], false)
  {
    hide Weight, Degree, CandidatesOf, HeardDevices, Graph, ByWeight, PrefersAmongEqual;
    var edges := Graph(rxs, margin, hub);
    var preferred := set d | d in a :: Edge(d, a[d], false);
    order := PreferringOrder(edges, preferred);
    forest := set i | 0 <= i < |order| && (order[i].star || FirstOfDevice(order, i)) :: order[i];
    var b := ForestAssigns(rxs, margin, hub, order, forest);
    forall d | d in a ensures b[d] == a[d] {
      assert Edge(d, b[d], false) in forest;
      PreferredIsFirst(rxs, margin, hub, order, preferred, d, b[d], a[d]);
    }
  }

  lemma PreferredIsFirst(rxs: seq<RXInfoSet>, margin: real, hub: int, order: seq<Edge>, preferred: set<Edge>, d: int,
                         first: int, chosen: int)
    requires ByWeight(order, Graph(rxs, margin, hub)) && PrefersAmongEqual(order, Graph(rxs, margin, hub), preferred)
    requires Edge(d, chosen, false) in preferred && forall e :: e in preferred && e.from == d ==>
              e == Edge(d, chosen, false)
    requires exists i :: 0 <= i < |order| && order[i] == Edge(d, first, false) && FirstOfDevice(order, i)
    requires chosen in CandidatesOf(rxs, margin, d)
    requires Degree(Graph(rxs, margin, hub), first) <= Degree(Graph(rxs, margin, hub), chosen)
    ensures first == chosen
  {
    hide Weight, Degree, CandidatesOf, DeviceEdges, StarEdges, FirstOfDevice;
    var edges := Graph(rxs, margin, hub);
    EdgeIsCandidate(rxs, margin, d, chosen);
    assert Edge(d, chosen, false) in edges;
    var i :| 0 <= i < |order| && order[i] == Edge(d, first, false) && FirstOfDevice(order, i);
    var j :| 0 <= j < |order| && order[j] == Edge(d, chosen, false);
    FirstIsFirst(order, i);
    assert order[i] in edges;
    GreaterDegreeIsLighter(edges, order[j], order[i]);
    assert Weight(edges, order[i]) == Weight(edges, order[j]);
  }

  /** Devices of which no two share a candidate. */
  ghost predicate Independent(rxs: seq<RXInfoSet>, margin: real, devices: set<int>) {
    forall d, e :: d in devices && e in devices && d != e ==>
                     CandidatesOf(rxs, margin, d) !! CandidatesOf(rxs, margin, e)
  }

  ghost predicate IsCover(rxs: seq<RXInfoSet>, margin: real, devices: set<int>, cover: set<int>) {
    forall d :: d in devices ==> exists g :: g in cover && g in CandidatesOf(rxs, margin, d)
  }

  lemma {:induction false} CoverNotSmaller(rxs: seq<RXInfoSet>, margin: real, devices: set<int>, cover: set<int>)
    requires Independent(rxs, margin, devices) && IsCover(rxs, margin, devices, cover)
    ensures |devices| <= |cover|
    decreases devices
  {
    hide CandidatesOf;
    if devices != {} {
      Inhabited(devices);
      var d :| d in devices;
      var g :| g in cover && g in CandidatesOf(rxs, margin, d);
      forall e | e in devices - {d} ensures exists h :: h in cover - {g} && h in CandidatesOf(rxs, margin, e) {
        var h :| h in cover && h in CandidatesOf(rxs, margin, e);
        assert h in cover - {g};
      }
      CoverNotSmaller(rxs, margin, devices - {d}, cover - {g});
    }
  }

  /** As many independent devices as chosen gateways are a certificate that no cover is smaller, once the
      result is known. Before the call one can check that no two devices at all share a candidate, and
      then the result is smallest, too. */
  lemma SmallestWhenIndependent(rxs: seq<RXInfoSet>, margin: real, edges: set<Edge>, a: map<int, int>,
                                devices: set<int>, cover: set<int>)
    requires Serves(rxs, margin, edges, a) && IsCover(rxs, margin, HeardDevices(rxs), cover)
    requires devices <= HeardDevices(rxs) && Independent(rxs, margin, devices)
    requires |Image(a)| <= |devices| || devices == HeardDevices(rxs)
    ensures IsCover(rxs, margin, HeardDevices(rxs), Image(a)) && |Image(a)| <= |cover|
  {
    hide CandidatesOf, HeardDevices, Degree;
    CoverNotSmaller(rxs, margin, devices, cover);
    ImageNotMore(a, a.Keys);
    assert Image(a) == set d | d in a.Keys :: a[d];
    assert forall d :: d in a ==> a[d] in Image(a);
  }

  /** Two devices and four gateways: gateway 2 hears both devices, but with gateway 1 as the hub
      two gateways are chosen. The result is a cover, not a smallest one. */
  lemma NotMinimum(assignment: map<int, int>)
    requires Serves(EXAMPLE, 0.0, Graph(EXAMPLE, 0.0, 1), assignment)
    ensures Image(assignment) == {1, 2}
    ensures forall d :: d in HeardDevices(EXAMPLE) ==> 2 in CandidatesOf(EXAMPLE, 0.0, d)
  {
    hide Degree, Graph, CandidatesOf, HeardDevices, Gateways, Covered;
    ExampleSets();
    ExampleCovered();
    DegreeIs(EXAMPLE, 0.0, 1, 1);
    DegreeIs(EXAMPLE, 0.0, 1, 2);
    DegreeIs(EXAMPLE, 0.0, 1, 3);
    DegreeIs(EXAMPLE, 0.0, 1, 4);
    assert assignment[11] == 1 && assignment[12] == 2;
  }

  lemma ExampleCovered()
    ensures Covered(EXAMPLE, 0.0, 1) == {11} && Covered(EXAMPLE, 0.0, 2) == {11, 12}
    ensures Covered(EXAMPLE, 0.0, 3) == {12} && Covered(EXAMPLE, 0.0, 4) == {12}
  {
    hide HeardDevices, CandidatesOf;
    ExampleSets();
  }

  const EXAMPLE: seq<RXInfoSet> := [
    RXInfoSet(11, 7, [RXInfo(1, 0.0), RXInfo(2, 0.0)]),
    RXInfoSet(12, 7, [RXInfo(2, 0.0), RXInfo(3, 0.0), RXInfo(4, 0.0)])
  ]

  lemma ExampleSets()
    ensures Disjoint(EXAMPLE)
    ensures HeardDevices(EXAMPLE) == {11, 12} && Gateways(EXAMPLE) == {1, 2, 3, 4}
    ensures CandidatesOf(EXAMPLE, 0.0, 11) == {1, 2} && CandidatesOf(EXAMPLE, 0.0, 12) == {2, 3, 4}
  {
    var a, b := EXAMPLE[0], EXAMPLE[1];
    assert HeardWell(a, 0.0, 0) && HeardWell(a, 0.0, 1);
    assert HeardWell(b, 0.0, 0) && HeardWell(b, 0.0, 1) && HeardWell(b, 0.0, 2);
    assert a.items[0].gatewayId in Candidates(a, 0.0) && a.items[1].gatewayId in Candidates(a, 0.0);
    assert Candidates(a, 0.0) == {1, 2};
    assert b.items[0].gatewayId in Candidates(b, 0.0) && b.items[1].gatewayId in Candidates(b, 0.0);
    assert b.items[2].gatewayId in Candidates(b, 0.0);
    assert Candidates(b, 0.0) == {2, 3, 4};
    assert EXAMPLE[0].devEUI in HeardDevices(EXAMPLE) && EXAMPLE[1].devEUI in HeardDevices(EXAMPLE);
    assert a.items[0].gatewayId in Gateways(EXAMPLE) && a.items[1].gatewayId in Gateways(EXAMPLE);
    assert b.items[1].gatewayId in Gateways(EXAMPLE) && b.items[2].gatewayId in Gateways(EXAMPLE);
  }
}
