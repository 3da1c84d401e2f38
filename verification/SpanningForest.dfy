// Which device contains which: a spanning forest per network, rooted at its firewalls,
// and the device relationships made from it.
module SpanningForest {
  import opened Wrappers
  import opened Dicts
  import opened Bfs

  datatype Node = Node(id: string, kind: string, networkId: Option<string>)

  datatype Link = Link(source: string, target: string)

  // A missing network id counts as the empty one.
  function NetworkOf(n: Node): string {
    match n.networkId case Some(id) => id case None => ""
  }

  predicate Spanning(kind: string, includeAps: bool) {
    kind == "firewall" || kind == "floor_switch" || kind == "core_switch" || (includeAps && kind == "access_point")
  }

  type Members = Dict<string, Node>

  type Networks = Dict<string, Members>

  // The spanning nodes by network and id; of nodes with the same network and id the last counts.
  function ByNetwork(nodes: seq<Node>, includeAps: bool): (r: Networks)
    ensures forall net :: net in r.order ==> net in r.at
  {
    if nodes == [] then Empty()
    else AddNode(ByNetwork(nodes[..|nodes| - 1], includeAps), nodes[|nodes| - 1], includeAps)
  }

  function AddNode(before: Networks, n: Node, includeAps: bool): Networks {
    if Spanning(n.kind, includeAps)
    then Put(before, NetworkOf(n), Put(Get(before, NetworkOf(n), Empty()), n.id, n))
    else before
  }

  // Every member of a network is a spanning node of that network.
  lemma {:induction false} MembersAreNodes(nodes: seq<Node>, includeAps: bool, net: string, id: string)
    requires var r := ByNetwork(nodes, includeAps); net in r.at && id in r.at[net].at
    ensures var n := ByNetwork(nodes, includeAps).at[net].at[id];
            n in nodes && n.id == id && NetworkOf(n) == net && Spanning(n.kind, includeAps)
  {
    var front, last := nodes[..|nodes| - 1], nodes[|nodes| - 1];
    var before := ByNetwork(front, includeAps);
    if net in before.at && id in before.at[net].at {
      MembersAreNodes(front, includeAps, net, id);
    }
  }

  // ----- the links of one network -----

  predicate Inside(members: Members, l: Link) {
    l.source in members.at && l.target in members.at
  }

  // The other ends of v's links inside the network.
  function Neighbors(members: Members, links: seq<Link>, v: string): set<string> {
    (set i | 0 <= i < |links| && Inside(members, links[i]) && links[i].source == v :: links[i].target) +
    (set i | 0 <= i < |links| && Inside(members, links[i]) && links[i].target == v :: links[i].source)
  }

  function NetGraph(members: Members, links: seq<Link>): Graph {
    map v | v in members.at :: Neighbors(members, links, v)
  }

  ghost predicate SameGraph(g: Graph, h: Graph) {
    forall v :: Adj(g, v) == Adj(h, v)
  }

  function OtherEnds(l: Link, v: string): set<string> {
    (if l.source == v then {l.target} else {}) + (if l.target == v then {l.source} else {})
  }

  lemma NeighborsAppend(members: Members, links: seq<Link>, l: Link, v: string)
    ensures Neighbors(members, links + [l], v) ==
            Neighbors(members, links, v) + if Inside(members, l) then OtherEnds(l, v) else {}
  {
    var all := links + [l];
    assert all[|links|] == l;
    forall w | w in Neighbors(members, links, v) ensures w in Neighbors(members, all, v) {
      var i :| 0 <= i < |links| && Inside(members, links[i]) &&
               ((links[i].source == v && links[i].target == w) || (links[i].target == v && links[i].source == w));
      assert all[i] == links[i];
    }
  }

  function AddLink(g: Graph, a: string, b: string): Graph {
    var g' := g[a := Adj(g, a) + {b}];
    g'[b := Adj(g', b) + {a}]
  }

  lemma AddLinkMeans(g: Graph, members: Members, links: seq<Link>, l: Link)
    requires SameGraph(g, NetGraph(members, links)) && Inside(members, l)
    ensures SameGraph(AddLink(g, l.source, l.target), NetGraph(members, links + [l]))
  {
    var h := AddLink(g, l.source, l.target);
    forall v ensures Adj(h, v) == Adj(NetGraph(members, links + [l]), v) {
      NeighborsAppend(members, links, l, v);
      assert Adj(h, v) == Adj(g, v) + OtherEnds(l, v);
      assert Adj(g, v) == Adj(NetGraph(members, links), v);
    }
  }

  lemma SkipLinkMeans(g: Graph, members: Members, links: seq<Link>, l: Link)
    requires SameGraph(g, NetGraph(members, links)) && !Inside(members, l)
    ensures SameGraph(g, NetGraph(members, links + [l]))
  {
    forall v ensures Adj(g, v) == Adj(NetGraph(members, links + [l]), v) {
      NeighborsAppend(members, links, l, v);
      assert Adj(g, v) == Adj(NetGraph(members, links), v);
    }
  }

  lemma {:induction false} SameWithin(g: Graph, h: Graph, roots: set<string>, k: nat)
    requires SameGraph(g, h)
    ensures Within(g, roots, k) == Within(h, roots, k)
  {
    if k > 0 { SameWithin(g, h, roots, k - 1); }
  }

  lemma SameForest(g: Graph, h: Graph, roots: set<string>, pairs: Pairs)
    requires SameGraph(g, h) && ShortestForest(g, roots, pairs)
    ensures ShortestForest(h, roots, pairs)
  {
    forall k: nat ensures Within(g, roots, k) == Within(h, roots, k) {
      SameWithin(g, h, roots, k);
    }
    forall v, k: nat | AtDistance(g, roots, v, k) ensures AtDistance(h, roots, v, k) {}
    forall p, c | (p, c) in pairs ensures Steps(h, roots, p, c) {
      assert Steps(g, roots, p, c);
    }
    forall v ensures Reachable(h, roots, v) <==> Reachable(g, roots, v) {}
  }

  // ----- build_spanning_tree -----

  // The firewalls of a network in the order their ids first appear.
  function Firewalls(members: Members, n: nat): seq<string>
    requires n <= |members.order|
  {
    if n == 0 then []
    else
      var id := members.order[n - 1];
      Firewalls(members, n - 1) + if id in members.at && members.at[id].kind == "firewall" then [id] else []
  }

  lemma {:induction false} FirewallsMean(members: Members, n: nat)
    requires WellFormed(members) && n <= |members.order|
    ensures forall id :: id in Firewalls(members, n) <==>
              id in members.order[..n] && id in members.at && members.at[id].kind == "firewall"
  {
    if n > 0 {
      FirewallsMean(members, n - 1);
      assert members.order[..n] == members.order[..n - 1] + [members.order[n - 1]];
    }
  }

  function Roots(members: Members): set<string> {
    set id | id in members.at && members.at[id].kind == "firewall"
  }

  // The forest of one network.
  ghost predicate NetworkForest(members: Members, links: seq<Link>, pairs: Pairs) {
    ShortestForest(NetGraph(members, links), Roots(members), pairs)
  }

  lemma {:induction false} NetworksWellFormed(nodes: seq<Node>, includeAps: bool)
    ensures var r := ByNetwork(nodes, includeAps);
            WellFormed(r) && forall net :: net in r.at ==> WellFormed(r.at[net])
  {
    if nodes != [] { NetworksWellFormed(nodes[..|nodes| - 1], includeAps); }
  }

  method GroupNodes(nodes: seq<Node>, includeAps: bool) returns (r: Networks)
    ensures r == ByNetwork(nodes, includeAps)
  {
    r := Empty();
    for i := 0 to |nodes|
      invariant r == ByNetwork(nodes[..i], includeAps)
    {
      assert nodes[..i + 1][..i] == nodes[..i];
      r := AddNode(r, nodes[i], includeAps);
    }
    assert nodes[..|nodes|] == nodes;
  }

  function GraphOf(adj: map<string, Graph>, net: string): Graph {
    if net in adj then adj[net] else map[]
  }

  // adj holds the graph of every network, of the links seen so far.
  ghost predicate Adjacency(adj: map<string, Graph>, networks: Networks, nets: seq<string>, links: seq<Link>) {
    forall net :: net in nets && net in networks.at ==> SameGraph(GraphOf(adj, net), NetGraph(networks.at[net], links))
  }

  method BuildAdjacency(networks: Networks, links: seq<Link>) returns (adj: map<string, Graph>)
    requires WellFormed(networks)
    ensures Adjacency(adj, networks, networks.order, links)
  {
    adj := map[];
    for i := 0 to |links|
      invariant Adjacency(adj, networks, networks.order, links[..i])
    {
      adj := AddToNetworks(networks, adj, links[..i], links[i]);
      assert links[..i + 1] == links[..i] + [links[i]];
    }
    assert links[..|links|] == links;
  }

  // The graph of one network after a link, whether or not the link is in it.
  function AddIfInside(members: Members, g: Graph, l: Link): Graph {
    if Inside(members, l) then AddLink(g, l.source, l.target) else g
  }

  lemma AddIfInsideMeans(g: Graph, members: Members, links: seq<Link>, l: Link)
    requires SameGraph(g, NetGraph(members, links))
    ensures SameGraph(AddIfInside(members, g, l), NetGraph(members, links + [l]))
  {
    if Inside(members, l) { AddLinkMeans(g, members, links, l); } else { SkipLinkMeans(g, members, links, l); }
  }

  predicate LinkAdded(networks: Networks, before: map<string, Graph>, adj: map<string, Graph>, net: string, l: Link) {
    net in networks.at && GraphOf(adj, net) == AddIfInside(networks.at[net], GraphOf(before, net), l)
  }

  // The link has been added to the first j networks.
  ghost predicate AddedTo(networks: Networks, before: map<string, Graph>, adj: map<string, Graph>, l: Link, j: nat) {
    && (forall k :: 0 <= k < j && k < |networks.order| ==> LinkAdded(networks, before, adj, networks.order[k], l))
    && (forall k :: j <= k < |networks.order| ==> GraphOf(adj, networks.order[k]) == GraphOf(before, networks.order[k]))
  }

  lemma OneMoreAdded(networks: Networks, before: map<string, Graph>, adj: map<string, Graph>, l: Link, j: nat)
    requires WellFormed(networks) && j < |networks.order| && AddedTo(networks, before, adj, l, j)
    ensures var net := networks.order[j];
            net in networks.at
            && AddedTo(networks, before, adj[net := AddIfInside(networks.at[net], GraphOf(adj, net), l)], l, j + 1)
  {
    var net := networks.order[j];
    var adj' := adj[net := AddIfInside(networks.at[net], GraphOf(adj, net), l)];
    forall k | 0 <= k < |networks.order| && k != j ensures GraphOf(adj', networks.order[k]) == GraphOf(adj, networks.order[k]) {
      assert networks.order[k] != net;
    }
  }

  // One link is added to every network that holds both its ends.
  method AddToNetworks(networks: Networks, before: map<string, Graph>, ghost links: seq<Link>, l: Link)
    returns (adj: map<string, Graph>)
    requires WellFormed(networks) && Adjacency(before, networks, networks.order, links)
    ensures Adjacency(adj, networks, networks.order, links + [l])
  {
    adj := before;
    for j := 0 to |networks.order|
      invariant AddedTo(networks, before, adj, l, j)
    {
      var net := networks.order[j];
      var g := AddToNetwork(networks.at[net], GraphOf(adj, net), l);
      OneMoreAdded(networks, before, adj, l, j);
      adj := adj[net := g];
    }
    AllAdded(networks, before, adj, links, l);
  }

  method AddToNetwork(members: Members, g: Graph, l: Link) returns (g': Graph)
    ensures g' == AddIfInside(members, g, l)
  {
    g' := g;
    if Inside(members, l) {
      g' := g'[l.source := Adj(g', l.source) + {l.target}];
      g' := g'[l.target := Adj(g', l.target) + {l.source}];
    }
  }

  lemma AllAdded(networks: Networks, before: map<string, Graph>, adj: map<string, Graph>, links: seq<Link>, l: Link)
    requires WellFormed(networks) && Adjacency(before, networks, networks.order, links)
    requires forall k :: 0 <= k < |networks.order| ==> LinkAdded(networks, before, adj, networks.order[k], l)
    ensures Adjacency(adj, networks, networks.order, links + [l])
  {
    forall net | net in networks.order && net in networks.at
      ensures SameGraph(GraphOf(adj, net), NetGraph(networks.at[net], links + [l]))
    {
      var k :| 0 <= k < |networks.order| && networks.order[k] == net;
      AddIfInsideMeans(GraphOf(before, net), networks.at[net], links, l);
    }
  }

  lemma GraphStaysInside(g: Graph, members: Members, links: seq<Link>)
    requires SameGraph(g, NetGraph(members, links))
    ensures forall v :: Adj(g, v) <= members.at.Keys
    ensures forall v :: Adj(g, v) != {} ==> v in members.at
  {
    forall v ensures Adj(g, v) <= members.at.Keys && (Adj(g, v) != {} ==> v in members.at) {
      assert Adj(g, v) == Adj(NetGraph(members, links), v);
    }
  }

  // The pairs are the union of one shortest-path forest for every network.
  method BuildSpanningTree(nodes: seq<Node>, links: seq<Link>, includeAps: bool)
    returns (pairs: Pairs)
    ensures IsSpanning(nodes, links, includeAps, pairs)
  {
    var networks := GroupNodes(nodes, includeAps);
    NetworksWellFormed(nodes, includeAps);
    var adj := BuildAdjacency(networks, links);
    pairs := {};
    ghost var trees: map<string, Pairs> := map[];
    for i := 0 to |networks.order|
      invariant trees.Keys == Elements(networks.order[..i])
      invariant forall net :: net in trees ==> net in networks.at && NetworkForest(networks.at[net], links, trees[net])
      invariant pairs == UnionOf(trees)
    {
      var net := networks.order[i];
      assert networks.order[..i + 1] == networks.order[..i] + [net];
      var tree := NetworkTree(networks.at[net], GraphOf(adj, net), links);
      UnionAdd(trees, net, tree);
      trees := trees[net := tree];
      pairs := pairs + tree;
    }
    assert networks.order[..|networks.order|] == networks.order;
    assert Forests(nodes, links, includeAps, trees);
  }

  method NetworkTree(members: Members, g: Graph, ghost links: seq<Link>) returns (pairs: Pairs)
    requires WellFormed(members) && SameGraph(g, NetGraph(members, links))
    ensures NetworkForest(members, links, pairs)
  {
    var firewalls := Firewalls(members, |members.order|);
    FirewallsMean(members, |members.order|);
    assert members.order[..|members.order|] == members.order;
    assert Elements(firewalls) == Roots(members);
    GraphStaysInside(g, members, links);
    pairs := Bfs.SpanningForest(g, members.at.Keys, firewalls);
    SameForest(g, NetGraph(members, links), Roots(members), pairs);
  }

  // One shortest-path forest for every network of the snapshot.
  ghost predicate Forests(nodes: seq<Node>, links: seq<Link>, includeAps: bool, trees: map<string, Pairs>) {
    var networks := ByNetwork(nodes, includeAps);
    trees.Keys == networks.at.Keys &&
    forall net :: net in trees ==> NetworkForest(networks.at[net], links, trees[net])
  }

  // The union of one shortest-path forest for every network.
  ghost predicate IsSpanning(nodes: seq<Node>, links: seq<Link>, includeAps: bool, pairs: Pairs) {
    exists trees: map<string, Pairs> :: Forests(nodes, links, includeAps, trees) && pairs == UnionOf(trees)
  }

  ghost function UnionOf(trees: map<string, Pairs>): Pairs {
    set net, e | net in trees && e in trees[net] :: e
  }

  lemma UnionAdd(trees: map<string, Pairs>, net: string, tree: Pairs)
    requires net !in trees
    ensures UnionOf(trees[net := tree]) == UnionOf(trees) + tree
  {
    var now := trees[net := tree];
    forall e | e in UnionOf(trees) + tree ensures e in UnionOf(now) {
      if e in tree {
        assert net in now && e in now[net];
      } else {
        var n :| n in trees && e in trees[n];
        assert n in now && e in now[n];
      }
    }
  }

  // ----- the whole snapshot, when a node id belongs to one network -----

  ghost predicate IdsUnique(nodes: seq<Node>) {
    forall m, n :: m in nodes && n in nodes && m.id == n.id ==> NetworkOf(m) == NetworkOf(n)
  }

  lemma OneNetwork(nodes: seq<Node>, includeAps: bool, net: string, other: string, id: string)
    requires IdsUnique(nodes)
    requires var r := ByNetwork(nodes, includeAps);
             net in r.at && other in r.at && id in r.at[net].at && id in r.at[other].at
    ensures net == other
  {
    MembersAreNodes(nodes, includeAps, net, id);
    MembersAreNodes(nodes, includeAps, other, id);
  }

  // A pair lies in one network, and is a link there.
  lemma PairInNetwork(nodes: seq<Node>, links: seq<Link>, includeAps: bool, trees: map<string, Pairs>, p: string,
      c: string)
    returns (net: string)
    requires Forests(nodes, links, includeAps, trees) && (p, c) in UnionOf(trees)
    ensures net in trees && (p, c) in trees[net]
    ensures var members := ByNetwork(nodes, includeAps).at[net];
            p in members.at && c in members.at && c in Neighbors(members, links, p)
  {
    net :| net in trees && (p, c) in trees[net];
    var members := ByNetwork(nodes, includeAps).at[net];
    var g := NetGraph(members, links);
    assert c in Adj(g, p);
    GraphStaysInside(g, members, links);
  }

  // ----- the whole snapshot: with unique ids the pairs of all networks form a forest -----

  // Every child has one parent ...
  lemma SingleParent(nodes: seq<Node>, links: seq<Link>, includeAps: bool, pairs: Pairs,
                     p: string, q: string, c: string)
    requires IsSpanning(nodes, links, includeAps, pairs) && IdsUnique(nodes)
    requires (p, c) in pairs && (q, c) in pairs
    ensures p == q
  {
    var trees: map<string, Pairs> :| Forests(nodes, links, includeAps, trees) && pairs == UnionOf(trees);
    var net := PairInNetwork(nodes, links, includeAps, trees, p, c);
    var other := PairInNetwork(nodes, links, includeAps, trees, q, c);
    OneNetwork(nodes, includeAps, net, other, c);
  }

  // ... no pair is there in both directions ...
  lemma OneDirection(nodes: seq<Node>, links: seq<Link>, includeAps: bool, pairs: Pairs, p: string, c: string)
    requires IsSpanning(nodes, links, includeAps, pairs) && IdsUnique(nodes)
    requires (p, c) in pairs
    ensures (c, p) !in pairs
  {
    var trees: map<string, Pairs> :| Forests(nodes, links, includeAps, trees) && pairs == UnionOf(trees);
    if (c, p) in pairs {
      var net := PairInNetwork(nodes, links, includeAps, trees, p, c);
      var other := PairInNetwork(nodes, links, includeAps, trees, c, p);
      OneNetwork(nodes, includeAps, net, other, c);
      var members := ByNetwork(nodes, includeAps).at[net];
      RootsAreNoChildren(NetGraph(members, links), Roots(members), trees[net], p, c);
    }
  }

  // ... and no firewall is a child.
  lemma FirewallsOnTop(nodes: seq<Node>, links: seq<Link>, includeAps: bool, pairs: Pairs,
                       p: string, c: string, net: string)
    requires IsSpanning(nodes, links, includeAps, pairs) && IdsUnique(nodes)
    requires (p, c) in pairs
    requires net in ByNetwork(nodes, includeAps).at
    ensures c !in Roots(ByNetwork(nodes, includeAps).at[net])
  {
    var trees: map<string, Pairs> :| Forests(nodes, links, includeAps, trees) && pairs == UnionOf(trees);
    var own := PairInNetwork(nodes, links, includeAps, trees, p, c);
    var members := ByNetwork(nodes, includeAps).at[own];
    RootsAreNoChildren(NetGraph(members, links), Roots(members), trees[own], p, c);
    if c in ByNetwork(nodes, includeAps).at[net].at {
      OneNetwork(nodes, includeAps, net, own, c);
    }
  }

  // The pairs whose child is in a network.
  ghost function PartOf(pairs: Pairs, members: Members): Pairs {
    set e | e in pairs && e.1 in members.at
  }

  lemma PartIsTree(nodes: seq<Node>, links: seq<Link>, includeAps: bool, trees: map<string, Pairs>, net: string,
      p: string, c: string)
    requires Forests(nodes, links, includeAps, trees) && IdsUnique(nodes) && net in trees
    ensures (p, c) in PartOf(UnionOf(trees), ByNetwork(nodes, includeAps).at[net]) <==> (p, c) in trees[net]
  {
    var members := ByNetwork(nodes, includeAps).at[net];
    if (p, c) in trees[net] {
      assert c in Adj(NetGraph(members, links), p);
      GraphStaysInside(NetGraph(members, links), members, links);
      assert (p, c) in UnionOf(trees);
    }
    if (p, c) in UnionOf(trees) && c in members.at {
      var own := PairInNetwork(nodes, links, includeAps, trees, p, c);
      OneNetwork(nodes, includeAps, net, own, c);
    }
  }

  lemma WholeTree(nodes: seq<Node>, links: seq<Link>, includeAps: bool, trees: map<string, Pairs>, net: string)
    requires Forests(nodes, links, includeAps, trees) && IdsUnique(nodes) && net in trees
    ensures PartOf(UnionOf(trees), ByNetwork(nodes, includeAps).at[net]) == trees[net]
  {
    forall p, c ensures (p, c) in PartOf(UnionOf(trees), ByNetwork(nodes, includeAps).at[net]) <==> (p, c) in trees[net] {
      PartIsTree(nodes, links, includeAps, trees, net, p, c);
    }
  }

  // ... and the pairs of each network are a shortest-path forest of it: they cover exactly
  // what its firewalls reach, at the shortest distance.
  lemma PartIsForest(nodes: seq<Node>, links: seq<Link>, includeAps: bool, pairs: Pairs, net: string)
    requires IsSpanning(nodes, links, includeAps, pairs) && IdsUnique(nodes)
    requires net in ByNetwork(nodes, includeAps).at
    ensures var members := ByNetwork(nodes, includeAps).at[net];
            ShortestForest(NetGraph(members, links), Roots(members), PartOf(pairs, members))
  {
    var trees: map<string, Pairs> :| Forests(nodes, links, includeAps, trees) && pairs == UnionOf(trees);
    WholeTree(nodes, links, includeAps, trees, net);
    assert NetworkForest(ByNetwork(nodes, includeAps).at[net], links, trees[net]);
  }

  // ----- the device links of generate_relationships -----

  datatype RelType = CONTAINS | CONNECTS_TO

  datatype Rel = Rel(source: string, target: string, relType: RelType)

  // Both ends are known, distinct entities, and neither is an access point.
  predicate Usable(l: Link, aps: set<string>, guids: map<string, string>) {
    && l.source !in aps && l.target !in aps
    && l.source in guids && guids[l.source] != "" && l.target in guids && guids[l.target] != ""
    && guids[l.source] != guids[l.target]
  }

  function Orient(l: Link, guids: map<string, string>, pairs: Pairs): Rel
    requires l.source in guids && l.target in guids
  {
    if (l.source, l.target) in pairs then Rel(guids[l.source], guids[l.target], CONTAINS)
    else if (l.target, l.source) in pairs then Rel(guids[l.target], guids[l.source], CONTAINS)
    else Rel(guids[l.source], guids[l.target], CONNECTS_TO)
  }

  function Ends(r: Rel): set<string> {
    {r.source, r.target}
  }

  function LinkEnds(l: Link, guids: map<string, string>): set<string>
    requires l.source in guids && l.target in guids
  {
    {guids[l.source], guids[l.target]}
  }

  function SeenPairs(rels: seq<Rel>): set<set<string>> {
    set i | 0 <= i < |rels| :: Ends(rels[i])
  }

  // The link between two entities that have no relation yet.
  predicate FirstOfItsPair(l: Link, before: seq<Rel>, aps: set<string>, guids: map<string, string>) {
    Usable(l, aps, guids) && LinkEnds(l, guids) !in SeenPairs(before)
  }

  function DeviceRels(links: seq<Link>, aps: set<string>, guids: map<string, string>, pairs: Pairs): seq<Rel> {
    if links == [] then []
    else
      var front, last := DeviceRels(links[..|links| - 1], aps, guids, pairs), links[|links| - 1];
      if FirstOfItsPair(last, front, aps, guids) then front + [Orient(last, guids, pairs)] else front
  }

  lemma SeenAppend(rels: seq<Rel>, r: Rel)
    ensures SeenPairs(rels + [r]) == SeenPairs(rels) + {Ends(r)}
  {
    var now := rels + [r];
    assert now[|rels|] == r;
    forall e | e in SeenPairs(rels) ensures e in SeenPairs(now) {
      var i :| 0 <= i < |rels| && Ends(rels[i]) == e;
      assert now[i] == rels[i];
    }
  }

  method DeviceLinks(links: seq<Link>, aps: set<string>, guids: map<string, string>, pairs: Pairs)
    returns (rels: seq<Rel>)
    ensures rels == DeviceRels(links, aps, guids, pairs)
  {
    rels := [];
    var seen: set<set<string>> := {};
    for i := 0 to |links|
      invariant rels == DeviceRels(links[..i], aps, guids, pairs)
      invariant seen == SeenPairs(rels)
    {
      var l := links[i];
      assert links[..i + 1][..i] == links[..i];
      if !Usable(l, aps, guids) {
        continue;
      }
      var pair := {guids[l.source], guids[l.target]};
      if pair in seen {
        continue;
      }
      seen := seen + {pair};
      SeenAppend(rels, Orient(l, guids, pairs));
      assert Ends(Orient(l, guids, pairs)) == pair;
      if (l.source, l.target) in pairs {
        rels := rels + [Rel(guids[l.source], guids[l.target], CONTAINS)];
      } else if (l.target, l.source) in pairs {
        rels := rels + [Rel(guids[l.target], guids[l.source], CONTAINS)];
      } else {
        rels := rels + [Rel(guids[l.source], guids[l.target], CONNECTS_TO)];
      }
    }
    assert links[..|links|] == links;
  }

  ghost predicate DistinctEnds(rels: seq<Rel>) {
    forall i, j :: 0 <= i < j < |rels| ==> Ends(rels[i]) != Ends(rels[j])
  }

  // No two entities are related twice.
  lemma {:induction false} RelsDistinct(links: seq<Link>, aps: set<string>, guids: map<string, string>, pairs: Pairs)
    ensures DistinctEnds(DeviceRels(links, aps, guids, pairs))
  {
    if links != [] {
      var front := DeviceRels(links[..|links| - 1], aps, guids, pairs);
      RelsDistinct(links[..|links| - 1], aps, guids, pairs);
      var l := links[|links| - 1];
      if FirstOfItsPair(l, front, aps, guids) {
        var added := Orient(l, guids, pairs);
        assert Ends(added) == LinkEnds(l, guids);
        forall i | 0 <= i < |front| ensures Ends(front[i]) != Ends(added) {
          assert Ends(front[i]) in SeenPairs(front);
        }
        assert DistinctEnds(front + [added]);
      }
    }
  }

  // Every relation comes from a usable link.
  lemma {:induction false} RelFromLink(links: seq<Link>, aps: set<string>, guids: map<string, string>, pairs: Pairs,
      r: Rel)
    returns (l: Link)
    requires r in DeviceRels(links, aps, guids, pairs)
    ensures l in links && Usable(l, aps, guids) && r == Orient(l, guids, pairs)
  {
    l := links[|links| - 1];
    if r in DeviceRels(links[..|links| - 1], aps, guids, pairs) {
      l := RelFromLink(links[..|links| - 1], aps, guids, pairs, r);
    }
  }

  // Every usable link has its two entities related.
  lemma {:induction false} LinkHasRel(links: seq<Link>, aps: set<string>, guids: map<string, string>, pairs: Pairs,
      l: Link)
    returns (r: Rel)
    requires l in links && Usable(l, aps, guids)
    ensures r in DeviceRels(links, aps, guids, pairs) && Ends(r) == LinkEnds(l, guids)
  {
    var front := links[..|links| - 1];
    var before := DeviceRels(front, aps, guids, pairs);
    assert links == front + [links[|links| - 1]];
    if l in front {
      r := LinkHasRel(front, aps, guids, pairs, l);
    } else if LinkEnds(l, guids) in SeenPairs(before) {
      var i :| 0 <= i < |before| && Ends(before[i]) == LinkEnds(l, guids);
      r := before[i];
    } else {
      r := Orient(l, guids, pairs);
    }
  }

  // Link i is the first usable one between its two entities.
  ghost predicate FirstLink(links: seq<Link>, i: int, aps: set<string>, guids: map<string, string>) {
    && 0 <= i < |links| && Usable(links[i], aps, guids)
    && forall j :: 0 <= j < i && Usable(links[j], aps, guids) ==> LinkEnds(links[j], guids) != LinkEnds(links[i], guids)
  }

  lemma FirstLinkFront(links: seq<Link>, l: Link, i: int, aps: set<string>, guids: map<string, string>)
    requires i < |links|
    ensures FirstLink(links + [l], i, aps, guids) <==> FirstLink(links, i, aps, guids)
  {
    assert forall j :: 0 <= j < |links| ==> (links + [l])[j] == links[j];
    if FirstLink(links + [l], i, aps, guids) {
      forall j | 0 <= j < i && Usable(links[j], aps, guids) ensures LinkEnds(links[j], guids) != LinkEnds(links[i], guids) {
        assert (links + [l])[j] == links[j];
      }
    }
  }

  // The newest link is the first of its entities exactly if they have no relation yet.
  lemma FirstLinkLast(links: seq<Link>, l: Link, aps: set<string>, guids: map<string, string>, pairs: Pairs)
    ensures FirstLink(links + [l], |links|, aps, guids) <==>
            FirstOfItsPair(l, DeviceRels(links, aps, guids, pairs), aps, guids)
  {
    var rels := DeviceRels(links, aps, guids, pairs);
    if Usable(l, aps, guids) && LinkEnds(l, guids) in SeenPairs(rels) {
      var k :| 0 <= k < |rels| && Ends(rels[k]) == LinkEnds(l, guids);
      var first := RelFromLink(links, aps, guids, pairs, rels[k]);
      var j :| 0 <= j < |links| && links[j] == first;
      assert (links + [l])[j] == first;
    }
    if Usable(l, aps, guids) && !FirstLink(links + [l], |links|, aps, guids) {
      var j :| 0 <= j < |links| && Usable(links[j], aps, guids) && LinkEnds(links[j], guids) == LinkEnds(l, guids);
      var r := LinkHasRel(links, aps, guids, pairs, links[j]);
      var k :| 0 <= k < |rels| && rels[k] == r;
      assert Ends(rels[k]) in SeenPairs(rels);
    }
  }

  // The relationships are exactly the orientations of the first usable links.
  lemma {:induction false} RelExactly(links: seq<Link>, aps: set<string>, guids: map<string, string>, pairs: Pairs, r: Rel)
    ensures r in DeviceRels(links, aps, guids, pairs) <==>
            exists i :: FirstLink(links, i, aps, guids) && r == Orient(links[i], guids, pairs)
  {
    if links != [] {
      var front, l := links[..|links| - 1], links[|links| - 1];
      assert links == front + [l];
      RelExactly(front, aps, guids, pairs, r);
      FirstLinkLast(front, l, aps, guids, pairs);
      forall i | 0 <= i < |front| ensures FirstLink(links, i, aps, guids) <==> FirstLink(front, i, aps, guids) {
        FirstLinkFront(front, l, i, aps, guids);
      }
      if FirstLink(links, |front|, aps, guids) && r == Orient(l, guids, pairs) {
        assert links[|front|] == l;
      }
    }
  }

  ghost predicate OneWay(pairs: Pairs) {
    forall p, c :: (p, c) in pairs ==> (c, p) !in pairs
  }

  // A link between parent p and child c.
  predicate LinkOf(l: Link, p: string, c: string) {
    (l.source == p && l.target == c) || (l.source == c && l.target == p)
  }

  // The first usable link between the entities of parent p and child c joins those two.
  ghost predicate ParentLink(links: seq<Link>, aps: set<string>, guids: map<string, string>, pairs: Pairs, p: string, c: string) {
    (p, c) in pairs && exists i :: FirstLink(links, i, aps, guids) && LinkOf(links[i], p, c)
  }

  // CONTAINS says exactly what the forest says: one entity contains another if and only if
  // they are the entities of a parent and its child whom the first usable link between the
  // two entities joins. Several devices may be one entity.
  lemma ContainsExactly(links: seq<Link>, aps: set<string>, guids: map<string, string>, pairs: Pairs, g: string, e: string)
    requires OneWay(pairs)
    ensures Rel(g, e, CONTAINS) in DeviceRels(links, aps, guids, pairs) <==>
            exists p, c :: ParentLink(links, aps, guids, pairs, p, c) && p in guids && c in guids && guids[p] == g && guids[c] == e
  {
    var r := Rel(g, e, CONTAINS);
    RelExactly(links, aps, guids, pairs, r);
    if r in DeviceRels(links, aps, guids, pairs) {
      var i :| FirstLink(links, i, aps, guids) && r == Orient(links[i], guids, pairs);
      var l := links[i];
      var p, c := if (l.source, l.target) in pairs then l.source else l.target,
                  if (l.source, l.target) in pairs then l.target else l.source;
      assert LinkOf(links[i], p, c) && ParentLink(links, aps, guids, pairs, p, c);
    }
    if p, c :| ParentLink(links, aps, guids, pairs, p, c) && p in guids && c in guids && guids[p] == g && guids[c] == e {
      var i :| FirstLink(links, i, aps, guids) && LinkOf(links[i], p, c);
      assert r == Orient(links[i], guids, pairs);
    }
  }
}
