/** The supply-chain impact demo: a fixed graph of commodities, manufacturing stages and financial
    lines; clicking an upstream node highlights every node reachable from it and every link between
    highlighted nodes, and rewrites the sublabels of the two financial nodes. */
module SupplyChain {
  import opened Prelude

  datatype Tier = Upstream | Midstream | Downstream

  /** A node of the chart; `title` is the source's `label` (a Dafny keyword). Its drawing position is left out. */
  datatype ChainNode = ChainNode(id: string, title: string, sublabel: string, tier: Tier,
                                 priceChange: Option<string>)

  /** A directed link `from -> to`. */
  datatype Link = Link(from: string, to: string)

  const Nodes: seq<ChainNode> := [
    ChainNode("silicon", "工业硅", "¥18,200/t", Upstream, Some("+12.3%")),
    ChainNode("steel", "特种钢", "¥5,840/t", Upstream, Some("+8.7%")),
    ChainNode("copper", "电解铜", "¥72,100/t", Upstream, Some("-3.2%")),
    ChainNode("wafer", "硅片制造", "产能利用率 87%", Midstream, None),
    ChainNode("parts", "精密零部件", "交付周期 +2周", Midstream, None),
    ChainNode("cogs", "生产成本 COGS", "", Downstream, None),
    ChainNode("margin", "毛利预测", "", Downstream, None)
  ]

  const Links: seq<Link> := [
    Link("silicon", "wafer"),
    Link("steel", "parts"),
    Link("copper", "parts"),
    Link("wafer", "cogs"),
    Link("parts", "cogs"),
    Link("cogs", "margin")
  ]

  // ---------------------------------------------------------------------------------------------
  // Reachability, the specification of the traversal

  /** Consecutive entries of `p` are joined by links. */
  ghost predicate IsWalk(links: seq<Link>, p: seq<string>) {
    forall i :: 0 <= i < |p| - 1 ==> Link(p[i], p[i + 1]) in links
  }

  ghost predicate WalkBetween(links: seq<Link>, p: seq<string>, s: string, t: string) {
    |p| > 0 && p[0] == s && p[|p| - 1] == t && IsWalk(links, p)
  }

  /** `t` can be reached from `s` by following zero or more links forward. */
  ghost predicate Reachable(links: seq<Link>, s: string, t: string) {
    exists p :: WalkBetween(links, p, s, t)
  }

  /** Every link leaving `nodes` ends in `nodes`. */
  predicate Closed(links: seq<Link>, nodes: set<string>) {
    forall l :: l in links && l.from in nodes ==> l.to in nodes
  }

  lemma ReachableRefl(links: seq<Link>, s: string)
    ensures Reachable(links, s, s)
  {
    assert WalkBetween(links, [s], s, s);
  }

  lemma ReachableStep(links: seq<Link>, s: string, a: string, b: string)
    requires Reachable(links, s, a) && Link(a, b) in links
    ensures Reachable(links, s, b)
  {
    var p :| WalkBetween(links, p, s, a);
    var q := p + [b];
    assert forall i :: 0 <= i < |p| ==> q[i] == p[i];
    assert WalkBetween(links, q, s, b);
  }

  /** Every entry of a walk is reachable from its first entry. */
  lemma {:induction false} WalkReaches(links: seq<Link>, p: seq<string>)
    requires |p| > 0 && IsWalk(links, p)
    ensures forall k :: 0 <= k < |p| ==> Reachable(links, p[0], p[k])
  {
    if |p| == 1 {
      ReachableRefl(links, p[0]);
    } else {
      var q := p[..|p| - 1];
      assert IsWalk(links, q) by {
        forall i | 0 <= i < |q| - 1 ensures Link(q[i], q[i + 1]) in links {
          assert q[i] == p[i] && q[i + 1] == p[i + 1];
        }
      }
      WalkReaches(links, q);
      assert forall k :: 0 <= k < |q| ==> q[k] == p[k];
      ReachableStep(links, p[0], p[|p| - 2], p[|p| - 1]);
    }
  }

  /** A walk that starts inside a closed set never leaves it. */
  lemma {:induction false} WalkStaysInside(links: seq<Link>, nodes: set<string>, p: seq<string>)
    requires Closed(links, nodes) && IsWalk(links, p) && |p| > 0 && p[0] in nodes
    ensures forall k :: 0 <= k < |p| ==> p[k] in nodes
  {
    if |p| > 1 {
      var q := p[..|p| - 1];
      assert IsWalk(links, q) by {
        forall i | 0 <= i < |q| - 1 ensures Link(q[i], q[i + 1]) in links {
          assert q[i] == p[i] && q[i + 1] == p[i + 1];
        }
      }
      WalkStaysInside(links, nodes, q);
      assert p[|p| - 2] == q[|q| - 1];
      assert Link(p[|p| - 2], p[|p| - 1]) in links;
    }
  }

  /** A closed set that holds `s` holds everything reachable from `s`. */
  lemma ClosedHoldsReachable(links: seq<Link>, nodes: set<string>, s: string, t: string)
    requires Closed(links, nodes) && s in nodes && Reachable(links, s, t)
    ensures t in nodes
  {
    var p :| WalkBetween(links, p, s, t);
    WalkStaysInside(links, nodes, p);
  }

  // ---------------------------------------------------------------------------------------------
  // getAffectedNodes

  /** Every id the traversal can ever put in its queue. */
  function Universe(links: seq<Link>, startId: string): (u: set<string>)
    ensures startId in u && forall l :: l in links ==> l.to in u
  {
    {startId} + set l | l in links :: l.to
  }

  /** How many queue entries are already in `done`. */
  function CountIn(queue: seq<string>, done: set<string>): nat {
    if queue == [] then 0 else (if queue[0] in done then 1 else 0) + CountIn(queue[1..], done)
  }

  lemma {:induction false} CountInAppendFresh(queue: seq<string>, added: seq<string>, done: set<string>)
    requires forall k :: 0 <= k < |added| ==> added[k] !in done
    ensures CountIn(queue + added, done) == CountIn(queue, done)
  {
    if queue == [] {
      if added != [] {
        assert added[1..] + [] == added[1..];
        CountInAppendFresh([], added[1..], done);
        assert ([] + added)[1..] == [] + added[1..];
      }
    } else {
      assert (queue + added)[1..] == queue[1..] + added;
      CountInAppendFresh(queue[1..], added, done);
    }
  }

  /** The inner loop of getAffectedNodes: queues the target of every link leaving `current`
      whose target is not yet affected. */
  method QueueTargets(links: seq<Link>, current: string, affected: set<string>, queue: seq<string>)
    returns (queue': seq<string>)
    ensures |queue| <= |queue'| && queue'[..|queue|] == queue
    ensures forall k :: |queue| <= k < |queue'| ==> queue'[k] !in affected && Link(current, queue'[k]) in links
    ensures forall l :: l in links && l.from == current ==> l.to in affected || l.to in queue'
  {
    queue' := queue;
    for i := 0 to |links|
      invariant |queue| <= |queue'| && queue'[..|queue|] == queue
      invariant forall k :: |queue| <= k < |queue'| ==> queue'[k] !in affected && Link(current, queue'[k]) in links
      invariant forall j :: 0 <= j < i && links[j].from == current ==> links[j].to in affected || links[j].to in queue'
    {
      var link := links[i];
      if link.from == current && !(link.to in affected) {
        assert link == Link(current, link.to);
        queue' := queue' + [link.to];
      }
    }
    forall l | l in links && l.from == current ensures l.to in affected || l.to in queue' {
      var j :| 0 <= j < |links| && links[j] == l;
    }
  }

  /** getAffectedNodes: breadth-first traversal with a queue and an `affected` set. A node is
      queued only while it is not yet affected, but it can be queued several times before it is
      taken off the queue; the loop terminates on any link list, cyclic ones included, because each
      round either marks a new node of `Universe` or consumes a queue entry that is already marked
      (which queues only unmarked nodes). The result is exactly the set of nodes reachable from
      `startId`, whether or not `startId` is a declared node. */
  method AffectedNodes(links: seq<Link>, startId: string) returns (affected: set<string>)
    ensures startId in affected
    ensures Closed(links, affected)
    ensures forall t :: t in affected <==> Reachable(links, startId, t)
  {
    ghost var universe := Universe(links, startId);
    affected := {};
    var queue := [startId];
    ReachableRefl(links, startId);
    while |queue| > 0
      invariant affected <= universe
      invariant forall k :: 0 <= k < |queue| ==> queue[k] in universe && Reachable(links, startId, queue[k])
      invariant forall x :: x in affected ==> Reachable(links, startId, x)
      invariant startId in affected || startId in queue
      invariant forall l :: l in links && l.from in affected ==> l.to in affected || l.to in queue
      decreases |universe - affected|, CountIn(queue, affected)
    {
      var current := queue[0];
      ghost var before := affected;
      ghost var queued := queue;
      queue := queue[1..];
      affected := affected + {current};
      queue := QueueTargets(links, current, affected, queue);
      assert Round(links, before, queued, affected, queue);
      RoundQueuesReachable(links, startId, before, queued, affected, queue);
      RoundKeepsFrontier(links, before, queued, affected, queue);
      if startId !in affected {
        RoundKeepsQueued(links, before, queued, affected, queue, startId);
      }
      RoundDecreases(links, universe, before, queued, affected, queue);
    }
    forall t | Reachable(links, startId, t) ensures t in affected {
      ClosedHoldsReachable(links, affected, startId, t);
    }
  }

  /** What one round of the traversal consists of: `current` is taken off the front of `queued`
      and marked, and the targets it queues (unmarked ones) are appended to the rest. */
  ghost predicate Round(links: seq<Link>, before: set<string>, queued: seq<string>,
                        affected: set<string>, queue: seq<string>)
  {
    && |queued| > 0
    && affected == before + {queued[0]}
    && |queued| - 1 <= |queue| && queue[..|queued| - 1] == queued[1..]
    && (forall k :: |queued| - 1 <= k < |queue| ==> queue[k] !in affected && Link(queued[0], queue[k]) in links)
  }

  /** A round queues only ids of the universe that are reachable. */
  lemma RoundQueuesReachable(links: seq<Link>, startId: string, before: set<string>,
                             queued: seq<string>, affected: set<string>, queue: seq<string>)
    requires Round(links, before, queued, affected, queue)
    requires forall k :: 0 <= k < |queued| ==>
               queued[k] in Universe(links, startId) && Reachable(links, startId, queued[k])
    ensures forall k :: 0 <= k < |queue| ==>
              queue[k] in Universe(links, startId) && Reachable(links, startId, queue[k])
  {
    var n := |queued| - 1;
    forall k | 0 <= k < |queue|
      ensures queue[k] in Universe(links, startId) && Reachable(links, startId, queue[k])
    {
      if k >= n {
        ReachableStep(links, startId, queued[0], queue[k]);
      } else {
        assert queue[k] == queue[..n][k] == queued[k + 1];
      }
    }
  }

  /** An id queued before a round and not marked by it is still queued after it. */
  lemma RoundKeepsQueued(links: seq<Link>, before: set<string>, queued: seq<string>,
                         affected: set<string>, queue: seq<string>, x: string)
    requires Round(links, before, queued, affected, queue)
    requires x in queued && x !in affected
    ensures x in queue
  {
    var k :| 0 <= k < |queued| && queued[k] == x;
    assert k > 0;
    assert queue[..|queued| - 1][k - 1] == x;
  }

  /** A round keeps every link leaving a marked node pointing at a marked or queued node. */
  lemma RoundKeepsFrontier(links: seq<Link>, before: set<string>, queued: seq<string>,
                           affected: set<string>, queue: seq<string>)
    requires Round(links, before, queued, affected, queue)
    requires forall l :: l in links && l.from in before ==> l.to in before || l.to in queued
    requires forall l :: l in links && l.from == queued[0] ==> l.to in affected || l.to in queue
    ensures forall l :: l in links && l.from in affected ==> l.to in affected || l.to in queue
  {
    forall l | l in links && l.from in affected ensures l.to in affected || l.to in queue {
      if l.from != queued[0] && l.to !in affected {
        RoundKeepsQueued(links, before, queued, affected, queue, l.to);
      }
    }
  }

  /** A round either marks a new id of the universe or leaves the marks alone and consumes a
      queue entry that was already marked. */
  lemma RoundDecreases(links: seq<Link>, universe: set<string>, before: set<string>,
                       queued: seq<string>, affected: set<string>, queue: seq<string>)
    requires Round(links, before, queued, affected, queue)
    requires queued[0] in universe
    ensures |universe - affected| < |universe - before| ||
            (|universe - affected| == |universe - before| && CountIn(queue, affected) < CountIn(queued, before))
  {
    var n := |queued| - 1;
    var rest := queued[1..];
    assert queue == rest + queue[n..];
    CountInAppendFresh(rest, queue[n..], affected);
    if queued[0] !in before {
      assert universe - before == (universe - affected) + {queued[0]};
      assert queued[0] !in universe - affected;
    } else {
      assert affected == before;
      assert CountIn(queued, before) == 1 + CountIn(rest, before);
    }
  }

  // ---------------------------------------------------------------------------------------------
  // getAffectedLinks

  /** The key a link is highlighted under: `${from}-${to}`, which splits back into the two ids at
      position `|from|`. */
  function LinkKey(l: Link): (k: string)
    ensures |k| == |l.from| + 1 + |l.to|
    ensures k[..|l.from|] == l.from && k[|l.from|] == '-' && k[|l.from| + 1..] == l.to
  {
    var k := l.from + "-" + l.to;
    assert k[|l.from| + 1..] == l.to;
    k
  }

  /** Keys tell links apart as long as the source ids contain no `-`, as the shipped ones do. */
  lemma LinkKeyInjective(a: Link, b: Link)
    requires '-' !in a.from && '-' !in b.from
    requires LinkKey(a) == LinkKey(b)
    ensures a == b
  {
  }

  /** `l` is one of `links` and both its ends are affected. */
  predicate Induced(links: seq<Link>, affected: set<string>, l: Link) {
    l in links && l.from in affected && l.to in affected
  }

  /** `k` is the key of a link whose two ends are affected. */
  ghost predicate InducedKey(links: seq<Link>, affected: set<string>, k: string) {
    exists l :: Induced(links, affected, l) && LinkKey(l) == k
  }

  /** getAffectedLinks: the keys of exactly those links whose two ends are both in `affected`. */
  method AffectedLinks(links: seq<Link>, affected: set<string>) returns (keys: set<string>)
    ensures forall l :: Induced(links, affected, l) ==> LinkKey(l) in keys
    ensures forall k :: k in keys <==> InducedKey(links, affected, k)
  {
    keys := {};
    for i := 0 to |links|
      invariant forall j :: 0 <= j < i && links[j].from in affected && links[j].to in affected ==>
                              LinkKey(links[j]) in keys
      invariant forall k :: k in keys ==> InducedKey(links, affected, k)
    {
      var link := links[i];
      if link.from in affected && link.to in affected {
        assert Induced(links, affected, link);
        keys := keys + {LinkKey(link)};
      }
    }
    forall l | Induced(links, affected, l) ensures LinkKey(l) in keys {
      var j :| 0 <= j < |links| && links[j] == l;
    }
  }

  // ---------------------------------------------------------------------------------------------
  // The component: selection, highlights and sublabels

  /** The new `activeId` after a click on `node`: only upstream nodes react; clicking the selected
      node clears the selection, clicking another selects it. */
  function NextActive(active: Option<string>, node: ChainNode): (r: Option<string>)
    ensures r != active ==> node.tier == Upstream
    ensures node.tier == Upstream ==> (r.None? <==> active == Some(node.id))
    ensures node.tier == Upstream && active != Some(node.id) ==> r == Some(node.id)
  {
    if node.tier != Upstream then active
    else if active == Some(node.id) then None
    else Some(node.id)
  }

  /** Clicking the same upstream node twice returns to the selection before the first click when
      that was nothing or this node; from another node's selection it ends with nothing selected. */
  lemma ClickTwice(active: Option<string>, node: ChainNode)
    requires node.tier == Upstream
    ensures NextActive(NextActive(active, node), node) ==
            if active == Some(node.id) then active else None
  {
  }

  datatype Impact = Impact(cogs: string, margin: string)

  /** The replacement sublabels of the two financial nodes, per upstream node. */
  const ImpactText: map<string, Impact> := map[
    "silicon" := Impact("+4.1% 硅片成本上升", "毛利率预计下降 1.8pp"),
    "steel" := Impact("+2.6% 零部件成本上升", "毛利率预计下降 0.9pp"),
    "copper" := Impact("-0.8% 线缆成本下降", "毛利率预计回升 0.4pp")
  ]

  /** The sublabel drawn for `node`: its static one, except that `cogs` and `margin` take their
      line of `ImpactText` when the active id has an entry there. */
  function Sublabel(active: Option<string>, node: ChainNode): (r: string)
    ensures r != node.sublabel ==> Truthy(active) && active.value in ImpactText &&
                                   (node.id == "cogs" || node.id == "margin")
    ensures Truthy(active) && active.value in ImpactText && node.id == "cogs" ==>
              r == ImpactText[active.value].cogs
    ensures Truthy(active) && active.value in ImpactText && node.id == "margin" ==>
              r == ImpactText[active.value].margin
  {
    var overridden := Truthy(active) && active.value in ImpactText;
    var s := if overridden && node.id == "cogs" then ImpactText[active.value].cogs else node.sublabel;
    if overridden && node.id == "margin" then ImpactText[active.value].margin else s
  }

  /** `nodes.find(n => n.id === activeId)`: the node described in the callout. */
  function ActiveNode(active: Option<string>): (r: Option<ChainNode>)
    ensures r.Some? ==> Truthy(active) && r.value in Nodes && r.value.id == active.value
    ensures Truthy(active) && (exists n :: n in Nodes && n.id == active.value) ==> r.Some?
  {
    if Truthy(active) then Find(Nodes, (n: ChainNode) => n.id == active.value) else None
  }

  class SupplyChainDemo {
    var activeId: Option<string>

    constructor ()
      ensures activeId == None
    {
      activeId := None;
    }

    /** The node's click handler (`isClickable && setActiveId(isSelected ? null : node.id)`). */
    method ClickNode(node: ChainNode)
      modifies this
      ensures activeId == NextActive(old(activeId), node)
    {
      if node.tier == Upstream {
        activeId := if activeId == Some(node.id) then None else Some(node.id);
      }
    }

    /** The derived `affected` and `affectedLinks` sets of a render. */
    method Highlights() returns (affected: set<string>, affectedLinks: set<string>)
      ensures !Truthy(activeId) ==> affected == {} && affectedLinks == {}
      ensures Truthy(activeId) ==> forall t :: t in affected <==> Reachable(Links, activeId.value, t)
      ensures Truthy(activeId) ==> forall l :: Induced(Links, affected, l) ==> LinkKey(l) in affectedLinks
      ensures Truthy(activeId) ==> forall k :: k in affectedLinks <==> InducedKey(Links, affected, k)
    {
      if Truthy(activeId) {
        affected := AffectedNodes(Links, activeId.value);
        affectedLinks := AffectedLinks(Links, affected);
      } else {
        affected, affectedLinks := {}, {};
      }
    }
  }

  // ---------------------------------------------------------------------------------------------
  // Facts about the shipped graph

  /** Every link joins two declared nodes. */
  lemma LinksJoinDeclaredNodes()
    ensures forall l :: l in Links ==> (exists n :: n in Nodes && n.id == l.from) &&
                                       (exists n :: n in Nodes && n.id == l.to)
  {
    forall l | l in Links
      ensures (exists n :: n in Nodes && n.id == l.from) && (exists n :: n in Nodes && n.id == l.to)
    {
      var i :| 0 <= i < |Links| && Links[i] == l;
      if i == 0 { assert Nodes[0].id == l.from && Nodes[3].id == l.to; }
      else if i == 1 { assert Nodes[1].id == l.from && Nodes[4].id == l.to; }
      else if i == 2 { assert Nodes[2].id == l.from && Nodes[4].id == l.to; }
      else if i == 3 { assert Nodes[3].id == l.from && Nodes[5].id == l.to; }
      else if i == 4 { assert Nodes[4].id == l.from && Nodes[5].id == l.to; }
      else { assert Nodes[5].id == l.from && Nodes[6].id == l.to; }
    }
  }

  /** With no link leaving `s`, only `s` itself is reachable. */
  lemma NoLinkOutOnlyItself(links: seq<Link>, s: string)
    requires forall l :: l in links ==> l.from != s
    ensures forall t :: Reachable(links, s, t) <==> t == s
  {
    ReachableRefl(links, s);
    forall t | Reachable(links, s, t) ensures t == s {
      ClosedHoldsReachable(links, {s}, s, t);
    }
  }

  /** An id that is not a declared node affects only itself: the traversal never consults
      `Nodes`, so no error is raised for it. */
  lemma UnknownIdAffectsOnlyItself(id: string)
    requires forall n :: n in Nodes ==> n.id != id
    ensures forall t :: Reachable(Links, id, t) <==> t == id
  {
    LinksJoinDeclaredNodes();
    NoLinkOutOnlyItself(Links, id);
  }

  /** A walk whose entries form a closed set determines exactly what its first entry reaches. */
  lemma ExactReach(links: seq<Link>, p: seq<string>, inside: set<string>)
    requires |p| > 0 && IsWalk(links, p) && Closed(links, inside)
    requires forall t :: t in inside <==> t in p
    ensures forall t :: Reachable(links, p[0], t) <==> t in inside
  {
    WalkReaches(links, p);
    forall t | t in inside ensures Reachable(links, p[0], t) {
      var k :| 0 <= k < |p| && p[k] == t;
    }
    forall t | Reachable(links, p[0], t) ensures t in inside {
      ClosedHoldsReachable(links, inside, p[0], t);
    }
  }

  /** From `silicon` the impact reaches exactly `silicon`, `wafer`, `cogs` and `margin`. */
  lemma SiliconReach()
    ensures forall t :: Reachable(Links, "silicon", t) <==> t in {"silicon", "wafer", "cogs", "margin"}
  {
    var p := ["silicon", "wafer", "cogs", "margin"];
    assert IsWalk(Links, p) by {
      assert Link(p[0], p[1]) == Links[0] && Link(p[1], p[2]) == Links[3] && Link(p[2], p[3]) == Links[5];
    }
    var inside := {"silicon", "wafer", "cogs", "margin"};
    assert Closed(Links, inside) by {
      forall l | l in Links && l.from in inside ensures l.to in inside {
        var i :| 0 <= i < |Links| && Links[i] == l;
      }
    }
    ExactReach(Links, p, inside);
  }

  /** ... and highlights exactly the links `silicon-wafer`, `wafer-cogs` and `cogs-margin`;
      `parts-cogs` is not among them. */
  lemma SiliconInducedLinks()
    ensures forall l :: Induced(Links, {"silicon", "wafer", "cogs", "margin"}, l) <==>
                        l in [Link("silicon", "wafer"), Link("wafer", "cogs"), Link("cogs", "margin")]
  {
    var a := {"silicon", "wafer", "cogs", "margin"};
    assert Induced(Links, a, Links[0]) && Induced(Links, a, Links[3]) && Induced(Links, a, Links[5]);
  }

  /** The keys highlighted on that set are exactly those of the three links. */
  lemma SiliconLinks()
    ensures forall k :: InducedKey(Links, {"silicon", "wafer", "cogs", "margin"}, k) <==>
                        k in {"silicon-wafer", "wafer-cogs", "cogs-margin"}
  {
    SiliconInducedLinks();
    assert LinkKey(Links[0]) == "silicon-wafer";
    assert LinkKey(Links[3]) == "wafer-cogs";
    assert LinkKey(Links[5]) == "cogs-margin";
  }

  /** From `copper` the impact reaches exactly `copper`, `parts`, `cogs` and `margin`. */
  lemma CopperReach()
    ensures forall t :: Reachable(Links, "copper", t) <==> t in {"copper", "parts", "cogs", "margin"}
  {
    var p := ["copper", "parts", "cogs", "margin"];
    assert IsWalk(Links, p) by {
      assert Link(p[0], p[1]) == Links[2] && Link(p[1], p[2]) == Links[4] && Link(p[2], p[3]) == Links[5];
    }
    var inside := {"copper", "parts", "cogs", "margin"};
    assert Closed(Links, inside) by {
      forall l | l in Links && l.from in inside ensures l.to in inside {
        var i :| 0 <= i < |Links| && Links[i] == l;
      }
    }
    ExactReach(Links, p, inside);
  }

  /** From `cogs` the impact goes forward only: exactly `cogs` and `margin`. */
  lemma CogsReach()
    ensures forall t :: Reachable(Links, "cogs", t) <==> t in {"cogs", "margin"}
  {
    var p := ["cogs", "margin"];
    assert IsWalk(Links, p) by {
      assert Link(p[0], p[1]) == Links[5];
    }
    var inside := {"cogs", "margin"};
    assert Closed(Links, inside) by {
      forall l | l in Links && l.from in inside ensures l.to in inside {
        var i :| 0 <= i < |Links| && Links[i] == l;
      }
    }
    ExactReach(Links, p, inside);
  }

  /** `margin` has no outgoing link: it affects only itself. */
  lemma MarginReach()
    ensures forall t :: Reachable(Links, "margin", t) <==> t == "margin"
  {
    NoLinkOutOnlyItself(Links, "margin");
  }

  /** On the cycle `a -> b -> c -> a` the traversal from `a` reaches exactly the three nodes. */
  lemma CycleReach()
    ensures forall t :: Reachable([Link("a", "b"), Link("b", "c"), Link("c", "a")], "a", t) <==>
                        t in {"a", "b", "c"}
  {
    var links := [Link("a", "b"), Link("b", "c"), Link("c", "a")];
    var p := ["a", "b", "c"];
    assert IsWalk(links, p) by {
      assert Link(p[0], p[1]) == links[0] && Link(p[1], p[2]) == links[1];
    }
    var inside := {"a", "b", "c"};
    assert Closed(links, inside) by {
      forall l | l in links && l.from in inside ensures l.to in inside {
        var i :| 0 <= i < |links| && links[i] == l;
      }
    }
    ExactReach(links, p, inside);
  }
}
