/** The table of nodes that server selection works on (updateBssNodes, pkg/lb/httpbackend.go). */
module NodeTable {
  import opened Backends

  // ---- the order of Go strings -------------------------------------------------------------------------------------

  predicate Less(a: string, b: string) {
    b != "" && (a == "" || a[0] < b[0] || (a[0] == b[0] && Less(a[1..], b[1..])))
  }

  /** At position k the strings differ for the first time, and the first one is smaller there. */
  predicate SmallerAt(a: string, b: string, k: nat) {
    k < |a| && k < |b| && a[..k] == b[..k] && a[k] < b[k]
  }

  lemma SmallerLater(a: string, b: string, k: nat)
    requires a != "" && b != "" && a[0] == b[0]
    ensures SmallerAt(a, b, k + 1) <==> SmallerAt(a[1..], b[1..], k)
    ensures !SmallerAt(a, b, 0) && (a < b <==> a[1..] < b[1..])
  {
    assert a == [a[0]] + a[1..] && b == [b[0]] + b[1..];
    if k < |a| - 1 && k < |b| - 1 {
      assert a[..k + 1] == [a[0]] + a[1..][..k] && b[..k + 1] == [b[0]] + b[1..][..k];
      assert a[1..][..k] == a[..k + 1][1..] && b[1..][..k] == b[..k + 1][1..];
    }
  }

  /** A string comes before another if it is a proper beginning of it, or is smaller at the first place where they differ. */
  lemma {:induction false} LessIs(a: string, b: string)
    ensures Less(a, b) <==> (a < b || exists k: nat :: SmallerAt(a, b, k))
  {
    if a != "" && b != "" {
      if a[0] == b[0] {
        hide SmallerAt;
        LessIs(a[1..], b[1..]);
        forall k: nat
          ensures SmallerAt(a, b, k + 1) <==> SmallerAt(a[1..], b[1..], k)
          ensures !SmallerAt(a, b, 0) && (a < b <==> a[1..] < b[1..])
        {
          SmallerLater(a, b, k);
        }
        if k: nat :| SmallerAt(a, b, k) {
          SmallerLater(a, b, 0);
          assert k > 0 && SmallerAt(a[1..], b[1..], k - 1);
        }
      } else if a[0] < b[0] {
        assert SmallerAt(a, b, 0);
      } else {
        assert forall k: nat :: SmallerAt(a, b, k) ==> k > 0 ==> a[..k][0] == b[..k][0];
      }
    }
  }

  lemma {:induction false} LessTransitive(a: string, b: string, c: string)
    requires Less(a, b) && Less(b, c)
    ensures Less(a, c)
  {
    if a != "" && a[0] == b[0] && b[0] == c[0] {
      LessTransitive(a[1..], b[1..], c[1..]);
    }
  }

  lemma {:induction false} LessTotal(a: string, b: string)
    ensures Less(a, b) || a == b || Less(b, a)
    ensures !(Less(a, b) && Less(b, a)) && !Less(a, a)
  {
    if a != "" && b != "" && a[0] == b[0] {
      LessTotal(a[1..], b[1..]);
      LessTotal(a[1..], a[1..]);
      assert a == [a[0]] + a[1..] && b == [b[0]] + b[1..];
    } else if a != "" {
      LessTotal(a[1..], a[1..]);
    }
  }

  predicate Increasing(xs: seq<string>) {
    forall i, j :: 0 <= i < j < |xs| ==> Less(xs[i], xs[j])
  }

  lemma HasFirst(xs: seq<string>)
    ensures xs == [] || xs[0] in xs
  {
  }

  /** Two increasing lists of the same strings are the same list. */
  lemma {:induction false} IncreasingUnique(xs: seq<string>, ys: seq<string>)
    requires Increasing(xs) && Increasing(ys) && forall x :: x in xs <==> x in ys
    ensures xs == ys
  {
    if xs == [] {
      HasFirst(ys);
    } else {
      assert xs[0] in ys;
      FirstIsLeast(xs, ys);
      FirstIsLeast(ys, xs);
      LessTotal(xs[0], ys[0]);
      forall x ensures x in xs[1..] <==> x in ys[1..] {
        RestHolds(xs, x);
        RestHolds(ys, x);
      }
      IncreasingUnique(xs[1..], ys[1..]);
    }
  }

  lemma FirstIsLeast(xs: seq<string>, ys: seq<string>)
    requires Increasing(xs) && xs != [] && ys != [] && ys[0] in xs
    ensures xs[0] == ys[0] || Less(xs[0], ys[0])
  {
  }

  lemma RestHolds(xs: seq<string>, x: string)
    requires Increasing(xs) && xs != []
    ensures x in xs[1..] <==> x in xs && x != xs[0]
  {
    LessTotal(xs[0], xs[0]);
    if x in xs && x != xs[0] {
      var i :| 0 <= i < |xs| && xs[i] == x;
      assert xs[1..][i - 1] == x;
    }
    assert forall i :: 0 < i < |xs| ==> Less(xs[0], xs[i]);
  }

  /** sort.Sort of a string list without repetitions. */
  function Insert(x: string, xs: seq<string>): (r: seq<string>)
    requires Increasing(xs) && x !in xs
    ensures Increasing(r) && forall y :: y in r <==> y == x || y in xs
  {
    if xs == [] then [x]
    else if Less(x, xs[0]) then
      assert forall i :: 0 < i < |xs| ==> Less(xs[0], xs[i]);
      assert forall i :: 0 < i < |xs| ==> Less(x, xs[i]) by {
        forall i | 0 < i < |xs| ensures Less(x, xs[i]) { LessTransitive(x, xs[0], xs[i]); }
      }
      [x] + xs
    else
      LessTotal(x, xs[0]);
      var rest := Insert(x, xs[1..]);
      assert forall y :: y in rest ==> Less(xs[0], y);
      assert xs == [xs[0]] + xs[1..];
      [xs[0]] + rest
  }

  predicate Distinct<T(==)>(xs: seq<T>) {
    forall i, j :: 0 <= i < j < |xs| ==> xs[i] != xs[j]
  }

  function Sort(xs: seq<string>): (r: seq<string>)
    requires Distinct(xs)
    ensures Increasing(r) && forall y :: y in r <==> y in xs
  {
    if xs == [] then []
    else
      assert xs == [xs[0]] + xs[1..];
      Insert(xs[0], Sort(xs[1..]))
  }

  // ---- the table ---------------------------------------------------------------------------------------------------

  datatype Node = Node(seed: nat, weight: nat, data: BackendServer)

  /** The table for some servers: one node each, in the order of their names and numbered from 0, weightless if the
      server is not healthy. */
  ghost predicate IsTable(nodes: seq<Node>, bss: map<string, BackendServer>, healthy: set<BackendServer>) {
    && (forall i :: 0 <= i < |nodes| ==> nodes[i].data in bss.Values)
    && (forall k :: k in bss ==> exists i :: 0 <= i < |nodes| && nodes[i].data == bss[k])
    && (forall i, j :: 0 <= i < j < |nodes| ==> Less(nodes[i].data.server, nodes[j].data.server))
    && (forall i :: 0 <= i < |nodes| ==> nodes[i].seed == i)
    && (forall i :: 0 <= i < |nodes| ==> nodes[i].weight == if nodes[i].data in healthy then nodes[i].data.weight else 0)
  }

  lemma TableIs(nodes: seq<Node>, bss: map<string, BackendServer>, healthy: set<BackendServer>)
    requires IsTable(nodes, bss, healthy)
    ensures forall i :: 0 <= i < |nodes| ==> nodes[i].data in bss.Values
    ensures forall k :: k in bss ==> exists i :: 0 <= i < |nodes| && nodes[i].data == bss[k]
    ensures forall i, j :: 0 <= i < j < |nodes| ==> Less(nodes[i].data.server, nodes[j].data.server)
    ensures forall i :: 0 <= i < |nodes| ==>
              nodes[i].seed == i && nodes[i].weight == if nodes[i].data in healthy then nodes[i].data.weight else 0
  {
    hide Less;
  }

  ghost predicate NamedBy(bss: map<string, BackendServer>) {
    forall k :: k in bss ==> bss[k].server == k
  }

  function Names(nodes: seq<Node>): seq<string> {
    seq(|nodes|, i requires 0 <= i < |nodes| => nodes[i].data.server)
  }

  lemma NamesOf(nodes: seq<Node>, bss: map<string, BackendServer>, healthy: set<BackendServer>)
    requires IsTable(nodes, bss, healthy) && NamedBy(bss)
    ensures Increasing(Names(nodes)) && forall k :: k in Names(nodes) <==> k in bss
  {
    forall k | k in bss ensures k in Names(nodes) {
      var i :| 0 <= i < |nodes| && nodes[i].data == bss[k];
      assert Names(nodes)[i] == k;
    }
  }

  /** The table does not depend on how the map was walked, and two health states of one set of servers give tables that
      differ in weights only. */
  lemma TableIsCanonical(a: seq<Node>, b: seq<Node>, bss: map<string, BackendServer>,
                         healthyA: set<BackendServer>, healthyB: set<BackendServer>)
    requires NamedBy(bss) && IsTable(a, bss, healthyA) && IsTable(b, bss, healthyB)
    ensures |a| == |b|
    ensures forall i :: 0 <= i < |a| ==> a[i].data == b[i].data && a[i].seed == b[i].seed
    ensures forall i :: 0 <= i < |a| && (a[i].data in healthyA <==> a[i].data in healthyB) ==> a[i] == b[i]
    ensures healthyA == healthyB ==> a == b
  {
    NamesOf(a, bss, healthyA);
    NamesOf(b, bss, healthyB);
    IncreasingUnique(Names(a), Names(b));
    assert |Names(a)| == |a| && |Names(b)| == |b|;
    forall i | 0 <= i < |a| ensures a[i].data == b[i].data && a[i].seed == b[i].seed {
      assert Names(a)[i] == Names(b)[i];
      assert a[i].data == bss[a[i].data.server] && b[i].data == bss[b[i].data.server];
    }
  }

  /** updateBssNodes.  `walk` is the order in which the map happens to be iterated, `healthy` what the health checks said
      during the walk. */
  method UpdateBssNodes(b: HTTPBackend, walk: seq<string>, healthy: set<BackendServer>) returns (nodes: seq<Node>)
    requires b.Valid() && Distinct(walk) && forall k :: k in walk <==> k in b.bss
    ensures forall i :: 0 <= i < |nodes| ==> nodes[i].data in b.bss.Values
    ensures forall k :: k in b.bss ==> exists i :: 0 <= i < |nodes| && nodes[i].data == b.bss[k]
    ensures forall i, j :: 0 <= i < j < |nodes| ==> Less(nodes[i].data.server, nodes[j].data.server)
    ensures forall i :: 0 <= i < |nodes| ==>
              nodes[i].seed == i && nodes[i].weight == if nodes[i].data in healthy then nodes[i].data.weight else 0
    ensures IsTable(nodes, b.bss, healthy)
  {
    hide Less, Increasing, IsTable;
    var serverList: seq<string> := [];
    var healthyMap: map<string, BackendServer> := map[];
    for i := 0 to |walk|
      invariant serverList == walk[..i]
      invariant forall k :: k in healthyMap <==> k in walk[..i] && k in b.bss && b.bss[k] in healthy
      invariant forall k :: k in healthyMap ==> k in b.bss && healthyMap[k] == b.bss[k]
    {
      assert walk[i] in walk;
      assert walk[..i + 1] == walk[..i] + [walk[i]];
      var bsr := b.bss[walk[i]];
      serverList := serverList + [bsr.server];
      if bsr !in healthy {
        continue;
      }
      healthyMap := healthyMap[bsr.server := bsr];
    }
    assert walk[..|walk|] == walk;
    serverList := Sort(serverList);
    nodes := [];
    var seed := 0;
    for i := 0 to |serverList|
      invariant |nodes| == i == seed
      invariant forall j :: 0 <= j < i ==> serverList[j] in b.bss && nodes[j] == NodeFor(j, serverList[j], b.bss, healthy)
    {
      var server := serverList[i];
      assert server in serverList && server in b.bss;
      var weight := 0;
      if server in healthyMap {
        weight := healthyMap[server].weight;
      }
      nodes := nodes + [Node(seed, weight, b.bss[server])];
      seed := seed + 1;
    }
    Assemble(nodes, serverList, b.bss, healthy);
    TableIs(nodes, b.bss, healthy);
  }

  ghost function NodeFor(i: nat, k: string, bss: map<string, BackendServer>, healthy: set<BackendServer>): Node
    requires k in bss
  {
    Node(i, if bss[k] in healthy then bss[k].weight else 0, bss[k])
  }

  lemma Assemble(nodes: seq<Node>, names: seq<string>, bss: map<string, BackendServer>, healthy: set<BackendServer>)
    requires NamedBy(bss) && Increasing(names) && |nodes| == |names| && forall k :: k in bss <==> k in names
    requires forall j :: 0 <= j < |names| ==> names[j] in bss && nodes[j] == NodeFor(j, names[j], bss, healthy)
    ensures IsTable(nodes, bss, healthy)
  {
    hide Less;
    forall k | k in bss ensures exists i :: 0 <= i < |nodes| && nodes[i].data == bss[k] {
      var i :| 0 <= i < |names| && names[i] == k;
      assert nodes[i].data == bss[k];
    }
  }
}
