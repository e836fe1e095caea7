/** Choosing a server for a request (findServer, pkg/lb/httpbackend.go).  The candidates that the hashing library draws
    from the node table are a parameter, and so is one snapshot of the servers' active connections. */
module Selection {
  import opened Options
  import opened Backends
  import opened NodeTable

  datatype Mode = RoundRobin | LeastConn | AffinityKey

  type Counts = BackendServer -> nat

  /** How many nodes the affinity mode asks for, out of n. */
  function MaxServers(opt: int, n: nat): nat {
    if opt == 0 then 1 else if opt < 0 || opt > n then n else opt
  }

  function AtLeastOne(n: nat): (r: nat)
    ensures r >= 1 && r >= n && (n >= 1 ==> r == n) && (n == 0 ==> r == 1)
  {
    if n == 0 then 1 else n
  }

  // ---- what is promised --------------------------------------------------------------------------------------------

  /** The first of the least loaded nodes among c[..n]. */
  ghost predicate Best(c: seq<Node>, n: nat, count: Counts, k: nat)
    requires n <= |c|
  {
    && k < n
    && (forall j :: 0 <= j < n ==> count(c[k].data) <= count(c[j].data))
    && (forall j :: 0 <= j < k ==> count(c[k].data) < count(c[j].data))
  }

  /** The length of the longest prefix of nodes that have weight. */
  function Weighty(c: seq<Node>): (n: nat)
    ensures n <= |c| && (forall i :: 0 <= i < n ==> c[i].weight > 0) && (n < |c| ==> c[n].weight == 0)
  {
    if c == [] || c[0].weight == 0 then 0 else 1 + Weighty(c[1..])
  }

  /** With threshold t the scan moves from a node to the next while that has less than a t-th of its load. */
  ghost predicate Drops(c: seq<Node>, t: nat, count: Counts, i: nat)
    requires 1 <= i < |c|
  {
    count(c[i - 1].data) > t * AtLeastOne(count(c[i].data))
  }

  /** The scan comes as far as node k. */
  ghost predicate Reaches(c: seq<Node>, t: nat, count: Counts, k: nat) {
    k < |c| && (forall i :: 0 <= i <= k ==> c[i].weight > 0) && forall i :: 1 <= i <= k ==> Drops(c, t, count, i)
  }

  /** What the affinity scan chooses: without a threshold the best of the weighty prefix, with one the last node that
      the scan reaches. */
  ghost predicate Chosen(c: seq<Node>, t: nat, count: Counts, k: nat) {
    if t == 0 then Best(c, Weighty(c), count, k) else Reaches(c, t, count, k) && !Reaches(c, t, count, k + 1)
  }

  // ---- the scan ----------------------------------------------------------------------------------------------------

  /** The affinity branch of findServer, over the candidates in the order given. */
  method Affinity(c: seq<Node>, threshold: int, count: Counts) returns (bs: Option<BackendServer>, ghost k: nat)
    ensures bs == None <==> c == [] || c[0].weight == 0
    ensures bs.Some? ==> k < |c| && bs.value == c[k].data && forall i :: 0 <= i <= k ==> c[i].weight > 0
    ensures bs.Some? && threshold <= 0 ==>
              forall j :: 0 <= j < |c| && (forall i :: 0 <= i <= j ==> c[i].weight > 0) ==>
                count(c[k].data) <= count(c[j].data) && (j < k ==> count(c[k].data) < count(c[j].data))
    ensures bs.Some? && threshold > 0 ==>
              && (forall i :: 0 < i <= k ==> count(c[i - 1].data) > threshold * AtLeastOne(count(c[i].data)))
              && (k + 1 < |c| && c[k + 1].weight > 0 ==> count(c[k].data) <= threshold * AtLeastOne(count(c[k + 1].data)))
    ensures bs.Some? ==> Chosen(c, if threshold < 0 then 0 else threshold, count, k)
  {
    var t: nat := if threshold < 0 then 0 else threshold;
    bs, k := None, 0;
    var i := 0;
    while i < |c|
      invariant 0 <= i <= |c| && i <= Weighty(c)
      invariant bs == None <==> i == 0
      invariant bs.Some? ==> k < i && bs.value == c[k].data && Best(c, i, count, k)
      invariant bs.Some? && t > 0 ==> k == i - 1 && Reaches(c, t, count, k)
    {
      var node := c[i];
      if node.weight <= 0 {
        break;
      }
      var bsr := node.data;
      if bs != None {
        var oldCount, newCount := count(bs.value), count(bsr);
        if newCount <= 0 {
          newCount := 1;
        }
        if oldCount <= t * newCount {
          Stops(c, t, count, i, k);
          ChosenMeans(c, t, count, k);
          return;
        }
        Goes(c, t, count, i, k);
      }
      if bs == None || count(bs.value) > count(bsr) {
        bs, k := Some(bsr), i;
      }
      i := i + 1;
    }
    assert i == Weighty(c);
    if bs.Some? {
      ChosenMeans(c, t, count, k);
    }
  }

  lemma ChosenMeans(c: seq<Node>, t: nat, count: Counts, k: nat)
    requires Chosen(c, t, count, k)
    ensures k < |c| && forall i :: 0 <= i <= k ==> c[i].weight > 0
    ensures t == 0 ==>
              forall j :: 0 <= j < |c| && (forall i :: 0 <= i <= j ==> c[i].weight > 0) ==>
                count(c[k].data) <= count(c[j].data) && (j < k ==> count(c[k].data) < count(c[j].data))
    ensures t > 0 ==>
              && (forall i :: 0 < i <= k ==> count(c[i - 1].data) > t * AtLeastOne(count(c[i].data)))
              && (k + 1 < |c| && c[k + 1].weight > 0 ==> count(c[k].data) <= t * AtLeastOne(count(c[k + 1].data)))
  {
    if t > 0 {
      forall i | 0 < i <= k ensures count(c[i - 1].data) > t * AtLeastOne(count(c[i].data)) {
        assert Drops(c, t, count, i);
      }
      if k + 1 < |c| && c[k + 1].weight > 0 && Drops(c, t, count, k + 1) {
        assert Reaches(c, t, count, k + 1);
      }
    }
  }

  lemma Stops(c: seq<Node>, t: nat, count: Counts, i: nat, k: nat)
    requires k < i < |c| && i < Weighty(c) && Best(c, i, count, k) && (t > 0 ==> k == i - 1 && Reaches(c, t, count, k))
    requires count(c[k].data) <= t * AtLeastOne(count(c[i].data))
    ensures Chosen(c, t, count, k)
  {
    if t > 0 {
      assert Reaches(c, t, count, k + 1) ==> Drops(c, t, count, i);
    } else {
      Times(AtLeastOne(count(c[i].data)), t, 0);
      assert count(c[k].data) == 0;
      hide AtLeastOne;
    }
  }

  /** Where the scan goes on, a threshold makes the next node strictly better. */
  lemma Goes(c: seq<Node>, t: nat, count: Counts, i: nat, k: nat)
    requires k < i < |c| && i < Weighty(c) && (t > 0 ==> k == i - 1 && Reaches(c, t, count, k))
    requires count(c[k].data) > t * AtLeastOne(count(c[i].data))
    ensures t > 0 ==> count(c[k].data) > count(c[i].data) && Reaches(c, t, count, i)
  {
    if t > 0 {
      Times(AtLeastOne(count(c[i].data)), 1, t);
      assert Drops(c, t, count, i);
    }
  }

  /** findServer.  `draw` is what the hashing library returns when it is asked for a number of nodes: no more than that.  Round
      robin asks for one, affinity for the configured number, where zero stands for one and a negative one for all. */
  method FindServer(mode: Mode, nodes: seq<Node>, draw: nat -> seq<Node>, maxServers: int, threshold: int, count: Counts)
    returns (bs: Option<BackendServer>, ghost k: nat)
    requires mode == RoundRobin ==> |draw(1)| == 1
    requires forall n :: |draw(n)| <= n
    ensures mode == RoundRobin ==> bs == if draw(1)[0].weight > 0 then Some(draw(1)[0].data) else None
    ensures mode == LeastConn ==> (bs == None <==> nodes == [])
    ensures mode == LeastConn && bs.Some? ==>
              && k < |nodes| && bs == Some(nodes[k].data)
              && (forall j :: 0 <= j < |nodes| ==> count(nodes[k].data) <= count(nodes[j].data))
              && (forall j :: 0 <= j < k ==> count(nodes[k].data) < count(nodes[j].data))
    ensures mode == AffinityKey ==>
              var m := if maxServers == 0 then 1 else if maxServers < 0 || maxServers > |nodes| then |nodes| else maxServers;
              if draw(m) == [] || draw(m)[0].weight == 0 then bs == None
              else Chosen(draw(m), if threshold < 0 then 0 else threshold, count, k)
                   && k < m && k < |draw(m)| && bs == Some(draw(m)[k].data)
  {
    bs, k := None, 0;
    match mode
    case RoundRobin =>
      var node := draw(1)[0];
      if node.weight > 0 {
        bs := Some(node.data);
      }
    case LeastConn =>
      var i := 0;
      while i < |nodes|
        invariant 0 <= i <= |nodes|
        invariant bs == None <==> i == 0
        invariant bs.Some? ==> k < i && bs.value == nodes[k].data && Best(nodes, i, count, k) && count(bs.value) > 0
      {
        var bsr := nodes[i].data;
        if count(bsr) == 0 {
          bs, k := Some(bsr), i;
          break;
        }
        if bs == None || count(bs.value) > count(bsr) {
          bs, k := Some(bsr), i;
        }
        i := i + 1;
      }
    case AffinityKey =>
      bs, k := Affinity(draw(MaxServers(maxServers, |nodes|)), threshold, count);
  }

  /** The candidates drawn from the table, by their positions, of which those that the table has count. */
  function Drawn(nodes: seq<Node>, positions: seq<nat>): (r: seq<Node>)
    ensures |r| <= |positions| && forall n :: n in r ==> n in nodes
    ensures (forall i :: 0 <= i < |positions| ==> positions[i] < |nodes|) ==>
              |r| == |positions| && forall i :: 0 <= i < |positions| ==> r[i] == nodes[positions[i]]
  {
    if positions == [] then []
    else (if positions[0] < |nodes| then [nodes[positions[0]]] else []) + Drawn(nodes, positions[1..])
  }

  /** Healthy, and configured with a weight. */
  ghost predicate Fit(s: BackendServer, healthy: set<BackendServer>) {
    s in healthy && s.weight > 0
  }

  /** Less loaded, or equally loaded and earlier by name. */
  ghost predicate Ahead(a: BackendServer, b: BackendServer, count: Counts) {
    count(a) < count(b) || (count(a) == count(b) && Less(a.server, b.server))
  }

  /** A table built from the backend's servers and a choice from it: the server is one of the backend's; unless the least
      connections decide it is healthy with a weight, and if they do, exactly when each server that is not has one that is
      ahead of it. */
  method Choose(b: HTTPBackend, walk: seq<string>, healthy: set<BackendServer>, mode: Mode, draw: nat -> seq<nat>,
                maxServers: int, threshold: int, count: Counts) returns (bs: Option<BackendServer>)
    requires b.Valid() && Distinct(walk) && forall k :: k in walk <==> k in b.bss
    requires forall n :: |draw(n)| <= n
    requires mode == RoundRobin ==> |draw(1)| == 1 && draw(1)[0] < |b.bss|
    ensures bs.Some? ==> bs.value in b.bss.Values && b.bss[bs.value.server] == bs.value
    ensures bs.Some? && mode != LeastConn ==> bs.value in healthy && bs.value.weight > 0
    ensures bs.Some? && mode == LeastConn ==>
              (Fit(bs.value, healthy) <==>
               forall n :: n in b.bss && !Fit(b.bss[n], healthy) ==>
                 exists m :: m in b.bss && Fit(b.bss[m], healthy) && Ahead(b.bss[m], b.bss[n], count))
    ensures mode == LeastConn ==> (bs == None <==> b.bss == map[])
    ensures mode == LeastConn && bs.Some? ==> forall k :: k in b.bss ==> count(bs.value) <= count(b.bss[k])
  {
    hide Chosen, Best, Less, Ahead, IsTable, Drawn;
    var nodes := UpdateBssNodes(b, walk, healthy);
    TableSize(nodes, b.bss, healthy);
    ghost var k;
    bs, k := FindServer(mode, nodes, (n: nat) => Drawn(nodes, draw(n)), maxServers, threshold, count);
    match mode
    case RoundRobin =>
      OfTable(nodes, b.bss, healthy, Drawn(nodes, draw(1))[0]);
    case LeastConn =>
      if nodes != [] {
        OfTable(nodes, b.bss, healthy, nodes[k]);
        IsBest(nodes, count, k);
        LeastOfTable(nodes, b.bss, healthy, count, k);
        FitnessOfLeast(nodes, b.bss, healthy, count, k);
      }
    case AffinityKey =>
      if bs.Some? {
        var drawn := Drawn(nodes, draw(MaxServers(maxServers, |nodes|)));
        ChosenUnique(drawn, if threshold < 0 then 0 else threshold, count, k, k);
        OfTable(nodes, b.bss, healthy, drawn[k]);
      }
  }

  lemma IsBest(nodes: seq<Node>, count: Counts, k: nat)
    requires k < |nodes| && forall j :: 0 <= j < |nodes| ==> count(nodes[k].data) <= count(nodes[j].data)
    requires forall j :: 0 <= j < k ==> count(nodes[k].data) < count(nodes[j].data)
    ensures Best(nodes, |nodes|, count, k)
  {
  }

  lemma OfTable(nodes: seq<Node>, bss: map<string, BackendServer>, healthy: set<BackendServer>, n: Node)
    requires NamedBy(bss) && IsTable(nodes, bss, healthy) && n in nodes
    ensures n.data in bss.Values && n.data.server in bss && bss[n.data.server] == n.data
    ensures n.weight > 0 ==> Fit(n.data, healthy)
  {
  }

  lemma TableSize(nodes: seq<Node>, bss: map<string, BackendServer>, healthy: set<BackendServer>)
    requires NamedBy(bss) && IsTable(nodes, bss, healthy)
    ensures |nodes| == |bss|
  {
    NamesOf(nodes, bss, healthy);
    SetOf(Names(nodes));
    assert (set n | n in Names(nodes)) == bss.Keys;
    assert |bss.Keys| == |bss|;
  }

  lemma {:induction false} SetOf(xs: seq<string>)
    requires Increasing(xs)
    ensures |set x | x in xs| == |xs|
  {
    if xs != [] {
      var before, last := xs[..|xs| - 1], xs[|xs| - 1];
      SetOf(before);
      LessTotal(last, last);
      assert last !in before;
      assert (set x | x in xs) == (set x | x in before) + {last};
    }
  }

  lemma LeastOfTable(nodes: seq<Node>, bss: map<string, BackendServer>, healthy: set<BackendServer>, count: Counts, k: nat)
    requires IsTable(nodes, bss, healthy) && Best(nodes, |nodes|, count, k)
    ensures k < |nodes| && forall n :: n in bss ==> count(nodes[k].data) <= count(bss[n])
  {
    forall n | n in bss ensures count(nodes[k].data) <= count(bss[n]) {
      var i :| 0 <= i < |nodes| && nodes[i].data == bss[n];
    }
  }

  lemma FitnessOfLeast(nodes: seq<Node>, bss: map<string, BackendServer>, healthy: set<BackendServer>, count: Counts, k: nat)
    requires NamedBy(bss) && IsTable(nodes, bss, healthy) && Best(nodes, |nodes|, count, k)
    ensures Fit(nodes[k].data, healthy) <==>
            forall n :: n in bss && !Fit(bss[n], healthy) ==>
              exists m :: m in bss && Fit(bss[m], healthy) && Ahead(bss[m], bss[n], count)
  {
    var name := nodes[k].data.server;
    assert bss[name] == nodes[k].data;
    forall n | n in bss && bss[n] != nodes[k].data
      ensures Ahead(bss[name], bss[n], count) && !Ahead(bss[n], bss[name], count)
    {
      var j :| 0 <= j < |nodes| && nodes[j].data == bss[n];
      LessTotal(name, n);
      assert j < k ==> Less(nodes[j].data.server, nodes[k].data.server);
      assert k < j ==> Less(nodes[k].data.server, nodes[j].data.server);
    }
    LessTotal(name, name);
  }

  // ---- what follows ------------------------------------------------------------------------------------------------

  /** The choice is determined by the candidates, the threshold and the counts, and it always has weight. */
  lemma ChosenUnique(c: seq<Node>, t: nat, count: Counts, k: nat, l: nat)
    requires Chosen(c, t, count, k) && Chosen(c, t, count, l)
    ensures k == l && k < |c| && c[k].weight > 0
  {
    if t > 0 {
      if k < l {
        assert Reaches(c, t, count, k + 1);
      } else if l < k {
        assert Reaches(c, t, count, l + 1);
      }
    }
  }

  function Pow(t: nat, k: nat): nat {
    if k == 0 then 1 else t * Pow(t, k - 1)
  }

  /** The load falls along the scan, and by a factor of more than t at every node: going k nodes far takes a first node
      with more than t to the k connections, times what the chosen node has. */
  lemma {:induction false} ScanBound(c: seq<Node>, t: nat, count: Counts, k: nat)
    requires 1 <= t && 1 <= k && Reaches(c, t, count, k)
    ensures count(c[0].data) > Pow(t, k) * AtLeastOne(count(c[k].data)) >= Pow(t, k)
    ensures forall i, j :: 0 <= i < j <= k ==> count(c[i].data) > count(c[j].data)
  {
    Falls(c, t, count, k);
    assert Drops(c, t, count, k);
    var m := AtLeastOne(count(c[k].data));
    if k == 1 {
      assert Pow(t, 1) == t * Pow(t, 0) == t;
    } else {
      ScanBound(c, t, count, k - 1);
      hide Reaches, Drops, AtLeastOne;
      Chain(Pow(t, k - 1), t, m, count(c[k - 1].data));
    }
    Times(Pow(t, k), 1, m);
  }

  lemma Chain(p: nat, t: nat, m: nat, n: nat)
    requires n > t * m
    ensures p * AtLeastOne(n) >= (t * p) * m
  {
    Times(p, t * m, AtLeastOne(n));
    assert p * (t * m) == (t * p) * m;
  }

  lemma {:induction false} Falls(c: seq<Node>, t: nat, count: Counts, k: nat)
    requires 1 <= t && Reaches(c, t, count, k)
    ensures forall i, j :: 0 <= i < j <= k ==> count(c[i].data) > count(c[j].data)
  {
    if k > 0 {
      assert Drops(c, t, count, k);
      Times(AtLeastOne(count(c[k].data)), 1, t);
      Falls(c, t, count, k - 1);
    }
  }

  lemma Times(p: nat, a: int, b: int)
    requires a <= b
    ensures p * a <= p * b
  {
  }

  /** So the number of servers that one key can spread over is at most logarithmic in the load of its first server:
      with t to the k at least the load of the first server, node k is never chosen. */
  lemma NeverThatFar(c: seq<Node>, t: nat, count: Counts, k: nat, l: nat)
    requires 1 <= t && 1 <= k <= l && k < |c| && Pow(t, k) >= count(c[0].data)
    ensures !Chosen(c, t, count, l)
  {
    if Reaches(c, t, count, l) {
      assert Reaches(c, t, count, k);
      ScanBound(c, t, count, k);
    }
  }

  ghost predicate SameButWeights(a: seq<Node>, b: seq<Node>) {
    |a| == |b| && forall i :: 0 <= i < |a| ==> a[i].data == b[i].data
  }

  /** The least-connections mode ignores weights, and so health: over any two health states it chooses the same node. */
  lemma LeastConnIgnoresHealth(a: seq<Node>, b: seq<Node>, count: Counts, k: nat, l: nat)
    requires SameButWeights(a, b) && Best(a, |a|, count, k) && Best(b, |b|, count, l)
    ensures k == l
  {
    assert a[k].data == b[k].data && a[l].data == b[l].data;
  }

  /** Node i comes before node j in the eyes of the least-connections mode. */
  ghost predicate Before(nodes: seq<Node>, count: Counts, i: nat, j: nat)
    requires i < |nodes| && j < |nodes|
  {
    count(nodes[i].data) < count(nodes[j].data) || (count(nodes[i].data) == count(nodes[j].data) && i < j)
  }

  /** It chooses a node with weight exactly if each weightless node has one with weight before it. */
  lemma LeastConnHealthyExactly(nodes: seq<Node>, count: Counts, k: nat)
    requires Best(nodes, |nodes|, count, k)
    ensures nodes[k].weight > 0 <==>
            forall j :: 0 <= j < |nodes| && nodes[j].weight == 0 ==>
              exists i :: 0 <= i < |nodes| && nodes[i].weight > 0 && Before(nodes, count, i, j)
  {
    forall j | 0 <= j < |nodes| && j != k ensures Before(nodes, count, k, j) && !Before(nodes, count, j, k) {
    }
    assert !Before(nodes, count, k, k);
  }

  /** An idle server that is not healthy is chosen over a healthy one with a connection. */
  lemma LeastConnTakesUnhealthy(sick: BackendServer, sound: BackendServer)
    requires sick != sound
    ensures var nodes := [Node(0, 0, sick), Node(1, 1, sound)];
            var count := (s: BackendServer) => if s == sick then 0 else 1;
            Best(nodes, 2, count, 0) && nodes[0].weight == 0 && nodes[1].weight > 0
  {
  }

  /** The servers that a key can be sent to, whatever the loads, are no more than were asked for. */
  lemma KeySpread(drawn: seq<Node>, maxServers: int, n: nat, t: nat, servers: set<BackendServer>)
    requires |drawn| <= MaxServers(maxServers, n)
    requires forall s :: s in servers ==> exists count, k: nat :: Chosen(drawn, t, count, k) && drawn[k].data == s
    ensures |servers| <= MaxServers(maxServers, n)
  {
    var all := set i | 0 <= i < |drawn| :: drawn[i].data;
    forall s | s in servers ensures s in all {
      var count, k: nat :| Chosen(drawn, t, count, k) && drawn[k].data == s;
    }
    Subsets(servers, all);
    AtMostAll(drawn);
  }

  lemma {:induction false} AtMostAll(c: seq<Node>)
    ensures |set i | 0 <= i < |c| :: c[i].data| <= |c|
  {
    if c != [] {
      var before := c[..|c| - 1];
      AtMostAll(before);
      assert (set i | 0 <= i < |c| :: c[i].data) == (set i | 0 <= i < |before| :: before[i].data) + {c[|c| - 1].data};
    }
  }

  lemma Subsets<T>(a: set<T>, b: set<T>)
    requires a <= b
    ensures |a| <= |b|
  {
    assert b == a + (b - a);
  }
}
