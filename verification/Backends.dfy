/** Backend servers and backends as a reload sees them: who has a server, and when it is really closed
    (pkg/lb/backendserver.go, pkg/lb/httpbackend.go). */
module Backends {

  /** Every backend server and every backend ever created. */
  class ServerLog {
    ghost var all: set<BackendServer>
    ghost var backs: set<HTTPBackend>

    ghost constructor ()
      ensures all == {} && backs == {}
    {
      all, backs := {}, {};
    }
  }

  class BackendServer {
    const server: string
    const weight: nat
    ghost const home: string      // the backend the server was made for
    var shared: bool
    ghost var closes: nat         // how often Close went past the shared test

    constructor (server: string, weight: nat, ghost home: string, ghost log: ServerLog)
      modifies log`all
      ensures this.server == server && this.weight == weight && this.home == home && !shared && closes == 0
      ensures log.all == old(log.all) + {this}
    {
      this.server, this.weight, this.home, shared, closes := server, weight, home, false, 0;
      new;
      log.all := log.all + {this};
    }

    method SetShared(status: bool) returns (was: bool)
      modifies this`shared
      ensures was == old(shared) && shared == status
    {
      was := shared;
      shared := status;
    }

    /** A shared server is only handed back; otherwise the pool is torn down. */
    method Close()
      modifies this`shared, this`closes
      ensures !shared && closes == old(closes) + (if old(shared) then 0 else 1)
    {
      var was := SetShared(false);
      if was {
        return;
      }
      closes := closes + 1;
    }
  }

  /** The optional second field of a server line. */
  datatype WeightField = Absent | Malformed | Given(weight: nat)

  /** A server line after URL parsing: the canonical server, or an error. */
  datatype ServerLine = Unparsable | ServerLine(server: string, httpScheme: bool, weight: WeightField)

  function WeightOf(line: ServerLine): nat {
    if line.ServerLine? && line.weight.Given? then line.weight.weight else 1
  }

  /** The servers that lines ask for, with the weights they ask for. */
  ghost function Wanted(lines: seq<ServerLine>): map<string, nat> {
    if lines == [] then map[]
    else
      var line := lines[|lines| - 1];
      if line.Unparsable? then Wanted(lines[..|lines| - 1])
      else Wanted(lines[..|lines| - 1])[line.server := WeightOf(line)]
  }

  predicate LineOk(line: ServerLine) {
    line.ServerLine? && line.httpScheme && !line.weight.Malformed?
  }

  /** The lines that HTTPBackend.Fork accepts: well-formed, with different servers. */
  ghost predicate LinesOk(lines: seq<ServerLine>) {
    && (forall i :: 0 <= i < |lines| ==> LineOk(lines[i]))
    && (forall i, j :: 0 <= i < j < |lines| ==> lines[i].server != lines[j].server)
  }

  lemma {:induction false} WantedMember(lines: seq<ServerLine>, k: string)
    ensures k in Wanted(lines) <==> exists i :: 0 <= i < |lines| && lines[i].ServerLine? && lines[i].server == k
  {
    if lines != [] {
      var init := lines[..|lines| - 1];
      WantedMember(init, k);
      assert forall i :: 0 <= i < |init| ==> init[i] == lines[i];
    }
  }

  /** Of accepted lines each asks for its server with the weight it gives, or else with weight 1. */
  lemma {:induction false} WantedWeight(lines: seq<ServerLine>, i: nat)
    requires LinesOk(lines) && i < |lines|
    ensures lines[i].server in Wanted(lines)
    ensures Wanted(lines)[lines[i].server] == match lines[i].weight case Given(w) => w case _ => 1
  {
    var last := |lines| - 1;
    if i < last {
      assert forall j :: 0 <= j < last ==> lines[..last][j] == lines[j];
      WantedWeight(lines[..last], i);
    }
  }

  lemma WantedIs(lines: seq<ServerLine>)
    requires LinesOk(lines)
    ensures Wanted(lines).Keys == set i | 0 <= i < |lines| :: lines[i].server
    ensures forall i :: 0 <= i < |lines| ==>
              && lines[i].server in Wanted(lines)
              && Wanted(lines)[lines[i].server] == match lines[i].weight case Given(w) => w case _ => 1
  {
    forall i | 0 <= i < |lines|
      ensures lines[i].server in Wanted(lines)
      ensures Wanted(lines)[lines[i].server] == match lines[i].weight case Given(w) => w case _ => 1
    {
      WantedWeight(lines, i);
    }
    forall k | k in Wanted(lines) ensures exists i :: 0 <= i < |lines| && lines[i].server == k {
      WantedMember(lines, k);
    }
  }

  lemma AcceptedLines(lines: seq<ServerLine>)
    ensures LinesOk(lines) <==>
              && (forall i :: 0 <= i < |lines| ==> lines[i].ServerLine? && lines[i].httpScheme && !lines[i].weight.Malformed?)
              && (forall i, j :: 0 <= i < j < |lines| ==> lines[i].server != lines[j].server)
  {
  }

  lemma NextLine(done: seq<ServerLine>, line: ServerLine)
    requires LinesOk(done)
    ensures LinesOk(done + [line]) <==> LineOk(line) && line.server !in Wanted(done)
    ensures line.ServerLine? ==> Wanted(done + [line]) == Wanted(done)[line.server := WeightOf(line)]
  {
    var all := done + [line];
    assert all[..|done|] == done;
    assert forall i :: 0 <= i < |done| ==> all[i] == done[i];
    if line.ServerLine? {
      WantedMember(done, line.server);
      if line.server in Wanted(done) {
        var i :| 0 <= i < |done| && done[i].ServerLine? && done[i].server == line.server;
        assert all[i].server == all[|done|].server;
      }
    }
    assert all[|done|] == line;
  }

  lemma NoLine(lines: seq<ServerLine>)
    ensures LinesOk(lines[..0]) && Wanted(lines[..0]) == map[]
  {
  }

  lemma BadPrefix(lines: seq<ServerLine>, i: nat)
    requires i <= |lines| && !LinesOk(lines[..i])
    ensures !LinesOk(lines)
  {
    assert forall j :: 0 <= j < i ==> lines[..i][j] == lines[j];
  }

  ghost predicate Serves(b: HTTPBackend?, s: BackendServer)
    reads b
  {
    b != null && s.server in b.bss && b.bss[s.server] == s
  }

  class HTTPBackend {
    const name: string
    var bss: map<string, BackendServer>
    var closed: bool

    ghost predicate Valid()
      reads this
    {
      forall k :: k in bss ==> bss[k].server == k && bss[k].home == name
    }

    constructor (name: string, ghost log: ServerLog)
      modifies log`backs
      ensures this.name == name && bss == map[] && !closed && log.backs == old(log.backs) + {this}
    {
      this.name, bss, closed := name, map[], false;
      new;
      log.backs := log.backs + {this};
    }

    /** Closes every server it has; the shared ones survive for the other backend that has them. */
    method Close()
      requires Valid()
      modifies this, bss.Values
      ensures bss == map[] && closed
      ensures forall s :: s in old(bss.Values) ==>
                !s.shared && s.closes == old(s.closes) + (if old(s.shared) then 0 else 1)
    {
      closed := true;
      var todo := bss.Keys;
      while todo != {}
        invariant todo <= bss.Keys && bss == old(bss) && closed
        invariant forall k :: k in bss && k in todo ==>
                    bss[k].shared == old(bss[k].shared) && bss[k].closes == old(bss[k].closes)
        invariant forall k :: k in bss && k !in todo ==>
                    !bss[k].shared && bss[k].closes == old(bss[k].closes) + (if old(bss[k].shared) then 0 else 1)
      {
        var k :| k in todo;
        todo := todo - {k};
        bss[k].Close();
      }
      bss := map[];
    }

    /** The servers that the old backend `b` would lend: those nobody has borrowed yet. */
    static ghost function Lendable(b: HTTPBackend?): set<BackendServer>
      reads b, if b == null then {} else b.bss.Values
    {
      if b == null then {} else set s | s in b.bss.Values && !s.shared
    }

    /** What holds while Fork works through the lines: `wanted` are the servers taken so far, `made` the new server
        objects, `lendable` the old ones that could be borrowed at the start. */
    ghost predicate Forking(wanted: map<string, nat>, made: set<BackendServer>, lendable: set<BackendServer>)
      reads this, made, lendable
    {
      && !closed && bss.Keys == wanted.Keys && made !! lendable
      && (forall s :: s in made + lendable ==> s.home == name)
      && (forall k :: k in bss ==> bss[k].server == k && bss[k] in made + lendable)
      && (forall s :: s in made ==> !s.shared && s.closes == if Serves(this, s) then 0 else 1)
      && (forall s :: s in made && Serves(this, s) ==> s.weight == wanted[s.server])
      && (forall s :: s in lendable ==> s.shared == (s.server in bss) && (s.server in bss ==> bss[s.server] == s))
    }

    /** The old backend while it is being forked: whoever is not lendable is shared, before and after. */
    ghost predicate Lending(b: HTTPBackend?, lendable: set<BackendServer>)
      reads b, if b == null then {} else b.bss.Values
    {
      if b == null then lendable == {}
      else b != this && b.Valid() && lendable <= b.bss.Values &&
           forall s :: s in b.bss.Values ==> s in lendable || s.shared
    }

    /** An old server that nobody has borrowed wins over the new one, which is closed. */
    static method Borrow(b: HTTPBackend?, bs: BackendServer) returns (r: BackendServer)
      requires b != null ==> b.Valid() && bs !in b.bss.Values
      modifies bs, if b == null then {} else b.bss.Values
      ensures if b != null && bs.server in b.bss && !old(b.bss[bs.server].shared)
              then r == b.bss[bs.server] && r.shared && !bs.shared && bs.closes == old(bs.closes) + (if old(bs.shared) then 0 else 1)
              else r == bs && bs.shared == old(bs.shared) && bs.closes == old(bs.closes)
      ensures b != null ==> forall s :: s in b.bss.Values ==> s.closes == old(s.closes) && (s == r || s.shared == old(s.shared))
    {
      r := bs;
      if b != null && bs.server in b.bss {
        var bsr := b.bss[bs.server];
        var borrowed := bsr.SetShared(true);
        if !borrowed {
          bs.Close();
          r := bsr;
        }
      }
    }

    /** The end of the loop body of Fork: an old server that nobody has borrowed wins over the new one. */
    method Take(b: HTTPBackend?, bs: BackendServer, ghost wanted: map<string, nat>, ghost made: set<BackendServer>,
                ghost lendable: set<BackendServer>)
      requires Forking(wanted, made, lendable) && Lending(b, lendable)
      requires bs.server !in bss && bs !in made && (b != null ==> bs !in b.bss.Values && made !! b.bss.Values)
      requires bs.home == name && !bs.shared && bs.closes == 0
      modifies this`bss, bs, if b == null then {} else b.bss.Values
      ensures Forking(wanted[bs.server := bs.weight], made + {bs}, lendable) && Lending(b, lendable)
      ensures b != null ==> forall s :: s in b.bss.Values ==> s.closes == old(s.closes)
    {
      var r := Borrow(b, bs);
      Install(r, bs, wanted, made, lendable);
    }

    /** Between the choice of the server and its entry in the map. */
    ghost predicate Taking(r: BackendServer, bs: BackendServer, wanted: map<string, nat>, made: set<BackendServer>,
                           lendable: set<BackendServer>)
      reads this, made, lendable, bs
    {
      && !closed && bss.Keys == wanted.Keys && bs !in made && made + {bs} !! lendable
      && bs.server !in bss && r.server == bs.server && r in lendable + {bs}
      && (forall s :: s in made + lendable + {bs} ==> s.home == name)
      && (forall k :: k in bss ==> bss[k].server == k && bss[k] in made + lendable)
      && (forall s :: s in made ==> !s.shared && s.closes == if Serves(this, s) then 0 else 1)
      && (forall s :: s in made && Serves(this, s) ==> s.weight == wanted[s.server])
      && !bs.shared && bs.closes == (if r == bs then 0 else 1)
      && (forall s :: s in lendable ==> s.shared == (s.server in bss || s == r) && (s.server in bss ==> bss[s.server] == s))
      && (forall s :: s in lendable && s.server == bs.server ==> s == r)
    }

    method Install(r: BackendServer, ghost bs: BackendServer, ghost wanted: map<string, nat>, ghost made: set<BackendServer>,
                   ghost lendable: set<BackendServer>)
      requires Taking(r, bs, wanted, made, lendable)
      modifies this`bss
      ensures Forking(wanted[bs.server := bs.weight], made + {bs}, lendable)
    {
      bss := bss[r.server := r];
    }

    /** The error path of Fork: the server in hand is closed, and so is everything made or borrowed so far. */
    method GiveUp(bs: BackendServer?, ghost wanted: map<string, nat>, ghost made: set<BackendServer>,
                  ghost lendable: set<BackendServer>)
      requires Forking(wanted, made, lendable)
      requires bs != null ==> bs !in made + lendable && !bs.shared && bs.closes == 0
      modifies this, bs, bss.Values
      ensures closed
      ensures forall s :: s in made ==> !s.shared && s.closes == 1
      ensures forall s :: s in lendable ==> !s.shared && s.closes == old(s.closes)
      ensures bs != null ==> !bs.shared && bs.closes == 1
    {
      if bs != null {
        bs.Close();
      }
      Close();
      assert forall s :: s in made + lendable && s !in old(bss.Values) ==> !old(Serves(this, s));
      assert forall s :: s in made + lendable && old(Serves(this, s)) ==> s in old(bss.Values);
    }

    /** The loop body of Fork: one server line. */
    method AddLine(b: HTTPBackend?, line: ServerLine, ghost wanted: map<string, nat>, ghost made: set<BackendServer>,
                   ghost lendable: set<BackendServer>, ghost log: ServerLog) returns (ok: bool)
      requires Forking(wanted, made, lendable) && Lending(b, lendable) && made <= log.all
      requires b != null ==> b.bss.Values <= log.all - made
      modifies this, log`all, made, if b == null then {} else b.bss.Values
      ensures old(log.all) <= log.all && fresh(log.all - old(log.all))
      ensures b != null ==> b.bss == old(b.bss) && forall s :: s in b.bss.Values ==> s.closes == old(s.closes)
      ensures ok <==>
                line.ServerLine? && line.httpScheme && !line.weight.Malformed? && line.server !in wanted
      ensures closed == !ok
      ensures ok ==> Lending(b, lendable)
      ensures ok ==> Forking(wanted[line.server := WeightOf(line)], made + (log.all - old(log.all)), lendable)
      ensures !ok ==> forall s :: s in made + (log.all - old(log.all)) ==>
                        s.home == name && !s.shared && s.closes == 1
      ensures !ok && b != null ==> forall s :: s in b.bss.Values ==> s.shared == (s !in lendable)
    {
      if line.Unparsable? {
        GiveUp(null, wanted, made, lendable);
        return false;
      }
      var bs := new BackendServer(line.server, WeightOf(line), name, log);
      assert log.all - old(log.all) == {bs};
      if bs.server in bss || !line.httpScheme || line.weight.Malformed? {
        GiveUp(bs, wanted, made, lendable);
        return false;
      }
      Take(b, bs, wanted, made, lendable);
      ok := true;
    }

    /** Builds the next generation of backend `b` (null at the first load) from the server lines.  A server of `b` that
        nobody has borrowed is borrowed, and the new object made for its line is closed, together with its weight. */
    static method Fork(b: HTTPBackend?, name: string, lines: seq<ServerLine>, ghost log: ServerLog)
      returns (bn: HTTPBackend?)
      requires b != null ==> b.Valid() && b.name == name && b.bss.Values <= log.all
      modifies log, if b == null then {} else b.bss.Values
      ensures old(log.all) <= log.all && fresh(log.all - old(log.all))
      ensures bn != null <==>
                && (forall i :: 0 <= i < |lines| ==>
                      lines[i].ServerLine? && lines[i].httpScheme && !lines[i].weight.Malformed?)
                && (forall i, j :: 0 <= i < j < |lines| ==> lines[i].server != lines[j].server)
      ensures forall s :: s in log.all - old(log.all) ==>
                s.home == name && !s.shared && s.closes == if bn != null && s in bn.bss.Values then 0 else 1
      ensures b != null ==> forall s :: s in b.bss.Values ==>
                s.closes == old(s.closes) && s.shared == (old(s.shared) || (bn != null && s in bn.bss.Values))
      ensures bn != null ==> fresh(bn) && bn.name == name && !bn.closed && bn.Valid() && bn.bss.Values <= log.all
      ensures old(log.backs) <= log.backs && fresh(log.backs - old(log.backs)) && (bn != null ==> bn in log.backs)
      ensures forall x :: x in log.backs - old(log.backs) ==> x.closed == (x != bn)
      ensures bn != null ==> bn.bss.Keys == set i | 0 <= i < |lines| :: lines[i].server
      ensures bn != null ==> forall i :: 0 <= i < |lines| ==>
                var k, s := lines[i].server, bn.bss[lines[i].server];
                && s.server == k && s.home == name
                && if b != null && k in b.bss && !old(b.bss[k].shared) then s == b.bss[k]
                   else s !in old(log.all) && s.weight == match lines[i].weight case Given(w) => w case _ => 1
    {
      hide LinesOk, Wanted, WeightOf, HTTPBackend.Forking, HTTPBackend.Lending, HTTPBackend.Valid;
      bn := new HTTPBackend(name, log);
      ghost var lendable := Lendable(b);
      ghost var wanted: map<string, nat> := map[];
      var i := 0;
      NoLine(lines);
      AcceptedLines(lines);
      bn.StartsForking(b);
      assert log.all - old(log.all) == {};
      while i < |lines|
        invariant 0 <= i <= |lines| && LinesOk(lines[..i]) && wanted == Wanted(lines[..i])
        invariant fresh(bn) && bn.name == name && log.backs == old(log.backs) + {bn}
        invariant old(log.all) <= log.all && fresh(log.all - old(log.all))
        invariant bn.Forking(wanted, log.all - old(log.all), lendable) && bn.Lending(b, lendable)
        invariant b != null ==> b.bss == old(b.bss) && forall s :: s in b.bss.Values ==> s.closes == old(s.closes)
      {
        assert lines[..i + 1] == lines[..i] + [lines[i]];
        NextLine(lines[..i], lines[i]);
        ghost var made := log.all - old(log.all);
        ghost var before := log.all;
        var ok := bn.AddLine(b, lines[i], wanted, made, lendable, log);
        assert log.all - old(log.all) == made + (log.all - before);
        if !ok {
          BadPrefix(lines, i + 1);
          return null;
        }
        wanted := wanted[lines[i].server := WeightOf(lines[i])];
        i := i + 1;
      }
      assert lines[..i] == lines;
      bn.Forked(b, wanted, log.all - old(log.all), lendable);
      WantedIs(lines);
    }

    lemma StartsForking(b: HTTPBackend?)
      requires bss == map[] && !closed && b != this && (b != null ==> b.Valid() && b.name == name)
      ensures Forking(map[], {}, Lendable(b)) && Lending(b, Lendable(b))
      ensures b != null ==> forall s :: s in b.bss.Values ==> (s in Lendable(b) <==> !s.shared)
    {
    }

    lemma Forked(b: HTTPBackend?, wanted: map<string, nat>, made: set<BackendServer>, lendable: set<BackendServer>)
      requires Forking(wanted, made, lendable) && Lending(b, lendable)
      ensures !closed && Valid() && bss.Keys == wanted.Keys && bss.Values <= made + lendable
      ensures forall s :: s in made ==> s.home == name && !s.shared && s.closes == if Serves(this, s) then 0 else 1
      ensures b != null ==> forall s :: s in b.bss.Values ==> s.shared == (s !in lendable || Serves(this, s))
      ensures b != null ==> forall s :: s in b.bss.Values && s !in lendable && s !in made ==> !Serves(this, s)
      ensures forall k :: k in bss ==> (bss[k] in made && bss[k].weight == wanted[k]) || bss[k] in lendable
      ensures b != null ==> forall k :: k in bss && k in b.bss && b.bss[k] in lendable ==> bss[k] == b.bss[k]
      ensures forall k :: k in bss && bss[k] in lendable ==> b != null && k in b.bss && bss[k] == b.bss[k]
    {
    }
  }

  /** A server configured with weight 5 and then with weight 7 still has weight 5 after the reload. */
  method OldWeightIsKept() returns (asked: nat, kept: nat)
    ensures asked == 7 && kept == 5
  {
    ghost var log := new ServerLog();
    var first, second := ServerLine("http://a:80", true, Given(5)), ServerLine("http://a:80", true, Given(7));
    OneLine(first);
    OneLine(second);
    var b := HTTPBackend.Fork(null, "b", [first], log);
    var bn := HTTPBackend.Fork(b, "b", [second], log);
    assert !b.bss["http://a:80"].shared || Serves(bn, b.bss["http://a:80"]);
    asked, kept := WeightOf(second), bn.bss["http://a:80"].weight;
  }

  lemma OneLine(line: ServerLine)
    requires LineOk(line)
    ensures LinesOk([line]) && Wanted([line]) == map[line.server := WeightOf(line)]
  {
    assert [line][..0] == [];
  }
}
