/** The life of the process: a first load, any number of reloads, and the final shutdown (cmd/simult-server/main.go). */
module Reload {
  import opened Backends
  import opened Listeners
  import opened Apps

  /** A configuration file that does not load, or its content. */
  datatype Loaded = LoadFailed | LoadedConfig(cfg: Config)

  class Process {
    var app: App?
    ghost const slog: ServerLog
    ghost const alog: AccepterLog

    /** The running generation and everything ever created, see Steady. */
    ghost predicate Valid()
      reads this, slog, slog.all, slog.backs, alog, alog.all, alog.fronts
      reads app, if app == null then {} else app.backends.Values
      reads if app == null then {} else app.listeners.Values
      reads if app == null then {} else app.frontends.Values
      reads (set k | app != null && k in app.listeners && app.listeners[k].accr != null :: app.listeners[k].accr)`le
      reads (set k | app != null && k in app.listeners && app.listeners[k].accr != null :: app.listeners[k].accr)`fe
    {
      App.Steady(app, slog, alog)
    }

    constructor ()
      ensures Valid() && app == null && fresh(slog) && fresh(alog) && slog.all == {} && alog.all == {}
      ensures slog.backs == {} && alog.fronts == {}
    {
      app := null;
      slog := new ServerLog();
      alog := new AccepterLog();
    }

    /** A server of the running generation has one place in it, is open and is lent to nobody; any other that was ever
        created has been closed once and only once. */
    lemma ServerBetweenReloads(s: BackendServer)
      requires Valid() && s in slog.all
      ensures s.closes ==
                if app != null && s.home in app.backends && s.server in app.backends[s.home].bss
                   && app.backends[s.home].bss[s.server] == s
                then 0 else 1
      ensures !s.shared
      ensures app != null ==> forall n, k :: n in app.backends && k in app.backends[n].bss && app.backends[n].bss[k] == s ==>
                n == s.home && k == s.server
    {
      assert ServerBetween(s, HasServer(null, s), HasServer(app, s));
    }

    /** The same for accepters. */
    lemma AccepterBetweenReloads(x: Accepter)
      requires Valid() && x in alog.all
      ensures x.closes == if app != null && x.address in app.listeners && app.listeners[x.address].accr == x then 0 else 1
      ensures !x.shared
      ensures app != null ==> forall k :: k in app.listeners && app.listeners[k].accr == x ==> k == x.address
    {
      assert AccepterBetween(x, HasAccepter(null, x), HasAccepter(app, x));
    }

    /** A backend or frontend is closed unless the running generation has it. */
    lemma OthersAreClosed(b: HTTPBackend, f: HTTPFrontend)
      requires Valid()
      ensures b in slog.backs ==> (b.closed <==> app == null || b.name !in app.backends || app.backends[b.name] != b)
      ensures f in alog.fronts ==> (f.closed <==> app == null || f.name !in app.frontends || app.frontends[f.name] != f)
    {
      hide App.InService, ServersBetween, AcceptersBetween;
    }

    /** The running generation is in service: every address has an accepter that is open and leads to its listener and on to
        an open frontend; every backend is open, and every server of it is open and made for it. */
    lemma RunningIsInService()
      requires Valid() && app != null
      ensures forall k :: k in app.listeners ==>
                var l := app.listeners[k];
                && l.address == k && l.accr != null && l.accr.address == k && l.accr.closes == 0
                && l.accr.le == l && l.accr.fe == l.fe
                && l.fe.name in app.frontends && app.frontends[l.fe.name] == l.fe && !l.fe.closed
      ensures forall n :: n in app.backends ==> app.backends[n].name == n && !app.backends[n].closed
      ensures forall n, k :: n in app.backends && k in app.backends[n].bss ==>
                var s := app.backends[n].bss[k]; s.server == k && s.home == n && s.closes == 0
    {
      forall k | k in app.listeners && app.listeners[k].accr != null ensures app.listeners[k].accr.closes == 0 {
        AccepterBetweenReloads(app.listeners[k].accr);
      }
      forall n, k | n in app.backends && k in app.backends[n].bss ensures app.backends[n].bss[k].closes == 0 {
        ServerBetweenReloads(app.backends[n].bss[k]);
      }
    }

    /** Everything ever created is closed, the servers and accepters once. */
    ghost predicate AllClosed()
      reads this, slog, slog.all, slog.backs, alog, alog.all, alog.fronts
    {
      && (forall s :: s in slog.all ==> s.closes == 1) && (forall x :: x in alog.all ==> x.closes == 1)
      && (forall b :: b in slog.backs ==> b.closed) && (forall f :: f in alog.fronts ==> f.closed)
    }

    lemma NothingOpen()
      requires App.Alone(null, slog, alog)
      ensures AllClosed()
    {
      assert forall s :: s in slog.all ==> ServerBetween(s, HasServer(null, s), HasServer(null, s));
      assert forall x :: x in alog.all ==> AccepterBetween(x, HasAccepter(null, x), HasAccepter(null, x));
    }

    lemma NeverStarted()
      requires Valid() && app == null
      ensures AllClosed()
    {
      NothingOpen();
    }

    /** Fork, close the old generation, then swap.  A failure changes nothing of what is running.  After a success the new
        generation has what was asked for; a server of the same backend and an accepter of the same address are those that
        the old one had, and all of the old one is closed. */
    method ConfigReload(loaded: Loaded) returns (ok: bool)
      requires Valid()
      modifies this`app, slog, slog.all, alog, alog.all
      modifies if app == null then {} else app.backends.Values
      modifies if app == null then {} else app.listeners.Values
      modifies if app == null then {} else app.frontends.Values
      ensures Valid()
      ensures !ok ==> app == old(app)
      ensures old(slog.all) <= slog.all && fresh(slog.all - old(slog.all))
      ensures old(alog.all) <= alog.all && fresh(alog.all - old(alog.all))
      ensures ok ==> app != null && fresh(app)
      ensures ok ==> fresh(app.backends.Values) && fresh(app.frontends.Values) && fresh(app.listeners.Values)
      ensures ok <==> loaded.LoadedConfig? && Accepted(loaded.cfg, old(if app == null then {} else app.listeners.Keys))
      ensures !ok && app != null ==>
                && (forall n :: n in app.backends ==> app.backends[n].bss == old(app.backends[n].bss))
                && (forall k :: k in app.listeners ==> app.listeners[k].accr == old(app.listeners[k].accr))
      ensures ok ==> app.Has(loaded.cfg, old(ServersOf(app)))
      ensures ok && old(app) != null ==>
                && (forall n, k :: n in app.backends && k in app.backends[n].bss
                                   && n in old(app.backends) && k in old(app.backends[n].bss)
                      ==> app.backends[n].bss[k] == old(app.backends[n].bss[k]))
                && (forall k :: k in app.listeners && k in old(app.listeners) ==>
                      app.listeners[k].accr == old(app.listeners[k].accr))
      ensures ok && old(app) != null ==>
                var a := old(app);
                && (forall n :: n in a.frontends ==> a.frontends[n].closed)
                && (forall n :: n in a.backends ==> a.backends[n].closed && a.backends[n].bss == map[])
                && (forall k :: k in a.listeners ==> a.listeners[k].accr == null)
    {
      hide App.Steady, Accepted, AcceptersOf, ServersOf, Live, Wanted, Listens;
      HeldBy(app);
      if loaded.LoadFailed? {
        return false;
      }
      var an := App.Replace(app, loaded.cfg, slog, alog);
      HeldBy(an);
      if an == null {
        HeldBy(app);
        return false;
      }
      app := an;
      ok := true;
    }

    /** The end of main: everything ever created has been closed exactly once. */
    method Terminate()
      requires Valid()
      modifies slog.all, alog.all`closes, alog.all`shared
      modifies if app == null then {} else app.backends.Values
      modifies if app == null then {} else app.listeners.Values
      modifies if app == null then {} else app.frontends.Values
      ensures app != null ==>
                && (forall s :: s in slog.all ==> s.closes == 1) && (forall x :: x in alog.all ==> x.closes == 1)
                && (forall b :: b in slog.backs ==> b.closed) && (forall f :: f in alog.fronts ==> f.closed)
    {
      hide App.Beside, App.Alone, App.InService, App.Down;
      if app != null {
        app.AloneSides(slog, alog);
        app.Close(null, slog, alog);
        NothingOpen();
      }
    }

    /** A whole run: the first load must succeed, later ones may fail or succeed in any order, then the process ends.
        Nothing that was ever created is left open, and nothing was closed twice. */
    static method Run(first: Loaded, later: seq<Loaded>) returns (p: Process, started: bool)
      ensures forall s :: s in p.slog.all ==> s.closes == 1
      ensures forall x :: x in p.alog.all ==> x.closes == 1
      ensures forall b :: b in p.slog.backs ==> b.closed
      ensures forall f :: f in p.alog.fronts ==> f.closed
      ensures started <==> first.LoadedConfig? && Accepted(first.cfg, {})
      ensures !started ==> p.app == null
    {
      hide Process.Valid, App.Has, Accepted, KeepsAccepters, AcceptersOf, ServersOf, App.Down, Live, App.Alone;
      p := new Process();
      started := p.ConfigReload(first);
      if !started {
        p.NeverStarted();
        return;
      }
      for i := 0 to |later|
        invariant fresh(p) && p.Valid() && p.app != null && fresh(p.app)
        invariant fresh(p.slog) && fresh(p.alog) && fresh(p.slog.all) && fresh(p.alog.all)
        invariant fresh(p.app.backends.Values) && fresh(p.app.listeners.Values) && fresh(p.app.frontends.Values)
      {
        var reloaded := p.ConfigReload(later[i]);
      }
      p.Terminate();
    }
  }
}
