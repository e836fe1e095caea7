/** A generation of the running configuration, and the transaction that replaces it (pkg/config/app.go). */
module Apps {
  import opened Backends
  import opened Listeners

  /** What a backend section can make Fork fail on before HTTPBackend.Fork is called, and its server lines. */
  datatype BackendConfig = BackendConfig(optionsOk: bool, servers: seq<ServerLine>)

  /** A listener section: its address, whether its TLS parameters load, whether the address can be listened on. */
  datatype ListenerConfig = ListenerConfig(address: string, tlsOk: bool, canListen: bool)

  datatype FrontendConfig = FrontendConfig(optionsOk: bool, listeners: seq<ListenerConfig>)

  datatype Config = Config(healthChecksOk: bool, backends: map<string, BackendConfig>,
                           frontends: map<string, FrontendConfig>)

  // ---- which configurations are accepted, and what they ask for ----------------------------------------------------

  /** A listener that can be forked, where `live` are the addresses of the running generation. */
  ghost predicate ListenerOk(l: ListenerConfig, live: set<string>) {
    l.address != "" && l.tlsOk && (l.address in live || l.canListen)
  }

  /** The listeners of one frontend: each can be forked, and all addresses are different and not taken. */
  ghost predicate ListenersAccepted(ls: seq<ListenerConfig>, live: set<string>, taken: set<string>) {
    forall i :: 0 <= i < |ls| ==>
      ListenerOk(ls[i], live) && ls[i].address !in taken && forall j :: 0 <= j < i ==> ls[j].address != ls[i].address
  }

  ghost function Addresses(ls: seq<ListenerConfig>): set<string> {
    set i | 0 <= i < |ls| :: ls[i].address
  }

  ghost predicate FrontendAccepted(f: FrontendConfig, live: set<string>) {
    f.optionsOk && ListenersAccepted(f.listeners, live, {})
  }

  /** The frontends named in `done`: each is accepted, and no two share an address. */
  ghost predicate FrontendsAccepted(fs: map<string, FrontendConfig>, done: set<string>, live: set<string>) {
    && (forall n :: n in done && n in fs ==> FrontendAccepted(fs[n], live))
    && (forall m, n :: m in done && m in fs && n in done && n in fs && m != n ==>
          Addresses(fs[m].listeners) !! Addresses(fs[n].listeners))
  }

  ghost function AllAddresses(fs: map<string, FrontendConfig>, done: set<string>): set<string> {
    set n, k | n in done && n in fs && k in Addresses(fs[n].listeners) :: k
  }

  ghost predicate BackendsAccepted(bs: map<string, BackendConfig>) {
    forall n :: n in bs ==> bs[n].optionsOk && LinesOk(bs[n].servers)
  }

  /** The configurations that Fork succeeds on. */
  ghost predicate Accepted(cfg: Config, live: set<string>) {
    cfg.healthChecksOk && BackendsAccepted(cfg.backends) && FrontendsAccepted(cfg.frontends, cfg.frontends.Keys, live)
  }

  /** That is: the health checks and the options of every section are in order, the server lines are well-formed and those
      of one backend name different servers, and every listener has an address that nothing else listens on, TLS parameters
      that load, and can listen, if the running generation does not already. */
  lemma AcceptedMeans(cfg: Config, live: set<string>)
    ensures Accepted(cfg, live) <==>
              && cfg.healthChecksOk
              && (forall n :: n in cfg.backends ==>
                    var lines := cfg.backends[n].servers;
                    && cfg.backends[n].optionsOk
                    && (forall i :: 0 <= i < |lines| ==>
                          lines[i].ServerLine? && lines[i].httpScheme && !lines[i].weight.Malformed?)
                    && (forall i, j :: 0 <= i < j < |lines| ==> lines[i].server != lines[j].server))
              && (forall n :: n in cfg.frontends ==>
                    var ls := cfg.frontends[n].listeners;
                    && cfg.frontends[n].optionsOk
                    && (forall i :: 0 <= i < |ls| ==>
                          ls[i].address != "" && ls[i].tlsOk && (ls[i].address in live || ls[i].canListen))
                    && (forall i, j :: 0 <= i < j < |ls| ==> ls[i].address != ls[j].address))
              && (forall m, n :: m in cfg.frontends && n in cfg.frontends && m != n ==>
                    forall i, j :: 0 <= i < |cfg.frontends[m].listeners| && 0 <= j < |cfg.frontends[n].listeners| ==>
                      cfg.frontends[m].listeners[i].address != cfg.frontends[n].listeners[j].address)
  {
    forall m, n | m in cfg.frontends && n in cfg.frontends
      ensures Addresses(cfg.frontends[m].listeners) !! Addresses(cfg.frontends[n].listeners) <==>
              forall i, j :: 0 <= i < |cfg.frontends[m].listeners| && 0 <= j < |cfg.frontends[n].listeners| ==>
                cfg.frontends[m].listeners[i].address != cfg.frontends[n].listeners[j].address
    {
      AddressesApart(cfg.frontends[m].listeners, cfg.frontends[n].listeners);
    }
    hide Addresses;
  }

  lemma AddressesApart(a: seq<ListenerConfig>, b: seq<ListenerConfig>)
    ensures Addresses(a) !! Addresses(b) <==>
            forall i, j :: 0 <= i < |a| && 0 <= j < |b| ==> a[i].address != b[j].address
  {
    assert forall i :: 0 <= i < |a| ==> a[i].address in Addresses(a);
    assert forall j :: 0 <= j < |b| ==> b[j].address in Addresses(b);
  }

  lemma NextListener(ls: seq<ListenerConfig>, i: nat, live: set<string>, taken: set<string>)
    requires i < |ls| && ListenersAccepted(ls[..i], live, taken)
    ensures ListenersAccepted(ls[..i + 1], live, taken) <==>
            ListenerOk(ls[i], live) && ls[i].address !in taken + Addresses(ls[..i])
    ensures Addresses(ls[..i + 1]) == Addresses(ls[..i]) + {ls[i].address}
    ensures !ListenersAccepted(ls[..i + 1], live, taken) ==> !ListenersAccepted(ls, live, taken)
  {
    hide ListenerOk;
    assert forall j :: 0 <= j <= i ==> ls[..i + 1][j] == ls[j];
    assert forall j :: 0 <= j < i ==> ls[..i][j] == ls[j];
    if ls[i].address !in Addresses(ls[..i]) {
      forall j | 0 <= j < i ensures ls[j].address != ls[i].address {
        assert ls[..i][j].address in Addresses(ls[..i]);
      }
    }
  }

  lemma TakenApart(ls: seq<ListenerConfig>, live: set<string>, taken: set<string>)
    ensures ListenersAccepted(ls, live, taken) <==> ListenersAccepted(ls, live, {}) && Addresses(ls) !! taken
  {
    hide ListenerOk;
    assert forall i :: 0 <= i < |ls| ==> ls[i].address in Addresses(ls);
  }

  lemma NextFrontend(fs: map<string, FrontendConfig>, done: set<string>, n: string, live: set<string>)
    requires n in fs && n !in done && FrontendsAccepted(fs, done, live)
    ensures FrontendsAccepted(fs, done + {n}, live) <==>
            fs[n].optionsOk && ListenersAccepted(fs[n].listeners, live, AllAddresses(fs, done))
    ensures AllAddresses(fs, done + {n}) == AllAddresses(fs, done) + Addresses(fs[n].listeners)
    ensures !FrontendsAccepted(fs, done + {n}, live) ==> !FrontendsAccepted(fs, fs.Keys, live)
  {
    hide ListenersAccepted, Addresses;
    TakenApart(fs[n].listeners, live, AllAddresses(fs, done));
    var mine := Addresses(fs[n].listeners);
    if mine !! AllAddresses(fs, done) {
      forall m | m in done && m in fs ensures mine !! Addresses(fs[m].listeners) {
        assert forall k :: k in Addresses(fs[m].listeners) ==> k in AllAddresses(fs, done);
      }
    } else {
      var k :| k in mine && k in AllAddresses(fs, done);
      var m :| m in done && m in fs && k in Addresses(fs[m].listeners);
      assert !(Addresses(fs[m].listeners) !! mine);
    }
  }

  type ListenerMap = map<string, Listener>
  type FrontendMap = map<string, HTTPFrontend>

  /** Every listener leads to the frontend of its name. */
  ghost predicate Routed(ls: ListenerMap, fr: FrontendMap) {
    forall k :: k in ls ==> ls[k].fe.name in fr && fr[ls[k].fe.name] == ls[k].fe
  }

  /** The listeners of one section lead to its frontend. */
  ghost predicate LeadTo(ls: ListenerMap, f: FrontendConfig, fn: HTTPFrontend) {
    forall k :: k in Addresses(f.listeners) ==> k in ls && ls[k].fe == fn
  }

  /** The listeners are those of the frontends in `done`, and each leads to the frontend it is configured for. */
  ghost predicate Listens(ls: ListenerMap, fr: FrontendMap, fs: map<string, FrontendConfig>, done: set<string>) {
    && ls.Keys == AllAddresses(fs, done)
    && forall n :: n in done && n in fs ==> n in fr && LeadTo(ls, fs[n], fr[n])
  }

  /** The listeners with those of frontend fn added. */
  ghost predicate Extends(ls: ListenerMap, was: ListenerMap, fn: HTTPFrontend) {
    was.Keys <= ls.Keys && forall k :: k in ls ==> if k in was then ls[k] == was[k] else ls[k].fe == fn
  }

  lemma ExtendsNothing(ls: ListenerMap, fn: HTTPFrontend)
    ensures Extends(ls, ls, fn)
  {
  }

  lemma ExtendsFurther(ls: ListenerMap, was: ListenerMap, fn: HTTPFrontend, k: string, l: Listener)
    requires Extends(ls, was, fn) && k !in ls && l.fe == fn
    ensures Extends(ls[k := l], was, fn)
  {
  }

  lemma RoutedMore(ls: ListenerMap, was: ListenerMap, fr: FrontendMap, fn: HTTPFrontend)
    requires Routed(was, fr) && Extends(ls, was, fn) && fn.name !in fr
    ensures Routed(ls, fr[fn.name := fn])
  {
  }

  lemma ListensMore(ls: ListenerMap, was: ListenerMap, fr: FrontendMap, fn: HTTPFrontend, fs: map<string, FrontendConfig>,
                    done: set<string>)
    requires Listens(was, fr, fs, done) && Extends(ls, was, fn) && fn.name !in fr && fn.name in fs && fn.name !in done
    requires ls.Keys == was.Keys + Addresses(fs[fn.name].listeners) && Addresses(fs[fn.name].listeners) !! was.Keys
    ensures Listens(ls, fr[fn.name := fn], fs, done + {fn.name})
  {
    AllAddressesMore(fs, done, fn.name);
    var fr' := fr[fn.name := fn];
    forall n | n in done + {fn.name} && n in fs ensures n in fr' && LeadTo(ls, fs[n], fr'[n]) {
      if n != fn.name {
        assert LeadTo(was, fs[n], fr[n]);
      }
    }
  }

  lemma AllAddressesMore(fs: map<string, FrontendConfig>, done: set<string>, n: string)
    requires n in fs
    ensures AllAddresses(fs, done + {n}) == AllAddresses(fs, done) + Addresses(fs[n].listeners)
  {
    hide Addresses;
  }

  // ---- between two generations -------------------------------------------------------------------------------------

  ghost function Live(a: App?): set<string>
    reads (if a == null then {} else {a})`listeners
  {
    if a == null then {} else a.listeners.Keys
  }

  /** The accepters of a generation by address, and its servers by backend and name. */
  ghost function AcceptersOf(a: App?): map<string, Accepter?>
    reads (if a == null then {} else {a})`listeners, if a == null then {} else a.listeners.Values
  {
    if a == null then map[] else map k | k in a.listeners :: a.listeners[k].accr
  }

  ghost function ServersOf(a: App?): map<string, ServerMap>
    reads (if a == null then {} else {a})`backends, if a == null then {} else a.backends.Values
  {
    if a == null then map[] else map n | n in a.backends :: a.backends[n].bss
  }

  type ServerMap = map<string, BackendServer>

  lemma HeldBy(a: App?)
    ensures a == null ==> Live(a) == {} && ServersOf(a) == map[] && AcceptersOf(a) == map[]
    ensures a != null ==> Live(a) == a.listeners.Keys
    ensures a != null ==>
              ServersOf(a).Keys == a.backends.Keys && forall n :: n in a.backends ==> ServersOf(a)[n] == a.backends[n].bss
    ensures a != null ==>
              AcceptersOf(a).Keys == a.listeners.Keys && forall k :: k in a.listeners ==> AcceptersOf(a)[k] == a.listeners[k].accr
  {
  }

  ghost function ServersIn(all: map<string, ServerMap>, n: string): ServerMap {
    if n in all then all[n] else map[]
  }

  /** The servers of one backend: those asked for, each the very server that was there, with its weight, or else one with
      the weight asked for. */
  ghost predicate AsAsked(now: ServerMap, was: ServerMap, wanted: map<string, nat>) {
    now.Keys == wanted.Keys && forall k :: k in now ==> if k in was then now[k] == was[k] else now[k].weight == wanted[k]
  }

  ghost predicate AllAsAsked(now: map<string, ServerMap>, was: map<string, ServerMap>, bs: map<string, BackendConfig>) {
    now.Keys == bs.Keys && forall n :: n in bs ==> AsAsked(now[n], ServersIn(was, n), Wanted(bs[n].servers))
  }

  lemma LinesAnswered(now: ServerMap, was: ServerMap, lines: seq<ServerLine>)
    requires LinesOk(lines) && now.Keys == set i | 0 <= i < |lines| :: lines[i].server
    requires forall i :: 0 <= i < |lines| ==>
               var k := lines[i].server;
               if k in was then now[k] == was[k] else now[k].weight == match lines[i].weight case Given(w) => w case _ => 1
    ensures AsAsked(now, was, Wanted(lines))
  {
    WantedIs(lines);
    hide Wanted, LinesOk;
  }

  /** A server has the weight asked for exactly if it is new or had that weight already. */
  lemma WeightAsAskedExactly(now: ServerMap, was: ServerMap, wanted: map<string, nat>, k: string)
    requires AsAsked(now, was, wanted) && k in wanted
    ensures k in now && (now[k].weight == wanted[k] <==> k !in was || was[k].weight == wanted[k])
  {
    assert k in now.Keys;
  }

  /** An address that was listened on before has the very accepter it had. */
  ghost predicate KeepsAccepters(now: map<string, Accepter?>, was: map<string, Accepter?>) {
    forall k :: k in now && k in was ==> now[k] == was[k]
  }

  ghost predicate HasServer(a: App?, s: BackendServer)
    reads (if a == null then {} else {a})`backends, if a == null then {} else a.backends.Values
  {
    a != null && s.home in a.backends && Serves(a.backends[s.home], s)
  }

  ghost predicate HasAccepter(a: App?, x: Accepter)
    reads (if a == null then {} else {a})`listeners, if a == null then {} else a.listeners.Values
  {
    a != null && x.address in a.listeners && a.listeners[x.address].accr == x
  }

  /** A server that one generation has is open and unshared, one that two have is open and shared, and any other has been
      closed once. */
  ghost predicate ServerBetween(s: BackendServer, one: bool, two: bool)
    reads s
  {
    s.closes == (if one || two then 0 else 1) && s.shared == (one && two)
  }

  ghost predicate AccepterBetween(x: Accepter, one: bool, two: bool)
    reads x`closes, x`shared
  {
    x.closes == (if one || two then 0 else 1) && x.shared == (one && two)
  }

  /** Every server ever created is between the two generations. */
  ghost predicate ServersBetween(a: App?, b: App?, log: ServerLog)
    reads log`all, log.all, (if a == null then {} else {a})`backends, (if b == null then {} else {b})`backends
    reads if a == null then {} else a.backends.Values
    reads if b == null then {} else b.backends.Values
  {
    forall s :: s in log.all ==> ServerBetween(s, HasServer(a, s), HasServer(b, s))
  }

  ghost predicate AcceptersBetween(a: App?, b: App?, log: AccepterLog)
    reads log`all, log.all`closes, log.all`shared
    reads (if a == null then {} else {a})`listeners, (if b == null then {} else {b})`listeners
    reads if a == null then {} else a.listeners.Values
    reads if b == null then {} else b.listeners.Values
  {
    forall x :: x in log.all ==> AccepterBetween(x, HasAccepter(a, x), HasAccepter(b, x))
  }

  ghost predicate HasBackend(a: App?, x: HTTPBackend)
    reads (if a == null then {} else {a})`backends
  {
    a != null && x.name in a.backends && a.backends[x.name] == x
  }

  ghost predicate HasFrontend(a: App?, x: HTTPFrontend)
    reads (if a == null then {} else {a})`frontends
  {
    a != null && x.name in a.frontends && a.frontends[x.name] == x
  }

  /** Every backend ever created is closed unless one of the two generations has it. */
  ghost predicate BackendsBetween(a: App?, b: App?, log: ServerLog)
    reads log`backs, log.backs`closed, (if a == null then {} else {a})`backends, (if b == null then {} else {b})`backends
  {
    forall x :: x in log.backs ==> x.closed == !(HasBackend(a, x) || HasBackend(b, x))
  }

  /** The same while the first generation is being closed and has only those in `left` to go. */
  ghost predicate BackendsLeft(a: App, left: set<string>, b: App?, log: ServerLog)
    reads log`backs, log.backs`closed, a`backends, (if b == null then {} else {b})`backends
  {
    forall x :: x in log.backs ==> x.closed == !((HasBackend(a, x) && x.name in left) || HasBackend(b, x))
  }

  /** And every frontend. */
  ghost predicate FrontendsBetween(a: App?, b: App?, log: AccepterLog)
    reads log`fronts, log.fronts`closed, (if a == null then {} else {a})`frontends, (if b == null then {} else {b})`frontends
  {
    forall x :: x in log.fronts ==> x.closed == !(HasFrontend(a, x) || HasFrontend(b, x))
  }

  ghost predicate FrontendsLeft(a: App, left: set<string>, b: App?, log: AccepterLog)
    reads log`fronts, log.fronts`closed, a`frontends, (if b == null then {} else {b})`frontends
  {
    forall x :: x in log.fronts ==> x.closed == !((HasFrontend(a, x) && x.name in left) || HasFrontend(b, x))
  }

  class App {
    var backends: map<string, HTTPBackend>
    var frontends: map<string, HTTPFrontend>
    var listeners: map<string, Listener>

    constructor ()
      ensures backends == map[] && frontends == map[] && listeners == map[]
    {
      backends, frontends, listeners := map[], map[], map[];
    }

    ghost predicate BackendsOk(log: ServerLog)
      reads this`backends, backends.Values, log`all
    {
      forall n :: n in backends ==>
        backends[n].name == n && backends[n].Valid() && backends[n].bss.Values <= log.all
    }

    ghost predicate ListenersOk(log: AccepterLog)
      reads this`listeners, listeners.Values, log`all
    {
      forall k :: k in listeners ==>
        var l := listeners[k];
        l.address == k && l.network == "tcp" && (l.accr != null ==> l.accr in log.all && l.accr.address == k)
    }

    ghost predicate Listening()
      reads this`listeners, listeners.Values
    {
      forall k :: k in listeners ==> listeners[k].accr != null
    }

    /** The other generation has none of this one's backends. */
    ghost predicate ApartBackends(b: App?)
      reads this`backends, b
    {
      b != null ==> b != this && forall n :: n in backends && n in b.backends ==> backends[n] != b.backends[n]
    }

    ghost predicate ApartListeners(b: App?)
      reads this`listeners, b
    {
      b != null ==> b != this && forall n :: n in listeners && n in b.listeners ==> listeners[n] != b.listeners[n]
    }

    ghost predicate ApartFrontends(b: App?)
      reads this`frontends, b
    {
      b != null ==> b != this && forall n :: n in frontends && n in b.frontends ==> frontends[n] != b.frontends[n]
    }

    ghost predicate BackendsOpen()
      reads this`backends, backends.Values
    {
      forall n :: n in backends ==> !backends[n].closed
    }

    ghost predicate FrontendsOpen()
      reads this`frontends, frontends.Values
    {
      forall n :: n in frontends ==> frontends[n].name == n && !frontends[n].closed
    }

    ghost predicate FrontendsOk()
      reads this`listeners, this`frontends, frontends.Values
    {
      FrontendsOpen() && Routed(listeners, frontends)
    }

    ghost predicate FrontendsApart(other: App?, log: AccepterLog)
      reads this`frontends, frontends.Values, other, if other == null then {} else other.frontends.Values
      reads log`fronts, log.fronts`closed
    {
      && FrontendsOpen() && ApartFrontends(other) && (other != null ==> other.FrontendsOk())
      && FrontendsBetween(this, other, log)
    }

    ghost predicate FrontendsSide(other: App?, log: AccepterLog)
      reads this`listeners, this`frontends, frontends.Values, other, if other == null then {} else other.frontends.Values
      reads log`fronts, log.fronts`closed
    {
      FrontendsApart(other, log) && Routed(listeners, frontends)
    }

    /** Every live accepter of this generation leads to an open frontend of this generation. */
    ghost predicate Serving()
      reads this`listeners, this`frontends, listeners.Values, frontends.Values
      reads (set k | k in listeners && listeners[k].accr != null :: listeners[k].accr)`le
      reads (set k | k in listeners && listeners[k].accr != null :: listeners[k].accr)`fe
    {
      && FrontendsOk()
      && forall k :: k in listeners ==>
           && listeners[k].accr != null
           && listeners[k].accr.le == listeners[k]
           && listeners[k].accr.fe == listeners[k].fe
    }

    /** A generation that is in service: open, listening, and leading to its own frontends. */
    ghost predicate InService(slog: ServerLog, alog: AccepterLog)
      reads this, backends.Values, listeners.Values, frontends.Values, slog, alog
      reads (set k | k in listeners && listeners[k].accr != null :: listeners[k].accr)`le
      reads (set k | k in listeners && listeners[k].accr != null :: listeners[k].accr)`fe
    {
      BackendsOk(slog) && BackendsOpen() && ListenersOk(alog) && Serving()
    }

    /** A server that both generations have under the same backend is one object: its pool survives. */
    ghost predicate SameServers(b: App?)
      reads this`backends, backends.Values, b, if b == null then {} else b.backends.Values
    {
      b != null ==> forall n, k :: n in backends && n in b.backends && k in backends[n].bss && k in b.backends[n].bss ==>
        backends[n].bss[k] == b.backends[n].bss[k]
    }

    /** An address that both generations listen on has one accepter. */
    ghost predicate SameAccepters(b: App?)
      reads this`listeners, listeners.Values, b, if b == null then {} else b.listeners.Values
    {
      b != null ==> forall k :: k in listeners && k in b.listeners && listeners[k].accr != null && b.listeners[k].accr != null ==>
        listeners[k].accr == b.listeners[k].accr
    }

    /** All that is kept about servers while this generation and `other` exist side by side. */
    ghost predicate ServersSide(other: App?, log: ServerLog)
      reads this`backends, backends.Values, log`all, log.all, log`backs, log.backs`closed
      reads other, if other == null then {} else other.backends.Values
    {
      && BackendsOk(log) && ApartBackends(other) && (other != null ==> other.BackendsOk(log))
      && ServersBetween(this, other, log) && BackendsBetween(this, other, log) && SameServers(other)
    }

    /** All that is kept about listeners while this generation and `other` exist side by side. */
    ghost predicate AcceptersSide(other: App?, log: AccepterLog)
      reads this`listeners, listeners.Values, log`all, log.all`closes, log.all`shared
      reads other, if other == null then {} else other.listeners.Values
    {
      && ListenersOk(log) && ApartListeners(other) && (other != null ==> other.ListenersOk(log))
      && AcceptersBetween(this, other, log) && SameAccepters(other)
    }

    /** One backend of this generation is closed; whatever it lent survives with the other generation. */
    method CloseServers(n: string, ghost other: App?, ghost log: ServerLog)
      requires n in backends && BackendsOk(log) && (other != null ==> other.BackendsOk(log)) && ApartBackends(other)
      requires ServersBetween(this, other, log)
      modifies backends[n], log.all
      ensures BackendsOk(log) && ServersBetween(this, other, log)
      ensures backends[n].bss == map[] && backends[n].closed
      ensures forall m :: m in backends && m != n ==> backends[m].bss == old(backends[m].bss)
      ensures other != null ==> other.BackendsOk(log)
      ensures other != null && old(other.BackendsOpen()) ==> other.BackendsOpen()
    {
      backends[n].Close();
      forall s | s in log.all
        ensures ServerBetween(s, HasServer(this, s), HasServer(other, s))
      {
        assert HasServer(other, s) == old(HasServer(other, s));
        assert old(ServerBetween(s, HasServer(this, s), HasServer(other, s)));
        if s.home == n {
          assert old(Serves(backends[n], s)) <==> s in old(backends[n].bss.Values);
        } else {
          assert HasServer(this, s) == old(HasServer(this, s));
        }
      }
    }

    method CloseBackend(n: string, ghost left: set<string>, ghost other: App?, ghost log: ServerLog)
      requires n in left && BackendsLeft(this, left, other, log)
      requires n in backends && BackendsOk(log) && (other != null ==> other.BackendsOk(log)) && ApartBackends(other)
      requires ServersBetween(this, other, log)
      modifies backends[n], log.all
      ensures BackendsOk(log) && ServersBetween(this, other, log)
      ensures BackendsLeft(this, left - {n}, other, log)
      ensures backends[n].bss == map[] && backends[n].closed
      ensures forall m :: m in backends && m != n ==> backends[m].bss == old(backends[m].bss) && backends[m].closed == old(backends[m].closed)
      ensures ServersOf(other) == old(ServersOf(other))
      ensures other != null ==> other.BackendsOk(log)
      ensures other != null && old(other.BackendsOpen()) ==> other.BackendsOpen()
    {
      hide ServersBetween, BackendsOpen;
      CloseServers(n, other, log);
    }

    lemma NoServersLeft(other: App?, log: ServerLog)
      requires ServersBetween(this, other, log)
      requires forall n :: n in backends ==> backends[n].bss == map[]
      ensures ServersBetween(null, other, log)
    {
      hide ServerBetween;
      forall s | s in log.all
        ensures ServerBetween(s, HasServer(null, s), HasServer(other, s))
      {
        assert ServerBetween(s, HasServer(this, s), HasServer(other, s));
      }
    }

    lemma NoBackendsLeft(other: App?, log: ServerLog)
      ensures BackendsBetween(this, other, log) <==> BackendsLeft(this, backends.Keys, other, log)
      ensures BackendsBetween(null, other, log) <==> BackendsLeft(this, {}, other, log)
    {
    }

    /** The backends of this generation are closed, and all servers and backends but those of `other`. */
    ghost predicate BackendsDown(other: App?, log: ServerLog)
      reads this`backends, backends.Values, log`all, log.all, log`backs, log.backs`closed
      reads (if other == null then {} else {other})`backends, if other == null then {} else other.backends.Values
    {
      && ServersBetween(null, other, log) && BackendsBetween(null, other, log)
      && (forall n :: n in backends ==> backends[n].closed && backends[n].bss == map[])
    }

    method CloseBackends(ghost other: App?, ghost log: ServerLog)
      requires ServersSide(other, log)
      modifies backends.Values, log.all
      ensures BackendsOk(log) && BackendsDown(other, log) && ServersOf(other) == old(ServersOf(other))
      ensures other != null ==> other.BackendsOk(log)
      ensures other != null && old(other.BackendsOpen()) ==> other.BackendsOpen()
    {
      hide ServersBetween, BackendsOk, BackendsOpen, BackendsBetween, BackendsLeft, ServersOf;
      var todo := backends.Keys;
      NoBackendsLeft(other, log);
      while todo != {}
        invariant todo <= backends.Keys && BackendsOk(log) && ServersBetween(this, other, log)
        invariant BackendsLeft(this, todo, other, log) && ServersOf(other) == old(ServersOf(other))
        invariant other != null ==> other.BackendsOk(log)
        invariant forall n :: n in backends && n !in todo ==> backends[n].bss == map[] && backends[n].closed
        invariant other != null && old(other.BackendsOpen()) ==> other.BackendsOpen()
      {
        var n :| n in todo;
        ghost var left := todo;
        todo := todo - {n};
        CloseBackend(n, left, other, log);
      }
      NoServersLeft(other, log);
      NoBackendsLeft(other, log);
    }

    /** One listener of this generation is closed; an accepter it lent survives with the other generation. */
    method CloseListener(k: string, ghost other: App?, ghost log: AccepterLog)
      requires k in listeners && ListenersOk(log)
      requires (other != null ==> other.ListenersOk(log)) && ApartListeners(other)
      requires AcceptersBetween(this, other, log)
      modifies listeners[k], log.all`closes, log.all`shared
      ensures ListenersOk(log) && AcceptersBetween(this, other, log)
      ensures listeners[k].accr == null
      ensures forall m :: m in listeners && m != k ==> listeners[m].accr == old(listeners[m].accr)
      ensures AcceptersOf(other) == old(AcceptersOf(other))
      ensures other != null ==> other.ListenersOk(log)
      ensures other != null && old(other.Serving()) ==> other.Serving()
    {
      listeners[k].Close();
      forall x | x in log.all
        ensures AccepterBetween(x, HasAccepter(this, x), HasAccepter(other, x))
      {
        assert HasAccepter(other, x) == old(HasAccepter(other, x));
        assert old(AccepterBetween(x, HasAccepter(this, x), HasAccepter(other, x)));
        if x.address != k {
          assert HasAccepter(this, x) == old(HasAccepter(this, x));
        }
      }
    }

    lemma NoListenersLeft(other: App?, log: AccepterLog)
      requires AcceptersBetween(this, other, log)
      requires forall k :: k in listeners ==> listeners[k].accr == null
      ensures AcceptersBetween(null, other, log)
    {
      hide AccepterBetween;
      forall x | x in log.all
        ensures AccepterBetween(x, HasAccepter(null, x), HasAccepter(other, x))
      {
        assert AccepterBetween(x, HasAccepter(this, x), HasAccepter(other, x));
      }
    }

    method CloseListeners(ghost other: App?, ghost log: AccepterLog)
      requires AcceptersSide(other, log)
      modifies listeners.Values, log.all`closes, log.all`shared
      ensures AcceptersBetween(null, other, log) && AcceptersOf(other) == old(AcceptersOf(other))
      ensures forall k :: k in listeners ==> listeners[k].accr == null
      ensures other != null ==> other.ListenersOk(log)
      ensures other != null && old(other.Serving()) ==> other.Serving()
    {
      hide AcceptersBetween, ListenersOk, Serving, AcceptersOf;
      var todo := listeners.Keys;
      while todo != {}
        invariant todo <= listeners.Keys && ListenersOk(log) && AcceptersBetween(this, other, log)
        invariant (other != null ==> other.ListenersOk(log)) && AcceptersOf(other) == old(AcceptersOf(other))
        invariant forall k :: k in listeners && k !in todo ==> listeners[k].accr == null
        invariant other != null && old(other.Serving()) ==> other.Serving()
      {
        var k :| k in todo;
        todo := todo - {k};
        CloseListener(k, other, log);
      }
      NoListenersLeft(other, log);
    }

    /** HTTPBackend.Fork where nobody has borrowed a server of the old backend yet. */
    static method ForkUnshared(b: HTTPBackend?, n: string, lines: seq<ServerLine>, ghost log: ServerLog) returns (bn: HTTPBackend?)
      requires b != null ==> b.Valid() && b.name == n && b.bss.Values <= log.all
      requires b != null ==> forall k :: k in b.bss ==> !b.bss[k].shared
      modifies log, if b == null then {} else b.bss.Values
      ensures old(log.all) <= log.all && fresh(log.all - old(log.all))
      ensures bn != null <==> LinesOk(lines)
      ensures bn != null ==> fresh(bn) && bn.name == n && !bn.closed && bn.Valid() && bn.bss.Values <= log.all
      ensures old(log.backs) <= log.backs && fresh(log.backs - old(log.backs)) && (bn != null ==> bn in log.backs)
      ensures forall x :: x in log.backs - old(log.backs) ==> x.closed == (x != bn)
      ensures bn != null ==> AsAsked(bn.bss, if b == null then map[] else b.bss, Wanted(lines))
      ensures bn != null ==> forall k :: k in bn.bss && bn.bss[k] in old(log.all) ==> b != null && bn.bss[k] in b.bss.Values
      ensures forall s :: s in log.all - old(log.all) ==>
                s.home == n && !s.shared && s.closes == if Serves(bn, s) then 0 else 1
      ensures b != null ==> forall s :: s in b.bss.Values ==> s.closes == old(s.closes) && s.shared == Serves(bn, s)
    {
      AcceptedLines(lines);
      hide Wanted, AsAsked, LinesOk;
      bn := HTTPBackend.Fork(b, n, lines, log);
      if bn != null {
        LinesAnswered(bn.bss, if b == null then map[] else b.bss, lines);
      }
    }

    /** Runs HTTPBackend.Fork on the old generation's backend of the same name, if there is one. */
    static method ForkSection(a: App?, n: string, lines: seq<ServerLine>, ghost log: ServerLog) returns (bn: HTTPBackend?)
      requires a != null ==> a.BackendsOk(log)
      requires forall s :: s in log.all && s.home == n && HasServer(a, s) ==> !s.shared
      modifies log, log.all
      ensures old(log.all) <= log.all && fresh(log.all - old(log.all))
      ensures bn != null <==> LinesOk(lines)
      ensures bn != null ==> fresh(bn) && bn.name == n && !bn.closed && bn.Valid() && bn.bss.Values <= log.all
      ensures old(log.backs) <= log.backs && fresh(log.backs - old(log.backs)) && (bn != null ==> bn in log.backs)
      ensures forall x :: x in log.backs - old(log.backs) ==> x.closed == (x != bn)
      ensures bn != null ==> AsAsked(bn.bss, ServersIn(ServersOf(a), n), Wanted(lines))
      ensures forall s :: s in log.all - old(log.all) ==>
                s.home == n && !s.shared && s.closes == if Serves(bn, s) then 0 else 1
      ensures forall s :: s in old(log.all) ==>
                && s.closes == old(s.closes)
                && s.shared == (if s.home == n && HasServer(a, s) then Serves(bn, s) else old(s.shared))
                && (Serves(bn, s) ==> s.home == n && HasServer(a, s))
    {
      var b: HTTPBackend? := null;
      if a != null && n in a.backends {
        b := a.backends[n];
        assert forall s :: s in b.bss.Values ==> HasServer(a, s);
      }
      bn := ForkUnshared(b, n, lines, log);
    }

    /** The next backend section: its servers move over from generation `a` as far as they were there. */
    method ForkBackend(a: App?, n: string, cfg: BackendConfig, ghost log: ServerLog) returns (ok: bool)
      requires n !in backends && ServersSide(a, log)
      modifies this`backends, log, log.all
      ensures ServersSide(a, log)
      ensures old(log.all) <= log.all && fresh(log.all - old(log.all))
      ensures ok <==> cfg.optionsOk && LinesOk(cfg.servers)
      ensures !ok ==> backends == old(backends)
      ensures ok ==> n in backends && backends == old(backends)[n := backends[n]]
      ensures ok ==> fresh(backends[n]) && !backends[n].closed
      ensures ok ==> AsAsked(backends[n].bss, ServersIn(ServersOf(a), n), Wanted(cfg.servers))
    {
      hide LinesOk, AsAsked, Wanted, ApartBackends, SameServers, ServersIn, ServersOf;
      NotMine(a, log);
      if !cfg.optionsOk {
        return false;
      }
      var bn := ForkSection(a, n, cfg.servers, log);
      forall s | s in log.all
        ensures ServerBetween(s, HasServer(this, s) || Serves(bn, s), HasServer(a, s))
      {
        if s in old(log.all) {
          assert old(ServerBetween(s, HasServer(this, s), HasServer(a, s)));
        }
      }
      ok := bn != null;
      if ok {
        AdoptBackend(a, bn, Wanted(cfg.servers), log);
      }
    }

    /** The new backend becomes one of this generation's. */
    method AdoptBackend(ghost a: App?, bn: HTTPBackend, ghost wanted: map<string, nat>, ghost log: ServerLog)
      requires BackendsOk(log) && ApartBackends(a) && (a != null ==> a.BackendsOk(log)) && SameServers(a)
      requires bn.name !in backends && bn.Valid() && bn.bss.Values <= log.all
      requires a != null && bn.name in a.backends ==> bn != a.backends[bn.name]
      requires AsAsked(bn.bss, ServersIn(ServersOf(a), bn.name), wanted)
      requires forall s :: s in log.all ==> ServerBetween(s, HasServer(this, s) || Serves(bn, s), HasServer(a, s))
      requires forall x :: x in log.backs ==> x.closed == !(HasBackend(this, x) || x == bn || HasBackend(a, x))
      modifies this`backends
      ensures backends == old(backends)[bn.name := bn] && ServersSide(a, log)
    {
      backends := backends[bn.name := bn];
      forall s | s in log.all
        ensures ServerBetween(s, HasServer(this, s), HasServer(a, s))
      {
        assert HasServer(this, s) <==> old(HasServer(this, s)) || Serves(bn, s);
      }
    }

    /** Runs Listener.Fork on the old generation's listener of the same address, if there is one. */
    static method ForkAccepter(a: App?, fn: HTTPFrontend, cfg: ListenerConfig, ghost log: AccepterLog)
      returns (ln: Listener?)
      requires (a != null ==> a.ListenersOk(log) && a.Listening())
      requires forall x :: x in log.all && x.address == cfg.address && HasAccepter(a, x) ==> !x.shared
      modifies log`all, log.all`shared
      ensures old(log.all) <= log.all && fresh(log.all - old(log.all))
      ensures ln != null <==> (a != null && cfg.address in a.listeners) || cfg.canListen
      ensures ln != null ==> fresh(ln) && ln.network == "tcp" && ln.address == cfg.address && ln.fe == fn
      ensures ln != null ==> ln.accr != null && ln.accr in log.all && ln.accr.address == cfg.address
      ensures ln != null && a != null && cfg.address in a.listeners ==> ln.accr == a.listeners[cfg.address].accr
      ensures forall x :: x in log.all - old(log.all) ==> ln != null && x == ln.accr && x.closes == 0 && !x.shared
      ensures forall x :: x in old(log.all) ==>
                && x.shared == (old(x.shared) || (x.address == cfg.address && HasAccepter(a, x)))
                && (ln != null ==> (x == ln.accr <==> x.address == cfg.address && HasAccepter(a, x)))
    {
      var l: Listener? := null;
      if a != null && cfg.address in a.listeners {
        l := a.listeners[cfg.address];
        assert HasAccepter(a, l.accr);
      }
      ln := Listener.Fork(l, "tcp", cfg.address, fn, cfg.canListen, log);
    }

    /** The next listener of frontend `fn`: its accepter moves over from generation `a` if it was there. */
    method ForkListener(a: App?, fn: HTTPFrontend, cfg: ListenerConfig, ghost log: AccepterLog) returns (ok: bool)
      requires AcceptersSide(a, log) && Listening() && (a != null ==> a.Listening())
      modifies this`listeners, log`all, log.all`shared
      ensures AcceptersSide(a, log) && Listening()
      ensures old(log.all) <= log.all && fresh(log.all - old(log.all))
      ensures ok <==>
                && cfg.address != "" && cfg.tlsOk && ((a != null && cfg.address in a.listeners) || cfg.canListen)
                && cfg.address !in old(listeners)
      ensures !ok ==> listeners == old(listeners)
      ensures ok ==> cfg.address in listeners && listeners == old(listeners)[cfg.address := listeners[cfg.address]]
      ensures ok ==> fresh(listeners[cfg.address]) && listeners[cfg.address].fe == fn
    {
      if cfg.address == "" || cfg.address in listeners || !cfg.tlsOk {
        return false;
      }
      var ln := ForkAccepter(a, fn, cfg, log);
      forall x | x in log.all
        ensures AccepterBetween(x, HasAccepter(this, x) || (ln != null && x == ln.accr), HasAccepter(a, x))
      {
        if x in old(log.all) {
          assert old(AccepterBetween(x, HasAccepter(this, x), HasAccepter(a, x)));
        }
      }
      ok := ln != null;
      if ok {
        Adopt(a, ln, log);
      }
    }

    /** The new listener becomes one of this generation's. */
    method Adopt(ghost a: App?, ln: Listener, ghost log: AccepterLog)
      requires ListenersOk(log) && ApartListeners(a) && (a != null ==> a.ListenersOk(log) && a.Listening()) && SameAccepters(a)
      requires Listening() && ln.address !in listeners
      requires ln.network == "tcp" && ln.accr != null && ln.accr in log.all && ln.accr.address == ln.address
      requires forall x :: x in log.all ==> AccepterBetween(x, HasAccepter(this, x) || x == ln.accr, HasAccepter(a, x))
      requires a != null && ln.address in a.listeners ==> ln != a.listeners[ln.address] && ln.accr == a.listeners[ln.address].accr
      modifies this`listeners
      ensures listeners == old(listeners)[ln.address := ln]
      ensures AcceptersSide(a, log) && Listening()
    {
      listeners := listeners[ln.address := ln];
      forall x | x in log.all
        ensures AccepterBetween(x, HasAccepter(this, x), HasAccepter(a, x))
      {
        assert HasAccepter(this, x) <==> old(HasAccepter(this, x)) || x == ln.accr;
      }
    }

    method ForkBackends(a: App?, cfgs: map<string, BackendConfig>, ghost log: ServerLog) returns (ok: bool)
      requires backends == map[] && ServersSide(a, log)
      modifies this`backends, log, log.all
      ensures ServersSide(a, log)
      ensures old(log.all) <= log.all && fresh(log.all - old(log.all))
      ensures BackendsOpen() && forall n :: n in backends ==> fresh(backends[n])
      ensures ok <==> BackendsAccepted(cfgs)
      ensures ok ==> AllAsAsked(ServersOf(this), ServersOf(a), cfgs)
    {
      hide ServersSide, LinesOk, Wanted, AsAsked, ServersOf;
      var todo := cfgs.Keys;
      NotMine(a, log);
      while todo != {}
        invariant todo <= cfgs.Keys && backends.Keys == cfgs.Keys - todo
        invariant ServersSide(a, log) && ServersOf(a) == old(ServersOf(a))
        invariant old(log.all) <= log.all && fresh(log.all - old(log.all))
        invariant forall n :: n in backends ==>
                    && fresh(backends[n]) && !backends[n].closed && cfgs[n].optionsOk && LinesOk(cfgs[n].servers)
                    && AsAsked(backends[n].bss, ServersIn(ServersOf(a), n), Wanted(cfgs[n].servers))
      {
        var n :| n in todo;
        todo := todo - {n};
        var taken := ForkBackend(a, n, cfgs[n], log);
        if !taken {
          return false;
        }
      }
      ok := true;
      TheirServers();
    }

    lemma NotMine(a: App?, log: ServerLog)
      requires ServersSide(a, log)
      ensures a != null ==> a != this
    {
    }

    lemma TheirServers()
      ensures ServersOf(this).Keys == backends.Keys
      ensures forall n :: n in backends ==> ServersOf(this)[n] == backends[n].bss
    {
    }

    method ForkListeners(a: App?, fn: HTTPFrontend, cfgs: seq<ListenerConfig>, ghost log: AccepterLog) returns (ok: bool)
      requires AcceptersSide(a, log) && Listening() && (a != null ==> a.Listening() && a != this)
      modifies this`listeners, log`all, log.all`shared
      ensures AcceptersSide(a, log) && Listening()
      ensures old(log.all) <= log.all && fresh(log.all - old(log.all))
      ensures ok <==> ListenersAccepted(cfgs, Live(a), old(listeners.Keys))
      ensures ok ==> listeners.Keys == old(listeners.Keys) + Addresses(cfgs)
      ensures Extends(listeners, old(listeners), fn)
      ensures forall k :: k in listeners ==> if k in old(listeners) then listeners[k] == old(listeners[k]) else fresh(listeners[k])
    {
      hide AcceptersSide, Listening, ListenersAccepted, Addresses, Extends;
      ExtendsNothing(listeners, fn);
      var i := 0;
      NoListeners(cfgs, Live(a), listeners.Keys);
      while i < |cfgs|
        invariant 0 <= i <= |cfgs|
        invariant AcceptersSide(a, log) && Listening() && (a != null ==> a.Listening())
        invariant ListenersAccepted(cfgs[..i], Live(a), old(listeners.Keys))
        invariant listeners.Keys == old(listeners.Keys) + Addresses(cfgs[..i])
        invariant old(log.all) <= log.all && fresh(log.all - old(log.all))
        invariant Extends(listeners, old(listeners), fn)
        invariant forall k :: k in listeners ==> if k in old(listeners) then listeners[k] == old(listeners[k]) else fresh(listeners[k])
      {
        NextListener(cfgs, i, Live(a), old(listeners.Keys));
        ghost var before := listeners;
        var taken := ForkListener(a, fn, cfgs[i], log);
        if !taken {
          return false;
        }
        ExtendsFurther(before, old(listeners), fn, cfgs[i].address, listeners[cfgs[i].address]);
        i := i + 1;
      }
      assert cfgs[..i] == cfgs;
      ok := true;
    }

    lemma NoListeners(ls: seq<ListenerConfig>, live: set<string>, taken: set<string>)
      ensures ListenersAccepted(ls[..0], live, taken) && Addresses(ls[..0]) == {}
    {
    }

    /** The next frontend with its listeners, after those in `done`. */
    method ForkFrontend(a: App?, n: string, cfg: FrontendConfig, ghost fs: map<string, FrontendConfig>, ghost done: set<string>,
                        ghost log: AccepterLog) returns (ok: bool)
      requires n !in frontends && FrontendsSide(a, log)
      requires n in fs && fs[n] == cfg && n !in done
      requires Listens(listeners, frontends, fs, done) && FrontendsAccepted(fs, done, Live(a))
      requires AcceptersSide(a, log) && Listening() && (a != null ==> a.Listening())
      modifies this`listeners, this`frontends, log, log.all`shared
      ensures AcceptersSide(a, log) && Listening()
      ensures FrontendsSide(a, log)
      ensures old(log.all) <= log.all && fresh(log.all - old(log.all))
      ensures ok <==> FrontendsAccepted(fs, done + {n}, Live(a))
      ensures ok ==> Listens(listeners, frontends, fs, done + {n})
      ensures old(frontends.Keys) <= frontends.Keys <= old(frontends.Keys) + {n} && (ok ==> n in frontends)
      ensures forall m :: m in frontends ==> if m in old(frontends) then frontends[m] == old(frontends[m]) else fresh(frontends[m])
      ensures forall k :: k in listeners ==> if k in old(listeners) then listeners[k] == old(listeners[k]) else fresh(listeners[k])
    {
      hide ListenersAccepted, Addresses, AllAddresses, FrontendsAccepted, AcceptersSide, Listening, Routed, Listens, Extends;
      hide FrontendsApart;
      NextFrontend(fs, done, n, Live(a));
      KeysOf(listeners, frontends, fs, done);
      NotThis(a, log);
      if !cfg.optionsOk {
        return false;
      }
      ghost var was, fr := listeners, frontends;
      var fn := NewFrontend(n, a, log);
      TakenApart(cfg.listeners, Live(a), listeners.Keys);
      ok := ForkListeners(a, fn, cfg.listeners, log);
      RoutedMore(listeners, was, fr, fn);
      if ok {
        ListensMore(listeners, was, fr, fn, fs, done);
      }
    }

    lemma NothingYet(fs: map<string, FrontendConfig>, live: set<string>)
      requires frontends == map[] && listeners == map[]
      ensures Listening() && Listens(listeners, frontends, fs, {}) && FrontendsAccepted(fs, {}, live)
    {
    }

    lemma NotThis(a: App?, log: AccepterLog)
      requires FrontendsSide(a, log)
      ensures a != null ==> a != this
    {
    }

    method NewFrontend(n: string, ghost a: App?, ghost log: AccepterLog) returns (fn: HTTPFrontend)
      requires FrontendsApart(a, log) && n !in frontends
      modifies this`frontends, log`fronts
      ensures FrontendsApart(a, log) && fn.name == n && fresh(fn) && frontends == old(frontends)[n := fn]
    {
      fn := new HTTPFrontend(n, log);
      frontends := frontends[n := fn];
    }

    lemma KeysOf(ls: ListenerMap, fr: FrontendMap, fs: map<string, FrontendConfig>, done: set<string>)
      requires Listens(ls, fr, fs, done)
      ensures ls.Keys == AllAddresses(fs, done)
    {
    }

    method ForkFrontends(a: App?, cfgs: map<string, FrontendConfig>, ghost log: AccepterLog) returns (ok: bool)
      requires frontends == map[] && listeners == map[]
      requires AcceptersSide(a, log) && FrontendsSide(a, log) && (a != null ==> a.Listening())
      modifies this`listeners, this`frontends, log, log.all`shared
      ensures AcceptersSide(a, log) && Listening()
      ensures FrontendsSide(a, log)
      ensures old(log.all) <= log.all && fresh(log.all - old(log.all))
      ensures forall m :: m in frontends ==> fresh(frontends[m])
      ensures forall k :: k in listeners ==> fresh(listeners[k])
      ensures ok <==> FrontendsAccepted(cfgs, cfgs.Keys, Live(a))
      ensures ok ==> frontends.Keys == cfgs.Keys && Listens(listeners, frontends, cfgs, cfgs.Keys)
    {
      var todo := cfgs.Keys;
      hide AcceptersSide, FrontendsSide, Listening, FrontendsAccepted, Listens;
      assert cfgs.Keys - todo == {};
      NothingYet(cfgs, Live(a));
      NotThis(a, log);
      while todo != {}
        invariant todo <= cfgs.Keys && frontends.Keys == cfgs.Keys - todo && FrontendsSide(a, log)
        invariant AcceptersSide(a, log) && Listening() && (a != null ==> a.Listening())
        invariant old(log.all) <= log.all && fresh(log.all - old(log.all))
        invariant forall m :: m in frontends ==> fresh(frontends[m])
        invariant forall k :: k in listeners ==> fresh(listeners[k])
        invariant FrontendsAccepted(cfgs, cfgs.Keys - todo, Live(a)) && Listens(listeners, frontends, cfgs, cfgs.Keys - todo)
      {
        var n :| n in todo;
        ghost var done := cfgs.Keys - todo;
        todo := todo - {n};
        assert cfgs.Keys - todo == done + {n};
        NextFrontend(cfgs, done, n, Live(a));
        var taken := ForkFrontend(a, n, cfgs[n], cfgs, done, log);
        if !taken {
          return false;
        }
      }
      assert cfgs.Keys - todo == cfgs.Keys;
      ok := true;
    }

    /** The end of Fork: each accepter is pointed at the new listener and its frontend. */
    method ActivateListeners(ghost other: App?, ghost log: AccepterLog)
      requires AcceptersSide(other, log) && Listening() && FrontendsOk()
      modifies log.all`le, log.all`fe
      ensures Serving()
    {
      hide FrontendsOpen, Routed, AcceptersBetween, ApartListeners, SameAccepters;
      assert forall k :: k in listeners ==> listeners[k].accr.address == k;
      var todo := listeners.Keys;
      while todo != {}
        invariant todo <= listeners.Keys
        invariant forall k :: k in listeners && k !in todo ==>
                    listeners[k].accr.le == listeners[k] && listeners[k].accr.fe == listeners[k].fe
      {
        var k :| k in todo;
        todo := todo - {k};
        listeners[k].Activate();
      }
    }

    lemma NoFrontendsLeft(other: App?, log: AccepterLog)
      ensures FrontendsBetween(this, other, log) <==> FrontendsLeft(this, frontends.Keys, other, log)
      ensures FrontendsBetween(null, other, log) <==> FrontendsLeft(this, {}, other, log)
    {
    }

    method CloseFrontend(n: string, ghost left: set<string>, ghost other: App?, ghost log: AccepterLog)
      requires n in left && n in frontends && frontends[n].name == n && FrontendsLeft(this, left, other, log)
      requires ApartFrontends(other) && (other != null ==> other.FrontendsOpen())
      modifies frontends[n]
      ensures frontends[n].closed && FrontendsLeft(this, left - {n}, other, log)
      ensures other != null ==> other.FrontendsOpen()
    {
      frontends[n].Close();
    }

    method CloseFrontends(ghost other: App?, ghost log: AccepterLog)
      requires FrontendsSide(other, log)
      modifies frontends.Values
      ensures forall n :: n in frontends ==> frontends[n].closed
      ensures FrontendsBetween(null, other, log)
      ensures other != null ==> other.FrontendsOk()
      ensures other != null && old(other.Serving()) ==> other.Serving()
    {
      hide FrontendsBetween, FrontendsLeft, Routed;
      NoFrontendsLeft(other, log);
      var todo := frontends.Keys;
      while todo != {}
        invariant todo <= frontends.Keys && FrontendsLeft(this, todo, other, log)
        invariant forall n :: n in frontends && n !in todo ==> frontends[n].closed
        invariant other != null ==> other.FrontendsOpen()
      {
        var n :| n in todo;
        ghost var left := todo;
        todo := todo - {n};
        CloseFrontend(n, left, other, log);
      }
      NoFrontendsLeft(other, log);
    }

    /** The listeners and frontends of this generation are closed, and all others but those of `other`. */
    ghost predicate EdgeDown(other: App?, log: AccepterLog)
      reads this`listeners, listeners.Values, this`frontends, frontends.Values
      reads log`all, log.all`closes, log.all`shared, log`fronts, log.fronts`closed
      reads (if other == null then {} else {other})`listeners, if other == null then {} else other.listeners.Values
      reads (if other == null then {} else {other})`frontends
    {
      && AcceptersBetween(null, other, log) && FrontendsBetween(null, other, log)
      && (forall n :: n in frontends ==> frontends[n].closed)
      && (forall k :: k in listeners ==> listeners[k].accr == null)
    }

    /** First nothing new comes in, and the old frontends stop. */
    method CloseEdge(ghost other: App?, ghost log: AccepterLog)
      requires AcceptersSide(other, log) && FrontendsSide(other, log)
      modifies listeners.Values, frontends.Values, log.all`closes, log.all`shared
      ensures EdgeDown(other, log) && AcceptersOf(other) == old(AcceptersOf(other))
      ensures other != null ==> other.ListenersOk(log) && other.FrontendsOk()
      ensures other != null && old(other.Serving()) ==> other.Serving()
    {
      hide AcceptersBetween, ListenersOk, FrontendsOk, AcceptersSide, FrontendsSide, Serving, FrontendsBetween, AcceptersOf;
      CloseListeners(other, log);
      CloseFrontends(other, log);
    }

    // ---- whole generations -----------------------------------------------------------------------------------------

    /** All that is kept while this generation and `other` exist side by side. */
    ghost predicate Beside(other: App?, slog: ServerLog, alog: AccepterLog)
      reads this`backends, backends.Values, slog`all, slog.all, slog`backs, slog.backs`closed
      reads this`listeners, listeners.Values, alog`all, alog.all`closes, alog.all`shared
      reads this`frontends, frontends.Values, alog`fronts, alog.fronts`closed
      reads other, if other == null then {} else other.backends.Values
      reads if other == null then {} else other.listeners.Values
      reads if other == null then {} else other.frontends.Values
    {
      ServersSide(other, slog) && AcceptersSide(other, alog) && FrontendsSide(other, alog)
    }

    /** Every server, accepter, backend and frontend ever created is closed, once, unless generation `a` has it, and lent to
        nobody. */
    static ghost predicate Alone(a: App?, slog: ServerLog, alog: AccepterLog)
      reads slog`all, slog.all, slog`backs, slog.backs`closed
      reads alog`all, alog.all`closes, alog.all`shared, alog`fronts, alog.fronts`closed
      reads a, if a == null then {} else a.backends.Values
      reads if a == null then {} else a.listeners.Values
    {
      && ServersBetween(null, a, slog) && AcceptersBetween(null, a, alog)
      && BackendsBetween(null, a, slog) && FrontendsBetween(null, a, alog)
    }

    /** Everything of this generation is closed. */
    ghost predicate Down()
      reads this, backends.Values, frontends.Values, listeners.Values
    {
      && (forall n :: n in frontends ==> frontends[n].closed)
      && (forall n :: n in backends ==> backends[n].closed && backends[n].bss == map[])
      && (forall k :: k in listeners ==> listeners[k].accr == null)
    }

    /** Closes this generation: what the other one has as well is handed over to it, the rest is really closed.  The other
        one has what it had, and stays in service. */
    method Close(ghost other: App?, ghost slog: ServerLog, ghost alog: AccepterLog)
      requires Beside(other, slog, alog)
      modifies backends.Values, listeners.Values, frontends.Values, slog.all, alog.all`closes, alog.all`shared
      ensures Alone(other, slog, alog) && Down()
      ensures ServersOf(other) == old(ServersOf(other)) && AcceptersOf(other) == old(AcceptersOf(other))
      ensures other != null ==> other.BackendsOk(slog) && other.ListenersOk(alog) && other.FrontendsOk()
      ensures other != null && old(other.BackendsOpen() && other.Serving()) ==> other.InService(slog, alog)
    {
      hide Alone, Down, EdgeDown, BackendsDown, BackendsOk, ListenersOk, FrontendsOk, Serving, InService;
      hide ServersSide, AcceptersSide, FrontendsSide, BackendsOpen, ServersOf, AcceptersOf;
      CloseEdge(other, alog);
      CloseInner(other, slog, alog);
      AllDown(other, slog, alog);
    }

    /** Then the backends, which nothing leads to any more. */
    method CloseInner(ghost other: App?, ghost slog: ServerLog, ghost alog: AccepterLog)
      requires ServersSide(other, slog) && EdgeDown(other, alog)
      requires other != null ==> other.ListenersOk(alog) && other.FrontendsOk()
      modifies backends.Values, slog.all
      ensures EdgeDown(other, alog) && BackendsDown(other, slog)
      ensures ServersOf(other) == old(ServersOf(other)) && AcceptersOf(other) == old(AcceptersOf(other))
      ensures other != null ==> other.BackendsOk(slog) && other.ListenersOk(alog) && other.FrontendsOk()
      ensures other != null && old(other.BackendsOpen() && other.Serving()) ==> other.InService(slog, alog)
    {
      hide EdgeDown, BackendsDown, BackendsOk, ListenersOk, FrontendsOk, Serving;
      hide ServersSide, BackendsOpen, ServersOf, AcceptersOf;
      CloseBackends(other, slog);
    }

    lemma AllDown(other: App?, slog: ServerLog, alog: AccepterLog)
      requires EdgeDown(other, alog) && BackendsDown(other, slog)
      ensures Alone(other, slog, alog) && Down()
    {
    }

    /** What a configuration asks for: its backends with their servers, those that were there before being the same and the
        others having the weight asked for; its frontends; and its listeners, each leading to its frontend. */
    ghost predicate Has(cfg: Config, was: map<string, ServerMap>)
      reads this, backends.Values
    {
      && AllAsAsked(ServersOf(this), was, cfg.backends) && frontends.Keys == cfg.frontends.Keys
      && Listens(listeners, frontends, cfg.frontends, cfg.frontends.Keys)
    }

    /** That is, of an accepted configuration: a backend has exactly the servers of its lines; one that was there before is
        the same object, any other has the weight its line gives, or else 1. */
    lemma HasBackends(cfg: Config, was: map<string, ServerMap>, live: set<string>)
      requires Has(cfg, was) && Accepted(cfg, live)
      ensures backends.Keys == cfg.backends.Keys
      ensures forall n :: n in cfg.backends ==>
                backends[n].bss.Keys == set i | 0 <= i < |cfg.backends[n].servers| :: cfg.backends[n].servers[i].server
      ensures forall n, i :: n in cfg.backends && 0 <= i < |cfg.backends[n].servers| ==>
                var line := cfg.backends[n].servers[i];
                var s := backends[n].bss[line.server];
                if n in was && line.server in was[n] then s == was[n][line.server]
                else s.weight == match line.weight case Given(w) => w case _ => 1
    {
      hide Wanted, LinesOk, Listens;
      AcceptedMeans(cfg, live);
      assert ServersOf(this).Keys == backends.Keys;
      forall n | n in cfg.backends
        ensures AsAsked(backends[n].bss, ServersIn(was, n), Wanted(cfg.backends[n].servers))
        ensures LinesOk(cfg.backends[n].servers)
      {
        assert ServersOf(this)[n] == backends[n].bss;
      }
      forall n | n in cfg.backends
        ensures backends[n].bss.Keys == set i | 0 <= i < |cfg.backends[n].servers| :: cfg.backends[n].servers[i].server
        ensures forall i :: 0 <= i < |cfg.backends[n].servers| ==>
                  var line := cfg.backends[n].servers[i];
                  && line.server in Wanted(cfg.backends[n].servers)
                  && Wanted(cfg.backends[n].servers)[line.server] == match line.weight case Given(w) => w case _ => 1
      {
        WantedIs(cfg.backends[n].servers);
      }
    }

    /** And it listens on exactly the addresses of its listeners, each of which leads to its frontend. */
    lemma HasFrontends(cfg: Config, was: map<string, ServerMap>)
      requires Has(cfg, was)
      ensures frontends.Keys == cfg.frontends.Keys
      ensures forall k :: k in listeners <==>
                exists n, i :: n in cfg.frontends && 0 <= i < |cfg.frontends[n].listeners|
                                 && cfg.frontends[n].listeners[i].address == k
      ensures forall n, i :: n in cfg.frontends && 0 <= i < |cfg.frontends[n].listeners| ==>
                && cfg.frontends[n].listeners[i].address in listeners
                && listeners[cfg.frontends[n].listeners[i].address].fe == frontends[n]
    {
      hide AllAsAsked;
      var fs := cfg.frontends;
      forall n, i | n in fs && 0 <= i < |fs[n].listeners| ensures fs[n].listeners[i].address in Addresses(fs[n].listeners) {
      }
      assert listeners.Keys == AllAddresses(fs, fs.Keys);
    }

    /** The steps of Fork that can fail. */
    method Build(a: App?, cfg: Config, ghost slog: ServerLog, ghost alog: AccepterLog) returns (ok: bool)
      requires backends == map[] && frontends == map[] && listeners == map[]
      requires Beside(a, slog, alog) && (a != null ==> a.Listening())
      modifies this, slog, slog.all, alog, alog.all`shared
      ensures Beside(a, slog, alog)
      ensures old(slog.all) <= slog.all && fresh(slog.all - old(slog.all))
      ensures old(alog.all) <= alog.all && fresh(alog.all - old(alog.all))
      ensures forall n :: n in backends ==> fresh(backends[n])
      ensures forall n :: n in frontends ==> fresh(frontends[n])
      ensures forall k :: k in listeners ==> fresh(listeners[k])
      ensures ok <==> Accepted(cfg, Live(a))
      ensures ok ==> BackendsOpen() && Listening() && Has(cfg, ServersOf(a))
    {
      hide ServersSide, AcceptersSide, FrontendsSide, BackendsOpen, Listening, LinesOk, Wanted;
      hide BackendsAccepted, FrontendsAccepted, Listens, AllAsAsked, ServersOf;
      NotThis(a, alog);
      ok := cfg.healthChecksOk;
      if ok {
        ok := ForkBackends(a, cfg.backends, slog);
      }
      if ok {
        ok := ForkFrontends(a, cfg.frontends, alog);
      }
    }

    lemma Inheritance(a: App?, slog: ServerLog, alog: AccepterLog)
      requires Beside(a, slog, alog) && Listening() && (a != null ==> a.Listening())
      ensures KeepsAccepters(AcceptersOf(this), AcceptersOf(a))
    {
      hide ServersSide, FrontendsSide, ListenersOk, AcceptersBetween;
    }

    lemma SideFacts(b: App?, slog: ServerLog, alog: AccepterLog)
      requires Beside(b, slog, alog)
      ensures BackendsOk(slog) && ListenersOk(alog) && FrontendsOk() && AcceptersSide(b, alog)
      ensures b == null ==> Alone(this, slog, alog)
    {
    }

    lemma AloneSides(slog: ServerLog, alog: AccepterLog)
      requires InService(slog, alog) && Alone(this, slog, alog)
      ensures Beside(null, slog, alog)
    {
    }

    lemma SidesSwap(b: App, slog: ServerLog, alog: AccepterLog)
      requires Beside(b, slog, alog)
      ensures b.FrontendsOpen() ==> b.Beside(this, slog, alog)
    {
    }

    /** The end of Fork, which cannot fail. */
    method Commit(ghost a: App?, ghost slog: ServerLog, ghost alog: AccepterLog)
      requires Beside(a, slog, alog) && BackendsOpen() && Listening() && (a != null ==> a.Listening() && a.FrontendsOpen())
      modifies alog.all`le, alog.all`fe
      ensures KeepsAccepters(AcceptersOf(this), AcceptersOf(a))
      ensures InService(slog, alog)
      ensures if a == null then Alone(this, slog, alog) else a.Beside(this, slog, alog)
    {
      hide Beside, Alone, AcceptersSide, Serving, BackendsOpen, BackendsOk, ListenersOk, Listening, FrontendsOk, FrontendsOpen;
      hide KeepsAccepters, AcceptersOf;
      SideFacts(a, slog, alog);
      ActivateListeners(a, alog);
      SideFacts(a, slog, alog);
      if a != null {
        SidesSwap(a, slog, alog);
      }
      Inheritance(a, slog, alog);
    }

    lemma EmptySides(a: App?, slog: ServerLog, alog: AccepterLog)
      requires backends == map[] && frontends == map[] && listeners == map[] && a != this
      requires (a != null ==> a.InService(slog, alog)) && Alone(a, slog, alog)
      ensures Beside(a, slog, alog)
      ensures a != null ==> a.Listening() && a.BackendsOpen() && a.Serving() && a.FrontendsOpen()
    {
    }

    /** Builds this generation and puts it into service, or closes what was built of it. */
    method Establish(a: App?, cfg: Config, ghost slog: ServerLog, ghost alog: AccepterLog) returns (ok: bool)
      requires backends == map[] && frontends == map[] && listeners == map[]
      requires Beside(a, slog, alog)
      requires a != null ==> a.Listening() && a.BackendsOpen() && a.Serving() && a.FrontendsOpen()
      modifies this, slog, slog.all, alog, alog.all
      ensures ok <==> Accepted(cfg, old(Live(a)))
      ensures !ok ==> Alone(a, slog, alog) && Down() && (a != null ==> a.InService(slog, alog))
      ensures ok ==> InService(slog, alog) && if a == null then Alone(this, slog, alog) else a.Beside(this, slog, alog)
      ensures ok ==> Has(cfg, ServersOf(a)) && KeepsAccepters(AcceptersOf(this), AcceptersOf(a))
      ensures old(slog.all) <= slog.all && fresh(slog.all - old(slog.all))
      ensures old(alog.all) <= alog.all && fresh(alog.all - old(alog.all))
      ensures fresh(backends.Values) && fresh(frontends.Values) && fresh(listeners.Values)
    {
      hide Beside, Alone, Accepted, Has, KeepsAccepters, AcceptersOf, ServersOf, Down, InService;
      hide Serving, BackendsOpen, BackendsOk, ListenersOk, Listening, FrontendsOk, FrontendsOpen;
      NotItself(a, slog, alog);
      ok := Build(a, cfg, slog, alog);
      if !ok {
        Close(a, slog, alog);
        return;
      }
      Commit(a, slog, alog);
    }

    lemma NotItself(a: App?, slog: ServerLog, alog: AccepterLog)
      requires Beside(a, slog, alog)
      ensures a != this
    {
    }

    /** Forks generation `a` (null at the first load) into the next one.  Success leaves both side by side, everything
        they have in common shared; any failure, at any point, undoes itself, closes what was made, and leaves `a` as it
        was. */
    static method Fork(a: App?, cfg: Config, ghost slog: ServerLog, ghost alog: AccepterLog) returns (an: App?)
      requires (a != null ==> a.InService(slog, alog)) && Alone(a, slog, alog)
      modifies slog, slog.all, alog, alog.all
      ensures a != null && an == null ==> a.InService(slog, alog)
      ensures an == null ==> Alone(a, slog, alog)
      ensures an != null ==> fresh(an) && an.InService(slog, alog)
      ensures an != null ==> if a == null then Alone(an, slog, alog) else a.Beside(an, slog, alog)
      ensures old(slog.all) <= slog.all && fresh(slog.all - old(slog.all))
      ensures old(alog.all) <= alog.all && fresh(alog.all - old(alog.all))
      ensures an != null ==> fresh(an.backends.Values) && fresh(an.frontends.Values) && fresh(an.listeners.Values)
      ensures an != null <==> Accepted(cfg, old(Live(a)))
      ensures an != null ==> an.Has(cfg, ServersOf(a)) && KeepsAccepters(AcceptersOf(an), AcceptersOf(a))
    {
      hide App.Beside, App.Alone, Accepted, App.Has, KeepsAccepters, AcceptersOf, ServersOf, App.Down, App.InService;
      hide App.Serving, App.BackendsOpen, App.BackendsOk, App.ListenersOk, App.Listening, App.FrontendsOk, App.FrontendsOpen;
      an := new App();
      an.EmptySides(a, slog, alog);
      var ok := an.Establish(a, cfg, slog, alog);
      if !ok {
        return null;
      }
    }

    /** What holds between reloads: every backend server and every accepter ever created is open, unshared and in the
        running generation `a`, or has been really closed exactly once; every backend and frontend ever created is in it or
        closed; and `a` is in service. */
    static ghost predicate Steady(a: App?, slog: ServerLog, alog: AccepterLog)
      reads slog, slog.all, slog.backs, alog, alog.all`closes, alog.all`shared, alog.fronts
      reads a, if a == null then {} else a.backends.Values
      reads if a == null then {} else a.listeners.Values
      reads if a == null then {} else a.frontends.Values
      reads (set k | a != null && k in a.listeners && a.listeners[k].accr != null :: a.listeners[k].accr)`le
      reads (set k | a != null && k in a.listeners && a.listeners[k].accr != null :: a.listeners[k].accr)`fe
    {
      Alone(a, slog, alog) && (a != null ==> a.InService(slog, alog))
    }

    /** Fork, then close the old generation, which is down then.  A failure leaves it with all it had. */
    static method Replace(a: App?, cfg: Config, ghost slog: ServerLog, ghost alog: AccepterLog) returns (an: App?)
      requires Steady(a, slog, alog)
      modifies slog, slog.all, alog, alog.all
      modifies if a == null then {} else a.backends.Values
      modifies if a == null then {} else a.listeners.Values
      modifies if a == null then {} else a.frontends.Values
      ensures Steady(if an == null then a else an, slog, alog)
      ensures an != null ==> fresh(an)
      ensures old(slog.all) <= slog.all && fresh(slog.all - old(slog.all))
      ensures old(alog.all) <= alog.all && fresh(alog.all - old(alog.all))
      ensures an != null ==> fresh(an.backends.Values) && fresh(an.frontends.Values) && fresh(an.listeners.Values)
      ensures an != null <==> Accepted(cfg, old(Live(a)))
      ensures an == null ==> ServersOf(a) == old(ServersOf(a)) && AcceptersOf(a) == old(AcceptersOf(a))
      ensures an != null ==> an.Has(cfg, old(ServersOf(a))) && KeepsAccepters(AcceptersOf(an), old(AcceptersOf(a)))
      ensures an != null && a != null ==> a.Down()
    {
      hide App.Beside, App.Alone, Accepted, AllAsAsked, Listens, KeepsAccepters, AcceptersOf, ServersOf, Live;
      hide App.Serving, App.BackendsOpen, App.BackendsOk, App.ListenersOk, App.FrontendsOk, App.Down;
      an := Fork(a, cfg, slog, alog);
      if an != null && a != null {
        a.Close(an, slog, alog);
      }
    }
  }
}
