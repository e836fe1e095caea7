/** Listeners, their accepters and the handler through which an accepter finds its frontend
    (pkg/lb/listener.go, pkg/lb/accepterhandler.go). */
module Listeners {

  class HTTPFrontend {
    const name: string
    var closed: bool

    constructor (name: string, ghost log: AccepterLog)
      modifies log`fronts
      ensures this.name == name && !closed && log.fronts == old(log.fronts) + {this}
    {
      this.name, closed := name, false;
      new;
      log.fronts := log.fronts + {this};
    }

    method Close()
      modifies this
      ensures closed
    {
      closed := true;
    }
  }

  /** Every accepter and every frontend ever created. */
  class AccepterLog {
    ghost var all: set<Accepter>
    ghost var fronts: set<HTTPFrontend>

    ghost constructor ()
      ensures all == {} && fronts == {}
    {
      all, fronts := {}, {};
    }
  }

  /** An accepter together with the accepterHandler installed in it for its whole life. */
  class Accepter {
    ghost const address: string
    var le: Listener?
    var fe: HTTPFrontend?
    var shared: bool
    ghost var closes: nat         // how often the accepter has been closed or shut down

    constructor (ghost address: string, ghost log: AccepterLog)
      modifies log`all
      ensures this.address == address && closes == 0 && !shared && le == null && fe == null
      ensures log.all == old(log.all) + {this}
    {
      this.address, le, fe, shared, closes := address, null, null, false, 0;
      new;
      log.all := log.all + {this};
    }

    method Set(le: Listener, fe: HTTPFrontend)
      modifies this`le, this`fe
      ensures this.le == le && this.fe == fe
    {
      this.le, this.fe := le, fe;
    }

    method SetShared(status: bool) returns (was: bool)
      modifies this`shared
      ensures was == old(shared) && shared == status
    {
      was := shared;
      shared := status;
    }

    /** Close and Shutdown alike. */
    method Close()
      modifies this`closes
      ensures closes == old(closes) + 1
    {
      closes := closes + 1;
    }
  }

  class Listener {
    const network: string
    const address: string
    const fe: HTTPFrontend
    var accr: Accepter?

    constructor (network: string, address: string, fe: HTTPFrontend)
      ensures this.network == network && this.address == address && this.fe == fe && accr == null
    {
      this.network, this.address, this.fe, accr := network, address, fe, null;
    }

    /** A listener of the same network and address takes over the accepter of the old one, `l`; without an old one a new
        accepter is started, if listening succeeds.  Once an old accepter has been marked, a failure leaves the mark. */
    static method Fork(l: Listener?, network: string, address: string, fe: HTTPFrontend, canListen: bool,
                       ghost log: AccepterLog) returns (ln: Listener?)
      modifies log`all, (if l == null || l.accr == null then {} else {l.accr})`shared
      ensures old(log.all) <= log.all && fresh(log.all - old(log.all))
      ensures ln != null <==>
                if l == null then canListen
                else network == l.network && address == l.address && (l.accr == null || !old(l.accr.shared))
      ensures ln != null ==> fresh(ln) && ln.network == network && ln.address == address && ln.fe == fe
      ensures l != null ==> log.all == old(log.all) && (ln != null ==> ln.accr == l.accr)
      ensures l != null && l.accr != null ==> l.accr.shared
      ensures l == null && ln == null ==> log.all == old(log.all)
      ensures l == null && ln != null ==>
                && ln.accr != null && log.all == old(log.all) + {ln.accr} && fresh(ln.accr)
                && ln.accr.address == address && ln.accr.closes == 0 && !ln.accr.shared
    {
      ln := new Listener(network, address, fe);
      if l != null {
        var borrowed := false;
        if l.accr != null {
          borrowed := l.accr.SetShared(true);
        }
        if borrowed || ln.network != l.network || ln.address != l.address {
          ln.Close();
          return null;
        }
        ln.accr := l.accr;
        return;
      }
      if !canListen {
        ln.Close();
        return null;
      }
      ln.accr := new Accepter(address, log);
    }

    /** A shared accepter survives for the other listener that has it. */
    method Close()
      modifies this`accr, (if accr == null then {} else {accr})`closes, (if accr == null then {} else {accr})`shared
      ensures accr == null
      ensures old(accr) != null ==>
                && !old(accr).shared
                && old(accr).closes == old(accr.closes) + (if old(accr.shared) then 0 else 1)
    {
      if accr != null {
        var was := accr.SetShared(false);
        if !was {
          accr.Close();
        }
        accr := null;
      }
    }

    method Activate()
      modifies (if accr == null then {} else {accr})`le, (if accr == null then {} else {accr})`fe
      ensures accr != null ==> accr.le == this && accr.fe == fe
    {
      if accr != null {
        accr.Set(this, fe);
      }
    }
  }
}
