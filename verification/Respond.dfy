/** Who answers a request: the serve methods of a backend and of a frontend from routing on (pkg/lb/httpbackend.go,
    pkg/lb/httpfrontend.go).  What the network and the other requests do is given as a Fate for each backend. */
module Respond {
  import opened Options
  import opened Exchanges

  const FORBIDDEN := "HTTP/1.0 403 Forbidden\r\n\r\nForbidden\r\n"
  const BAD_GATEWAY := "HTTP/1.0 502 Bad Gateway\r\n\r\nBad Gateway\r\n"
  const SERVICE_UNAVAILABLE := "HTTP/1.0 503 Service Unavailable\r\n\r\nService Unavailable\r\n"
  const GATEWAY_TIMEOUT := "HTTP/1.0 504 Gateway Timeout\r\n\r\nGateway Timeout\r\n"

  datatype Dial = Connected | DialTimeout | DialError

  /** What befalls one attempt: whether a server is found, its counters when they are looked at, the dialling, the
      exchange, and whether the context ends before it. */
  datatype Fate = Fate(found: bool, active: nat, dial: Dial, exchange: Exchange, timeout: bool, idle: nat)

  datatype Sent = Page(writer: HTTPBackend?, text: string) | Stream(from: HTTPBackend)

  datatype LeaseEvent = Acquire | Shut | Release

  /** The client's side of a request and the leases taken for it. */
  class Talk {
    var attempts: seq<HTTPBackend>
    var sent: seq<Sent>
    var leases: seq<(HTTPBackend, LeaseEvent)>
    var feClosed: bool

    constructor ()
      ensures attempts == [] && sent == [] && leases == [] && !feClosed
    {
      attempts, sent, leases, feClosed := [], [], [], false;
    }
  }

  class ReqDesc {
    var beFinal: bool
  }

  class HTTPBackend {
    const maxConn: int
    const serverMaxConn: int
    const serverMaxIdleConn: int
    const overrideErrors: string
    var connCount: int

    constructor (maxConn: int, serverMaxConn: int, serverMaxIdleConn: int, overrideErrors: string)
      ensures this.maxConn == maxConn && this.serverMaxConn == serverMaxConn
      ensures this.serverMaxIdleConn == serverMaxIdleConn && this.overrideErrors == overrideErrors && connCount == 0
    {
      this.maxConn, this.serverMaxConn, this.serverMaxIdleConn := maxConn, serverMaxConn, serverMaxIdleConn;
      this.overrideErrors, connCount := overrideErrors, 0;
    }

    /** The attempt gets as far as a connection. */
    predicate Connects(fate: Fate)
      reads this
    {
      && (maxConn > 0 ==> connCount < maxConn)
      && fate.found
      && (serverMaxConn > 0 ==> fate.active < serverMaxConn)
      && fate.dial.Connected?
    }

    /** The error of an attempt that does not. */
    function Refusal(fate: Fate): Group
      reads this
    {
      if maxConn > 0 && connCount >= maxConn then BackendExhausted
      else if !fate.found then BackendFind
      else if serverMaxConn > 0 && fate.active >= serverMaxConn then ServerExhausted
      else if fate.dial.DialTimeout? then BackendConnectTimeout
      else BackendConnect
    }

    function ErrorPage(g: Group): string {
      if overrideErrors != "" then overrideErrors
      else match g
        case BackendConnectTimeout => GATEWAY_TIMEOUT
        case BackendConnect => BAD_GATEWAY
        case _ => SERVICE_UNAVAILABLE
    }

    /** feWr.Write: nothing goes out unless the attempt is final. */
    method Reply(talk: Talk, final: bool, text: string)
      modifies talk`sent
      ensures talk.sent == old(talk.sent) + if final then [Page(this, text)] else []
    {
      if final {
        talk.sent := talk.sent + [Page(this, text)];
      }
    }

    method Fail(talk: Talk, final: bool, standard: string)
      modifies talk`sent
      ensures talk.sent ==
              old(talk.sent) + if final then [Page(this, if overrideErrors != "" then overrideErrors else standard)] else []
    {
      if overrideErrors != "" {
        Reply(talk, final, overrideErrors);
        return;
      }
      Reply(talk, final, standard);
    }

    /** The deferred release. */
    method GiveBack(talk: Talk, idle: nat)
      modifies talk`leases
      ensures talk.leases == old(talk.leases) +
                             (if serverMaxIdleConn > 0 && idle >= serverMaxIdleConn then [(this, Shut)] else []) + [(this, Release)]
    {
      if serverMaxIdleConn > 0 && idle >= serverMaxIdleConn {
        talk.leases := talk.leases + [(this, Shut)];
      }
      talk.leases := talk.leases + [(this, Release)];
    }

    /** One attempt.  Either it is refused before it has a connection, with an error of type *httpError and, if it is final,
        the configured page or else the standard page for that error; or it becomes final, the client is its own, and its
        lease begins and ends here, the connection being shut in between unless the exchange was clean and in time, and
        again if there are enough idle ones. */
    method Serve(req: ReqDesc, talk: Talk, fate: Fate) returns (err: Option<Error>)
      modifies this`connCount, req`beFinal, talk
      ensures connCount == old(connCount)
      ensures talk.attempts == old(talk.attempts) + [this]
      ensures var refusal :=
                if maxConn > 0 && old(connCount) >= maxConn then
                  Some((BackendExhausted, "HTTP/1.0 503 Service Unavailable\r\n\r\nService Unavailable\r\n"))
                else if !fate.found then
                  Some((BackendFind, "HTTP/1.0 503 Service Unavailable\r\n\r\nService Unavailable\r\n"))
                else if serverMaxConn > 0 && fate.active >= serverMaxConn then
                  Some((ServerExhausted, "HTTP/1.0 503 Service Unavailable\r\n\r\nService Unavailable\r\n"))
                else match fate.dial
                  case DialTimeout => Some((BackendConnectTimeout, "HTTP/1.0 504 Gateway Timeout\r\n\r\nGateway Timeout\r\n"))
                  case DialError => Some((BackendConnect, "HTTP/1.0 502 Bad Gateway\r\n\r\nBad Gateway\r\n"))
                  case Connected => None;
              && (refusal.Some? ==>
                    && err == Some(HTTPError(refusal.value.0)) && req.beFinal == old(req.beFinal)
                    && talk.sent == old(talk.sent) +
                         (if old(req.beFinal) then [Page(this, if overrideErrors != "" then overrideErrors else refusal.value.1)]
                          else [])
                    && talk.leases == old(talk.leases) && talk.feClosed == old(talk.feClosed))
              && (refusal == None ==>
                    && (err == None <==> fate.exchange == Exchange(None, None, 0, "keep-alive", "HTTP/1.1") && !fate.timeout)
                    && (fate.timeout ==> err == Some(HTTPError(BackendTimeout)))
                    && req.beFinal && talk.sent == old(talk.sent) + [Stream(this)]
                    && talk.leases == old(talk.leases)
                         + [(this, Acquire)] + (if err == None then [] else [(this, Shut)])
                         + (if serverMaxIdleConn > 0 && fate.idle >= serverMaxIdleConn then [(this, Shut)] else [])
                         + [(this, Release)]
                    && talk.feClosed == (old(talk.feClosed) || err != None))
    {
      talk.attempts := talk.attempts + [this];
      var final := req.beFinal;
      if maxConn > 0 && connCount >= maxConn {
        err := Some(HTTPError(BackendExhausted));
        Fail(talk, final, SERVICE_UNAVAILABLE);
        return;
      }
      connCount := connCount + 1;
      err := Exchanging(req, talk, fate, final);
      connCount := connCount - 1;
    }

    /** serve, in terms of whether it is refused. */
    method Try(req: ReqDesc, talk: Talk, fate: Fate) returns (err: Option<Error>)
      modifies this`connCount, req`beFinal, talk
      ensures connCount == old(connCount)
      ensures talk.attempts == old(talk.attempts) + [this]
      ensures !old(Connects(fate)) ==>
                && err == Some(HTTPError(old(Refusal(fate)))) && req.beFinal == old(req.beFinal)
                && talk.sent == old(talk.sent) +
                     (if old(req.beFinal) then [Page(this, ErrorPage(old(Refusal(fate))))] else [])
                && talk.leases == old(talk.leases) && talk.feClosed == old(talk.feClosed)
      ensures old(Connects(fate)) ==>
                && (err == None <==> Clean(fate.exchange) && !fate.timeout) && req.beFinal
                && talk.sent == old(talk.sent) + [Stream(this)]
                && talk.leases == old(talk.leases) + Lease(err == None, fate.idle)
                && talk.feClosed == (old(talk.feClosed) || err != None)
    {
      err := Serve(req, talk, fate);
    }

    /** The events of one lease. */
    function Lease(clean: bool, idle: nat): seq<(HTTPBackend, LeaseEvent)> {
      [(this, Acquire)] + (if clean then [] else [(this, Shut)]) +
      (if serverMaxIdleConn > 0 && idle >= serverMaxIdleConn then [(this, Shut)] else []) + [(this, Release)]
    }

    /** The rest of serve, inside the counted region. */
    method Exchanging(req: ReqDesc, talk: Talk, fate: Fate, final: bool) returns (err: Option<Error>)
      requires maxConn > 0 ==> connCount - 1 < maxConn
      modifies req`beFinal, talk`sent, talk`leases, talk`feClosed
      ensures var refused := !fate.found || (serverMaxConn > 0 && fate.active >= serverMaxConn) || !fate.dial.Connected?;
              && (refused ==>
                    var g := if !fate.found then BackendFind
                             else if serverMaxConn > 0 && fate.active >= serverMaxConn then ServerExhausted
                             else if fate.dial.DialTimeout? then BackendConnectTimeout else BackendConnect;
                    && err == Some(HTTPError(g)) && req.beFinal == old(req.beFinal)
                    && talk.sent == old(talk.sent) + (if final then [Page(this, ErrorPage(g))] else [])
                    && talk.leases == old(talk.leases) && talk.feClosed == old(talk.feClosed))
              && (!refused ==>
                    && (err == None <==> Clean(fate.exchange) && !fate.timeout) && req.beFinal
                    && (fate.timeout ==> err == Some(HTTPError(BackendTimeout)))
                    && talk.sent == old(talk.sent) + [Stream(this)]
                    && talk.leases == old(talk.leases) + Lease(err == None, fate.idle)
                    && talk.feClosed == (old(talk.feClosed) || err != None))
    {
      if !fate.found {
        err := Some(HTTPError(BackendFind));
        Fail(talk, final, SERVICE_UNAVAILABLE);
        return;
      }
      if serverMaxConn > 0 && fate.active >= serverMaxConn {
        err := Some(HTTPError(ServerExhausted));
        Fail(talk, final, SERVICE_UNAVAILABLE);
        return;
      }
      match fate.dial {
        case DialTimeout =>
          err := Some(HTTPError(BackendConnectTimeout));
          Fail(talk, final, GATEWAY_TIMEOUT);
          return;
        case DialError =>
          err := Some(HTTPError(BackendConnect));
          Fail(talk, final, BAD_GATEWAY);
          return;
        case Connected =>
      }
      talk.leases := talk.leases + [(this, Acquire)];
      req.beFinal := true;
      talk.sent := talk.sent + [Stream(this)];
      if fate.timeout {
        err := Some(HTTPError(BackendTimeout));
        talk.feClosed := true;
        talk.leases := talk.leases + [(this, Shut)];
        var _ := ServeAsync(fate.exchange);
      } else {
        err := ServeAsync(fate.exchange);
        if err != None {
          talk.feClosed := true;
          talk.leases := talk.leases + [(this, Shut)];
        }
      }
      GiveBack(talk, fate.idle);
    }
  }

  // ---- the frontend ------------------------------------------------------------------------------------------------

  /** HTTPFrontend.serveAsync from findBackend on, where b and bb are the backend and the backup it found (possibly the
      same).  Exactly one thing is directed at the client: the restriction page, the stream of the primary or of the backup,
      or the error page of the one that was tried last.  The backup is tried exactly when there is one and the primary was
      refused; one lease is taken if there is a stream, and none otherwise; no error means that the answer was streamed,
      cleanly and in time, and the client's buffer is empty. */
  method ServeRequest(req: ReqDesc, talk: Talk, b: HTTPBackend?, bb: HTTPBackend?, fate: Fate, fallback: Fate, buffered: nat)
    returns (err: Option<Error>)
    modifies req`beFinal, talk, if b == null then {} else {b}, if bb == null then {} else {bb}
    ensures b == null ==>
              && err == Some(HTTPError(Restricted))
              && talk.sent == old(talk.sent) + [Page(null, "HTTP/1.0 403 Forbidden\r\n\r\nForbidden\r\n")]
              && talk.attempts == old(talk.attempts) && talk.leases == old(talk.leases)
    ensures b != null && old(b.Connects(fate)) ==>
              && talk.sent == old(talk.sent) + [Stream(b)] && talk.attempts == old(talk.attempts) + [b]
              && talk.leases == old(talk.leases) + b.Lease(Clean(fate.exchange) && !fate.timeout, fate.idle)
              && (err == None <==> Clean(fate.exchange) && !fate.timeout && buffered == 0)
              && (Clean(fate.exchange) && !fate.timeout && buffered != 0 ==> err == Some(HTTPError(Protocol)))
    ensures b != null && !old(b.Connects(fate)) && bb == null ==>
              && talk.sent == old(talk.sent) + [Page(b, b.ErrorPage(old(b.Refusal(fate))))]
              && talk.attempts == old(talk.attempts) + [b] && talk.leases == old(talk.leases)
              && err == Some(HTTPError(old(b.Refusal(fate))))
    ensures b != null && !old(b.Connects(fate)) && bb != null && old(bb.Connects(fallback)) ==>
              && talk.sent == old(talk.sent) + [Stream(bb)] && talk.attempts == old(talk.attempts) + [b, bb]
              && talk.leases == old(talk.leases) + bb.Lease(Clean(fallback.exchange) && !fallback.timeout, fallback.idle)
              && (err == None <==> Clean(fallback.exchange) && !fallback.timeout && buffered == 0)
              && (Clean(fallback.exchange) && !fallback.timeout && buffered != 0 ==> err == Some(HTTPError(Protocol)))
    ensures b != null && !old(b.Connects(fate)) && bb != null && !old(bb.Connects(fallback)) ==>
              && talk.sent == old(talk.sent) + [Page(bb, bb.ErrorPage(old(bb.Refusal(fallback))))]
              && talk.attempts == old(talk.attempts) + [b, bb] && talk.leases == old(talk.leases)
              && err == Some(HTTPError(old(bb.Refusal(fallback))))
    ensures b != null ==> b.connCount == old(b.connCount)
    ensures bb != null ==> bb.connCount == old(bb.connCount)
    ensures talk.feClosed ==> old(talk.feClosed) || err != None
  {
    hide HTTPBackend.ErrorPage, HTTPBackend.Lease, Clean;
    if b == null {
      err := Some(HTTPError(Restricted));
      talk.sent := talk.sent + [Page(null, FORBIDDEN)];
      return;
    }
    req.beFinal := bb == null;
    err := b.Try(req, talk, fate);
    if err != None {
      if bb == null || req.beFinal {
        return;
      }
      // the type assertion err.(*httpError)
      assert err.value.HTTPError?;
      req.beFinal := true;
      err := bb.Try(req, talk, fallback);
      if err != None {
        return;
      }
    }
    if buffered != 0 {
      err := Some(HTTPError(Protocol));
    }
  }

  /** A lease is taken once and given back once, at the end, and a connection that did not see a clean exchange is shut
      before it goes back. */
  lemma LeaseIsBalanced(b: HTTPBackend, clean: bool, idle: nat)
    ensures var events := b.Lease(clean, idle);
            var n := |events|;
            && n >= 2 && events[0] == (b, Acquire) && events[n - 1] == (b, Release)
            && (forall i :: 0 < i < n - 1 ==> events[i] == (b, Shut))
            && (!clean ==> n > 2)
  {
  }
}
