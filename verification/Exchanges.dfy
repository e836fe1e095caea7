/** The exchange of one request and its response with a backend server (serveAsync, pkg/lb/httpbackend.go). */
module Exchanges {
  import opened Options

  datatype Group =
    | Protocol | Communication | Restricted | BackendTimeout | BackendExhausted | BackendFind | ServerExhausted
    | BackendConnect | BackendConnectTimeout

  /** Only errors made by the wrapping functions are of type *httpError. */
  datatype Error = HTTPError(group: Group) | Unwrapped

  /** How the two directions of an exchange ended, and what was left in the connection. */
  datatype Exchange = Exchange(ingress: Option<Error>, egress: Option<Error>, buffered: nat, connection: string, version: string)

  /** Both directions are done, the reader's buffer is empty, and the server keeps the connection open. */
  predicate Clean(x: Exchange) {
    x.ingress == None && x.egress == None && x.buffered == 0 && x.connection == "keep-alive" && x.version == "HTTP/1.1"
  }

  /** An exchange, and whether the context ended before it. */
  datatype Outcome = Outcome(exchange: Exchange, timeout: bool) {
    predicate Good() {
      Clean(exchange) && !timeout
    }
  }

  /** serveAsync: no error exactly when both directions are done, the reader's buffer is empty and the server keeps an
      HTTP/1.1 connection alive; an error of the client's side comes before one of the server's side, and either before
      those found afterwards. */
  method ServeAsync(x: Exchange) returns (err: Option<Error>)
    ensures err == None <==>
              && x.ingress == None && x.egress == None && x.buffered == 0
              && x.connection == "keep-alive" && x.version == "HTTP/1.1"
    ensures x.ingress.Some? ==> err == x.ingress
    ensures x.ingress == None && x.egress.Some? ==> err == x.egress
    ensures x.ingress == None && x.egress == None && x.buffered != 0 ==> err == Some(HTTPError(Protocol))
    ensures x.ingress == None && x.egress == None && x.buffered == 0 && err.Some? ==> err == Some(HTTPError(Communication))
  {
    err := x.ingress;
    if err != None {
      return;
    }
    err := x.egress;
    if err != None {
      return;
    }
    if x.buffered != 0 {
      err := Some(HTTPError(Protocol));
      return;
    }
    if !(x.connection == "keep-alive" && x.version == "HTTP/1.1") {
      err := Some(HTTPError(Communication));
    }
  }
}
