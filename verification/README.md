# simult, verified

A Dafny model of the parts of the simult load balancer that have state machines, ownership rules or text transformations
worth proving, and proofs about them. Verify everything with `dafny verify dfyconfig.toml`.

## The system and the modules

A simult process listens on addresses, reads HTTP requests, routes them to backends, and forwards each to a server of the
backend over a pooled connection. The configuration can be reloaded at any time, and servers and listening sockets move
from one generation of the configuration to the next.

| module | what it is about |
|---|---|
| `ConnPool`, `ConnPoolProofs` | the connection pool of a server as a step system: any number of goroutines in acquire, release and close, the janitor, and the network, one shared access a step; what all executions keep (with `Tally`, sums over goroutines) |
| `Exchanges`, `ConnPoolExchanges`, `ConnPoolReads` | the exchange of a request with a server and the verdict on it; what the connections in the pool have been through, and what may be left unread on them, over all executions |
| `PoolMethods` | the same methods as code that changes an object; every access is logged as a step of the step system, so that its theorems hold of the object |
| `HealthSlot` | handing health checks to a server while it is being closed, as a step system |
| `HealthCheck` | the rise and fall counters of a health check and its notifications |
| `Backends`, `Listeners`, `Apps`, `Reload` | generations of the configuration on the heap: the shared flag as a borrowed reference, roll-back of every failed step, whole runs of loads, reloads and the shutdown |
| `NodeTable`, `Selection` | the table of nodes of a backend and the choice of a server for a request |
| `Respond` | the attempts a request makes at a backend and its backup, and who answers the client |
| `FrontendCounters` | the connection counters of a frontend, with peek goroutines that may be left behind, as a step system |
| `LimitRace` | a limit that is looked at in one step and counted in another, as those of a backend are |
| `Glob`, `NormalizePath`, `DotSegments`, `Routing` | patterns compiled to regular expressions, the rewriting of paths beside the standard's, routes and restrictions |
| `Text`, `HttpHeader`, `HeaderLines`, `HeaderRoundTrip`, `Cookies` | reading header blocks in arbitrary fragments, what they mean line by line, printing them, reading cookies |

`Backends.BackendServer` is a server as a reload sees it, `PoolMethods.Pool` its connection pool;
`Backends.HTTPBackend` is a backend as a reload sees it, `Respond.HTTPBackend` as a request does.

What the code does where one might expect otherwise:

- A connection limit is looked at before the connection is counted. It can be overshot, by no more than the number of
  connections ever between check and count at once, less one (`FrontendCounters.LimitOvershoot`), and whatever the limit
  this bound is reached (`FrontendCounters.LimitBroken`). The limit holds exactly if never more than one is between the
  two (`FrontendCounters.LimitHoldsExactly`). The same is so of the limits of a backend and of its servers
  (`LimitRace.Overshoot`, `LimitRace.Reached`, `LimitRace.HoldsExactly`).
- An exchange counts as clean when the reader's buffer is empty, although bytes may still wait in the pipe behind it. A
  connection that is handed out again has nothing unread exactly if its last holder read everything that had come till it
  last reset the statistics (`ConnPoolReads.NothingUnreadExactly`); `PoolMethods.UnreadIsReused` runs into the other case.
- Health checks are installed in the order in which their goroutines get the lock. The installed one is of the latest
  generation exactly if the one that got it last is (`HealthSlot.LastTurnIsInstalled`); in `HealthSlot.OldReplacesNew` an
  older one replaces a newer one.
- The least-connections mode does not look at weights and so not at health (`Selection.LeastConnIgnoresHealth`). It
  chooses a server with weight exactly if each weightless one has one with weight before it, by load and then by name
  (`Selection.LeastConnHealthyExactly`); `Selection.LeastConnTakesUnhealthy` shows two servers for which it does not.
- A server that is reused by a reload keeps its old weight; the new one goes away with the object that was made for its
  line (`Backends.HTTPBackend.Fork`; `Backends.OldWeightIsKept` is an example). After a reload a server has the weight asked
  for exactly if it is new or had that weight before (`Apps.WeightAsAskedExactly`).
- A `Listener.Fork` that fails because network or address differ leaves the accepter marked as shared
  (`Listeners.Listener.Fork`). From `App.Fork` this cannot happen (`Apps.App.ForkListener`).
- `normalizePath` is not the algorithm of section 5.2.4 of RFC 3986: it deletes dots after slashes
  (`DotSegments.DotSegmentsAreNotResolved`). The two agree exactly if a scan of the segments says so
  (`DotSegments.AgreementExactly`): what has nothing but dots in it (none, or three and more) must be taken back by a `..`
  before anything else comes, nothing else may be taken back, and nothing else may start with a dot after a slash; a first
  segment without a slash before it must not be a dot segment nor be taken back. On paths without empty segments and with
  no other segments than `.` and `..` starting with a dot, that is: no `..` comes after a segment that is not a dot
  segment, and no dot segment comes first without a slash (`DotSegments.UsualPathsAgree`).
- Wildcards of a pattern do not reach over a line feed (`Glob.PlainExactlyOnOneLine`).
- In a Cookie header an empty part, as between two semicolons, hides the rest of its line
  (`Cookies.EmptyPieceHides`; `Cookies.SecondCookieLost` is an example).
- Restrictions after the last one that is not followed by "and" have no effect (`Routing.OpenGroupIgnored`).

## Model

| member | source | states |
|---|---|---|
| ConnPoolProofs.ExecutionKeeps | pkg/lb/backendserver.go:97-255 | every state of every execution, under all interleavings of acquirers, releasers, closers, the janitor and the network, satisfies the pool's invariant: counters balanced, connections exclusively owned, none leaked, the lock held by who is in the critical section |
| ConnPoolProofs.CountersAgree | pkg/lb/backendserver.go:97-255 | idle is the pool size and total is active plus idle, up to the increments that goroutines in mid-operation still owe; no counter is ever negative; with the lock free idle is exact; with nobody in mid-operation all are, and active is the number of goroutines with a lease |
| ConnPoolProofs.CountersNonNegative | pkg/lb/backendserver.go:188-255 | none of the three counters is negative, even between two increments |
| ConnPoolProofs.ExclusiveOwnership | pkg/lb/backendserver.go:188-255 | a connection ever dialled is idle, or in the hands of exactly one goroutine, or closed: never two of the first two and never none of the three |
| ConnPoolProofs.OnlyCleanReuse | pkg/lb/backendserver.go:188-206 | a connection handed out again was alive when taken and no byte was counted on it in either direction since it was parked; one that its holder has closed is never parked |
| ConnPoolExchanges.OnlyCleanExchangesPool | pkg/lb/httpbackend.go:497-530 | in every state of every execution the last exchange of each connection in the pool, and of each that is handed out again, ended in time with both directions done, nothing in the reader's buffer, and the server keeping an HTTP/1.1 connection alive |
| ConnPoolExchanges.ReleaseSettles | pkg/lb/backendserver.go:226-255 | from the release to the pool every step carries the verdict along, and a bad verdict means that the connection is closed |
| ConnPoolExchanges.LeaseSettles | pkg/lb/httpbackend.go:601-677 | and so does every step of the holder, up to the release |
| ConnPoolReads.NothingUnreadExactly | pkg/lb/bufconn.go:42-60 | in every execution, a connection that is handed out again has nothing unread of what had come till it was taken exactly if its last holder read everything that had come till it last reset the statistics |
| PoolMethods.UnreadIsReused | pkg/lb/httpbackend.go:516-520 | a run in which the exchange is clean, a byte is unread, and the connection is handed out again with it |
| Exchanges.ServeAsync | pkg/lb/httpbackend.go:497-530 | no error exactly when both directions are done, the reader's buffer is empty and the server keeps an HTTP/1.1 connection alive; otherwise which error |
| ConnPoolProofs.DrainedForGood | pkg/lb/backendserver.go:106-114 | after some Close has found the pool empty it is empty in every later state |
| ConnPoolProofs.ClosedPoolLeaksNothing | pkg/lb/backendserver.go:226-255 | after a Close, late releases cannot refill the pool, and once all leases are back every connection ever dialled is closed |
| ConnPoolProofs.KeepsOther | pkg/lb/backendserver.go:97-255 | a step of one goroutine disturbs nothing that any other relies on |
| PoolMethods.Pool.ConnAcquire | pkg/lb/backendserver.go:188-224 | hands out a pooled connection that is alive and untouched, else a dialled one if the pool has none left; closes exactly the unusable ones it passes; moves the counters accordingly; a failed dial leaves no lease |
| PoolMethods.Pool.Reuse | pkg/lb/backendserver.go:189-206 | the loop over the map: fails to find a connection only if none is reusable, and then the map is empty |
| PoolMethods.Pool.Probe | pkg/lb/backendserver.go:193-204 | a taken connection is used exactly if it is alive and both counters read zero, and is closed otherwise |
| PoolMethods.Pool.ConnRelease | pkg/lb/backendserver.go:226-255 | parks the connection exactly if the server is not closing and the connection is alive with both counters zero; closes it otherwise; the counters |
| PoolMethods.Pool.CloseHeld | pkg/lb/httpbackend.go:671-676 | a connection that its holder has closed is not fit for parking |
| PoolMethods.Pool.ServeOnce | pkg/lb/httpbackend.go:580-679 | a connection used for one exchange ends up in the pool exactly if both directions were done, the reader's buffer was empty, the server keeps an HTTP/1.1 connection alive, the context had not ended, the peer did not go away, there was room for an idle connection and the server is not closing; otherwise it is closed; the last exchange of a reused one was such; the lease count is as before |
| PoolMethods.Pool.Close | pkg/lb/backendserver.go:97-114 | a shared server only stops being shared; any other is cancelled, its worker has ended, its pool is empty and exactly what was in it is closed |
| PoolMethods.Pool.Sweep | pkg/lb/backendserver.go:124-145 | one tick of the janitor takes out and closes exactly the failed connections |
| ConnPoolProofs.MovesKeepStats | pkg/lb/bufconn.go:62-112 | every step carries along what is known of a connection's liveness and of the bytes counted since it was parked |
| PoolMethods.ObjectCountersAgree | pkg/lb/backendserver.go:31-37 | whatever calls were made on the object, between calls its counters agree with its map and the leases |
| PoolMethods.ObjectLeaksNothing | pkg/lb/backendserver.go:188-255 | between calls every connection ever dialled by the object is idle, leased or closed |
| HealthSlot.ExecutionKeeps | pkg/lb/backendserver.go:97-122 | invariant of all interleavings of SetHealthCheck and Close |
| HealthSlot.EveryCheckAccountedFor | pkg/lb/backendserver.go:162-177 | every check handed in is closed exactly once, or installed, or in the hand of exactly one running call |
| HealthSlot.AtMostOneOpen | pkg/lb/backendserver.go:162-177 | of the checks no call is busy with, at most one is open |
| HealthSlot.QuietMeansOne | pkg/lb/backendserver.go:162-177 | with no call running, a check is open exactly if it is the installed one |
| HealthSlot.ClearedForGood | pkg/lb/backendserver.go:116-121 | after a Close has emptied the slot nothing is ever installed again and whatever is handed in is closed |
| HealthSlot.LastTurnIsInstalled | pkg/lb/httpbackend.go:223-238 | with the lock free and the server open, the installed check is the one that the last call to take the lock carried, and so of the latest generation exactly if that one is |
| HealthSlot.OldReplacesNew | pkg/lb/httpbackend.go:223-238 | a run in which the check of an older generation replaces that of a newer one |
| HealthCheck.OneMoreCheck | pkg/hc/httpcheck.go:164-208 | the status as the latest deciding check of the whole history changes exactly when a run of failures, or of successes, is complete |
| HealthCheck.HealthyMeans | pkg/hc/httpcheck.go:164-208 | a server is healthy exactly if some Rise checks in a row succeeded and no Fall checks in a row, the last of them later, failed |
| HealthCheck.ChangesNeedChecks | pkg/hc/httpcheck.go:164-208 | m rises and n falls need at least m times Rise plus n times Fall checks; rises and falls alternate |
| HealthCheck.OffersAlternate | pkg/hc/httpcheck.go:174-207 | the notifications that a history calls for alternate, the last is the current status, and there is none exactly before both the first rise and check number Fall |
| HealthCheck.OneMoreHappening | pkg/hc/httpcheck.go:174-207 | a check adds to the history and fills the channel exactly if a notification is called for and the channel is empty; a read takes what is there |
| HealthCheck.HTTPCheck.Turn | pkg/hc/httpcheck.go:164-208 | one turn of the worker keeps counters and status in agreement with the history, offers exactly the notification that is called for, if any, and puts it into the channel exactly if that is empty |
| HealthCheck.HTTPCheck.Receive | pkg/hc/httpcheck.go:118-121 | a reader finds the current status; what it has received is a subsequence of what was offered, and an empty channel means that no change since its last look is unannounced |
| HealthCheck.HTTPCheck.Worker | pkg/hc/httpcheck.go:159-216 | over any history with reads at any points, the status is the declarative reading of the history; what the worker offers alternates, ends with the current status and begins at the earlier of the first rise and check number Fall; what the reader gets of it is determined by when it reads, and the first notification is never lost |
| HealthCheck.Thresholds.CopyFrom | pkg/hc/httpcheck.go:42-47 | thresholds that are not positive become 3 failures and 2 successes, positive ones are kept |
| Backends.BackendServer.Close | pkg/lb/backendserver.go:97-104 | a shared server is only handed back, any other is torn down |
| Backends.HTTPBackend.Fork | pkg/lb/httpbackend.go:123-201 | succeeds exactly if every line is well-formed with an HTTP scheme and no two name the same server; then has exactly the servers of the lines, where one that the old backend has and nobody has borrowed is that very server, with its weight, and any other is new with the weight of its line, or else 1; every object it made and does not keep is closed once; on failure the old backend has all its servers back |
| Backends.HTTPBackend.AddLine | pkg/lb/httpbackend.go:155-193 | one server line, with its error paths |
| Backends.HTTPBackend.GiveUp | pkg/lb/httpbackend.go:142-148 | the roll-back: what was made is closed once, what was borrowed is handed back unclosed |
| Backends.HTTPBackend.Close | pkg/lb/httpbackend.go:204-214 | closes every server, where the shared ones survive |
| Backends.NextLine | pkg/lb/httpbackend.go:155-193 | when one line more keeps the lines acceptable, and what is wanted then |
| Backends.WantedWeight | pkg/lb/httpbackend.go:173-184 | of accepted lines each asks for its server with the weight it gives, or else with weight 1 |
| Backends.OldWeightIsKept | pkg/lb/httpbackend.go:173-191 | a server configured with weight 5 and then 7 has weight 5 after the reload |
| Listeners.Listener.Fork | pkg/lb/listener.go:45-92 | the accepter passes on exactly if network and address agree and it has not been passed on before; a late failure leaves the mark |
| Listeners.Listener.Close | pkg/lb/listener.go:95-109 | a shared accepter survives, any other is closed once |
| Apps.App.ForkBackend | pkg/config/app.go:89-193 | succeeds exactly on a well-formed section, and then has its servers: those that were there before, with their weights, and the others with the weight asked for; either way every server and backend ever made is between the two generations |
| Apps.App.ForkListener | pkg/config/app.go:305-347 | the same for accepters; the failure that leaves a mark does not occur |
| Apps.App.ForkListeners | pkg/config/app.go:305-347 | succeeds exactly if every listener can be forked and all addresses are different and not taken, and then has exactly these addresses more, leading to the frontend |
| Apps.NextFrontend | pkg/config/app.go:195-348 | when one frontend more keeps the configuration acceptable |
| Apps.AcceptedMeans | pkg/config/app.go:55-348 | a configuration is accepted exactly if health checks and options are in order, the lines of every backend are well-formed with different servers, and every listener has an address of its own, TLS parameters that load, and is listened on already or can be |
| Apps.WeightAsAskedExactly | pkg/lb/httpbackend.go:173-191 | a server has the weight asked for exactly if it is new or had that weight before |
| Apps.App.Inheritance | pkg/lb/listener.go:57-74 | an address that two generations both have is one accepter |
| Apps.App.Build | pkg/config/app.go:55-348 | succeeds exactly on the accepted configurations, and then has the backends with their servers and weights, the frontends, and the listeners asked for, each leading to its frontend; stopped at any point it leaves servers, accepters, backends and frontends between the two generations |
| Apps.App.HasBackends | pkg/config/app.go:89-193 | a generation that has what an accepted configuration asks for has exactly its backends with exactly the servers of their lines, each the server that was there before or with the weight of its line, or else 1 |
| Apps.App.HasFrontends | pkg/config/app.go:195-348 | and exactly its frontends, and listeners on exactly the addresses configured, each leading to its frontend |
| Apps.App.ActivateListeners | pkg/lb/accepterhandler.go:20-40 | after activation every live accepter leads to a listener and an open frontend of this generation |
| Apps.App.Fork | pkg/config/app.go:35-360 | succeeds exactly if health checks, backends and frontends are well-formed and the addresses are not empty, all different, with TLS that loads, and each listened on already or free; on success the new generation is in service, has what was asked for, weights included, and has the very accepters and servers of the old one where both have one; on failure the old one is in service as before and every server, accepter, backend and frontend made is closed |
| Apps.App.Close | pkg/config/app.go:363-375 | every listener, frontend and backend of the generation is closed and has let go of what it had; the other one has what it had, stays in service and owns unshared what was shared; whatever neither has is closed |
| Apps.App.Establish | pkg/config/app.go:42-48 | a generation that cannot be built is closed altogether, and the other one is alone again |
| Apps.App.Commit | pkg/config/app.go:350-357 | activation points every live accepter at a listener and an open frontend of the new generation |
| Apps.App.Replace | cmd/simult-server/main.go:90-104 | fork, close the old, swap: exactly the accepted configurations replace the generation; the surviving one is steady, has what was asked for, weights included, and kept the accepters and servers it shares with the old one, which is closed altogether; a failure leaves the old one with all the servers and accepters it had |
| Reload.Process.ServerBetweenReloads | cmd/simult-server/main.go:88-106 | between reloads every server ever created is either in exactly one place of the running generation and open, or was closed exactly once; none is shared |
| Reload.Process.AccepterBetweenReloads | cmd/simult-server/main.go:88-106 | the same for accepters |
| Reload.Process.OthersAreClosed | cmd/simult-server/main.go:88-106 | a backend or frontend is closed unless the running generation has it |
| Reload.Process.RunningIsInService | pkg/lb/accepterhandler.go:20-40 | between reloads every address of the running generation has an open accepter that leads to its listener and an open frontend of that generation; every backend and every server it has is open |
| Reload.Process.ConfigReload | cmd/simult-server/main.go:75-107 | succeeds exactly if the file loads and its configuration is accepted; then the running generation is the one asked for, each server and accepter that the old one had too is the same object, and everything of the old one is closed; a failed reload leaves the running generation and all the servers and accepters it has |
| Reload.Process.Terminate | cmd/simult-server/main.go:188-194 | after the shutdown every server and accepter ever created has been closed exactly once, and every backend and frontend is closed |
| Reload.Process.Run | cmd/simult-server/main.go:75-107 | starts exactly if the first configuration loads and is accepted; over any sequence of successful and failed reloads and the shutdown no server, accepter, backend or frontend is left open, and no server or accepter is closed twice |
| NodeTable.UpdateBssNodes | pkg/lb/httpbackend.go:252-290 | whatever order the map is walked in, the table has one node per server, strictly ordered by name, numbered from 0, with the configured weight if healthy and none otherwise |
| NodeTable.TableIsCanonical | pkg/lb/httpbackend.go:252-290 | that table is unique, and for a fixed set of servers two health states differ in weights only |
| NodeTable.IncreasingUnique | pkg/lb/httpbackend.go:271 | a strictly sorted list is determined by its elements |
| NodeTable.LessIs | pkg/lb/httpbackend.go:271 | the order of names: a proper beginning comes first, otherwise the smaller character at the first difference |
| Selection.FindServer | pkg/lb/httpbackend.go:292-375 | round robin asks the hashing library for one node and takes it unless weightless; least connections takes the first least loaded, and none exactly if there is none; affinity asks for the configured number, 0 standing for one and a negative or too large one for all, and chooses as below |
| Selection.Choose | pkg/lb/httpbackend.go:252-375 | a server chosen from the table is one of the backend's; unless the least connections decide it is healthy with a configured weight above zero; if they do it is least loaded, and healthy with a weight exactly if each server that is not has one that is ahead of it by load or name |
| Selection.Affinity | pkg/lb/httpbackend.go:345-371 | none exactly if there is no first node with weight; without threshold the first least loaded of the longest prefix with weight; with threshold T a node up to which each has less than a T-th of the load before it (a load of none counting as one), and the next has no weight or does not |
| Selection.ChosenMeans | pkg/lb/httpbackend.go:350-371 | what a choice is, for both kinds of threshold |
| Selection.ChosenUnique | pkg/lb/httpbackend.go:353-371 | that choice is unique and has weight |
| Selection.ScanBound | pkg/lb/httpbackend.go:359-367 | with T at least 1 the loads along the scan fall strictly and reaching position k takes more than T to the k connections on the first node |
| Selection.NeverThatFar | pkg/lb/httpbackend.go:359-367 | a position k with T to the k at least the first node's load is never chosen, nor any later one |
| Selection.LeastConnIgnoresHealth | pkg/lb/httpbackend.go:303-313 | over any two health states the least-connections mode chooses the same node |
| Selection.LeastConnHealthyExactly | pkg/lb/httpbackend.go:303-313 | the node chosen by least connections has weight exactly if each weightless node has one with weight before it, less loaded or equally loaded and earlier |
| Selection.LeastConnTakesUnhealthy | pkg/lb/httpbackend.go:303-313 | an idle unhealthy server is chosen over a healthy one with a connection |
| Respond.HTTPBackend.Serve | pkg/lb/httpbackend.go:532-677 | which attempts are refused and in which order this is looked for: the backend's limit, no server, the server's limit, a dial that times out or fails, each with its httpError, its status page (503, 503, 503, 504, 502) or the configured one, only if final, and no lease; any other attempt connects, becomes final, streams, and ends its lease, closing the connection unless both directions were done in time with nothing buffered and the server keeping an HTTP/1.1 connection alive; the connection count is as before |
| Respond.ServeRequest | pkg/lb/httpfrontend.go:321-364 | exactly one of the 403 page, primary page, primary stream, backup page, backup stream is directed at the client, and which; the backup is tried exactly if there is one and the primary was refused; which error; the type assertion cannot fail; counts and leases balance |
| FrontendCounters.ExecutionKeeps | pkg/lb/httpfrontend.go:439-547 | invariant of all interleavings of connections and their peek goroutines |
| FrontendCounters.CountersExact | pkg/lb/httpfrontend.go:460-544 | total, waiting, idle and active are at all times the numbers of connections in the counted region, with an outstanding first peek, with an outstanding later peek, and with a request in service |
| FrontendCounters.OnePeekAtMost | pkg/lb/httpfrontend.go:472-493 | a connection has at most one peek that has not reported, and outlived by it only after a context end |
| FrontendCounters.KeepAliveLimit | pkg/lb/httpfrontend.go:536-538 | with MaxKeepAliveReqs M at least 0 a connection serves at most M + 1 requests |
| FrontendCounters.GoesOnExactly | pkg/lb/httpfrontend.go:536-538 | after a request a connection goes on exactly if that ended well, fewer connections than MaxIdleConn are idle, and at most MaxKeepAliveReqs requests have been served; MaxIdleConn of zero or less and MaxKeepAliveReqs below zero are no limits |
| FrontendCounters.KeepAliveReached | pkg/lb/httpfrontend.go:463-544 | whatever the other limits, every number of requests up to M + 1, and without a limit any number, is served on one connection in some execution |
| FrontendCounters.EveryRequestAsked | pkg/lb/httpfrontend.go:495-533 | a request is served only after its own peek has found a byte |
| FrontendCounters.AllReturnToZero | pkg/lb/httpfrontend.go:460-547 | when everything has finished all counters are zero |
| FrontendCounters.LimitOvershoot | pkg/lb/httpfrontend.go:439-461 | MaxConn is exceeded by at most one less than the connections ever between check and count at once |
| FrontendCounters.OneByOne | pkg/lb/httpfrontend.go:439-461 | connections that come one after the other are let in up to the limit, and without a limit in any number |
| FrontendCounters.LimitBroken | pkg/lb/httpfrontend.go:439-461 | for every limit and every number n of connections between check and count at once, an execution exceeds the limit by n - 1 |
| FrontendCounters.LimitHoldsExactly | pkg/lb/httpfrontend.go:439-461 | the limit holds in all executions with at most so many connections between check and count exactly if that is at most one |
| LimitRace.Overshoot | pkg/lb/httpbackend.go:537-548 | MaxConn of a backend, and likewise ServerMaxConn and ServerMaxIdleConn, is exceeded by at most one less than the users ever between look and count at once |
| LimitRace.Reached | pkg/lb/httpbackend.go:563-580 | for every limit and every number n of users between look and count at once, an execution exceeds the limit by n - 1 |
| LimitRace.HoldsExactly | pkg/lb/httpbackend.go:601-606 | such a limit holds in all executions with at most so many users between look and count exactly if that is at most one |
| LimitRace.CountIs | pkg/lb/httpbackend.go:547-548 | the count is the number of users that are in |
| LimitRace.OneByOne | pkg/lb/httpbackend.go:537-548 | users that come one after the other are let in up to the limit, and without a limit in any number |
| Glob.StarsAligned | pkg/lb/httpfrontend.go:58-59 | the first replacement never hits a misaligned escape, whatever backslashes the pattern has |
| Glob.MarksAligned | pkg/lb/httpfrontend.go:60 | nor does the second on the result of the first |
| Glob.CompiledForm | pkg/lb/httpfrontend.go:57-63 | every pattern compiles, to the anchored expression it stands for |
| Glob.CompilerPreservesMeaning | pkg/lb/httpfrontend.go:57-63 | the compiled expression matches exactly the texts the pattern matches |
| Glob.CompiledStepByStep | pkg/lb/httpfrontend.go:57-63 | in terms of compiled expressions alone: what each character of a pattern takes from the text |
| Glob.PlainExactlyOnOneLine | pkg/lb/httpfrontend.go:57-63 | compiled patterns mean plain wildcards exactly on texts without line feeds |
| NormalizePath.Normalize | pkg/lb/httpcommon.go:303-314 | the loop ends and yields the one-pass collapse of every slash with the slashes and dots after it; the result has neither of the two pairs |
| NormalizePath.CollapseAfterPass | pkg/lb/httpcommon.go:306-308 | no replacement pass changes the one-pass result |
| NormalizePath.CollapseIdempotent | pkg/lb/httpcommon.go:303-314 | normalizing twice is normalizing once, and exactly the paths without the two pairs are left alone |
| NormalizePath.PaddingVanishes | pkg/lb/httpcommon.go:303-314 | a slash or dot more after a slash makes no difference anywhere |
| NormalizePath.RestIsKept | pkg/lb/httpcommon.go:303-314 | nothing but slashes and dots is removed |
| DotSegments.AgreementExactly | pkg/lb/httpcommon.go:303-314 | on every path the result is that of section 5.2.4 of RFC 3986 exactly if the scan of its segments says so |
| DotSegments.UsualPathsAgree | pkg/lb/httpcommon.go:303-314 | on usual paths they agree exactly if no `..` comes after a segment that is not a dot segment, and no dot segment comes first without a slash |
| DotSegments.KeptIs | pkg/lb/httpcommon.go:303-314 | on an absolute path the code keeps the segments without their leading dots that are not empty then, and the last |
| DotSegments.StandardIs | pkg/lb/lb.go:19-22 | on an absolute path the standard's algorithm works on a stack of segments |
| DotSegments.WithPrefix | pkg/lb/httpfrontend.go:302-305 | on a path that does not start with a slash, the standard's algorithm leaves the first segment in front exactly if the stack after it never runs out |
| DotSegments.DotSegmentsAreNotResolved | pkg/lb/lb.go:19-22 | a path on which the two differ, with both results |
| Routing.IsRouteRestricted | pkg/lb/httpfrontend.go:180-209 | restricted exactly if some restriction not followed by "and" holds, and with it all that "and" joins to it |
| Routing.Check | pkg/lb/httpfrontend.go:184-198 | a restriction holds exactly if its network or its path, with or without a slash more, matches, each inverted if asked for |
| Routing.OpenGroupIgnored | pkg/lb/httpfrontend.go:199-208 | restrictions after the last one not followed by "and" have no effect |
| Routing.RouteCompiled | pkg/lb/httpfrontend.go:68-76 | the compiled route applies exactly where its patterns do |
| Routing.AppliesIs | pkg/lb/httpfrontend.go:66-76 | a route applies exactly if its host pattern matches the host and its path pattern the path, with or without a slash more; an empty pattern is a star |
| Routing.FindBackend | pkg/lb/httpfrontend.go:211-229 | if a route applies and none before it does, the request is refused exactly if that route is restricted, and otherwise goes to its backend and backup; if none applies, to the default ones |
| Routing.PaddingIrrelevant | pkg/lb/httpfrontend.go:211-229 | slashes and dots added after a slash change neither the route nor the restrictions |
| HttpHeader.SplitHTTPHeader | pkg/lb/httpcommon.go:155-204 | over every way of cutting the bytes, success exactly if the blank line is reached with every line at most 1 MiB and the total at most 10 MiB; the result is that of a plain split at line feeds; one error says that the stream ended without a blank line, one that a line and one that the block is too long |
| HttpHeader.ReadTwoWays | pkg/lb/httpcommon.go:155-204 | two readings of one stream succeed alike with equal results |
| HttpHeader.HeadSkips | pkg/lb/httpcommon.go:158-202 | the block of complete lines followed by something is the lines followed by its block |
| HttpHeader.NoWayBack | pkg/lb/httpcommon.go:161-174 | once a limit is exceeded, alone or with the lines before, no continuation can be accepted |
| HttpHeader.LineEnds | pkg/lb/httpcommon.go:175-187 | a fragment that ends a line ends the block, or one more line is complete |
| HeaderLines.ReadBlock | pkg/lb/httpcommon.go:155-204 | on a stream that begins with a block, however its lines are spelled (any names, values or none, spaces, line ends): success exactly within the limits, the block and nothing more is taken, and for every key the header has the values of exactly the lines whose name has that canonical form, in order |
| HeaderLines.MeaningOfLines | pkg/lb/httpcommon.go:183-202 | what such lines mean, whatever the case of their names |
| HeaderLines.CollectLaws | pkg/lb/httpcommon.go:197 | collecting the values of a key: from two lists in a row, from one line, from none |
| HeaderLines.EveryStream | pkg/lb/httpcommon.go:155-204 | whatever is accepted begins with such a block |
| HeaderRoundTrip.RoundTrip | pkg/lb/httpcommon.go:206-234 | a printed header is read back exactly within the limits, with the same status line, byte count and, for every name, the cleaned values in order, for any order of names |
| HeaderRoundTrip.WriteHTTPHeader | pkg/lb/httpcommon.go:206-234 | what arrives at a destination is the printed block or, on an error, the part of it there was room for; the byte count is exact either way |
| HeaderRoundTrip.PrintedMore | pkg/lb/httpcommon.go:206-234 | what is printed: with one name more its values, each on a line after name, colon and space, before the blank line |
| HeaderRoundTrip.PrintedNone | pkg/lb/httpcommon.go:206-234 | without names the status line and a blank line |
| HeaderRoundTrip.ReadBack | pkg/lb/httpcommon.go:155-234 | the same through the reader, over any fragments, with the limits in terms of names and values |
| HeaderRoundTrip.CleanAll | pkg/lb/httpcommon.go:217 | cleaning keeps values that are trimmed and have no line breaks |
| HeaderRoundTrip.CleanIs | pkg/lb/httpcommon.go:217 | cleaning takes exactly the blanks around a value and turns each line break inside into a space |
| Cookies.ReadCookies | pkg/lb/httpcookie.go:8-47 | the cookies of the pieces of each line up to its first empty piece |
| Cookies.LinesInTurn | pkg/lb/httpcookie.go:15-46 | the lines are read one after the other |
| Cookies.PieceSplits | pkg/lb/httpcookie.go:19-24 | the first piece ends at the first semicolon |
| Cookies.ParseCookieValue | pkg/lb/httpcookie.go:49-60 | a value is accepted exactly if, without its quotes, it is of printable ASCII other than quotes, semicolons and backslashes |
| Cookies.PieceIs | pkg/lb/httpcookie.go:25-43 | a piece with a name and a value, quoted or not, and white space around gives a cookie exactly if name and value are valid and the name passes the filter |
| Cookies.BarePieceIs | pkg/lb/httpcookie.go:25-43 | and so does a piece with a name alone |
| Cookies.TokenRuneIs | pkg/lb/httpcookie.go:73-160 | token characters are visible ASCII without delimiters |
| Cookies.AllValid | pkg/lb/httpcookie.go:33-43 | for every input all returned names and values are valid and pass the filter |
| Cookies.FilterSelects | pkg/lb/httpcookie.go:36-38 | a filter selects the cookies of its name from those that there are without it, in order |
| Cookies.NothingAfterEmpty | pkg/lb/httpcookie.go:20-24 | what is taken after an empty piece yields nothing |
| Cookies.EmptyPieceHides | pkg/lb/httpcookie.go:20-24 | a line gives the cookies of all its pieces exactly when none comes after the first empty piece |
| Cookies.SecondCookieLost | pkg/lb/httpcookie.go:20-24 | a line with two semicolons in a row of which the second cookie is lost |
| Cookies.RoundTrip | pkg/lb/httpcookie.go:8-60 | a printed list of valid cookies is read back in order without trailing spaces of values, so unchanged exactly when no value ends with a space |

## Left out

- Sockets, dialling, TLS and the start of goroutines; the environment decides how a dial ends, when a peer closes and when bytes arrive.
- Bodies: chunked transfer coding and content lengths; an exchange is the outcome of its two directions.
- Weighted rendezvous hashing and the sort of its result; the candidates drawn from the table are a parameter.
- URL, network and server-line parsing, the canonical form of header names, lower-casing: parameters or parsed values.
- Regular expressions beyond those the pattern compiler can emit.
- Metrics, logging, version, flags, resource limits, signals, YAML; of a configuration only whether its sections are well-formed and what servers, listeners and frontends they name.
- Real time; a timeout is an event that may or may not happen.
- The widths of counters and of the product of threshold and count: integers are unbounded.
- The request that a health check sends; its outcome is a truth value. That closing a check makes it unhealthy.
- Status-code and method grouping, splitting of host and port, defaults of options that no property needs.
- PoolMethods.Pool.ConnAcquire: states what a call does that runs alone; concurrent calls are the subject of the step system, whose theorems are stated over all interleavings. The same goes for the other methods of the object. Releasing a nil connection, which does nothing, is not modelled.
- PoolMethods.Pool.ConnRelease: is called after an exchange that was good or with the connection closed, as its only caller does (pkg/lb/httpbackend.go:601-677).
- Backends.BackendServer.Close: the pool and the health check that a real close tears down are not part of this object; a close is counted.
- Backends.HTTPBackend.Fork: runs alone, under the lock of the old backend; a server's weight is fixed when it is made.
- Listeners.Listener.Close: Close and Shutdown of an accepter are one; an accepter and its handler are one object, as the handler is never replaced.
- Selection.FindServer: the active counts are one snapshot, although the code reads them again while it scans; with an empty table in round robin the hashing library is asked for a node it does not have, which is not covered.
- Respond.ServeRequest: covers a request from routing on; the two directions of an exchange are its outcomes, and the counters that limits look at are values given by the environment. The frontend's own timeout, which closes the client's connection while the request goes on, and an ingress direction that fails while the other still runs are not told apart from a failed exchange.
- HttpHeader.SplitHTTPHeader: which of several errors is returned depends on the fragments; stated is what each of them says about the stream.
- HeaderRoundTrip.WriteHTTPHeader: the flush of a buffered destination is not modelled; the order of the names, which net/http sorts, is arbitrary.
- Cookies.ReadCookies: text is a sequence of Unicode characters; bytes that are not valid UTF-8 are not covered.
