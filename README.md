# Request engine, termination manager and listener bookkeeping of an RPC runtime, in Dafny

This project models four pieces of sequential bookkeeping from an RPC runtime and proves what each promises.

- **HTTP client request engine** (`httpcli.dfy`, module `HttpCli`). One outbound GET or POST goes through
  resolve, connect, handshake, write and read/parse. The engine fails over across the resolved addresses in
  list order and finalises the request exactly once. The specification is a value `Engine` with one transition
  function per callback (`AfterResolved`, `AfterConnected`, `AfterHandshake`, `AfterWrite`, `AfterRead`, and
  `Advance` for `next_address`, `Finalize` for `finish`). The class `Request` holds the fields of
  `internal_request`. Each callback method is proved to perform its transition and to keep the invariant `Inv`.
  Every callback requires that the request is not finished, so no path can touch a request after `finish`.
  The ghost set `live` holds the endpoints the request stored and never destroyed. It shows that failover after an
  endpoint was stored overwrites `ep` without destroying the old one (`StaleEndpointSurvivesFinish`).
- **Operation termination manager** (`termination.dfy`, module `Termination`). Four completion flags, an outcome
  and a callback list. Work submitted to the thread pool is a ghost log. The callback run is the function
  `Dispatch` over "raised / did not raise" results, and the loop `CallCallbacksAndAct` is proved against it.
  `expire` and `abort` require the manager to be active: a second termination would fail in the source.
- **Secure listener bookkeeping** (`server_secure_chttp2.dfy`, module `SecureServer`). This covers the list of
  handshaking endpoints, the reference count, `is_shutdown`, and the port-adding function's error paths.
  `remove_tcp_from_list_locked` reads `node->next` without a null check. Its model therefore requires the list to
  be empty or to hold the endpoint. The ghost multiset `pending` and flag `drained` prove that every caller meets
  this requirement.
- **Port aggregation** (`ports.dfy`, module `PortAggregation`, used by `server_chttp2.dfy` and the secure variant).
  The loop over the `add_port` results. A failed `GPR_ASSERT` is modelled as an explicit `Aborted` outcome.

Collaborators are inputs. The resolver's address list, the connector's and handshaker's endpoints, the write
status and the read chunks with their status are the arguments of the callback that receives them. The response
parser is a pair of predicates on the bytes received so far.

A write error is terminal only when `grpc_endpoint_write` reports it synchronously (httpcli.c:168-170). Reported
later to `done_write`, it fails over to the next address (httpcli.c:151-155). `WriteErrorAsymmetry` states both
cases.

## Model

| member | source | states |
|---|---|---|
| `HttpCli.InitialValid` | src/core/httpcli/httpcli.c:229-247 | a freshly started request awaits resolution, satisfies the invariant and has delivered no response |
| `HttpCli.FinalizeOnce` | src/core/httpcli/httpcli.c:89-103 | finish delivers exactly one response, the parsed bytes iff success and null otherwise, frees the address list iff one was stored, and destroys only the endpoint currently stored |
| `HttpCli.AdvanceInOrder` | src/core/httpcli/httpcli.c:196-206 | next_address connects to addresses[cursor] and advances the cursor, so the attempts are always the list prefix before the cursor; at the end of the list it finishes with a null response |
| `HttpCli.ResolvedOutcome` | src/core/httpcli/httpcli.c:208-217 | a null address list finishes with failure before any connect; an empty list also fails without a connect; otherwise the cursor restarts at 0 and only candidate 0 has been tried |
| `HttpCli.PlaintextPassesThrough` | src/core/httpcli/httpcli.c:69-77 | with the default plaintext handshaker the connected endpoint itself is stored and the write starts at once |
| `HttpCli.NullEndpointFailsOver` | src/core/httpcli/httpcli.c:174-194 | a null endpoint from connect or from the handshaker advances to the next candidate and does not finish the request while candidates remain |
| `HttpCli.WriteErrorAsymmetry` | src/core/httpcli/httpcli.c:145-172 | a synchronous write error finishes with a null response; an asynchronous EOF, error or shutdown fails over exactly like next_address, and the request goes on while candidates remain |
| `HttpCli.ParseChunks` | src/core/httpcli/httpcli.c:110-118 | the chunk loop never clears have_read_byte, only extends the parser's bytes, and sets have_read_byte whenever it feeds a byte |
| `HttpCli.ParseChunksAccepted` | src/core/httpcli/httpcli.c:110-118 | when every chunk is accepted, the parser has seen the concatenation of the chunks in order, and have_read_byte is set iff it was already set or some chunk was non-empty |
| `HttpCli.ParseChunksRejected` | src/core/httpcli/httpcli.c:110-116 | after a rejection the parser has seen exactly the chunks up to some non-empty chunk k and no later one; it rejected those bytes, and accepted the bytes after every earlier non-empty chunk, so k is the first rejection |
| `HttpCli.ReadKeepsInv` | src/core/httpcli/httpcli.c:105-139 | on_read keeps the request invariant: a response is delivered at most once, and once a byte has arrived the request only reads or finishes |
| `HttpCli.ParseFailureFinishes` | src/core/httpcli/httpcli.c:113-116 | a parse failure finishes the request with a null response whatever the read status, and no read is re-armed |
| `HttpCli.ZeroByteEofFailsOver` | src/core/httpcli/httpcli.c:120-133 | EOF, error or shutdown before any byte arrived leaves the request exactly as a connect failure for the same candidate would |
| `HttpCli.EofAfterBytesFinishes` | src/core/httpcli/httpcli.c:124-131 | EOF, error or shutdown after at least one byte finishes the request, with the received bytes iff the parser calls them complete at EOF and null otherwise |
| `HttpCli.ChunkBoundaryIndependence` | src/core/httpcli/httpcli.c:110-133 | for a parser whose rejections are final, a read delivering bytes in several chunks ends in the same state as a read delivering them in one chunk, except for the bytes fed to the parser, so the same response is delivered |
| `HttpCli.AllConnectsFail` | src/core/httpcli/httpcli.c:186-206 | when every connect fails, each remaining candidate is tried once in list order, then the request finishes with a null response |
| `HttpCli.StaleEndpointSurvivesFinish` | src/core/httpcli/httpcli.c:174-184 | with two candidates, an asynchronous write failure on the first and a zero-byte close on the second, the first endpoint is still undestroyed after finish |
| `HttpCli.Request.constructor` | src/core/httpcli/httpcli.c:229-243 | a new request starts in the initial engine state with the given handshaker, host, request text and parser |
| `HttpCli.Request.Finish` | src/core/httpcli/httpcli.c:89-103 | performs Finalize and removes the request's pollset from the context's set once |
| `HttpCli.Request.NextAddress` | src/core/httpcli/httpcli.c:196-206 | performs Advance, keeping the invariant |
| `HttpCli.Request.OnResolved` | src/core/httpcli/httpcli.c:208-217 | performs AfterResolved |
| `HttpCli.Request.OnWritten` | src/core/httpcli/httpcli.c:141-143 | arms a read and changes nothing else |
| `HttpCli.Request.StartWrite` | src/core/httpcli/httpcli.c:159-172 | synchronous DONE arms a read, PENDING waits for done_write, ERROR finishes with failure |
| `HttpCli.Request.OnHandshakeDone` | src/core/httpcli/httpcli.c:174-184 | performs AfterHandshake; the stored endpoint is replaced without being destroyed |
| `HttpCli.Request.PlaintextHandshake` | src/core/httpcli/httpcli.c:69-74 | reports the endpoint unchanged to on_handshake_done at once |
| `HttpCli.Request.OnConnected` | src/core/httpcli/httpcli.c:186-194 | performs AfterConnected with the request's handshaker |
| `HttpCli.Request.DoneWrite` | src/core/httpcli/httpcli.c:145-157 | performs AfterWrite |
| `HttpCli.Request.FeedChunks` | src/core/httpcli/httpcli.c:110-118 | the loop feeds the chunks and stops at the first rejection exactly as ParseChunks says, touching only have_read_byte and the parser's bytes |
| `HttpCli.Request.OnRead` | src/core/httpcli/httpcli.c:105-139 | the chunk loop and status switch perform AfterRead; the pollset is removed iff the request finished |
| `HttpCli.Context.constructor` | src/core/httpcli/httpcli.c:79-81 | a new context has an empty pollset set |
| `HttpCli.Overrides.constructor` | src/core/httpcli/httpcli.c:66-67 | both override hooks start unset |
| `HttpCli.Overrides.SetOverride` | src/core/httpcli/httpcli.c:283-287 | replaces both hooks together |
| `HttpCli.StartRequest` | src/core/httpcli/httpcli.c:229-247 | allocates a request in its initial state with the request's handshaker or plaintext by default, and adds the pollset to the context once |
| `HttpCli.Get` | src/core/httpcli/httpcli.c:219-248 | a GET hook that claims the request returns before any request is allocated or the pollset is added; otherwise a fresh request starts in its initial state holding the given pollset, parser, host and request text, and its pollset is added to the context once |
| `HttpCli.Post` | src/core/httpcli/httpcli.c:250-281 | the same for the POST hook, which also receives the body: a claimed request allocates nothing, otherwise a fresh request holding the given pollset, parser, host and request text starts and its pollset is added once |
| `Termination.InvocationCompletionPredicate` | src/python/grpcio/grpc/framework/core/_termination.py:40-43 | invocation-side completion holds iff ingestion is complete, whatever the other three flags |
| `Termination.ServiceCompletionPredicate` | src/python/grpcio/grpc/framework/core/_termination.py:46-49 | service-side completion holds iff transmission is complete, whatever the other three flags |
| `Termination.Dispatch` | src/python/grpcio/grpc/framework/core/_termination.py:112-120 | with no callback raising, all callbacks run and the action gets the outcome; when callback k is the first to raise, exactly k+1 run and the action gets LOCAL_FAILURE |
| `Termination.CallCallbacksAndAct` | src/python/grpcio/grpc/framework/core/_termination.py:112-120 | the loop invokes the callbacks and picks the action's outcome exactly as Dispatch says |
| `Termination.DispatchRaises` | src/python/grpcio/grpc/framework/core/_termination.py:112-120 | for an outcome other than LOCAL_FAILURE, the action gets LOCAL_FAILURE iff some callback raised, and every callback run before the last one did not raise |
| `Termination.ActionOutcome` | src/python/grpcio/grpc/framework/core/_termination.py:109-125 | the action receives LOCAL_FAILURE iff the outcome was LOCAL_FAILURE or a callback raised; for LOCAL_FAILURE no callback runs |
| `Termination.TerminationManager.IsActive` | src/python/grpcio/grpc/framework/core/_termination.py:140-142 | active iff no outcome yet: an active manager still accepts callbacks and has submitted nothing and notified nobody; a terminated one has submitted its work exactly once |
| `Termination.TerminationManager.constructor` | src/python/grpcio/grpc/framework/core/_termination.py:70-91 | a new manager is active, with all four flags false, an empty callback list and nothing submitted |
| `Termination.TerminationManager.SetExpirationManager` | src/python/grpcio/grpc/framework/core/_termination.py:93-94 | records the expiration manager |
| `Termination.TerminationManager.TerminateInternalOnly` | src/python/grpcio/grpc/framework/core/_termination.py:96-125 | records the outcome, drops the callback list and submits the action alone for LOCAL_FAILURE, or else the callbacks snapshot in registration order followed by the action |
| `Termination.TerminationManager.TerminateAndNotify` | src/python/grpcio/grpc/framework/core/_termination.py:127-129 | terminates and notifies the expiration manager once |
| `Termination.TerminationManager.PerhapsComplete` | src/python/grpcio/grpc/framework/core/_termination.py:131-138 | terminates with COMPLETED and notifies iff the predicate holds, and returns whether it did |
| `Termination.TerminationManager.AddCallback` | src/python/grpcio/grpc/framework/core/_termination.py:144-150 | while active it appends the callback and returns None; after termination it returns the outcome and registers nothing |
| `Termination.TerminationManager.TransmissionComplete` | src/python/grpcio/grpc/framework/core/_termination.py:158-164 | once terminated it returns False and changes nothing; otherwise it sets only its own flag, terminates with COMPLETED iff the predicate now holds, and returns True exactly then |
| `Termination.TerminationManager.EmissionComplete` | src/python/grpcio/grpc/framework/core/_termination.py:152-156 | a no-op once terminated; otherwise it sets its flag and terminates with COMPLETED iff the predicate now holds |
| `Termination.TerminationManager.ReceptionComplete` | src/python/grpcio/grpc/framework/core/_termination.py:166-170 | a no-op once terminated; otherwise it sets its flag and terminates with COMPLETED iff the predicate now holds |
| `Termination.TerminationManager.IngestionComplete` | src/python/grpcio/grpc/framework/core/_termination.py:172-176 | a no-op once terminated; otherwise it sets its flag and terminates with COMPLETED iff the predicate now holds |
| `Termination.TerminationManager.Expire` | src/python/grpcio/grpc/framework/core/_termination.py:178-180 | an active manager terminates with EXPIRED and the expiration manager is not notified |
| `Termination.TerminationManager.Abort` | src/python/grpcio/grpc/framework/core/_termination.py:182-184 | an active manager terminates with the given outcome and notifies the expiration manager |
| `Termination.InvocationTerminationManager` | src/python/grpcio/grpc/framework/core/_termination.py:187-198 | builds an active manager that uses the invocation predicate |
| `Termination.ServiceTerminationManager` | src/python/grpcio/grpc/framework/core/_termination.py:201-212 | builds an active manager that uses the service predicate |
| `PortAggregation.CountSuccesses` | src/core/surface/server_chttp2.c:105-111 | the number of successful adds never exceeds the number of resolved addresses |
| `PortAggregation.CountSuccessesExtremes` | src/core/surface/server_chttp2.c:105-111 | the count is zero iff every add failed, and equals the address count iff every add succeeded |
| `PortAggregation.FirstSuccessIsFirst` | src/core/surface/server_chttp2.c:105-107 | the remembered port is -1 iff no add succeeded; otherwise it is non-negative and is the result at the first successful position |
| `PortAggregation.AggregatePorts` | src/core/surface/server_chttp2.c:101-113 | the loop aborts iff two successful adds report different ports; otherwise port_num is the first success and count is the number of successes |
| `PortAggregation.AgreeingSuccessesEqualFirst` | src/core/surface/server_chttp2.c:108-110 | when no assertion fires, every successful add reported the first port |
| `InsecureServer.AddInsecureHttp2Port` | src/core/surface/server_chttp2.c:83-139 | the listener is registered iff resolution and TCP-server creation worked and some address was bound, and then the first bound port is returned even after partial success; every failure returns 0; a resolved list is freed exactly once on every path, before the success return or at the cleanup exit, and a created TCP server ends up either owned by the listener or destroyed |
| `SecureServer.RemoveFirst` | src/core/security/server_secure_chttp2.c:103-121 | removing a listed endpoint shortens the list by one; removing an absent one leaves the list as it is |
| `SecureServer.RemoveFirstAt` | src/core/security/server_secure_chttp2.c:107-118 | removal takes out exactly the first node holding the endpoint and keeps the others in order |
| `SecureServer.RemoveFirstMultiset` | src/core/security/server_secure_chttp2.c:103-121 | removal takes exactly one copy of the endpoint out of the list's contents |
| `SecureServer.SecureState.constructor` | src/core/security/server_secure_chttp2.c:260-269 | a new listener state has an empty handshaking list, is not shut down, and has a reference count of 1 |
| `SecureServer.SecureState.StateRef` | src/core/security/server_secure_chttp2.c:71-73 | adds one reference |
| `SecureServer.SecureState.StateUnref` | src/core/security/server_secure_chttp2.c:75-84 | drops one reference; the state is freed exactly when the count reaches zero |
| `SecureServer.SecureState.RemoveTcpFromListLocked` | src/core/security/server_secure_chttp2.c:103-122 | for an empty list or a listed endpoint it removes the first match and returns 0, except that an empty list returns -1; the traversal never reads the missing next node |
| `SecureServer.SecureState.OnAccept` | src/core/security/server_secure_chttp2.c:156-168 | takes one reference and pushes the endpoint on the front of the list, leaving the rest unchanged |
| `SecureServer.SecureState.Unlist` | src/core/security/server_secure_chttp2.c:131-150 | a pending endpoint's removal always meets the traversal's requirement, and it keeps the list equal to the pending handshakes until destroy_done has drained it |
| `SecureServer.SecureState.HandOff` | src/core/security/server_secure_chttp2.c:131-146 | a successful handshake's secure endpoint becomes a transport unless the listener is shutting down, when it is destroyed; a failed one produces neither |
| `SecureServer.SecureState.OnSecureTransportSetupDone` | src/core/security/server_secure_chttp2.c:124-154 | unlists the wrapped endpoint on success and failure; a success becomes a transport unless shut down, when the secure endpoint is destroyed; drops exactly one reference |
| `SecureServer.SecureState.Destroy` | src/core/security/server_secure_chttp2.c:192-200 | sets is_shutdown |
| `SecureServer.SecureState.DestroyDone` | src/core/security/server_secure_chttp2.c:177-188 | shuts down every handshaking endpoint head first, leaves the list empty and drops the listener's reference; the state is freed iff no handshake is still pending |
| `SecureServer.AddSecureHttp2Port` | src/core/security/server_secure_chttp2.c:202-291 | the listener is registered iff credentials, connector, resolution and TCP-server creation worked and some address was bound, and then the first bound port is returned; every failure returns 0; a resolved list is freed exactly once on every path, before the success return or at the cleanup exit, and a created connector and TCP server each end up either owned by the listener state or released |

## Left out

- Deadlines (`gpr_timespec`): only the connector enforces them, and it is not part of this model.
- DNS resolution, TCP connect, endpoint reads, writes, shutdown and destroy, and the pollset-set internals are foreign I/O. Their results are callback arguments. The context's pollset set is a multiset.
- The request formatter (`format_request.h`) and the response parser internals (`parser.h`) are not part of this model. The formatted request is a parameter, and the parser is two predicates on the bytes received so far.
- The reference count of the formatted request text (taken for each write, dropped at finish) is not tracked. Neither is the unref of the read slices.
- A deferred handshaker's work is not modelled. The raw endpoint it receives is its own, and only the endpoint it reports back is tracked in `live`.
- `gpr_mu` locking, the lock/unlock fence in `state_unref`, and thread-pool execution are left out because they are concurrency. Each callback is atomic, and pool submissions are a ghost log.
- The listener `start` callbacks, `new_transport`, `setup_transport`, chttp2 transport creation, channel arguments and filters, the security connector and secure transport setup are library calls not shown here. A new transport appears only as an entry in `transports`.
- iomgr object registration and logging are diagnostic only. This includes the "HTTP:GET" name that POST reuses (httpcli.c:273) and the partial-success log line.
- `grpc_httpcli_context_destroy` is not modelled: it only releases the pollset set.
- The `callable_util` exception-logging wrappers and the action itself are left out. A callback run is only "raised / did not raise".
- The expiration manager is an identity, and its `terminate()` calls are counted.
- `Termination.TerminationManager.Expire` and `Abort` require an active manager. A second termination in the source first overwrites `self.outcome` (_termination.py:102), then raises on `list(None)` (_termination.py:103). That path is not modelled.
- `Termination.TerminationManager.TerminateAndNotify`, `PerhapsComplete`, `EmissionComplete`, `TransmissionComplete`, `ReceptionComplete`, `IngestionComplete` and `Abort` require callers to call `set_expiration_manager` first whenever the call would terminate. Without an expiration manager the source records the outcome and submits the work to the pool, then raises `AttributeError` on `None.terminate()`. That error path is not modelled.
- `PortAggregation.AggregatePorts`: a resolved address is represented by the result `grpc_tcp_server_add_port` gives for it. The TCP server's own port state is not modelled.
- `HttpCli.Request.OnConnected`: the synchronous write status argument is consulted only when the handshaker completes at once (plaintext). Otherwise the write status arrives with `OnHandshakeDone`.
