/**
 * grpc_server_add_insecure_http2_port: resolve the address, create a TCP
 * server, bind every resolved address, and register the listener with the
 * server only when at least one address was bound.
 *
 * The blocking resolver and grpc_tcp_server_create are collaborators: their
 * answers are parameters. A resolved address is represented by what
 * grpc_tcp_server_add_port returns for it.
 */
module InsecureServer {
  import opened Wrappers
  import opened PortAggregation

  /** What one call does: the value returned and the resources it handled. */
  datatype AddPortOutcome =
    | AssertionFailure   // GPR_ASSERT(port_num == port_temp) aborted the process
    | Returned(port: int, listenerRegistered: bool, resolvedFreed: nat, tcpServerDestroyed: bool)

  /**
   * Every failure jumps to the one cleanup exit, which frees what is still
   * held (the resolved list, the TCP server) and returns 0.
   */
  method AddInsecureHttp2Port(resolved: Option<seq<int>>, tcpCreated: bool) returns (o: AddPortOutcome)
    // the GPR_ASSERT fires exactly when two bound addresses report different ports
    ensures o.AssertionFailure? <==> resolved.Some? && tcpCreated && !SuccessesAgree(resolved.value)
    // the listener is registered iff resolution and TCP-server creation worked and some address was bound
    ensures o.Returned? ==>
      (o.listenerRegistered <==> resolved.Some? && tcpCreated && CountSuccesses(resolved.value) > 0)
    // on success the first bound port is returned, even when only some addresses were bound
    ensures o.Returned? && o.listenerRegistered ==>
      resolved.Some? && o.port == FirstSuccess(resolved.value) && o.port >= 0
    // every failure returns 0
    ensures o.Returned? && !o.listenerRegistered ==> o.port == 0
    // a resolved list is freed exactly once, on success and on failure alike
    ensures o.Returned? ==> o.resolvedFreed == (if resolved.Some? then 1 else 0)
    // a created TCP server ends up owned by the listener or destroyed, never both
    ensures o.Returned? ==> (o.tcpServerDestroyed <==> resolved.Some? && tcpCreated && !o.listenerRegistered)
  {
    var resolvedHeld := false;   // resolved != NULL
    var tcpHeld := false;        // tcp != NULL
    var resolvedFreed := 0;
    if resolved.Some? {
      resolvedHeld := true;
      if tcpCreated {
        tcpHeld := true;
        var a := AggregatePorts(resolved.value);
        if a.Aborted? {
          return AssertionFailure;
        }
        if a.count > 0 {
          // a.count < |resolved.value| is only logged: partial success still returns the port
          resolvedFreed := resolvedFreed + 1;
          CountSuccessesExtremes(resolved.value);
          FirstSuccessIsFirst(resolved.value);
          return Returned(a.portNum, true, resolvedFreed, false);
        }
      }
    }
    // error:
    if resolvedHeld {
      resolvedFreed := resolvedFreed + 1;
    }
    return Returned(0, false, resolvedFreed, tcpHeld);
  }
}
