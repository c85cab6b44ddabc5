/**
 * The secure HTTP/2 listener: grpc_server_add_secure_http2_port and the
 * bookkeeping of grpc_server_secure_state, which keeps the endpoints whose
 * secure handshake is in progress, a reference count and the is_shutdown flag.
 *
 * The handshake itself, transport creation, the security connector and the
 * TCP server are collaborators: their outcomes are parameters, and what is
 * done with an endpoint is recorded in a log field.
 */
module SecureServer {
  import opened Wrappers
  import opened PortAggregation

  type Endpoint = nat

  /** The list with its first occurrence of x taken out (the list itself when x is absent). */
  function RemoveFirst(s: seq<Endpoint>, x: Endpoint): (r: seq<Endpoint>)
    ensures x in s ==> |r| == |s| - 1
    ensures x !in s ==> r == s
  {
    if s == [] then []
    else if s[0] == x then s[1..]
    else [s[0]] + RemoveFirst(s[1..], x)
  }

  /** Removing the first occurrence keeps everything before it and everything after it, in order. */
  lemma {:induction false} RemoveFirstAt(s: seq<Endpoint>, x: Endpoint, k: nat)
    requires k < |s| && s[k] == x && x !in s[..k]
    ensures RemoveFirst(s, x) == s[..k] + s[k + 1..]
  {
    if k > 0 {
      assert s[0] in s[..k];
      assert s[0] != x;
      assert s[1..][..k - 1] == s[1..k];
      assert x !in s[1..][..k - 1];
      RemoveFirstAt(s[1..], x, k - 1);
      assert s[..k] == [s[0]] + s[1..k];
    }
  }

  /** Removing the first occurrence of a listed endpoint takes exactly one copy of it out. */
  lemma {:induction false} RemoveFirstMultiset(s: seq<Endpoint>, x: Endpoint)
    ensures multiset(RemoveFirst(s, x)) == multiset(s) - multiset{x}
  {
    if s != [] {
      assert s == [s[0]] + s[1..];
      if s[0] != x {
        RemoveFirstMultiset(s[1..], x);
      }
    }
  }

  datatype SecurityStatus = SecurityOk | SecurityError

  class SecureState {
    var handshaking: seq<Endpoint>   // handshaking_tcp_endpoints, head first
    var isShutdown: bool
    var refcount: nat
    // what happened to endpoints, in order
    var transports: seq<Endpoint>    // secure endpoints that became chttp2 transports
    var destroyed: seq<Endpoint>     // secure endpoints destroyed because the listener shut down
    var shutDown: seq<Endpoint>      // handshaking endpoints shut down by destroy_done
    var listenerDestroyDone: bool    // grpc_server_listener_destroy_done was called

    ghost var pending: multiset<Endpoint>  // accepted endpoints whose handshake has not reported
    ghost var drained: bool                // destroy_done has run
    ghost var freed: bool                  // the state has been freed

    ghost predicate Valid()
      reads this
    {
      (freed <==> refcount == 0)
      && refcount == |pending| + (if drained then 0 else 1)
      && (!drained ==> multiset(handshaking) == pending)
      && (drained ==> handshaking == [] && isShutdown && listenerDestroyDone)
    }

    /** The success path of grpc_server_add_secure_http2_port (server_secure_chttp2.c:260-269). */
    constructor ()
      ensures Valid() && !freed
      ensures handshaking == [] && !isShutdown && refcount == 1
      ensures transports == [] && destroyed == [] && shutDown == [] && !listenerDestroyDone
      ensures pending == multiset{} && !drained
    {
      handshaking := [];
      isShutdown := false;
      refcount := 1;
      transports, destroyed, shutDown := [], [], [];
      listenerDestroyDone := false;
      pending := multiset{};
      drained := false;
      freed := false;
    }

    method StateRef()
      requires refcount > 0
      modifies this`refcount
      ensures refcount == old(refcount) + 1
    {
      refcount := refcount + 1;
    }

    /** Drops a reference; the state is freed exactly when the count reaches zero. */
    method StateUnref() returns (freedNow: bool)
      requires refcount > 0 && !freed
      modifies this`refcount, this`freed
      ensures refcount == old(refcount) - 1
      ensures freedNow == (refcount == 0) && freed == freedNow
    {
      refcount := refcount - 1;
      freedNow := refcount == 0;
      freed := freedNow;
    }

    /**
     * remove_tcp_from_list_locked. The traversal reads node->next without a
     * null check, so a non-empty list must hold the endpoint.
     */
    method RemoveTcpFromListLocked(tcp: Endpoint) returns (r: int)
      requires handshaking == [] || tcp in handshaking
      modifies this`handshaking
      ensures r == (if old(handshaking) == [] then -1 else 0)
      ensures handshaking == RemoveFirst(old(handshaking), tcp)
    {
      if handshaking != [] && handshaking[0] == tcp {
        handshaking := handshaking[1..];
        return 0;
      }
      var node := 0;
      while node < |handshaking|
        invariant 0 <= node <= |handshaking|
        invariant handshaking == old(handshaking)
        invariant handshaking != [] ==> node < |handshaking| && tcp !in handshaking[..node + 1]
        decreases |handshaking| - node
      {
        // node->next is non-null: tcp lies beyond node
        assert handshaking[..|handshaking|] == handshaking;
        if handshaking[node + 1] == tcp {
          RemoveFirstAt(handshaking, tcp, node + 1);
          handshaking := handshaking[..node + 1] + handshaking[node + 2..];
          return 0;
        }
        assert handshaking[..node + 2] == handshaking[..node + 1] + [handshaking[node + 1]];
        node := node + 1;
      }
      return -1;
    }

    /** on_accept: one reference and the endpoint pushed on the front of the list. */
    method OnAccept(tcp: Endpoint)
      requires Valid() && !freed && !drained
      modifies this`refcount, this`handshaking, this`pending
      ensures Valid() && !freed
      ensures refcount == old(refcount) + 1
      ensures handshaking == [tcp] + old(handshaking)
      ensures pending == old(pending) + multiset{tcp}
    {
      StateRef();
      handshaking := [tcp] + handshaking;
      pending := pending + multiset{tcp};
    }

    /**
     * on_secure_transport_setup_done: take the wrapped endpoint off the list
     * on either status, hand the secure endpoint to a transport unless the
     * listener is shutting down (then destroy it), and drop one reference.
     */
    method OnSecureTransportSetupDone(status: SecurityStatus, wrapped: Endpoint, secure: Endpoint)
      returns (stateFreed: bool)
      requires Valid() && !freed && wrapped in pending
      modifies this`handshaking, this`pending, this`transports, this`destroyed, this`refcount, this`freed
      ensures Valid()
      ensures pending == old(pending) - multiset{wrapped}
      ensures handshaking == RemoveFirst(old(handshaking), wrapped)
      ensures refcount == old(refcount) - 1 && stateFreed == freed
      ensures transports == old(transports) + (if status.SecurityOk? && !isShutdown then [secure] else [])
      ensures destroyed == old(destroyed) + (if status.SecurityOk? && isShutdown then [secure] else [])
      ensures isShutdown == old(isShutdown) && drained == old(drained)
      ensures shutDown == old(shutDown) && listenerDestroyDone == old(listenerDestroyDone)
    {
      Unlist(wrapped);
      HandOff(status, secure);
      stateFreed := StateUnref();
    }

    /** A secure endpoint becomes a transport, or is destroyed once the listener is shutting down. */
    method HandOff(status: SecurityStatus, secure: Endpoint)
      modifies this`transports, this`destroyed
      ensures transports == old(transports) + (if status.SecurityOk? && !isShutdown then [secure] else [])
      ensures destroyed == old(destroyed) + (if status.SecurityOk? && isShutdown then [secure] else [])
    {
      if status.SecurityOk? {
        if !isShutdown {
          transports := transports + [secure];
        } else {
          destroyed := destroyed + [secure];
        }
      }
    }

    /** The list removal of on_secure_transport_setup_done, with the handshake no longer pending. */
    method Unlist(wrapped: Endpoint)
      requires Valid() && !freed && wrapped in pending
      modifies this`handshaking, this`pending
      ensures pending == old(pending) - multiset{wrapped}
      ensures handshaking == RemoveFirst(old(handshaking), wrapped)
      ensures refcount == |pending| + 1 + (if drained then 0 else 1)
      ensures !drained ==> multiset(handshaking) == pending
      ensures drained ==> handshaking == []
    {
      ghost var before := handshaking;
      assert !drained ==> wrapped in multiset(handshaking);
      var _ := RemoveTcpFromListLocked(wrapped);
      RemoveFirstMultiset(before, wrapped);
      pending := pending - multiset{wrapped};
    }

    /** destroy: mark the listener shut down and start destroying the TCP server. */
    method Destroy()
      requires Valid() && !freed && !drained
      modifies this`isShutdown
      ensures Valid() && isShutdown
    {
      isShutdown := true;
    }

    /**
     * destroy_done: shut down and unlist every endpoint still handshaking,
     * head first, then drop the listener's own reference.
     */
    method DestroyDone() returns (stateFreed: bool)
      requires Valid() && !freed && !drained && isShutdown
      modifies this
      ensures Valid() && drained
      ensures listenerDestroyDone
      ensures handshaking == [] && shutDown == old(shutDown) + old(handshaking)
      ensures pending == old(pending) && refcount == old(refcount) - 1 && stateFreed == freed
      ensures stateFreed <==> pending == multiset{}
      ensures transports == old(transports) && destroyed == old(destroyed)
    {
      listenerDestroyDone := true;
      while handshaking != []
        invariant shutDown + handshaking == old(shutDown) + old(handshaking)
        invariant refcount == old(refcount) && pending == old(pending) && !freed
        invariant transports == old(transports) && destroyed == old(destroyed)
        invariant isShutdown && !drained && listenerDestroyDone
        decreases |handshaking|
      {
        var head := handshaking[0];
        shutDown := shutDown + [head];
        var _ := RemoveTcpFromListLocked(head);
      }
      drained := true;
      stateFreed := StateUnref();
    }
  }

  /** The fate of the objects grpc_server_add_secure_http2_port handles. */
  datatype AddPortOutcome =
    | AssertionFailure   // GPR_ASSERT(port_num == port_temp) aborted the process
    | Returned(port: int, listenerRegistered: bool, connectorReleased: bool,
               resolvedFreed: nat, tcpServerDestroyed: bool)

  /**
   * grpc_server_add_secure_http2_port. credsPresent: creds != NULL;
   * connectorOk: the credentials produced a security connector; the rest as
   * for the insecure variant. On success the listener state starts with one
   * reference (SecureState's constructor) and owns the connector and the TCP
   * server. Every failure jumps to the one cleanup exit, which releases what
   * is still held and returns 0; the listener state is allocated only after
   * the last failure point, so that exit never frees one.
   */
  method AddSecureHttp2Port(credsPresent: bool, connectorOk: bool, resolved: Option<seq<int>>, tcpCreated: bool)
    returns (o: AddPortOutcome)
    // the GPR_ASSERT fires exactly when two bound addresses report different ports
    ensures o.AssertionFailure? <==>
      credsPresent && connectorOk && resolved.Some? && tcpCreated && !SuccessesAgree(resolved.value)
    // the listener is registered iff every step worked and some address was bound
    ensures o.Returned? ==>
      (o.listenerRegistered <==>
        credsPresent && connectorOk && resolved.Some? && tcpCreated && CountSuccesses(resolved.value) > 0)
    // on success the first bound port is returned, even when only some addresses were bound
    ensures o.Returned? && o.listenerRegistered ==>
      resolved.Some? && o.port == FirstSuccess(resolved.value) && o.port >= 0
    // every failure returns 0
    ensures o.Returned? && !o.listenerRegistered ==> o.port == 0
    // a created connector ends up owned by the listener state or released, never both
    ensures o.Returned? ==> (o.connectorReleased <==> credsPresent && connectorOk && !o.listenerRegistered)
    // a resolved list is freed exactly once, on success and on failure alike
    ensures o.Returned? ==>
      o.resolvedFreed == (if credsPresent && connectorOk && resolved.Some? then 1 else 0)
    // a created TCP server ends up owned by the listener state or destroyed, never both
    ensures o.Returned? ==>
      (o.tcpServerDestroyed <==> credsPresent && connectorOk && resolved.Some? && tcpCreated && !o.listenerRegistered)
  {
    var connectorHeld := false;  // sc != NULL
    var resolvedHeld := false;   // resolved != NULL
    var tcpHeld := false;        // tcp != NULL
    var resolvedFreed := 0;
    if credsPresent && connectorOk {
      connectorHeld := true;
      if resolved.Some? {
        resolvedHeld := true;
        if tcpCreated {
          tcpHeld := true;
          var a := AggregatePorts(resolved.value);
          if a.Aborted? {
            return AssertionFailure;
          }
          if a.count > 0 {
            // a.count < |resolved.value| is only logged: partial success still returns the port
            resolvedFreed := resolvedFreed + 1;
            CountSuccessesExtremes(resolved.value);
            FirstSuccessIsFirst(resolved.value);
            return Returned(a.portNum, true, false, resolvedFreed, false);
          }
        }
      }
    }
    // error:
    if resolvedHeld {
      resolvedFreed := resolvedFreed + 1;
    }
    return Returned(0, false, connectorHeld, resolvedFreed, tcpHeld);
  }
}
