/**
 * The asynchronous HTTP/1.1 client request engine: one outbound GET or POST
 * driven through resolve, connect (failing over across the resolved
 * addresses in order), handshake, write, and read/parse, and finalised
 * exactly once.
 *
 * Resolver, connector, endpoint reads and writes, the handshaker's work, the
 * request formatter and the response parser are collaborators: the outcome of
 * each asynchronous call is the argument of the callback method that receives
 * it, and the parser is a pair of predicates on the bytes received so far.
 *
 * Engine and the After* functions are the specification: a value-level
 * transition per callback, about which the lemmas below prove the engine's
 * promises. The Request class holds internal_request's fields and each of
 * its callback methods is proved to perform the matching transition.
 */
module HttpCli {
  import opened Wrappers

  type Byte = bv8
  type Bytes = seq<Byte>
  type Address = nat    // a resolved socket address
  type Endpoint = nat   // identity of a connected byte stream
  type Pollset = nat

  /** Whether a handshaker completes synchronously with its input unchanged, or reports later. */
  datatype HandshakeKind = PassThrough | Deferred

  /** grpc_httpcli_handshaker: the port to resolve with, and the handshake operation. */
  datatype Handshaker = Handshaker(defaultPort: string, kind: HandshakeKind)

  /** grpc_httpcli_plaintext: port "http", and a handshake that hands the endpoint straight back. */
  const Plaintext: Handshaker := Handshaker("http", PassThrough)

  /** grpc_httpcli_request: host, path and an optional handshaker (headers are the formatter's). */
  datatype HttpRequest = HttpRequest(host: string, path: string, handshaker: Option<Handshaker>)

  /** grpc_endpoint_cb_status. */
  datatype EndpointStatus = CbOk | CbEof | CbError | CbShutdown

  /** The synchronous result of grpc_endpoint_write. */
  datatype WriteStatus = WriteDone | WritePending | WriteError

  /**
   * The incremental HTTP/1.1 response parser, given by what it decides:
   * whether the bytes received so far are still acceptable (parse) and
   * whether they form a complete response at end of stream (eof).
   */
  datatype ResponseParser = ResponseParser(accepts: Bytes -> bool, completeAtEof: Bytes -> bool)

  /** The callback the request is waiting for. */
  datatype Phase = Resolving | Connecting | Handshaking | Writing | Reading

  /** The observable state of one in-flight request. */
  datatype Engine = Engine(
    phase: Phase,
    addresses: Option<seq<Address>>,  // null until resolution succeeds
    cursor: nat,                       // next_address
    ep: Option<Endpoint>,              // the stored endpoint, nullable
    haveReadByte: bool,
    received: Bytes,                   // bytes handed to the parser
    finished: bool,                    // finish has run: the request is freed
    attempts: seq<Address>,            // addresses handed to connect, in order
    responses: seq<Option<Bytes>>,     // arguments of on_response (null on failure)
    live: set<Endpoint>,               // endpoints stored in ep and never destroyed
    addressesFreed: bool)

  /** Just after GET/POST: the resolve is outstanding. */
  function Initial(): Engine {
    Engine(Resolving, None, 0, None, false, [], false, [], [], {}, false)
  }

  /** What holds of every request state reachable from Initial(). */
  predicate Inv(s: Engine) {
    (s.addresses.None? ==> s.cursor == 0 && s.attempts == [])
    && (s.addresses.Some? ==> s.cursor <= |s.addresses.value| && s.attempts == s.addresses.value[..s.cursor])
    && (s.finished <==> s.responses != [])
    && |s.responses| <= 1
    && (s.received != [] ==> s.haveReadByte)
    && (!s.finished ==>
          (s.phase.Resolving? <==> s.addresses.None?)
          && (!s.phase.Resolving? ==> s.cursor >= 1)
          && (s.phase.Writing? || s.phase.Reading? ==> s.ep.Some?)
          && (s.ep.Some? ==> s.ep.value in s.live)
          && (s.haveReadByte ==> s.phase.Reading?)
          && !s.addressesFreed)
    && (s.finished ==> s.addressesFreed == s.addresses.Some? && (s.ep.Some? ==> s.ep.value !in s.live))
  }

  /** Where finish may run: nothing delivered yet, and the cursor bookkeeping in order. */
  predicate CanFinish(s: Engine) {
    !s.finished && s.responses == []
    && (s.addresses.None? ==> s.cursor == 0 && s.attempts == [])
    && (s.addresses.Some? ==> s.cursor <= |s.addresses.value| && s.attempts == s.addresses.value[..s.cursor])
    && (s.received != [] ==> s.haveReadByte)
  }

  /** finish: deliver the response (null on failure), free the addresses and the stored endpoint. */
  function Finalize(s: Engine, success: bool): Engine
    requires !s.finished
  {
    s.(finished := true,
       responses := s.responses + [if success then Some(s.received) else None],
       live := if s.ep.Some? then s.live - {s.ep.value} else s.live,
       addressesFreed := s.addresses.Some?)
  }

  /**
   * Where next_address may run: resolution has succeeded, no response byte
   * has arrived, and the attempts so far are the candidates before the cursor.
   */
  predicate CanAdvance(s: Engine) {
    !s.finished && s.addresses.Some? && s.cursor <= |s.addresses.value|
    && s.attempts == s.addresses.value[..s.cursor]
    && s.responses == [] && !s.haveReadByte && s.received == []
    && (s.ep.Some? ==> s.ep.value in s.live) && !s.addressesFreed
  }

  /** next_address: fail when the cursor has reached the end, else connect to the next candidate. */
  function Advance(s: Engine): Engine
    requires CanAdvance(s)
  {
    if s.cursor == |s.addresses.value| then Finalize(s, false)
    else s.(phase := Connecting,
            attempts := s.attempts + [s.addresses.value[s.cursor]],
            cursor := s.cursor + 1)
  }

  /** on_resolved. */
  function AfterResolved(s: Engine, addresses: Option<seq<Address>>): Engine
    requires Inv(s) && !s.finished && s.phase.Resolving?
  {
    if addresses.None? then Finalize(s, false)
    else Advance(s.(addresses := addresses, cursor := 0))
  }

  /** start_write, given what grpc_endpoint_write reports synchronously. */
  function AfterStartWrite(s: Engine, write: WriteStatus): Engine
    requires !s.finished
  {
    match write
    case WriteDone => s.(phase := Reading)      // on_written arms a read
    case WritePending => s.(phase := Writing)
    case WriteError => Finalize(s, false)
  }

  /** on_handshake_done; write is the synchronous result of the write it starts. */
  function AfterHandshake(s: Engine, ep: Option<Endpoint>, write: WriteStatus): Engine
    requires Inv(s) && !s.finished && s.phase.Handshaking?
  {
    if ep.None? then Advance(s)
    else AfterStartWrite(s.(ep := ep, live := s.live + {ep.value}), write)
  }

  /** on_connected: a null endpoint fails over; otherwise the handshake starts. */
  function AfterConnected(s: Engine, h: Handshaker, tcp: Option<Endpoint>, write: WriteStatus): Engine
    requires Inv(s) && !s.finished && s.phase.Connecting?
  {
    if tcp.None? then Advance(s)
    else
      var t := s.(phase := Handshaking);
      if h.kind.PassThrough? then AfterHandshake(t, tcp, write) else t
  }

  /** done_write: the asynchronous completion of a pending write. */
  function AfterWrite(s: Engine, status: EndpointStatus): Engine
    requires Inv(s) && !s.finished && s.phase.Writing?
  {
    if status.CbOk? then s.(phase := Reading) else Advance(s)
  }

  /** The concatenation of a list of chunks. */
  function Concat(chunks: seq<Bytes>): Bytes {
    if chunks == [] then [] else chunks[0] + Concat(chunks[1..])
  }

  /**
   * The chunk loop of on_read: every non-empty chunk sets have_read_byte and
   * goes to the parser; the first rejection stops the loop. Returns whether
   * every chunk was accepted, and the state after the loop.
   */
  function ParseChunks(g: ReadProgress, p: ResponseParser, chunks: seq<Bytes>): (r: (bool, ReadProgress))
    decreases |chunks|
    ensures g.haveReadByte ==> r.1.haveReadByte
    ensures r.1.received != g.received ==> r.1.haveReadByte
    ensures |g.received| <= |r.1.received| && r.1.received[..|g.received|] == g.received
  {
    if chunks == [] then (true, g)
    else if |chunks[0]| == 0 then ParseChunks(g, p, chunks[1..])
    else
      var t := ReadProgress(true, g.received + chunks[0]);
      if !p.accepts(t.received) then (false, t) else ParseChunks(t, p, chunks[1..])
  }

  /** What the chunk loop of on_read works on: have_read_byte and the bytes given to the parser. */
  datatype ReadProgress = ReadProgress(haveReadByte: bool, received: Bytes)

  function Progress(s: Engine): ReadProgress {
    ReadProgress(s.haveReadByte, s.received)
  }

  /** The engine with the chunk loop's progress written back. */
  function WithProgress(s: Engine, g: ReadProgress): Engine {
    s.(haveReadByte := g.haveReadByte, received := g.received)
  }

  /** on_read, given the chunks delivered and the status. */
  function AfterRead(s: Engine, p: ResponseParser, chunks: seq<Bytes>, status: EndpointStatus): Engine
    requires Inv(s) && !s.finished && s.phase.Reading?
  {
    var r := ParseChunks(Progress(s), p, chunks);
    var t := WithProgress(s, r.1);
    if !r.0 then Finalize(t, false)
    else if status.CbOk? then t                     // read re-armed
    else if !t.haveReadByte then Advance(t)         // nothing ever arrived: fail over
    else Finalize(t, p.completeAtEof(t.received))
  }

  // ---------------------------------------------------------------------
  // Properties of the specification

  /** A fresh request satisfies the invariant and has delivered nothing. */
  lemma InitialValid()
    ensures Inv(Initial()) && !Initial().finished && Initial().responses == []
  {
  }

  /** Finalizing a live request delivers exactly one response and frees what it holds. */
  lemma FinalizeOnce(s: Engine, success: bool)
    requires CanFinish(s)
    ensures var t := Finalize(s, success);
      Inv(t) && t.finished && |t.responses| == 1
      && (t.responses[0].Some? <==> success)
      && (success ==> t.responses[0] == Some(s.received))
      && t.addressesFreed == s.addresses.Some?
      && t.live == (if s.ep.Some? then s.live - {s.ep.value} else s.live)
  {
  }

  /**
   * Failover goes strictly in list order, each candidate once: the next
   * connect is to addresses[cursor], and an exhausted list finishes with a
   * null response.
   */
  lemma AdvanceInOrder(s: Engine)
    requires CanAdvance(s)
    ensures var t := Advance(s);
      Inv(t)
      && (s.cursor == |s.addresses.value| ==> t.finished && t.responses == [None])
      && (s.cursor < |s.addresses.value| ==>
            !t.finished && t.phase.Connecting? && t.cursor == s.cursor + 1
            && t.attempts == s.attempts + [s.addresses.value[s.cursor]]
            && t.attempts == s.addresses.value[..t.cursor])
  {
    if s.cursor < |s.addresses.value| {
      assert s.addresses.value[..s.cursor + 1] == s.addresses.value[..s.cursor] + [s.addresses.value[s.cursor]];
    }
  }

  /** A null address list finishes before any connect; otherwise candidate 0 is tried first. */
  lemma ResolvedOutcome(s: Engine, addresses: Option<seq<Address>>)
    requires Inv(s) && !s.finished && s.phase.Resolving?
    ensures var t := AfterResolved(s, addresses);
      Inv(t)
      && (addresses.None? ==> t.finished && t.responses == [None] && t.attempts == [] && !t.addressesFreed)
      && (addresses.Some? && addresses.value == [] ==> t.finished && t.responses == [None] && t.attempts == [])
      && (addresses.Some? && addresses.value != [] ==>
            !t.finished && t.phase.Connecting? && t.attempts == [addresses.value[0]] && t.cursor == 1)
  {
    if addresses.Some? {
      AdvanceInOrder(s.(addresses := addresses, cursor := 0));
    }
  }

  /** The plaintext handshaker hands the connected endpoint straight to the write. */
  lemma PlaintextPassesThrough(s: Engine, tcp: Endpoint, write: WriteStatus)
    requires Inv(s) && !s.finished && s.phase.Connecting?
    ensures var t := AfterConnected(s, Plaintext, Some(tcp), write);
      (t.ep == Some(tcp) || t.finished)
      && t == AfterStartWrite(s.(phase := Handshaking, ep := Some(tcp), live := s.live + {tcp}), write)
  {
  }

  /** A null endpoint from connect or from the handshaker fails over instead of failing the request. */
  lemma NullEndpointFailsOver(s: Engine, h: Handshaker, write: WriteStatus)
    requires Inv(s) && !s.finished && (s.phase.Connecting? || s.phase.Handshaking?)
    requires s.cursor < |s.addresses.value|
    ensures s.phase.Connecting? ==> AfterConnected(s, h, None, write) == Advance(s)
    ensures s.phase.Handshaking? ==> AfterHandshake(s, None, write) == Advance(s)
    ensures !Advance(s).finished && Advance(s).attempts == s.attempts + [s.addresses.value[s.cursor]]
  {
  }

  /**
   * A write error is terminal only when grpc_endpoint_write reports it
   * synchronously; reported to done_write it fails over like a connect
   * failure, and the request goes on while candidates remain.
   */
  lemma WriteErrorAsymmetry(s: Engine, ep: Endpoint, status: EndpointStatus)
    requires Inv(s) && !s.finished && s.phase.Handshaking?
    requires !status.CbOk?
    ensures var t := AfterHandshake(s, Some(ep), WriteError); t.finished && t.responses == [None]
    ensures var w := AfterHandshake(s, Some(ep), WritePending);
      w.phase.Writing? && !w.finished && Inv(w)
      && AfterWrite(w, status) == Advance(w)
      && (s.cursor < |s.addresses.value| ==> !AfterWrite(w, status).finished)
  {
  }

  lemma {:induction false} ParseEmptyChunks(g: ReadProgress, p: ResponseParser, chunks: seq<Bytes>)
    requires forall i :: 0 <= i < |chunks| ==> chunks[i] == []
    ensures ParseChunks(g, p, chunks) == (true, g)
  {
    if chunks != [] {
      ParseEmptyChunks(g, p, chunks[1..]);
    }
  }

  lemma ConcatCons(c: Bytes, cs: seq<Bytes>)
    ensures Concat([c] + cs) == c + Concat(cs)
  {
    assert ([c] + cs)[0] == c && ([c] + cs)[1..] == cs;
  }

  /** With every chunk accepted, the parser has seen all their bytes, in order. */
  lemma {:induction false} ParseChunksAccepted(g: ReadProgress, p: ResponseParser, chunks: seq<Bytes>)
    requires ParseChunks(g, p, chunks).0
    decreases |chunks|
    ensures var r := ParseChunks(g, p, chunks);
      r.1.received == g.received + Concat(chunks)
      && (r.1.haveReadByte <==> g.haveReadByte || Concat(chunks) != [])
  {
    if chunks != [] {
      assert chunks == [chunks[0]] + chunks[1..];
      ConcatCons(chunks[0], chunks[1..]);
      if |chunks[0]| == 0 {
        ParseChunksAccepted(g, p, chunks[1..]);
      } else {
        var t := ReadProgress(true, g.received + chunks[0]);
        ParseChunksAccepted(t, p, chunks[1..]);
      }
    }
  }

  /**
   * On a rejection the parser has seen exactly the chunks up to the rejected
   * one, and no later chunk; the bytes it saw are rejected.
   */
  lemma {:induction false} ParseChunksRejected(g: ReadProgress, p: ResponseParser, chunks: seq<Bytes>)
    requires !ParseChunks(g, p, chunks).0
    decreases |chunks|
    ensures var r := ParseChunks(g, p, chunks);
      r.1.haveReadByte
      && exists k :: 0 <= k < |chunks| && chunks[k] != []
           && r.1.received == g.received + Concat(chunks[..k + 1])
           && !p.accepts(r.1.received)
           && EarlierChunksAccepted(g.received, p, chunks, k)
  {
    var r := ParseChunks(g, p, chunks);
    var t := if |chunks[0]| == 0 then g else ReadProgress(true, g.received + chunks[0]);
    if |chunks[0]| != 0 && !p.accepts(t.received) {
      ConcatPrefixStep(chunks, 0);
    } else {
      ParseChunksRejected(t, p, chunks[1..]);
      var k :| 0 <= k < |chunks[1..]| && chunks[1..][k] != []
               && r.1.received == t.received + Concat(chunks[1..][..k + 1])
               && !p.accepts(r.1.received)
               && EarlierChunksAccepted(t.received, p, chunks[1..], k);
      assert t.received == g.received + chunks[0];
      FedPrefixStep(g.received, chunks, k);
      assert chunks[k + 1] == chunks[1..][k];
      EarlierChunksAcceptedShift(g.received, p, chunks, k);
    }
  }

  /** Every non-empty chunk before chunk k left the parser accepting what it had seen. */
  ghost predicate EarlierChunksAccepted(prefix: Bytes, p: ResponseParser, chunks: seq<Bytes>, k: nat)
    requires k <= |chunks|
  {
    forall j :: 0 <= j < k && chunks[j] != [] ==> p.accepts(prefix + Concat(chunks[..j + 1]))
  }

  /** Accepting the first chunk and then the next k chunks is accepting the first k+1 chunks. */
  lemma EarlierChunksAcceptedShift(prefix: Bytes, p: ResponseParser, chunks: seq<Bytes>, k: nat)
    requires k + 1 < |chunks|
    requires chunks[0] != [] ==> p.accepts(prefix + chunks[0])
    requires EarlierChunksAccepted(prefix + chunks[0], p, chunks[1..], k)
    ensures EarlierChunksAccepted(prefix, p, chunks, k + 1)
  {
    forall j | 0 <= j < k + 1 && chunks[j] != []
      ensures p.accepts(prefix + Concat(chunks[..j + 1]))
    {
      if j == 0 {
        ConcatPrefixStep(chunks, 0);
        assert chunks[1..][..0] == [];
        assert Concat(chunks[..1]) == chunks[0];
      } else {
        FedPrefixStep(prefix, chunks, j - 1);
        assert chunks[j] == chunks[1..][j - 1];
      }
    }
  }

  /** The bytes fed after the first chunk and the next k+1 are the first k+2 chunks. */
  lemma FedPrefixStep(prefix: Bytes, chunks: seq<Bytes>, k: nat)
    requires k + 1 < |chunks|
    ensures (prefix + chunks[0]) + Concat(chunks[1..][..k + 1]) == prefix + Concat(chunks[..k + 2])
  {
    ConcatPrefixStep(chunks, k + 1);
    var rest := Concat(chunks[1..][..k + 1]);
    assert (prefix + chunks[0]) + rest == prefix + (chunks[0] + rest);
  }

  /** The first n+1 chunks are the first chunk followed by the next n. */
  lemma ConcatPrefixStep(chunks: seq<Bytes>, n: nat)
    requires n < |chunks|
    ensures Concat(chunks[..n + 1]) == chunks[0] + Concat(chunks[1..][..n])
  {
    assert chunks[..n + 1] == [chunks[0]] + chunks[1..][..n];
    ConcatCons(chunks[0], chunks[1..][..n]);
  }

  /** The chunk loop keeps the invariant of a reading request. */
  lemma ReadKeepsInv(s: Engine, p: ResponseParser, chunks: seq<Bytes>, status: EndpointStatus)
    requires Inv(s) && !s.finished && s.phase.Reading?
    ensures Inv(WithProgress(s, ParseChunks(Progress(s), p, chunks).1))
    ensures Inv(AfterRead(s, p, chunks, status))
  {
    var t := WithProgress(s, ParseChunks(Progress(s), p, chunks).1);
    if t.addresses.Some? && t.cursor < |t.addresses.value| {
      assert t.addresses.value[..t.cursor + 1] == t.addresses.value[..t.cursor] + [t.addresses.value[t.cursor]];
    }
  }

  /**
   * End of stream before any byte arrived is handled exactly like a connect
   * failure for the same candidate: failover to the next address.
   */
  lemma {:induction false} ZeroByteEofFailsOver(s: Engine, h: Handshaker, p: ResponseParser,
                                                chunks: seq<Bytes>, status: EndpointStatus, write: WriteStatus)
    requires Inv(s) && !s.finished && s.phase.Reading? && !s.haveReadByte
    requires forall i :: 0 <= i < |chunks| ==> chunks[i] == []
    requires !status.CbOk?
    ensures var r := AfterRead(s, p, chunks, status);
      var c := AfterConnected(s.(phase := Connecting), h, None, write);
      r.(phase := c.phase) == c && (!c.finished ==> r == c)
  {
    ParseEmptyChunks(Progress(s), p, chunks);
  }

  /** Once a byte has been read, end of stream finishes with success iff the parser calls the response complete. */
  lemma {:induction false} EofAfterBytesFinishes(s: Engine, p: ResponseParser, chunks: seq<Bytes>, status: EndpointStatus)
    requires Inv(s) && !s.finished && s.phase.Reading?
    requires !status.CbOk?
    requires ParseChunks(Progress(s), p, chunks).0 && ParseChunks(Progress(s), p, chunks).1.haveReadByte
    ensures var t := AfterRead(s, p, chunks, status);
      t.finished
      && t.responses == [if p.completeAtEof(s.received + Concat(chunks)) then Some(s.received + Concat(chunks)) else None]
  {
    ParseChunksAccepted(Progress(s), p, chunks);
  }

  /** A parse failure finishes the request with a null response, whatever the status. */
  lemma ParseFailureFinishes(s: Engine, p: ResponseParser, chunks: seq<Bytes>, status: EndpointStatus)
    requires Inv(s) && !s.finished && s.phase.Reading?
    requires !ParseChunks(Progress(s), p, chunks).0
    ensures AfterRead(s, p, chunks, status).finished && AfterRead(s, p, chunks, status).responses == [None]
  {
  }

  /** A parser whose verdict on a byte string implies the same verdict on each of its prefixes. */
  ghost predicate PrefixClosed(p: ResponseParser) {
    forall a: Bytes, b: Bytes {:trigger p.accepts(a + b)} :: p.accepts(a + b) ==> p.accepts(a)
  }

  lemma {:induction false} ParseChunksPrefixClosed(g: ReadProgress, p: ResponseParser, chunks: seq<Bytes>)
    requires PrefixClosed(p)
    decreases |chunks|
    ensures ParseChunks(g, p, chunks).0 <==> Concat(chunks) == [] || p.accepts(g.received + Concat(chunks))
  {
    if chunks != [] {
      assert Concat(chunks) == chunks[0] + Concat(chunks[1..]);
      if |chunks[0]| == 0 {
        assert Concat(chunks) == Concat(chunks[1..]);
        ParseChunksPrefixClosed(g, p, chunks[1..]);
      } else {
        var t := ReadProgress(true, g.received + chunks[0]);
        ParseChunksPrefixClosed(t, p, chunks[1..]);
        var whole := g.received + Concat(chunks);
        assert whole == t.received + Concat(chunks[1..]);
        assert Concat(chunks) != [];
        if p.accepts(whole) {
          assert p.accepts(t.received);
        }
        if Concat(chunks[1..]) == [] {
          assert whole == t.received;
        }
      }
    }
  }

  /**
   * Chunk-boundary independence: for a parser whose rejections are final, a
   * read delivering a response in several chunks ends in the same state as
   * one delivering the same bytes in a single chunk (up to how many rejected
   * bytes the parser saw).
   */
  lemma {:induction false} ChunkBoundaryIndependence(s: Engine, p: ResponseParser, chunks: seq<Bytes>, status: EndpointStatus)
    requires Inv(s) && !s.finished && s.phase.Reading?
    requires PrefixClosed(p)
    ensures var split := AfterRead(s, p, chunks, status);
      var whole := AfterRead(s, p, [Concat(chunks)], status);
      split.(received := whole.received) == whole
  {
    var g := Progress(s);
    ParseChunksPrefixClosed(g, p, chunks);
    ParseChunksPrefixClosed(g, p, [Concat(chunks)]);
    ConcatCons(Concat(chunks), []);
    var one := [Concat(chunks)];
    if ParseChunks(g, p, chunks).0 {
      ParseChunksAccepted(g, p, chunks);
      ParseChunksAccepted(g, p, one);
    } else {
      ParseChunksRejected(g, p, chunks);
      ParseChunksRejected(g, p, one);
    }
  }

  /** n connect failures in a row. */
  function ConnectFailures(s: Engine, h: Handshaker, write: WriteStatus, n: nat): Engine
    requires Inv(s) && !s.finished && s.phase.Connecting?
    requires n <= |s.addresses.value| - s.cursor + 1
    decreases n
  {
    if n == 0 then s
    else
      AdvanceInOrder(s);
      var t := AfterConnected(s, h, None, write);
      if t.finished then t else ConnectFailures(t, h, write, n - 1)
  }

  /**
   * When every connect fails, each remaining candidate is tried once, in list
   * order, and the request then finishes with a null response.
   */
  lemma {:induction false} AllConnectsFail(s: Engine, h: Handshaker, write: WriteStatus)
    requires Inv(s) && !s.finished && s.phase.Connecting?
    decreases |s.addresses.value| - s.cursor
    ensures var t := ConnectFailures(s, h, write, |s.addresses.value| - s.cursor + 1);
      t.finished && t.responses == [None] && t.attempts == s.addresses.value
  {
    AdvanceInOrder(s);
    var t := AfterConnected(s, h, None, write);
    if s.cursor == |s.addresses.value| {
      assert s.addresses.value[..s.cursor] == s.addresses.value;
    } else {
      AllConnectsFail(t, h, write);
    }
  }

  /**
   * Failover after an endpoint was stored overwrites it without destroying
   * it: the old endpoint stays live after the request is finished.
   */
  lemma StaleEndpointSurvivesFinish(p: ResponseParser)
    ensures var s1 := AfterResolved(Initial(), Some([10, 20]));
      var s2 := AfterConnected(s1, Plaintext, Some(1), WritePending);   // first candidate connects
      var s3 := AfterWrite(s2, CbError);                                // the write fails: fail over
      var s4 := AfterConnected(s3, Plaintext, Some(2), WriteDone);      // second candidate connects
      var s5 := AfterRead(s4, p, [], CbEof);                            // closes before any byte
      s5.finished && s5.attempts == [10, 20] && s5.responses == [None] && 1 in s5.live && s5.ep == Some(2)
  {
    var s1 := AfterResolved(Initial(), Some([10, 20]));
    assert s1.attempts == [10];
    var s4 := AfterConnected(AfterWrite(AfterConnected(s1, Plaintext, Some(1), WritePending), CbError), Plaintext, Some(2), WriteDone);
    assert s4.live == {1, 2} && s4.attempts == [10, 20];
    ParseEmptyChunks(Progress(s4), p, []);
  }

  // ---------------------------------------------------------------------
  // The imperative engine

  /** grpc_httpcli_context: the pollset set shared by the requests issued through it. */
  class Context {
    var pollsets: multiset<Pollset>

    /** grpc_httpcli_context_init. */
    constructor ()
      ensures pollsets == multiset{}
    {
      pollsets := multiset{};
    }

    method AddPollset(p: Pollset)
      modifies this
      ensures pollsets == old(pollsets) + multiset{p}
    {
      pollsets := pollsets + multiset{p};
    }

    method DelPollset(p: Pollset)
      modifies this
      ensures pollsets == old(pollsets) - multiset{p}
    {
      pollsets := pollsets - multiset{p};
    }
  }

  /** internal_request. */
  class Request {
    const requestText: Bytes          // formatted by the request formatter
    const parser: ResponseParser
    var received: Bytes               // the parser's input so far
    var addresses: Option<seq<Address>>
    var nextAddress: nat
    var ep: Option<Endpoint>
    const host: string
    var haveReadByte: bool
    const handshaker: Handshaker
    const context: Context
    const pollset: Pollset
    var phase: Phase

    ghost var finished: bool
    ghost var attempts: seq<Address>
    ghost var responses: seq<Option<Bytes>>
    ghost var live: set<Endpoint>
    ghost var addressesFreed: bool

    ghost function State(): Engine
      reads this
    {
      Engine(phase, addresses, nextAddress, ep, haveReadByte, received, finished,
             attempts, responses, live, addressesFreed)
    }

    ghost predicate Valid()
      reads this
    {
      Inv(State())
    }

    constructor (context: Context, pollset: Pollset, handshaker: Handshaker, host: string,
                 requestText: Bytes, parser: ResponseParser)
      ensures Valid() && State() == Initial()
      ensures this.context == context && this.pollset == pollset && this.handshaker == handshaker
      ensures this.host == host && this.requestText == requestText && this.parser == parser
    {
      this.requestText := requestText;
      this.parser := parser;
      this.host := host;
      this.handshaker := handshaker;
      this.context := context;
      this.pollset := pollset;
      received := [];
      addresses := None;
      nextAddress := 0;
      ep := None;
      haveReadByte := false;
      phase := Resolving;
      finished := false;
      attempts := [];
      responses := [];
      live := {};
      addressesFreed := false;
    }

    /** finish. */
    method Finish(success: bool)
      requires CanFinish(State())
      modifies this, context
      ensures Valid() && State() == Finalize(old(State()), success)
      ensures context.pollsets == old(context.pollsets) - multiset{pollset}
    {
      FinalizeOnce(State(), success);
      context.DelPollset(pollset);
      responses := responses + [if success then Some(received) else None];
      addressesFreed := addresses.Some?;
      if ep.Some? {
        live := live - {ep.value};
      }
      finished := true;
    }

    /** next_address. */
    method NextAddress()
      requires CanAdvance(State())
      modifies this, context
      ensures Valid() && State() == Advance(old(State()))
      ensures context.pollsets == if finished then old(context.pollsets) - multiset{pollset} else old(context.pollsets)
    {
      AdvanceInOrder(State());
      if nextAddress == |addresses.value| {
        Finish(false);
        return;
      }
      attempts := attempts + [addresses.value[nextAddress]];  // grpc_tcp_client_connect
      nextAddress := nextAddress + 1;
      phase := Connecting;
    }

    /** on_resolved. */
    method OnResolved(resolved: Option<seq<Address>>)
      requires Valid() && !finished && phase.Resolving?
      modifies this, context
      ensures Valid() && State() == AfterResolved(old(State()), resolved)
      ensures context.pollsets == if finished then old(context.pollsets) - multiset{pollset} else old(context.pollsets)
    {
      if resolved.None? {
        Finish(false);
        return;
      }
      addresses := resolved;
      nextAddress := 0;
      NextAddress();
    }

    /** on_written: arm a read. */
    method OnWritten()
      requires Valid() && !finished && ep.Some? && (phase.Handshaking? || phase.Writing?)
      modifies this`phase
      ensures Valid() && State() == old(State()).(phase := Reading)
    {
      phase := Reading;
    }

    /** start_write, given what grpc_endpoint_write reports synchronously. */
    method StartWrite(write: WriteStatus)
      requires Valid() && !finished && phase.Handshaking? && ep.Some?
      modifies this, context
      ensures Valid() && State() == AfterStartWrite(old(State()), write)
      ensures context.pollsets == if finished then old(context.pollsets) - multiset{pollset} else old(context.pollsets)
    {
      match write
      case WriteDone => OnWritten();
      case WritePending => phase := Writing;
      case WriteError => Finish(false);
    }

    /** on_handshake_done. */
    method OnHandshakeDone(handshaken: Option<Endpoint>, write: WriteStatus)
      requires Valid() && !finished && phase.Handshaking?
      modifies this, context
      ensures Valid() && State() == AfterHandshake(old(State()), handshaken, write)
      ensures context.pollsets == if finished then old(context.pollsets) - multiset{pollset} else old(context.pollsets)
    {
      if handshaken.None? {
        NextAddress();
        return;
      }
      ep := handshaken;   // a previously stored endpoint is overwritten, not destroyed
      live := live + {handshaken.value};
      StartWrite(write);
    }

    /** plaintext_handshake: report the endpoint unchanged, at once. */
    method PlaintextHandshake(tcp: Endpoint, write: WriteStatus)
      requires Valid() && !finished && phase.Handshaking?
      modifies this, context
      ensures Valid() && State() == AfterHandshake(old(State()), Some(tcp), write)
      ensures context.pollsets == if finished then old(context.pollsets) - multiset{pollset} else old(context.pollsets)
    {
      OnHandshakeDone(Some(tcp), write);
    }

    /** on_connected; write is used only when the handshaker completes synchronously. */
    method OnConnected(tcp: Option<Endpoint>, write: WriteStatus)
      requires Valid() && !finished && phase.Connecting?
      modifies this, context
      ensures Valid() && State() == AfterConnected(old(State()), handshaker, tcp, write)
      ensures context.pollsets == if finished then old(context.pollsets) - multiset{pollset} else old(context.pollsets)
    {
      if tcp.None? {
        NextAddress();
        return;
      }
      phase := Handshaking;
      if handshaker.kind.PassThrough? {
        PlaintextHandshake(tcp.value, write);
      }
    }

    /** done_write. */
    method DoneWrite(status: EndpointStatus)
      requires Valid() && !finished && phase.Writing?
      modifies this, context
      ensures Valid() && State() == AfterWrite(old(State()), status)
      ensures context.pollsets == if finished then old(context.pollsets) - multiset{pollset} else old(context.pollsets)
    {
      if status.CbOk? {
        OnWritten();
      } else {
        NextAddress();
      }
    }

    /**
     * The chunk loop of on_read: each non-empty chunk sets have_read_byte and
     * goes to the parser, and the first rejection stops the loop.
     */
    method FeedChunks(chunks: seq<Bytes>) returns (accepted: bool)
      modifies this`haveReadByte, this`received
      ensures (accepted, Progress(State())) == ParseChunks(Progress(old(State())), parser, chunks)
    {
      var i := 0;
      while i < |chunks|
        invariant 0 <= i <= |chunks|
        invariant ParseChunks(Progress(old(State())), parser, chunks)
          == ParseChunks(ReadProgress(haveReadByte, received), parser, chunks[i..])
      {
        assert chunks[i..][1..] == chunks[i + 1..];
        if |chunks[i]| > 0 {
          haveReadByte := true;
          received := received + chunks[i];
          if !parser.accepts(received) {
            return false;
          }
        }
        i := i + 1;
      }
      return true;
    }

    /** on_read: the chunk loop, then re-arm, fail over or finish according to the status. */
    method OnRead(chunks: seq<Bytes>, status: EndpointStatus)
      requires Valid() && !finished && phase.Reading?
      modifies this, context
      ensures Valid() && State() == AfterRead(old(State()), parser, chunks, status)
      ensures context.pollsets == if finished then old(context.pollsets) - multiset{pollset} else old(context.pollsets)
    {
      ReadKeepsInv(State(), parser, chunks, status);
      var accepted := FeedChunks(chunks);
      if !accepted {
        Finish(false);
        return;
      }
      match status
      case CbOk =>
        // grpc_endpoint_notify_on_read: phase stays Reading
      case _ =>
        if !haveReadByte {
          NextAddress();
        } else {
          Finish(parser.completeAtEof(received));
        }
    }
  }

  /** g_get_override and g_post_override. */
  class Overrides {
    var getOverride: Option<HttpRequest -> bool>
    var postOverride: Option<(HttpRequest, Bytes) -> bool>

    constructor ()
      ensures getOverride.None? && postOverride.None?
    {
      getOverride := None;
      postOverride := None;
    }

    /** grpc_httpcli_set_override: replaces both hooks. */
    method SetOverride(get: Option<HttpRequest -> bool>, post: Option<(HttpRequest, Bytes) -> bool>)
      modifies this
      ensures getOverride == get && postOverride == post
    {
      getOverride := get;
      postOverride := post;
    }
  }

  /** The common part of GET and POST once no hook claimed the request. */
  method StartRequest(context: Context, pollset: Pollset, request: HttpRequest, requestText: Bytes,
                      parser: ResponseParser) returns (req: Request)
    modifies context
    ensures fresh(req) && req.Valid() && req.State() == Initial()
    ensures req.handshaker == request.handshaker.GetOr(Plaintext)
    ensures req.context == context && req.pollset == pollset && req.host == request.host
    ensures req.requestText == requestText && req.parser == parser
    ensures context.pollsets == old(context.pollsets) + multiset{pollset}
  {
    var handshaker := request.handshaker.GetOr(Plaintext);
    req := new Request(context, pollset, handshaker, request.host, requestText, parser);
    context.AddPollset(pollset);
    // grpc_resolve_address(host, handshaker.defaultPort): the request now awaits OnResolved
  }

  /** grpc_httpcli_get: a claiming override returns before anything is allocated or registered. */
  method Get(overrides: Overrides, context: Context, pollset: Pollset, request: HttpRequest,
             requestText: Bytes, parser: ResponseParser) returns (req: Request?)
    modifies context
    ensures var claimed := overrides.getOverride.Some? && overrides.getOverride.value(request);
      (claimed ==> req == null && context.pollsets == old(context.pollsets))
      && (!claimed ==>
            req != null && fresh(req) && req.Valid() && req.State() == Initial()
            && req.handshaker == request.handshaker.GetOr(Plaintext)
            && req.context == context && req.pollset == pollset && req.host == request.host
            && req.requestText == requestText && req.parser == parser
            && context.pollsets == old(context.pollsets) + multiset{pollset})
  {
    if overrides.getOverride.Some? && overrides.getOverride.value(request) {
      return null;
    }
    req := StartRequest(context, pollset, request, requestText, parser);
  }

  /** grpc_httpcli_post: as GET, consulting the POST hook with the body. */
  method Post(overrides: Overrides, context: Context, pollset: Pollset, request: HttpRequest, body: Bytes,
              requestText: Bytes, parser: ResponseParser) returns (req: Request?)
    modifies context
    ensures var claimed := overrides.postOverride.Some? && overrides.postOverride.value(request, body);
      (claimed ==> req == null && context.pollsets == old(context.pollsets))
      && (!claimed ==>
            req != null && fresh(req) && req.Valid() && req.State() == Initial()
            && req.handshaker == request.handshaker.GetOr(Plaintext)
            && req.context == context && req.pollset == pollset && req.host == request.host
            && req.requestText == requestText && req.parser == parser
            && context.pollsets == old(context.pollsets) + multiset{pollset})
  {
    if overrides.postOverride.Some? && overrides.postOverride.value(request, body) {
      return null;
    }
    req := StartRequest(context, pollset, request, requestText, parser);
  }
}
