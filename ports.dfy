/**
 * The fold over grpc_tcp_server_add_port results that both listener
 * constructors (grpc_server_add_insecure_http2_port and
 * grpc_server_add_secure_http2_port) run over the resolved addresses:
 * remember the first non-negative port, insist that every later success
 * reports the same port (GPR_ASSERT), and count the successes.
 */
module PortAggregation {

  /** How many addresses add_port accepted. */
  function CountSuccesses(results: seq<int>): (c: nat)
    ensures c <= |results|
  {
    if results == [] then 0
    else (if results[0] >= 0 then 1 else 0) + CountSuccesses(results[1..])
  }

  /** No success counts zero, and only all successes count every address. */
  lemma {:induction false} CountSuccessesExtremes(results: seq<int>)
    ensures CountSuccesses(results) == 0 <==> forall i :: 0 <= i < |results| ==> results[i] < 0
    ensures CountSuccesses(results) == |results| <==> forall i :: 0 <= i < |results| ==> results[i] >= 0
  {
    if results != [] {
      CountSuccessesExtremes(results[1..]);
      assert forall i :: 1 <= i < |results| ==> results[i] == results[1..][i - 1];
    }
  }

  /** The port of the first address add_port accepted, or -1 when it accepted none. */
  function FirstSuccess(results: seq<int>): int {
    if results == [] then -1
    else if results[0] >= 0 then results[0]
    else FirstSuccess(results[1..])
  }

  /** FirstSuccess is -1 exactly when nothing succeeded, and otherwise the result at the first success. */
  lemma {:induction false} FirstSuccessIsFirst(results: seq<int>)
    ensures FirstSuccess(results) == -1 <==> forall i :: 0 <= i < |results| ==> results[i] < 0
    ensures FirstSuccess(results) != -1 ==>
      FirstSuccess(results) >= 0
      && exists k :: 0 <= k < |results| && results[k] == FirstSuccess(results)
                     && forall j :: 0 <= j < k ==> results[j] < 0
  {
    if results != [] && results[0] < 0 {
      FirstSuccessIsFirst(results[1..]);
      assert forall i :: 1 <= i < |results| ==> results[i] == results[1..][i - 1];
      if FirstSuccess(results) != -1 {
        var k :| 0 <= k < |results[1..]| && results[1..][k] == FirstSuccess(results)
                 && forall j :: 0 <= j < k ==> results[1..][j] < 0;
        assert forall j :: 0 <= j < k + 1 ==> results[j] < 0;
      }
    } else if results != [] {
      assert results[0] == FirstSuccess(results);
    }
  }

  /** Every address that add_port accepted reported the same port. */
  ghost predicate SuccessesAgree(results: seq<int>) {
    forall i, j :: 0 <= i < |results| && 0 <= j < |results| && results[i] >= 0 && results[j] >= 0
      ==> results[i] == results[j]
  }

  /** Outcome of the loop: GPR_ASSERT stopped the process, or the port and count it computed. */
  datatype Aggregate = Aborted | Aggregated(portNum: int, count: nat)

  lemma {:induction false} CountSuccessesSnoc(s: seq<int>, x: int)
    ensures CountSuccesses(s + [x]) == CountSuccesses(s) + (if x >= 0 then 1 else 0)
  {
    if s == [] {
      assert [x][1..] == [];
    } else {
      assert (s + [x])[1..] == s[1..] + [x];
      CountSuccessesSnoc(s[1..], x);
    }
  }

  lemma {:induction false} FirstSuccessSnoc(s: seq<int>, x: int)
    ensures FirstSuccess(s + [x])
      == if FirstSuccess(s) != -1 then FirstSuccess(s) else if x >= 0 then x else -1
  {
    if s == [] {
      assert [x][1..] == [];
    } else {
      assert (s + [x])[1..] == s[1..] + [x];
      FirstSuccessSnoc(s[1..], x);
    }
  }

  /** Successes that all equal one port agree with each other. */
  lemma CommonPortAgrees(results: seq<int>, port: int)
    requires forall j :: 0 <= j < |results| && results[j] >= 0 ==> results[j] == port
    ensures SuccessesAgree(results)
  {
  }

  /**
   * The loop of server_chttp2.c:101-113 (and server_secure_chttp2.c:235-247);
   * results[i] is what add_port returned for the i-th resolved address.
   */
  method AggregatePorts(results: seq<int>) returns (a: Aggregate)
    ensures a.Aborted? <==> !SuccessesAgree(results)
    ensures a.Aggregated? ==> a.count == CountSuccesses(results) && a.portNum == FirstSuccess(results)
  {
    var portNum := -1;
    var count := 0;
    var i := 0;
    while i < |results|
      invariant 0 <= i <= |results|
      invariant count == CountSuccesses(results[..i])
      invariant portNum == FirstSuccess(results[..i])
      invariant forall j :: 0 <= j < i && results[j] >= 0 ==> results[j] == portNum
    {
      var portTemp := results[i];
      assert results[..i + 1] == results[..i] + [portTemp];
      FirstSuccessSnoc(results[..i], portTemp);
      CountSuccessesSnoc(results[..i], portTemp);
      assert FirstSuccess(results[..i + 1])
        == if portNum != -1 then portNum else if portTemp >= 0 then portTemp else -1;
      if portTemp >= 0 {
        if portNum == -1 {
          portNum := portTemp;
        } else if portNum != portTemp {
          FirstSuccessIsFirst(results[..i]);
          var j :| 0 <= j < i && results[..i][j] == portNum;
          assert results[j] >= 0 && results[j] != results[i];
          return Aborted;
        }
        count := count + 1;
      }
      i := i + 1;
    }
    assert results[..i] == results;
    CommonPortAgrees(results, portNum);
    return Aggregated(portNum, count);
  }

  /** When the successes agree, each one equals the first. */
  lemma {:induction false} AgreeingSuccessesEqualFirst(results: seq<int>, i: nat)
    requires SuccessesAgree(results)
    requires i < |results| && results[i] >= 0
    ensures results[i] == FirstSuccess(results)
  {
    FirstSuccessIsFirst(results);
    var k :| 0 <= k < |results| && results[k] == FirstSuccess(results);
  }
}
