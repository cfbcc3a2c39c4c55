/**
 * `unirest.ApacheClient`: the wrapper around an Apache `HttpClient`, its
 * pooling connection manager and its idle-connection monitor thread, and
 * the best-effort teardown `close()` that tries each of them in turn and hands
 * back the exceptions instead of throwing the first one.
 */
module ApacheClient {
  import opened Java
  import Util

  const CLOSEABLE_HTTP_CLIENT := "org.apache.http.impl.client.CloseableHttpClient"

  /** The three teardown calls `close()` can make. */
  datatype Step = CloseClient | CloseManager | InterruptMonitor

  /** One teardown call: which step, on which object. */
  datatype Teardown = Teardown(step: Step, target: Obj)

  /** What each teardown call does when it is made. The called code
   *  (`Closeable.close`, `PoolingHttpClientConnectionManager.close`,
   *  `Thread.interrupt`) lives outside this repository, so its outcome is a
   *  parameter of the model. */
  datatype Behaviour = Behaviour(close: Obj -> Outcome, interrupt: Obj -> Outcome)

  /** The action a step runs: `close()` for the client and the manager,
   *  `interrupt()` for the monitor. */
  function Consumer(step: Step, b: Behaviour): Obj -> Outcome
  {
    if step == InterruptMonitor then b.interrupt else b.close
  }

  function OutcomeOf(t: Teardown, b: Behaviour): Outcome
  {
    Consumer(t.step, b)(t.target)
  }

  /** The call a step makes on a reference: one call if it is non-null, none otherwise. */
  function Due(step: Step, r: Ref<Obj>): seq<Teardown>
  {
    if r.Ptr? then [Teardown(step, r.target)] else []
  }

  /** Whether the wrapped client is a `CloseableHttpClient`. */
  predicate IsCloseable(client: Ref<Obj>)
  {
    client.Ptr? && IsAssignableFrom(CLOSEABLE_HTTP_CLIENT, client.target.cls)
  }

  /** The client's teardown: closing it, when it can be closed at all. */
  function ClientDue(client: Ref<Obj>): seq<Teardown>
  {
    if IsCloseable(client) then Due(CloseClient, client) else []
  }

  /** Every teardown call due for these resources, in the order `close()` runs them. */
  function Eligible(client: Ref<Obj>, manager: Ref<Obj>, syncMonitor: Ref<Obj>): (ts: seq<Teardown>)
    ensures |ts| <= 3
  {
    ClientDue(client) + Due(CloseManager, manager) + Due(InterruptMonitor, syncMonitor)
  }

  /** Whether a call ends with a throwable that `catch (Exception e)` lets through. */
  predicate Escapes(t: Teardown, b: Behaviour)
  {
    OutcomeOf(t, b).Threw? && !IsException(OutcomeOf(t, b).thrown)
  }

  /** The calls made when `ts` are run in order and an escaping throwable
   *  ends the run: all of them up to and including the first that escapes. */
  function Attempted(ts: seq<Teardown>, b: Behaviour): (done: seq<Teardown>)
    ensures done <= ts
  {
    if ts == [] then []
    else if Escapes(ts[0], b) then [ts[0]]
    else [ts[0]] + Attempted(ts[1..], b)
  }

  /** The throwable of the first call in `ts` that escapes, if any. */
  function FirstEscape(ts: seq<Teardown>, b: Behaviour): (e: Optional<Obj>)
    ensures e.Empty? <==> forall i :: 0 <= i < |ts| ==> !Escapes(ts[i], b)
  {
    if ts == [] then Empty
    else if Escapes(ts[0], b) then Of(OutcomeOf(ts[0], b).thrown)
    else FirstEscape(ts[1..], b)
  }

  /** What the calls in `ts` threw, in call order. */
  function Failures(ts: seq<Teardown>, b: Behaviour): (errs: seq<Obj>)
    ensures |errs| <= |ts|
  {
    if ts == [] then []
    else (if OutcomeOf(ts[0], b).Threw? then [OutcomeOf(ts[0], b).thrown] else []) + Failures(ts[1..], b)
  }

  /** What `close()` promises: if no call throws past `catch (Exception e)`,
   *  it returns the exceptions of all due calls, in order; otherwise the
   *  first escaping throwable propagates. */
  function CloseResult(client: Ref<Obj>, manager: Ref<Obj>, syncMonitor: Ref<Obj>, b: Behaviour): (r: Completion<seq<Obj>>)
    ensures r.Normal? <==> forall i :: 0 <= i < |Eligible(client, manager, syncMonitor)| ==>
                             !Escapes(Eligible(client, manager, syncMonitor)[i], b)
    ensures r.Normal? ==> |r.value| <= 3
  {
    var ts := Eligible(client, manager, syncMonitor);
    match FirstEscape(ts, b)
    case Of(t) => Abrupt(t)
    case Empty => Normal(Failures(ts, b))
  }

  lemma {:induction false} AttemptedAll(ts: seq<Teardown>, b: Behaviour)
    requires FirstEscape(ts, b).Empty?
    ensures Attempted(ts, b) == ts
  {
    if ts != [] {
      AttemptedAll(ts[1..], b);
    }
  }

  lemma {:induction false} FirstEscapeAppend(xs: seq<Teardown>, ys: seq<Teardown>, b: Behaviour)
    ensures FirstEscape(xs + ys, b) == if FirstEscape(xs, b).Of? then FirstEscape(xs, b) else FirstEscape(ys, b)
  {
    if xs == [] {
      assert xs + ys == ys;
    } else {
      assert (xs + ys)[0] == xs[0];
      assert (xs + ys)[1..] == xs[1..] + ys;
      FirstEscapeAppend(xs[1..], ys, b);
    }
  }

  lemma {:induction false} AttemptedAppend(xs: seq<Teardown>, ys: seq<Teardown>, b: Behaviour)
    ensures Attempted(xs + ys, b) == if FirstEscape(xs, b).Of? then Attempted(xs, b) else xs + Attempted(ys, b)
  {
    if xs == [] {
      assert xs + ys == ys;
    } else {
      assert (xs + ys)[0] == xs[0];
      assert (xs + ys)[1..] == xs[1..] + ys;
      if !Escapes(xs[0], b) {
        calc {
          Attempted(xs + ys, b);
          [xs[0]] + Attempted(xs[1..] + ys, b);
          { AttemptedAppend(xs[1..], ys, b); }
          [xs[0]] + if FirstEscape(xs[1..], b).Of? then Attempted(xs[1..], b) else xs[1..] + Attempted(ys, b);
        }
        assert [xs[0]] + (xs[1..] + Attempted(ys, b)) == xs + Attempted(ys, b);
      }
    }
  }

  lemma {:induction false} FailuresAppend(xs: seq<Teardown>, ys: seq<Teardown>, b: Behaviour)
    ensures Failures(xs + ys, b) == Failures(xs, b) + Failures(ys, b)
  {
    if xs == [] {
      assert xs + ys == ys;
    } else {
      assert (xs + ys)[0] == xs[0];
      assert (xs + ys)[1..] == xs[1..] + ys;
      FailuresAppend(xs[1..], ys, b);
    }
  }

  /** The three append facts for the calls of two consecutive runs. */
  lemma RunAppend(xs: seq<Teardown>, ys: seq<Teardown>, b: Behaviour)
    ensures FirstEscape(xs + ys, b) == if FirstEscape(xs, b).Of? then FirstEscape(xs, b) else FirstEscape(ys, b)
    ensures Attempted(xs + ys, b) == if FirstEscape(xs, b).Of? then Attempted(xs, b) else xs + Attempted(ys, b)
    ensures Failures(xs + ys, b) == Failures(xs, b) + Failures(ys, b)
  {
    FirstEscapeAppend(xs, ys, b);
    AttemptedAppend(xs, ys, b);
    FailuresAppend(xs, ys, b);
  }

  /** Every due call is made unless an earlier one throws something that is not an `Exception`. */
  lemma CloseAttemptsAll(client: Ref<Obj>, manager: Ref<Obj>, syncMonitor: Ref<Obj>, b: Behaviour)
    ensures CloseResult(client, manager, syncMonitor, b).Normal? <==>
              forall t :: t in Eligible(client, manager, syncMonitor) ==> !Escapes(t, b)
    ensures CloseResult(client, manager, syncMonitor, b).Normal? ==>
              Attempted(Eligible(client, manager, syncMonitor), b) == Eligible(client, manager, syncMonitor)
  {
    var ts := Eligible(client, manager, syncMonitor);
    if FirstEscape(ts, b).Empty? {
      AttemptedAll(ts, b);
    }
  }

  /** When a throwable escapes, the calls made are those before it, none of
   *  which escaped, and the call that threw it, which is the last made. */
  lemma {:induction false} AttemptedStopsAtEscape(ts: seq<Teardown>, b: Behaviour)
    requires FirstEscape(ts, b).Of?
    ensures var done := Attempted(ts, b);
      done != [] && Escapes(done[|done| - 1], b) &&
      OutcomeOf(done[|done| - 1], b).thrown == FirstEscape(ts, b).value &&
      forall i :: 0 <= i < |done| - 1 ==> !Escapes(done[i], b)
  {
    if !Escapes(ts[0], b) {
      AttemptedStopsAtEscape(ts[1..], b);
    }
  }

  /** The exceptions come out client first, then manager, then monitor, at most one each. */
  lemma CloseErrorsOrdered(client: Ref<Obj>, manager: Ref<Obj>, syncMonitor: Ref<Obj>, b: Behaviour)
    requires CloseResult(client, manager, syncMonitor, b).Normal?
    ensures var errs := CloseResult(client, manager, syncMonitor, b).value;
      errs == Failures(ClientDue(client), b) + Failures(Due(CloseManager, manager), b)
              + Failures(Due(InterruptMonitor, syncMonitor), b) &&
      |Failures(ClientDue(client), b)| <= 1 &&
      |Failures(Due(CloseManager, manager), b)| <= 1 &&
      |Failures(Due(InterruptMonitor, syncMonitor), b)| <= 1 &&
      |errs| <= 3
  {
    var ts1, ts2, ts3 := ClientDue(client), Due(CloseManager, manager), Due(InterruptMonitor, syncMonitor);
    RunAppend(ts1, ts2, b);
    RunAppend(ts1 + ts2, ts3, b);
  }

  /** `close()` returns no exception exactly when every due call completes normally. */
  lemma {:induction false} FailuresEmpty(ts: seq<Teardown>, b: Behaviour)
    ensures Failures(ts, b) == [] <==> forall i :: 0 <= i < |ts| ==> OutcomeOf(ts[i], b) == Completed
  {
    if ts != [] {
      FailuresEmpty(ts[1..], b);
      assert forall i :: 1 <= i < |ts| ==> ts[i] == ts[1..][i - 1];
    }
  }

  lemma CloseSucceeds(client: Ref<Obj>, manager: Ref<Obj>, syncMonitor: Ref<Obj>, b: Behaviour)
    ensures var ts := Eligible(client, manager, syncMonitor);
      CloseResult(client, manager, syncMonitor, b) == Normal([]) <==>
      forall i :: 0 <= i < |ts| ==> OutcomeOf(ts[i], b) == Completed
  {
    var ts := Eligible(client, manager, syncMonitor);
    FailuresEmpty(ts, b);
  }

  /** A client that is null or not a `CloseableHttpClient` is never closed and
   *  contributes nothing: `close()` behaves as if there were no client. */
  lemma NonCloseableClientIgnored(client: Ref<Obj>, manager: Ref<Obj>, syncMonitor: Ref<Obj>, b: Behaviour)
    requires !IsCloseable(client)
    ensures forall t :: t in Eligible(client, manager, syncMonitor) ==> t.step != CloseClient
    ensures Eligible(client, manager, syncMonitor) == Eligible(Null, manager, syncMonitor)
    ensures CloseResult(client, manager, syncMonitor, b) == CloseResult(Null, manager, syncMonitor, b)
  {
  }

  /** Without a manager and a monitor, `close()` makes at most the client's
   *  call and returns at most one exception. */
  lemma SingleClientClose(client: Ref<Obj>, b: Behaviour)
    ensures Eligible(client, Null, Null) == ClientDue(client)
    ensures |Eligible(client, Null, Null)| <= 1
    ensures CloseResult(client, Null, Null, b).Normal? ==> |CloseResult(client, Null, Null, b).value| <= 1
  {
  }

  /** The result of `Util.tryDo` for one step, read against the specification functions. */
  lemma TryDoStep(step: Step, target: Ref<Obj>, b: Behaviour)
    ensures var r, ts := Util.TryDo(target, Consumer(step, b)), Due(step, target);
      Attempted(ts, b) == ts &&
      (r.Abrupt? <==> FirstEscape(ts, b).Of?) &&
      (r.Abrupt? ==> FirstEscape(ts, b) == Of(r.thrown)) &&
      (r.Normal? ==> Util.Stream(r.value) == Failures(ts, b))
  {
  }

  lemma CollectThree(x: Optional<Obj>, y: Optional<Obj>, z: Optional<Obj>)
    ensures Util.CollectExceptions([x, y, z]) == Util.Stream(x) + Util.Stream(y) + Util.Stream(z)
  {
    assert [x, y, z] == [x] + [y] + [z];
    Util.CollectExceptionsAppend([x] + [y], [z]);
    Util.CollectExceptionsAppend([x], [y]);
    Util.CollectExceptionsSingle(x);
    Util.CollectExceptionsSingle(y);
    Util.CollectExceptionsSingle(z);
  }

  /** The outcome of the client's step as `close()` computes it: `tryCast`, then `tryDo` on the cast value. */
  function ClientStep(client: Ref<Obj>, b: Behaviour): (r: Completion<Optional<Obj>>)
    ensures !IsCloseable(client) ==> r == Normal(Empty)
    ensures IsCloseable(client) ==> r == Util.TryDo(client, b.close)
  {
    match Util.TryCast(client, CLOSEABLE_HTTP_CLIENT)
    case Empty => Normal(Empty)
    case Of(c) => Util.TryDo(Ptr(c), b.close)
  }

  /** `close()` when closing the client throws past `catch (Exception e)`. */
  lemma ClientEscapes(client: Ref<Obj>, manager: Ref<Obj>, syncMonitor: Ref<Obj>, b: Behaviour)
    requires ClientStep(client, b).Abrupt?
    ensures CloseResult(client, manager, syncMonitor, b) == Abrupt(ClientStep(client, b).thrown)
    ensures Attempted(Eligible(client, manager, syncMonitor), b) == ClientDue(client)
  {
  }

  /** `close()` when the client's step is caught but closing the manager escapes. */
  lemma ManagerEscapes(client: Ref<Obj>, manager: Ref<Obj>, syncMonitor: Ref<Obj>, b: Behaviour)
    requires ClientStep(client, b).Normal?
    requires Util.TryDo(manager, b.close).Abrupt?
    ensures CloseResult(client, manager, syncMonitor, b) == Abrupt(Util.TryDo(manager, b.close).thrown)
    ensures Attempted(Eligible(client, manager, syncMonitor), b) == ClientDue(client) + Due(CloseManager, manager)
  {
    var ts1, ts2, ts3 := ClientDue(client), Due(CloseManager, manager), Due(InterruptMonitor, syncMonitor);
    TryDoStep(CloseClient, client, b);
    TryDoStep(CloseManager, manager, b);
    RunAppend(ts1, ts2, b);
    RunAppend(ts1 + ts2, ts3, b);
  }

  /** `close()` when the first two steps are caught but interrupting the monitor escapes. */
  lemma MonitorEscapes(client: Ref<Obj>, manager: Ref<Obj>, syncMonitor: Ref<Obj>, b: Behaviour)
    requires ClientStep(client, b).Normal?
    requires Util.TryDo(manager, b.close).Normal?
    requires Util.TryDo(syncMonitor, b.interrupt).Abrupt?
    ensures CloseResult(client, manager, syncMonitor, b) == Abrupt(Util.TryDo(syncMonitor, b.interrupt).thrown)
    ensures Attempted(Eligible(client, manager, syncMonitor), b) == Eligible(client, manager, syncMonitor)
  {
    var ts1, ts2, ts3 := ClientDue(client), Due(CloseManager, manager), Due(InterruptMonitor, syncMonitor);
    TryDoStep(CloseClient, client, b);
    TryDoStep(CloseManager, manager, b);
    TryDoStep(InterruptMonitor, syncMonitor, b);
    RunAppend(ts1, ts2, b);
    RunAppend(ts1 + ts2, ts3, b);
  }

  /** `close()` when every step is caught: every due call is made and the
   *  collected exceptions are exactly the failures of the due calls. */
  lemma NoneEscapes(client: Ref<Obj>, manager: Ref<Obj>, syncMonitor: Ref<Obj>, b: Behaviour)
    requires ClientStep(client, b).Normal?
    requires Util.TryDo(manager, b.close).Normal?
    requires Util.TryDo(syncMonitor, b.interrupt).Normal?
    ensures CloseResult(client, manager, syncMonitor, b) ==
              Normal(Util.CollectExceptions([ClientStep(client, b).value,
                                             Util.TryDo(manager, b.close).value,
                                             Util.TryDo(syncMonitor, b.interrupt).value]))
    ensures Attempted(Eligible(client, manager, syncMonitor), b) == Eligible(client, manager, syncMonitor)
  {
    var ts1, ts2, ts3 := ClientDue(client), Due(CloseManager, manager), Due(InterruptMonitor, syncMonitor);
    TryDoStep(CloseClient, client, b);
    TryDoStep(CloseManager, manager, b);
    TryDoStep(InterruptMonitor, syncMonitor, b);
    RunAppend(ts1, ts2, b);
    RunAppend(ts1 + ts2, ts3, b);
    CollectThree(ClientStep(client, b).value, Util.TryDo(manager, b.close).value, Util.TryDo(syncMonitor, b.interrupt).value);
  }

  class ApacheClient {
    const client: Ref<Obj>
    const manager: Ref<Obj>
    const syncMonitor: Ref<Obj>
    /** The teardown calls made so far, in the order they were made. */
    var attempted: seq<Teardown>

    /** `ApacheClient(HttpClient)`: only a client; no manager and no monitor. */
    constructor FromHttpClient(httpClient: Ref<Obj>)
      ensures client == httpClient && manager == Null && syncMonitor == Null
      ensures attempted == []
    {
      client := httpClient;
      manager := Null;
      syncMonitor := Null;
      attempted := [];
    }

    /** `ApacheClient(HttpClient, PoolingHttpClientConnectionManager, SyncIdleConnectionMonitorThread)` */
    constructor (httpc: Ref<Obj>, clientManager: Ref<Obj>, connMonitor: Ref<Obj>)
      ensures client == httpc && manager == clientManager && syncMonitor == connMonitor
      ensures attempted == []
    {
      client := httpc;
      manager := clientManager;
      syncMonitor := connMonitor;
      attempted := [];
    }

    /** `Util.tryDo(target, consumer)` as one step of `close()`: the consumer
     *  is called, and the call logged, only when the target is non-null. */
    method Attempt(step: Step, target: Ref<Obj>, b: Behaviour) returns (r: Completion<Optional<Obj>>)
      modifies this`attempted
      ensures attempted == old(attempted) + Due(step, target)
      ensures r == Util.TryDo(target, Consumer(step, b))
    {
      if target.Ptr? {
        attempted := attempted + [Teardown(step, target.target)];
      }
      r := Util.TryDo(target, Consumer(step, b));
    }

    /** `close()`: cast the client to `CloseableHttpClient` and close it if
     *  that succeeds, close the manager, interrupt the monitor, and collect
     *  the exceptions of the three attempts. */
    method Close(b: Behaviour) returns (r: Completion<seq<Obj>>)
      modifies this`attempted
      ensures attempted == old(attempted) + Attempted(Eligible(client, manager, syncMonitor), b)
      ensures r == CloseResult(client, manager, syncMonitor, b)
    {
      var clientErr: Optional<Obj> := Empty;
      var closeable := Util.TryCast(client, CLOSEABLE_HTTP_CLIENT);
      if closeable.Of? {
        var c := Attempt(CloseClient, Ptr(closeable.value), b);
        if c.Abrupt? {
          ClientEscapes(client, manager, syncMonitor, b);
          return Abrupt(c.thrown);
        }
        clientErr := c.value;
      }
      assert ClientStep(client, b) == Normal(clientErr);
      var m := Attempt(CloseManager, manager, b);
      if m.Abrupt? {
        ManagerEscapes(client, manager, syncMonitor, b);
        return Abrupt(m.thrown);
      }
      var s := Attempt(InterruptMonitor, syncMonitor, b);
      if s.Abrupt? {
        MonitorEscapes(client, manager, syncMonitor, b);
        return Abrupt(s.thrown);
      }
      NoneEscapes(client, manager, syncMonitor, b);
      r := Normal(Util.CollectExceptions([clientErr, m.value, s.value]));
    }
  }
}
