/** The manager: one adapter bound at construction by vendor type, the
    uniform rent / check / cancel operations dispatched to it, and the
    wait-for-code polling loop. */
module Manager {
  import opened Wrappers
  import opened PyJson
  import opened Orders
  import opened Transport
  import SmsManAdapter
  import FiveSimAdapter
  import VakSmsAdapter

  /** An adapter instance with the credential it was built with. */
  datatype Provider =
    | SmsManProvider(apiKey: string)
    | FiveSimProvider(apiKey: string)
    | VakSmsProvider(apiKey: string)
  {
    function Kind(): ProviderType {
      match this
      case SmsManProvider(_) => SmsMan
      case FiveSimProvider(_) => FiveSim
      case VakSmsProvider(_) => VakSms
    }
  }

  /** Adapter selection: every vendor type has its adapter, built with the
      manager's key. */
  function GetProvider(t: ProviderType, apiKey: string): (p: Provider)
    ensures p.Kind() == t
    ensures p.apiKey == apiKey
  {
    match t
    case SmsMan => SmsManProvider(apiKey)
    case FiveSim => FiveSimProvider(apiKey)
    case VakSms => VakSmsProvider(apiKey)
  }

  /** A manager, configured by vendor type and key. */
  datatype SmsManager = SmsManager(providerType: ProviderType, apiKey: string) {
    function Adapter(): Provider {
      GetProvider(providerType, apiKey)
    }
  }

  /** The reply field that carries a vendor's order id. */
  function IdKey(t: ProviderType): string {
    match t
    case SmsMan => "request_id"
    case FiveSim => "id"
    case VakSms => "idNum"
  }

  /** The rent request an adapter issues: it asks the adapter's vendor for
      the requested country and service; only SMS-Man uses the duration. */
  function RentRequest(p: Provider, country: string, service: string, duration: int): (q: Request)
    ensures q.endpoint.Vendor() == p.Kind()
    ensures p.SmsManProvider? ==>
      && Sends(q, "token", JStr(p.apiKey))
      && Sends(q, "country_id", JStr(country))
      && Sends(q, "service_id", JStr(service))
      && Sends(q, "time", JInt(duration * 60))
    ensures p.FiveSimProvider? ==> q.verb == POST && q.endpoint == FiveSimBuyHosting(country, service)
    ensures p.VakSmsProvider? ==>
      && Sends(q, "apiKey", JStr(p.apiKey))
      && Sends(q, "country", JStr(country))
      && Sends(q, "service", JStr(service))
      && Sends(q, "rent", JStr("true"))
  {
    match p
    case SmsManProvider(key) => SmsManAdapter.RentRequest(key, country, service, duration)
    case FiveSimProvider(_) => FiveSimAdapter.RentRequest(country, service)
    case VakSmsProvider(key) => VakSmsAdapter.RentRequest(key, country, service)
  }

  /** Rent through the manager's adapter, given the normalised reply to its
      rent request.  Errors of the request propagate unchanged; a success is
      a fresh order of the manager's vendor, identified by the vendor's id
      field, which no successful reply lacks. */
  function RentNumber(m: SmsManager, country: string, service: string, now: int,
                      reply: Result<Json, SmsError>): (r: Result<Order, SmsError>)
    ensures reply.Err? ==> r == Err(reply.error)
    ensures r.Ok? ==>
      && IsFresh(r.value, m.providerType, country, service, now)
      && HasKey(reply.value, IdKey(m.providerType))
      && r.value.orderId == Str(Field(reply.value, IdKey(m.providerType)))
    ensures reply.Ok? && reply.value.JObject? && !HasKey(reply.value, IdKey(m.providerType)) ==> r.Err?
    ensures reply.Ok? && r.Err? && (r.error.BalanceError? || r.error.NoNumberError?) ==> m.providerType == VakSms
  {
    var resp :- reply;
    match m.Adapter()
    case SmsManProvider(_) => SmsManAdapter.Rent(resp, country, service, now)
    case FiveSimProvider(_) => FiveSimAdapter.Rent(resp, country, service, now)
    case VakSmsProvider(_) => VakSmsAdapter.Rent(resp, country, service, now)
  }

  /** The status-check request: it goes to the adapter's vendor and names
      the order being checked by its id. */
  function CheckRequest(p: Provider, order: Order): (q: Request)
    ensures q.endpoint.Vendor() == p.Kind()
    ensures p.SmsManProvider? ==> Sends(q, "request_id", JStr(order.orderId)) && Sends(q, "token", JStr(p.apiKey))
    ensures p.FiveSimProvider? ==> q.endpoint == FiveSimCheck(order.orderId)
    ensures p.VakSmsProvider? ==> Sends(q, "idNum", JStr(order.orderId)) && Sends(q, "apiKey", JStr(p.apiKey))
  {
    match p
    case SmsManProvider(key) => SmsManAdapter.CheckRequest(key, order)
    case FiveSimProvider(_) => FiveSimAdapter.CheckRequest(order)
    case VakSmsProvider(key) => VakSmsAdapter.CheckRequest(key, order)
  }

  /** A check reply that reports a message, in each vendor's own terms. */
  predicate CarriesMessage(t: ProviderType, resp: Json) {
    match t
    case SmsMan => resp.JList? && |resp.items| > 0
    case FiveSim => Truthy(Field(resp, "sms"))
    case VakSms => Truthy(Field(resp, "smsCode"))
  }

  /** One status check through adapter `p`, given the normalised reply.  The
      rental itself never changes; a reply without a message never touches
      the captured text and code; a reply with one ends the wait unless the
      vendor has finished the order. */
  function CheckSms(p: Provider, order: Order, reply: Result<Json, SmsError>): (r: Result<Order, SmsError>)
    ensures reply.Err? ==> r == Err(reply.error)
    ensures r.Ok? ==> SameRental(order, r.value)
    ensures r.Ok? && !CarriesMessage(p.Kind(), reply.value) ==>
      r.value.smsCode == order.smsCode && r.value.smsText == order.smsText
    ensures r.Ok? && CarriesMessage(p.Kind(), reply.value) ==>
      CodeArrived(r.value) || r.value.status == Finished
  {
    var resp :- reply;
    match p
    case SmsManProvider(_) => SmsManAdapter.Check(order, resp)
    case FiveSimProvider(_) => FiveSimAdapter.Check(order, resp)
    case VakSmsProvider(_) => VakSmsAdapter.Check(order, resp)
  }

  /** The closing request: SMS-Man sets status 2, 5SIM finishes the order,
      Vak-SMS sets status "end". */
  function CancelRequest(p: Provider, orderId: string): (q: Request)
    ensures q.endpoint.Vendor() == p.Kind()
    ensures p.SmsManProvider? ==> Sends(q, "status", JInt(2)) && Sends(q, "request_id", JStr(orderId))
    ensures p.FiveSimProvider? ==> q.endpoint == FiveSimFinish(orderId)
    ensures p.VakSmsProvider? ==> Sends(q, "status", JStr("end")) && Sends(q, "idNum", JStr(orderId))
  {
    match p
    case SmsManProvider(key) => SmsManAdapter.CancelRequest(key, orderId)
    case FiveSimProvider(_) => FiveSimAdapter.CancelRequest(orderId)
    case VakSmsProvider(key) => VakSmsAdapter.CancelRequest(key, orderId)
  }

  /** The outcome of a cancel, for every adapter alike: whatever the reply
      says, a request that does not raise reports success. */
  function CancelRent(ex: Exchange, parse: string -> Option<Json>): (r: Result<bool, SmsError>)
    ensures r == Ok(true) <==> MakeRequest(ex, parse).Ok?
    ensures MakeRequest(ex, parse).Err? ==> r == Err(MakeRequest(ex, parse).error)
  {
    var _ :- MakeRequest(ex, parse);
    Ok(true)
  }

  /** One turn of the polling loop as the environment presents it: the clock
      reading (seconds since the loop began) when the loop condition is
      evaluated, and the exchange the check issued in that turn would get. */
  datatype Poll = Poll(elapsed: real, exchange: Exchange)

  /** Why the loop stopped, with the order as it then stood (the order is
      updated in place, so a raised error leaves earlier updates visible). */
  datatype WaitOutcome =
    | Arrived(order: Order)
    | TimedOut(order: Order)
    | Raised(error: SmsError, order: Order)
    | StillPolling(order: Order)

  /** The loop's outcome with the number of checks issued, the sleeps taken,
      and the order each successful check produced, in order.  StillPolling
      means the clock readings ran out before the loop ended. */
  datatype WaitRun = WaitRun(outcome: WaitOutcome, checks: nat, sleeps: nat, trace: seq<Order>)

  /** The order the loop holds after the checks in `trace`. */
  function Latest(order: Order, trace: seq<Order>): Order {
    if |trace| == 0 then order else trace[|trace| - 1]
  }

  /** The order check number `k` started from. */
  function Before(order: Order, trace: seq<Order>, k: nat): Order
    requires k <= |trace|
  {
    if k == 0 then order else trace[k - 1]
  }

  /** Each check in `trace` updated the order the previous one produced,
      with the reply of its own turn. */
  predicate Follows(step: (Order, Exchange) -> Result<Order, SmsError>, order: Order, polls: seq<Poll>,
                    trace: seq<Order>)
  {
    |trace| <= |polls| &&
    forall k :: 0 <= k < |trace| ==> step(Before(order, trace, k), polls[k].exchange) == Ok(trace[k])
  }

  /** The first `checks` clock readings were before the deadline. */
  predicate OnTime(timeoutSeconds: int, polls: seq<Poll>, checks: nat) {
    checks <= |polls| && forall k :: 0 <= k < checks ==> polls[k].elapsed < timeoutSeconds as real
  }

  /** No order in `trace` shows a code. */
  predicate NoCode(trace: seq<Order>) {
    forall k :: 0 <= k < |trace| ==> !CodeArrived(trace[k])
  }

  /** Why and where the run ended, given the checks that went through. */
  predicate Ends(step: (Order, Exchange) -> Result<Order, SmsError>, order: Order, timeoutSeconds: int,
                 polls: seq<Poll>, r: WaitRun)
  {
    match r.outcome
    case Arrived(o) =>
      && |r.trace| == r.checks > 0
      && NoCode(r.trace[..|r.trace| - 1])
      && o == r.trace[|r.trace| - 1] && CodeArrived(o)
      && r.sleeps + 1 == r.checks
    case Raised(e, o) =>
      && |r.trace| + 1 == r.checks <= |polls|
      && NoCode(r.trace)
      && o == Latest(order, r.trace) && step(o, polls[|r.trace|].exchange) == Err(e)
      && r.sleeps + 1 == r.checks
    case TimedOut(o) =>
      && |r.trace| == r.checks < |polls|
      && NoCode(r.trace)
      && polls[r.checks].elapsed >= timeoutSeconds as real
      && o == Latest(order, r.trace).(status := Timeout)
      && r.sleeps == r.checks
    case StillPolling(o) =>
      && |r.trace| == r.checks == |polls|
      && NoCode(r.trace)
      && o == Latest(order, r.trace)
      && r.sleeps == r.checks
  }

  /** What a run of the polling loop must look like, for a check `step` from
      an order and the exchange of one turn to the updated order.  Every
      check happens before the deadline and updates the order the previous
      one produced.  The loop returns at the first check whose order shows a
      code, with no sleep after it.  A timeout read the clock at or past the
      deadline, saw no code, and returns the last checked order with status
      Timeout.  An error ends the loop with the order as the earlier checks
      left it. */
  predicate IsRun(step: (Order, Exchange) -> Result<Order, SmsError>, order: Order, timeoutSeconds: int,
                  polls: seq<Poll>, r: WaitRun)
  {
    && OnTime(timeoutSeconds, polls, r.checks)
    && Follows(step, order, polls, r.trace)
    && Ends(step, order, timeoutSeconds, polls, r)
  }

  /** The polling loop of wait_for_code, for any check step: test the clock,
      check, return on a code, otherwise sleep and go round again. */
  function PollLoop(step: (Order, Exchange) -> Result<Order, SmsError>, order: Order, timeoutSeconds: int,
                    polls: seq<Poll>): (r: WaitRun)
    ensures IsRun(step, order, timeoutSeconds, polls, r)
    decreases |polls|
  {
    if |polls| == 0 then WaitRun(StillPolling(order), 0, 0, [])
    else if polls[0].elapsed >= timeoutSeconds as real then
      WaitRun(TimedOut(order.(status := Timeout)), 0, 0, [])
    else
      match step(order, polls[0].exchange)
      case Err(e) => WaitRun(Raised(e, order), 1, 0, [])
      case Ok(checked) =>
        if CodeArrived(checked) then WaitRun(Arrived(checked), 1, 0, [checked])
        else
          var rest := PollLoop(step, checked, timeoutSeconds, polls[1..]);
          OnTimeCons(timeoutSeconds, polls, rest.checks);
          FollowsCons(step, order, polls, checked, rest.trace);
          EndsCons(step, order, timeoutSeconds, polls, checked, rest);
          WaitRun(rest.outcome, rest.checks + 1, rest.sleeps + 1, [checked] + rest.trace)
  }

  lemma OnTimeCons(timeoutSeconds: int, polls: seq<Poll>, checks: nat)
    requires |polls| > 0 && polls[0].elapsed < timeoutSeconds as real
    requires OnTime(timeoutSeconds, polls[1..], checks)
    ensures OnTime(timeoutSeconds, polls, checks + 1)
  {
    forall k | 1 <= k < checks + 1
      ensures polls[k].elapsed < timeoutSeconds as real
    {
      assert polls[k] == polls[1..][k - 1];
    }
  }

  lemma FollowsCons(step: (Order, Exchange) -> Result<Order, SmsError>, order: Order, polls: seq<Poll>,
                    checked: Order, trace: seq<Order>)
    requires |polls| > 0 && step(order, polls[0].exchange) == Ok(checked)
    requires Follows(step, checked, polls[1..], trace)
    ensures Follows(step, order, polls, [checked] + trace)
  {
    var all := [checked] + trace;
    forall k | 1 <= k < |all|
      ensures step(Before(order, all, k), polls[k].exchange) == Ok(all[k])
    {
      assert Before(order, all, k) == Before(checked, trace, k - 1);
      assert polls[k] == polls[1..][k - 1];
    }
  }

  lemma NoCodeCons(checked: Order, trace: seq<Order>)
    requires !CodeArrived(checked) && NoCode(trace)
    ensures NoCode([checked] + trace)
  {
    var all := [checked] + trace;
    forall k | 1 <= k < |all|
      ensures !CodeArrived(all[k])
    {
      assert all[k] == trace[k - 1];
    }
  }

  lemma EndsCons(step: (Order, Exchange) -> Result<Order, SmsError>, order: Order, timeoutSeconds: int,
                 polls: seq<Poll>, checked: Order, rest: WaitRun)
    requires |polls| > 0 && !CodeArrived(checked)
    requires Ends(step, checked, timeoutSeconds, polls[1..], rest)
    ensures Ends(step, order, timeoutSeconds, polls,
                 WaitRun(rest.outcome, rest.checks + 1, rest.sleeps + 1, [checked] + rest.trace))
  {
    var trace := [checked] + rest.trace;
    var tail := polls[1..];
    assert Latest(order, trace) == Latest(checked, rest.trace) by {
      assert trace[|trace| - 1] == if |rest.trace| == 0 then checked else rest.trace[|rest.trace| - 1];
    }
    match rest.outcome {
      case Arrived(o) =>
        assert trace[..|trace| - 1] == [checked] + rest.trace[..|rest.trace| - 1];
        NoCodeCons(checked, rest.trace[..|rest.trace| - 1]);
      case Raised(e, o) =>
        NoCodeCons(checked, rest.trace);
        assert polls[|trace|] == tail[|rest.trace|];
      case TimedOut(o) =>
        NoCodeCons(checked, rest.trace);
        assert polls[rest.checks + 1] == tail[rest.checks];
      case StillPolling(o) =>
        NoCodeCons(checked, rest.trace);
    }
  }

  /** One check through the manager's adapter. */
  function CheckStep(m: SmsManager, parse: string -> Option<Json>): (Order, Exchange) -> Result<Order, SmsError> {
    (o: Order, ex: Exchange) => CheckSms(m.Adapter(), o, MakeRequest(ex, parse))
  }

  /** wait_for_code: the polling loop with the manager's adapter as check.
      Its runs satisfy the loop specification, and the order it ends with is
      the same rental it started from. */
  function WaitForCode(m: SmsManager, order: Order, timeoutSeconds: int, polls: seq<Poll>,
                       parse: string -> Option<Json>): (r: WaitRun)
    ensures IsRun(CheckStep(m, parse), order, timeoutSeconds, polls, r)
    ensures SameRental(order, r.outcome.order)
  {
    var r := PollLoop(CheckStep(m, parse), order, timeoutSeconds, polls);
    CheckStepKeepsRental(m, parse);
    RunKeepsRental(CheckStep(m, parse), order, timeoutSeconds, polls, r);
    r
  }

  /** A check step that never swaps the rental for another one. */
  ghost predicate KeepsRental(step: (Order, Exchange) -> Result<Order, SmsError>) {
    forall o: Order, ex: Exchange :: step(o, ex).Ok? ==> SameRental(o, step(o, ex).value)
  }

  /** The adapters' checks keep the rental. */
  lemma CheckStepKeepsRental(m: SmsManager, parse: string -> Option<Json>)
    ensures KeepsRental(CheckStep(m, parse))
  {
    forall o: Order, ex: Exchange | CheckStep(m, parse)(o, ex).Ok?
      ensures SameRental(o, CheckStep(m, parse)(o, ex).value)
    {
      var c := CheckSms(m.Adapter(), o, MakeRequest(ex, parse));
      assert CheckStep(m, parse)(o, ex) == c;
    }
  }

  /** Every order a run passes through is the rental it started from. */
  lemma {:induction false} TraceKeepsRental(step: (Order, Exchange) -> Result<Order, SmsError>, order: Order,
                                            polls: seq<Poll>, trace: seq<Order>, k: nat)
    requires KeepsRental(step)
    requires k <= |trace| <= |polls|
    requires forall j :: 0 <= j < |trace| ==> step(Before(order, trace, j), polls[j].exchange) == Ok(trace[j])
    ensures SameRental(order, Before(order, trace, k))
  {
    if k > 0 {
      TraceKeepsRental(step, order, polls, trace, k - 1);
      assert step(Before(order, trace, k - 1), polls[k - 1].exchange) == Ok(trace[k - 1]);
    }
  }

  /** A run of a rental-keeping step ends with the rental it started from. */
  lemma RunKeepsRental(step: (Order, Exchange) -> Result<Order, SmsError>, order: Order, timeoutSeconds: int,
                       polls: seq<Poll>, r: WaitRun)
    requires KeepsRental(step)
    requires IsRun(step, order, timeoutSeconds, polls, r)
    ensures SameRental(order, r.outcome.order)
  {
    TraceKeepsRental(step, order, polls, r.trace, |r.trace|);
    assert Latest(order, r.trace) == Before(order, r.trace, |r.trace|);
  }

  /** A non-positive timeout issues no check at all: the first clock reading
      is already at the deadline, and the order comes back timed out. */
  lemma NonPositiveTimeoutNeverChecks(step: (Order, Exchange) -> Result<Order, SmsError>, order: Order,
                                      timeoutSeconds: int, polls: seq<Poll>)
    requires timeoutSeconds <= 0
    requires |polls| > 0 && polls[0].elapsed >= 0.0
    ensures PollLoop(step, order, timeoutSeconds, polls) == WaitRun(TimedOut(order.(status := Timeout)), 0, 0, [])
  {
  }

  /** The loop stops at the first check that shows a code: if checks before
      check k show none and check k shows one, all before the deadline, the
      run returns that order after k + 1 checks and k sleeps. */
  lemma {:induction false} StopsAtFirstCode(step: (Order, Exchange) -> Result<Order, SmsError>, order: Order,
                                            timeoutSeconds: int, polls: seq<Poll>, trace: seq<Order>)
    requires 0 < |trace|
    requires Follows(step, order, polls, trace)
    requires OnTime(timeoutSeconds, polls, |trace|)
    requires NoCode(trace[..|trace| - 1]) && CodeArrived(trace[|trace| - 1])
    ensures PollLoop(step, order, timeoutSeconds, polls) == WaitRun(Arrived(trace[|trace| - 1]), |trace|, |trace| - 1, trace)
    decreases |polls|
  {
    assert step(order, polls[0].exchange) == Ok(trace[0]);
    assert polls[0].elapsed < timeoutSeconds as real;
    if |trace| > 1 {
      var tail := trace[1..];
      var later := polls[1..];
      assert !CodeArrived(trace[0]) by {
        assert trace[..|trace| - 1][0] == trace[0];
      }
      FirstCheckPeeled(step, order, timeoutSeconds, polls, trace);
      StopsAtFirstCode(step, trace[0], timeoutSeconds, later, tail);
      var rest := PollLoop(step, trace[0], timeoutSeconds, later);
      assert PollLoop(step, order, timeoutSeconds, polls)
          == WaitRun(rest.outcome, rest.checks + 1, rest.sleeps + 1, [trace[0]] + rest.trace);
      assert [trace[0]] + tail == trace;
      assert tail[|tail| - 1] == trace[|trace| - 1];
    }
  }

  /** The hypotheses of StopsAtFirstCode carry over from a trace to its tail,
      read from the order of the first check on. */
  lemma FirstCheckPeeled(step: (Order, Exchange) -> Result<Order, SmsError>, order: Order,
                         timeoutSeconds: int, polls: seq<Poll>, trace: seq<Order>)
    requires 1 < |trace|
    requires Follows(step, order, polls, trace)
    requires OnTime(timeoutSeconds, polls, |trace|)
    requires NoCode(trace[..|trace| - 1])
    ensures Follows(step, trace[0], polls[1..], trace[1..])
    ensures OnTime(timeoutSeconds, polls[1..], |trace| - 1)
    ensures NoCode(trace[1..][..|trace| - 2])
  {
    var tail := trace[1..];
    var later := polls[1..];
    forall k | 0 <= k < |tail|
      ensures step(Before(trace[0], tail, k), later[k].exchange) == Ok(tail[k])
      ensures later[k].elapsed < timeoutSeconds as real
    {
      assert Before(trace[0], tail, k) == Before(order, trace, k + 1);
      assert later[k] == polls[k + 1];
    }
    assert tail[..|tail| - 1] == trace[..|trace| - 1][1..];
  }

  /** Once the clock reaches the deadline the loop has ended. */
  lemma DeadlineEndsPolling(step: (Order, Exchange) -> Result<Order, SmsError>, order: Order,
                            timeoutSeconds: int, polls: seq<Poll>, late: nat)
    requires late < |polls| && polls[late].elapsed >= timeoutSeconds as real
    ensures !PollLoop(step, order, timeoutSeconds, polls).outcome.StillPolling?
    ensures PollLoop(step, order, timeoutSeconds, polls).checks <= late
  {
  }

  /** If no check ever changes the order and no code is there to begin with,
      the loop runs to the deadline and returns the order, message fields
      untouched, with status Timeout. */
  lemma {:induction false} QuietPollingTimesOut(step: (Order, Exchange) -> Result<Order, SmsError>, order: Order,
                                                timeoutSeconds: int, polls: seq<Poll>, late: nat)
    requires !CodeArrived(order)
    requires forall k :: 0 <= k < |polls| ==> step(order, polls[k].exchange) == Ok(order)
    requires late < |polls| && polls[late].elapsed >= timeoutSeconds as real
    ensures PollLoop(step, order, timeoutSeconds, polls).outcome == TimedOut(order.(status := Timeout))
    decreases |polls|
  {
    if polls[0].elapsed < timeoutSeconds as real {
      assert step(order, polls[0].exchange) == Ok(order);
      var tail := polls[1..];
      forall k | 0 <= k < |tail|
        ensures step(order, tail[k].exchange) == Ok(order)
      {
        assert tail[k] == polls[k + 1];
      }
      assert tail[late - 1] == polls[late];
      QuietPollingTimesOut(step, order, timeoutSeconds, tail, late - 1);
    }
  }

  /** Checks are spaced by the sleep: when successive clock readings are at
      least `interval` apart and the first is at least `start`, the last
      check began before the deadline, so at most
      (timeout - start) / interval + 1 checks are issued. */
  lemma {:induction false} PollingRespectsInterval(step: (Order, Exchange) -> Result<Order, SmsError>, order: Order,
                                                   timeoutSeconds: int, polls: seq<Poll>, interval: int, start: real)
    requires interval > 0
    requires |polls| > 0 ==> polls[0].elapsed >= start
    requires forall k :: 0 <= k < |polls| - 1 ==> polls[k + 1].elapsed >= polls[k].elapsed + interval as real
    ensures var r := PollLoop(step, order, timeoutSeconds, polls);
      r.checks > 0 ==> start + ((r.checks - 1) * interval) as real < timeoutSeconds as real
    decreases |polls|
  {
    var r := PollLoop(step, order, timeoutSeconds, polls);
    if r.checks > 1 {
      SecondCheckFollowsQuietFirst(step, order, timeoutSeconds, polls);
      var first := step(order, polls[0].exchange);
      assert first.Ok? && r.checks == PollLoop(step, first.value, timeoutSeconds, polls[1..]).checks + 1;
      var checked := first.value;
      var tail := polls[1..];
      var rest := PollLoop(step, checked, timeoutSeconds, tail);
      SpacingCarriesToTail(polls, interval, start);
      PollingRespectsInterval(step, checked, timeoutSeconds, tail, interval, start + interval as real);
      SpacedStep(start, interval, rest.checks - 1, timeoutSeconds as real);
    }
  }

  /** A run with a second check went past the first one quietly: the first
      check succeeded before the deadline without a code, and the run is
      one check more than the run from the order it produced. */
  lemma SecondCheckFollowsQuietFirst(step: (Order, Exchange) -> Result<Order, SmsError>, order: Order,
                                     timeoutSeconds: int, polls: seq<Poll>)
    requires |polls| > 0
    ensures var first := step(order, polls[0].exchange);
      PollLoop(step, order, timeoutSeconds, polls).checks > 1 ==>
        && polls[0].elapsed < timeoutSeconds as real
        && first.Ok? && !CodeArrived(first.value)
        && PollLoop(step, order, timeoutSeconds, polls).checks
           == PollLoop(step, first.value, timeoutSeconds, polls[1..]).checks + 1
  {
  }

  /** Readings spaced by `interval` from `start` on are, after the first,
      spaced from `start + interval` on. */
  lemma SpacingCarriesToTail(polls: seq<Poll>, interval: int, start: real)
    requires |polls| > 0 && polls[0].elapsed >= start
    requires forall k :: 0 <= k < |polls| - 1 ==> polls[k + 1].elapsed >= polls[k].elapsed + interval as real
    ensures |polls[1..]| > 0 ==> polls[1..][0].elapsed >= start + interval as real
    ensures forall k :: 0 <= k < |polls[1..]| - 1 ==> polls[1..][k + 1].elapsed >= polls[1..][k].elapsed + interval as real
  {
    var tail := polls[1..];
    if |tail| > 0 {
      assert tail[0] == polls[1];
    }
    forall k | 0 <= k < |tail| - 1
      ensures tail[k + 1].elapsed >= tail[k].elapsed + interval as real
    {
      assert tail[k] == polls[k + 1] && tail[k + 1] == polls[k + 2];
    }
  }

  /** Arithmetic step of the spacing argument: one more interval before the
      remaining checks. */
  lemma SpacedStep(start: real, interval: int, n: int, deadline: real)
    requires start + interval as real + (n * interval) as real < deadline
    ensures start + ((n + 1) * interval) as real < deadline
  {
    assert (n + 1) * interval == n * interval + interval;
  }

  /** The loop stops for good: once a run has ended, clock readings and
      replies that would have come later are never consulted. */
  lemma {:induction false} LaterPollsIgnored(step: (Order, Exchange) -> Result<Order, SmsError>, order: Order,
                                             timeoutSeconds: int, polls: seq<Poll>, later: seq<Poll>)
    requires !PollLoop(step, order, timeoutSeconds, polls).outcome.StillPolling?
    ensures PollLoop(step, order, timeoutSeconds, polls + later) == PollLoop(step, order, timeoutSeconds, polls)
    decreases |polls|
  {
    var all := polls + later;
    assert all[0] == polls[0];
    assert all[1..] == polls[1..] + later;
    if polls[0].elapsed < timeoutSeconds as real {
      var c := step(order, polls[0].exchange);
      if c.Ok? && !CodeArrived(c.value) {
        LaterPollsIgnored(step, c.value, timeoutSeconds, polls[1..], later);
      }
    }
  }
}
