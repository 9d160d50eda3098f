# SMS rental manager — a Dafny model

This project models the core of an SMS-rental client library
(`sms_manager.py`): one interface for renting a temporary phone number from
one of three vendors (SMS-Man, 5SIM, Vak-SMS), polling it for a verification
code, and closing the rental. The model covers:

- the unified order record (`Orders.Order`), vendor and status enumerations,
  and the error kinds (`APIRequestError`, `BalanceError`, `NoNumberError`);
- the request helper's normalisation of one HTTP exchange into decoded JSON
  or an error (`Transport.MakeRequest`);
- each adapter's rent, check and cancel logic as pure functions from a
  decoded vendor reply (`SmsManAdapter`, `FiveSimAdapter`, `VakSmsAdapter`);
- adapter selection by vendor type and the `wait_for_code` polling loop
  (`Manager`).

Vendor replies are JSON values (`PyJson.Json`). The Python operations the
adapters apply to them (`in`, `resp[key]`, `resp.get`, `x[-1]`, truth
values, `str()`) are modelled with the exceptions Python raises on values of
the wrong shape. For example, `resp["id"]` on a list raises `TypeError`, and
`.get` on a string raises `AttributeError`. None of these are caught by the
library, so they appear as `SmsError.RuntimeFault`.

The JSON decoder is a parameter `parse: string -> Option<Json>` (None where it
raises). The clock is a sequence of readings. Time and network I/O enter only
as values:

- an `Exchange` is what the HTTP layer returned;
- a `Poll` is the clock reading at a loop test together with the exchange the
  check in that turn received;
- `now` is the creation timestamp.

The polling loop is `Manager.PollLoop`, written for any check step.
`Manager.WaitForCode` runs it with the adapter's check. A run reports why the
loop stopped:

- a code arrived;
- the deadline was reached;
- a check raised (with the order as earlier checks left it, because the
  source updates the order in place);
- the readings ran out while the loop was still polling.

It also counts the checks issued and the sleeps taken, and lists the order
each successful check produced (its trace). `Manager.IsRun` states what
every run must look like; the loop is proved to meet it.

Behaviour the model keeps exactly as the code has it, though one might expect otherwise:

- The manager class has no `check_sms`/`cancel_rent` of its own, so checking
  and cancelling are modelled on the adapter (`Manager.CheckSms`,
  `Manager.CancelRent`), not on `SmsManager`. The command-line test runner
  reaches them through `manager.provider` (test_sms_manager.py:55). The GUI
  widget calls `manager.check_sms` and `manager.cancel_rent` directly
  (sms_gui_component.py:145 and 172). Both raise `AttributeError`, which the
  widget catches and logs, so its status checks and cancels never reach a
  vendor.
- Each rent tests for one key only, and a reply missing any other key it
  reads raises `KeyError`, not a typed error. For SMS-Man, a dict without
  `error_code` and without `request_id` raises `KeyError('request_id')`, and
  one with `request_id` but no `number` raises `KeyError('number')`. A 5SIM
  reply with `id` but no `phone` raises `KeyError('phone')`. A Vak-SMS reply
  with `idNum` but no `tel` raises `KeyError('tel')`.
- The loop runs while elapsed time is strictly below the timeout, so it times
  out as soon as the deadline is reached, not only once it is exceeded.
- A body declared `application/json` that fails to decode raises
  `JSONDecodeError`; it is not normalised into `APIRequestError`.
- A 5SIM order can be `Finished` while holding a code, so "a code implies
  Received" does not hold for that vendor.

## Model

| member | source | states |
|---|---|---|
| `PyJson.IntToStringDenotes` | sms_manager.py:164 | An integer vendor id becomes a decimal string that reads back as the same integer; normalising ids to strings loses nothing |
| `Orders.CaptureLatest` | sms_manager.py:180-184 | Reading the newest message succeeds exactly when the message list is non-empty and its last entry is a dict; the order then takes that entry's text and code (None when absent) and becomes Received |
| `Transport.MakeRequest` | sms_manager.py:100-123 | An APIRequestError is raised exactly for client-error (`aiohttp.ClientError`) failures and statuses of 400 or more (carrying status and body); the only other failure is an undecodable body declared JSON; a success is the decoded body, or `{"text_response": text}` when a body not declared JSON does not decode |
| `Transport.ErrorStatusAlwaysRaises` | sms_manager.py:107-110 | A status of 400 or more raises APIRequestError whatever the header and body |
| `Transport.TextBodyNeverRaises` | sms_manager.py:114-120 | A successful reply not declared JSON never raises, and an undecodable body can be read back from the wrapper's `text_response` entry |
| `SmsManAdapter.RentRequest` | sms_manager.py:147-154 | The get-number request sends the key, country and service ids, and a `time` of exactly duration × 60, each once |
| `SmsManAdapter.CheckRequest` | sms_manager.py:171-175 | The get-sms request sends the key and the order's own id as `request_id`, each once |
| `SmsManAdapter.Rent` | sms_manager.py:157-169 | An order is built exactly when the reply is a dict without `error_code`, with `request_id` and a string `number`; an `error_code` reply raises APIRequestError carrying `error_msg`; a dict lacking both `error_code` and `request_id` raises KeyError for `request_id`, and one with `request_id` but no `number` raises KeyError for `number`; a built order is fresh, of SMS-Man, with `str(request_id)` as id; never a balance or no-number error |
| `SmsManAdapter.Check` | sms_manager.py:171-186 | Anything but a non-empty list leaves the order unchanged; a non-empty list copies text and code from its last element and marks the order Received, failing only when that element is not a dict; the rental itself never changes |
| `SmsManAdapter.CancelRequest` | sms_manager.py:188-192 | Cancelling sends the order id and status 2 |
| `FiveSimAdapter.RentRequest` | sms_manager.py:214-218 | The rent is a POST to the hosting-purchase endpoint for exactly the requested country and product, with no query parameters |
| `FiveSimAdapter.CheckRequest` | sms_manager.py:232-235 | The check goes to the order-check endpoint of the order's own id, with no query parameters |
| `FiveSimAdapter.CancelRequest` | sms_manager.py:249-252 | Cancelling goes to the finish endpoint of the given order id, with no query parameters |
| `FiveSimAdapter.Rent` | sms_manager.py:217-230 | An order is built exactly when the reply is a dict with `id` and a string `phone`; a reply lacking `id` raises APIRequestError carrying the reply; a dict with `id` but no `phone` raises KeyError for `phone`; a built order is fresh, of 5SIM, with `str(id)` as id and `expires` copied |
| `FiveSimAdapter.Check` | sms_manager.py:232-247 | A true `sms` list gives the last element's text and code and status Received; vendor status "FINISHED" gives Finished without erasing them; without messages text and code are untouched; the rental never changes; failure exactly for non-dict replies or a bad message list |
| `VakSmsAdapter.RentRequest` | sms_manager.py:266-277 | The get-number request sends the key, service and country, and `rent` set to "true", each once |
| `VakSmsAdapter.CheckRequest` | sms_manager.py:295-299 | The get-sms-code request sends the key and the order's own id as `idNum`, each once |
| `VakSmsAdapter.Rent` | sms_manager.py:277-293 | An order is built exactly when the reply is a dict with `idNum` and `tel`; without `idNum`, "no_numbers" gives NoNumberError, "no_balance" BalanceError, any other or absent error APIRequestError with that error ("Unknown error" when absent); a dict with `idNum` but no `tel` raises KeyError for `tel`; ids and phone go through `str()` |
| `VakSmsAdapter.Check` | sms_manager.py:295-308 | Every dict reply succeeds; a true `smsCode` becomes both code and text and marks the order Received; any other reply leaves the order exactly as it was |
| `VakSmsAdapter.CancelRequest` | sms_manager.py:310-314 | Cancelling sends the order id and status "end" |
| `Manager.GetProvider` | sms_manager.py:333-341 | Every vendor type selects the adapter of that vendor, built with the manager's key |
| `Manager.RentRequest` | sms_manager.py:346-348 | The rent request goes to the selected vendor and asks for exactly the requested country and service: SMS-Man's sends key, `country_id`, `service_id` and duration × 60; 5SIM's is a POST to the hosting endpoint of that country and product; Vak-SMS's sends key, `country`, `service` and `rent` = "true" |
| `Manager.RentNumber` | sms_manager.py:346-348 | Renting through the manager propagates request errors unchanged; a success is a fresh Waiting order of the configured vendor whose id is the vendor's id field; a dict reply lacking that field fails; typed balance and no-number errors come only from Vak-SMS |
| `Manager.CheckRequest` | sms_manager.py:90-93 | A status check goes to an endpoint of the adapter's own vendor and names the order being checked by its own id (with the key, where the vendor takes it as a parameter) |
| `Manager.CheckSms` | sms_manager.py:90-93 | For every adapter a check never changes the rental's id, phone, country, service, vendor, creation time or expiry; a reply without a message leaves text and code untouched; a reply with one ends the wait unless the vendor finished the order |
| `Manager.CancelRequest` | sms_manager.py:95-98 | The closing request goes to the adapter's vendor and names the given order id: status 2 for SMS-Man, the finish endpoint for 5SIM, status "end" for Vak-SMS |
| `Manager.CancelRent` | sms_manager.py:188-193 | A cancel reports success exactly when its request does not raise; when the request raises, the cancel raises that same error and never reports False (the same for 5SIM at 249-253 and Vak-SMS at 310-315) |
| `Manager.PollLoop` | sms_manager.py:358-372 | Every run meets the loop specification `IsRun`. Each check starts before the deadline from the order the previous check produced, using that turn's reply. The loop returns the order of the first check showing a code, with no sleep after it. A timeout read the clock at or past the deadline, saw no code, and returns the last checked order with status Timeout. An error ends the loop with the order as the earlier checks left it |
| `Manager.WaitForCode` | sms_manager.py:350-372 | A run with the adapter's check meets the loop specification, with each trace entry that adapter's check of the previous order against that turn's reply, and the returned order is the rental it started from |
| `Manager.RunKeepsRental` | sms_manager.py:361-372 | A loop whose check never swaps the rental ends with the rental it started from, whatever the outcome |
| `Manager.CheckStepKeepsRental` | sms_manager.py:362 | The check the loop calls, through any of the three adapters, never swaps the rental |
| `Manager.StopsAtFirstCode` | sms_manager.py:361-366 | If checks 0 to k−1 show no code and check k shows one, all before the deadline, the run returns check k's order after k+1 checks and k sleeps, with exactly those checks as its trace |
| `Manager.NonPositiveTimeoutNeverChecks` | sms_manager.py:358-361 | With a timeout of zero or less no check is made and the order comes back as Timeout |
| `Manager.DeadlineEndsPolling` | sms_manager.py:361 | Once a clock reading reaches the deadline the loop has stopped, with no more checks than readings before it |
| `Manager.QuietPollingTimesOut` | sms_manager.py:361-372 | If no check changes an order that has no code, the loop ends with status Timeout and text and code untouched; no cancel is involved |
| `Manager.PollingRespectsInterval` | sms_manager.py:361-368 | When clock readings are at least the interval apart, the last check starts before the deadline: (checks − 1) × interval < timeout − start |
| `Manager.LaterPollsIgnored` | sms_manager.py:361-372 | After the loop has returned or raised, no later clock reading or reply is consulted |
| `Scenarios.FiveSimLatestMessageWins` | sms_manager.py:237-242 | Codes "111" then "222" with vendor status "RUNNING" give code "222" and status Received |
| `Scenarios.FiveSimFinishedKeepsCode` | sms_manager.py:244-245 | Vendor status "FINISHED" gives Finished while keeping the code and text captured from the same reply |
| `Scenarios.VakNoBalanceIsBalanceError` | sms_manager.py:283-284 | `{"error": "no_balance"}` raises BalanceError, not the generic request error |
| `Scenarios.VakIntegerIdNormalised` | sms_manager.py:287-293 | An integer `idNum` 42 gives the order id "42" |
| `Scenarios.VakWaitLeavesOrder` | sms_manager.py:301-308 | `{"error": "wait"}` leaves the order unchanged |
| `Scenarios.SmsManEmptyListLeavesOrder` | sms_manager.py:180-186 | An empty list leaves the order's status, code and text unchanged |
| `Scenarios.WaitingReplyTimesOut` | sms_manager.py:361-372 | A one-second timeout with replies that never carry a code ends in Timeout with no code, after one check and one sleep |

## Left out

- `get_balance` of the three adapters and the manager: it converts vendor strings to floating point.
- JSON numbers with a fractional part: `Json` has integers only.
- The HTTP session, headers (including 5SIM's bearer token) and URL strings. A request is modelled by its method, vendor endpoint and query parameters.
- Transport failures: every failure the HTTP library raises as `aiohttp.ClientError` is one `NetworkFailure` value. Exceptions of other kinds that escape the request helper unwrapped are not modelled: the session's total-timeout `asyncio.TimeoutError`, and any other error that is not a `ClientError`.
- Task cancellation: cancelling the waiting task raises `CancelledError` at the request's await or at the sleep. Nothing catches it, so the loop ends without setting Timeout. `Manager.WaitOutcome` has no outcome for this, and the model has no cancellation.
- The JSON decoder's details: it is the `parse` parameter. This also covers the HTTP library's own handling of JSON bodies, such as an empty body or a media type that only contains "application/json".
- Error message formatting: `APIRequestError` carries its cause as data (status and body, network description, vendor and detail), not the formatted message string.
- Logging setup and log calls: no behavioural content.
- Date and time handling: `created_at` is an integer clock reading supplied by the caller. 5SIM's `expires` is copied as received, without conversion to a datetime and without the record rejecting a malformed value.
- The record's validation of `phone_number` follows the rule that only strings are accepted. This is the behaviour of the current major version of the validation library; an older version would convert numbers to strings instead.
- `PyJson.Repr`: strings are quoted without escaping, and a dict read with a repeated key is rendered with each occurrence (the decoder would have kept only the last one). This matches Python only for strings free of quotes, backslashes and unprintable characters. It matters only when a vendor sends a list or dict as an order id.
- `asyncio.sleep` and the interval: a sleep is the gap between two clock readings, and the interval appears only as a hypothesis of `Manager.PollingRespectsInterval`.
- Manager.PollingRespectsInterval: bounds when the last check starts, not the wall-clock time the whole loop takes, because request durations are not modelled.
- The `duration` default of 4 and 5SIM's unused `duration`: the model takes the duration explicitly, and only SMS-Man's request uses it.
- The `ValueError` branch of `_get_provider`: it is unreachable because the vendor enumeration has exactly three members.
- The GUI widget and the command-line test runner: UI and process plumbing.
