/** The SMS-Man rent adapter: numeric-id requests, rejection by an
    `error_code` key, and message lists whose last entry is the newest. */
module SmsManAdapter {
  import opened Wrappers
  import opened PyJson
  import opened Orders
  import opened Transport

  /** The get-number request.  The vendor counts rental time in minutes, so
      the requested duration goes out multiplied by 60. */
  function RentRequest(apiKey: string, country: string, service: string, duration: int): (q: Request)
    ensures q.endpoint == SmsManGetNumber
    ensures Sends(q, "token", JStr(apiKey))
    ensures Sends(q, "country_id", JStr(country))
    ensures Sends(q, "service_id", JStr(service))
    ensures Sends(q, "time", JInt(duration * 60))
  {
    Request(GET, SmsManGetNumber,
      [("token", JStr(apiKey)), ("country_id", JStr(country)),
       ("service_id", JStr(service)), ("time", JInt(duration * 60))])
  }

  /** Translation of the get-number reply.  A reply with an `error_code` key
      is refused with the vendor's `error_msg`; otherwise `request_id` and
      `number` must be present and the number must be a string. */
  function Rent(resp: Json, country: string, service: string, now: int): (r: Result<Order, SmsError>)
    ensures r.Ok? <==>
      && resp.JObject?
      && !HasKey(resp, "error_code")
      && HasKey(resp, "request_id")
      && Field(resp, "number").JStr?
    ensures HasKey(resp, "error_code") ==>
      r == Err(ApiRequestError(VendorError(SmsMan, Field(resp, "error_msg"))))
    ensures r.Ok? ==>
      && IsFresh(r.value, SmsMan, country, service, now)
      && r.value.orderId == Str(Field(resp, "request_id"))
      && r.value.phoneNumber == Field(resp, "number").s
      && r.value.expirationTime == JNull
    ensures resp.JObject? && !HasKey(resp, "error_code") && !HasKey(resp, "request_id") ==>
      r == Err(RuntimeFault(KeyError(JStr("request_id"))))
    ensures resp.JObject? && !HasKey(resp, "error_code") && HasKey(resp, "request_id") && !HasKey(resp, "number") ==>
      r == Err(RuntimeFault(KeyError(JStr("number"))))
    ensures r.Err? ==> !r.error.BalanceError? && !r.error.NoNumberError?
  {
    var rejected :- Py(In("error_code", resp));
    if rejected then
      var message :- Py(Get(resp, "error_msg", JNull));
      Err(ApiRequestError(VendorError(SmsMan, message)))
    else
      var id :- Py(Subscript(resp, "request_id"));
      var number :- Py(Subscript(resp, "number"));
      var phone :- ValidatedStr(number, "phone_number");
      Ok(NewOrder(Str(id), phone, country, service, SmsMan, now, JNull))
  }

  /** The get-sms request, naming the order by its id. */
  function CheckRequest(apiKey: string, order: Order): (q: Request)
    ensures q.endpoint == SmsManGetSms
    ensures Sends(q, "token", JStr(apiKey))
    ensures Sends(q, "request_id", JStr(order.orderId))
  {
    Request(GET, SmsManGetSms, [("token", JStr(apiKey)), ("request_id", JStr(order.orderId))])
  }

  /** Translation of the get-sms reply.  Only a non-empty list counts as news:
      its last entry's `text` and `code` replace the order's and the order is
      marked received.  Any other reply leaves the order as it was. */
  function Check(order: Order, resp: Json): (r: Result<Order, SmsError>)
    ensures !(resp.JList? && |resp.items| > 0) ==> r == Ok(order)
    ensures resp.JList? && |resp.items| > 0 ==>
      (r.Ok? <==> resp.items[|resp.items| - 1].JObject?)
    ensures r.Ok? && resp.JList? && |resp.items| > 0 ==>
      var latest := resp.items[|resp.items| - 1];
      && r.value.status == Received
      && r.value.smsText == Field(latest, "text")
      && r.value.smsCode == Field(latest, "code")
    ensures r.Ok? ==> SameRental(order, r.value)
  {
    if resp.JList? && |resp.items| > 0 then CaptureLatest(order, resp) else Ok(order)
  }

  /** The set-status request; status 2 closes the rental. */
  function CancelRequest(apiKey: string, orderId: string): (q: Request)
    ensures q.endpoint == SmsManSetStatus
    ensures Sends(q, "token", JStr(apiKey))
    ensures Sends(q, "request_id", JStr(orderId))
    ensures Sends(q, "status", JInt(2))
  {
    Request(GET, SmsManSetStatus,
      [("token", JStr(apiKey)), ("request_id", JStr(orderId)), ("status", JInt(2))])
  }
}
