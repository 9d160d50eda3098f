/** The Vak-SMS rent adapter: typed errors for the vendor's error codes and
    a single `smsCode` field standing for the message. */
module VakSmsAdapter {
  import opened Wrappers
  import opened PyJson
  import opened Orders
  import opened Transport

  /** The get-number request; `rent=true` asks for a rental number. */
  function RentRequest(apiKey: string, country: string, service: string): (q: Request)
    ensures q.endpoint == VakGetNumber
    ensures Sends(q, "apiKey", JStr(apiKey))
    ensures Sends(q, "service", JStr(service))
    ensures Sends(q, "country", JStr(country))
    ensures Sends(q, "rent", JStr("true"))
  {
    Request(GET, VakGetNumber,
      [("apiKey", JStr(apiKey)), ("service", JStr(service)),
       ("country", JStr(country)), ("rent", JStr("true"))])
  }

  /** The error reported for a reply without `idNum`: its `error` entry, or
      "Unknown error" when there is none. */
  function ReportedError(resp: Json): Json {
    if HasKey(resp, "error") then Field(resp, "error") else JStr("Unknown error")
  }

  /** Translation of the get-number reply.  A reply without `idNum` is
      refused: "no_numbers" as a lack of numbers, "no_balance" as a lack of
      funds, anything else as a request error.  Otherwise `idNum` and `tel`
      become the order's id and phone number. */
  function Rent(resp: Json, country: string, service: string, now: int): (r: Result<Order, SmsError>)
    ensures r.Ok? <==> resp.JObject? && HasKey(resp, "idNum") && HasKey(resp, "tel")
    ensures resp.JObject? && !HasKey(resp, "idNum") ==>
      && r.Err?
      && (r.error.NoNumberError? <==> ReportedError(resp) == JStr("no_numbers"))
      && (r.error.BalanceError? <==> ReportedError(resp) == JStr("no_balance"))
      && (r.error.ApiRequestError? <==>
            ReportedError(resp) != JStr("no_numbers") && ReportedError(resp) != JStr("no_balance"))
      && (r.error.ApiRequestError? ==> r.error.failure == VendorError(VakSms, ReportedError(resp)))
    ensures resp.JObject? && HasKey(resp, "idNum") && !HasKey(resp, "tel") ==>
      r == Err(RuntimeFault(KeyError(JStr("tel"))))
    ensures r.Ok? ==>
      && IsFresh(r.value, VakSms, country, service, now)
      && r.value.orderId == Str(Field(resp, "idNum"))
      && r.value.phoneNumber == Str(Field(resp, "tel"))
      && r.value.expirationTime == JNull
  {
    var hasId :- Py(In("idNum", resp));
    if !hasId then
      var error :- Py(Get(resp, "error", JStr("Unknown error")));
      if error == JStr("no_numbers") then Err(NoNumberError("Vak-SMS: No numbers available"))
      else if error == JStr("no_balance") then Err(BalanceError("Vak-SMS: Insufficient balance"))
      else Err(ApiRequestError(VendorError(VakSms, error)))
    else
      var id :- Py(Subscript(resp, "idNum"));
      var tel :- Py(Subscript(resp, "tel"));
      Ok(NewOrder(Str(id), Str(tel), country, service, VakSms, now, JNull))
  }

  /** The get-sms-code request, naming the order by its id. */
  function CheckRequest(apiKey: string, order: Order): (q: Request)
    ensures q.endpoint == VakGetSmsCode
    ensures Sends(q, "apiKey", JStr(apiKey))
    ensures Sends(q, "idNum", JStr(order.orderId))
  {
    Request(GET, VakGetSmsCode, [("apiKey", JStr(apiKey)), ("idNum", JStr(order.orderId))])
  }

  /** Translation of the get-sms-code reply.  A present, true `smsCode` is
      both the code and the text and marks the order received; any other
      dict, such as `{"error": "wait"}`, leaves the order as it was. */
  function Check(order: Order, resp: Json): (r: Result<Order, SmsError>)
    ensures resp.JObject? ==> r.Ok?
    ensures r.Ok? ==> SameRental(order, r.value)
    ensures r.Ok? && Truthy(Field(resp, "smsCode")) ==>
      && r.value.smsCode == Field(resp, "smsCode")
      && r.value.smsText == Field(resp, "smsCode")
      && r.value.status == Received
    ensures r.Ok? && !Truthy(Field(resp, "smsCode")) ==> r.value == order
  {
    var present :- Py(In("smsCode", resp));
    if !present then Ok(order)
    else
      var code :- Py(Subscript(resp, "smsCode"));
      if !Truthy(code) then Ok(order)
      // `resp` is a dict once its subscript succeeded; `get` reads the same entry.
      else Ok(order.(smsCode := code, status := Received, smsText := Field(resp, "smsCode")))
  }

  /** The set-status request; "end" closes the rental. */
  function CancelRequest(apiKey: string, orderId: string): (q: Request)
    ensures q.endpoint == VakSetStatus
    ensures Sends(q, "apiKey", JStr(apiKey))
    ensures Sends(q, "idNum", JStr(orderId))
    ensures Sends(q, "status", JStr("end"))
  {
    Request(GET, VakSetStatus, [("apiKey", JStr(apiKey)), ("idNum", JStr(orderId)), ("status", JStr("end"))])
  }
}
