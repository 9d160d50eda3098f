/** The 5SIM hosting adapter: rejection by a missing `id`, an `sms` list whose
    last entry is the newest, and a vendor status that can close the order. */
module FiveSimAdapter {
  import opened Wrappers
  import opened PyJson
  import opened Orders
  import opened Transport

  /** The buy-hosting request; country and product travel in the path and
      the credential in a header, so there are no query parameters. */
  function RentRequest(country: string, service: string): (q: Request)
    ensures q.verb == POST
    ensures q.endpoint == FiveSimBuyHosting(country, service)
    ensures q.params == []
  {
    Request(POST, FiveSimBuyHosting(country, service), [])
  }

  /** Translation of the buy-hosting reply.  Without an `id` the reply itself
      is reported; otherwise `id` and `phone` are read, `expires` is copied
      through and the phone must be a string. */
  function Rent(resp: Json, country: string, service: string, now: int): (r: Result<Order, SmsError>)
    ensures r.Ok? <==>
      && resp.JObject?
      && HasKey(resp, "id")
      && HasKey(resp, "phone")
      && Field(resp, "phone").JStr?
    ensures In("id", resp) == Ok(false) ==> r == Err(ApiRequestError(VendorError(FiveSim, resp)))
    ensures resp.JObject? && !HasKey(resp, "id") ==> r == Err(ApiRequestError(VendorError(FiveSim, resp)))
    ensures r.Ok? ==>
      && IsFresh(r.value, FiveSim, country, service, now)
      && r.value.orderId == Str(Field(resp, "id"))
      && r.value.phoneNumber == Field(resp, "phone").s
      && r.value.expirationTime == Field(resp, "expires")
    ensures resp.JObject? && HasKey(resp, "id") && !HasKey(resp, "phone") ==>
      r == Err(RuntimeFault(KeyError(JStr("phone"))))
    ensures r.Err? ==> !r.error.BalanceError? && !r.error.NoNumberError?
  {
    var hasId :- Py(In("id", resp));
    if !hasId then Err(ApiRequestError(VendorError(FiveSim, resp)))
    else
      var id :- Py(Subscript(resp, "id"));
      var phone :- Py(Subscript(resp, "phone"));
      // `resp` is a dict once both subscripts succeeded.
      var expires := Field(resp, "expires");
      var phoneNumber :- ValidatedStr(phone, "phone_number");
      Ok(NewOrder(Str(id), phoneNumber, country, service, FiveSim, now, expires))
  }

  /** The check request, naming the order by its id in the path. */
  function CheckRequest(order: Order): (q: Request)
    ensures q.endpoint == FiveSimCheck(order.orderId)
    ensures q.params == []
  {
    Request(GET, FiveSimCheck(order.orderId), [])
  }

  /** Translation of the check reply.  A true `sms` value must be a list whose
      last entry supplies `text` and `code` and marks the order received;
      independently a vendor status "FINISHED" marks it finished, keeping any
      captured message. */
  function Check(order: Order, resp: Json): (r: Result<Order, SmsError>)
    ensures r.Ok? <==>
      && resp.JObject?
      && var messages := Field(resp, "sms");
         !Truthy(messages) || (messages.JList? && messages.items[|messages.items| - 1].JObject?)
    ensures r.Ok? ==> SameRental(order, r.value)
    ensures r.Ok? && Field(resp, "status") == JStr("FINISHED") ==> r.value.status == Finished
    ensures r.Ok? && !Truthy(Field(resp, "sms")) ==>
      && r.value.smsText == order.smsText
      && r.value.smsCode == order.smsCode
      && (Field(resp, "status") != JStr("FINISHED") ==> r.value.status == order.status)
    ensures r.Ok? && Truthy(Field(resp, "sms")) ==>
      var messages := Field(resp, "sms").items;
      && r.value.smsText == Field(messages[|messages| - 1], "text")
      && r.value.smsCode == Field(messages[|messages| - 1], "code")
      && (Field(resp, "status") != JStr("FINISHED") ==> r.value.status == Received)
  {
    var messages :- Py(Get(resp, "sms", JList([])));
    var captured :- if Truthy(messages) then CaptureLatest(order, messages) else Ok(order);
    // `resp` is a dict once its `get` succeeded.
    if Field(resp, "status") == JStr("FINISHED") then Ok(captured.(status := Finished))
    else Ok(captured)
  }

  /** The finish request: the vendor has no refunding cancel for hosting. */
  function CancelRequest(orderId: string): (q: Request)
    ensures q.endpoint == FiveSimFinish(orderId)
    ensures q.params == []
  {
    Request(GET, FiveSimFinish(orderId), [])
  }
}
