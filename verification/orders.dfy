/** The unified order record, its status vocabulary, the vendor identifiers
    and the error taxonomy shared by every adapter. */
module Orders {
  import opened Wrappers
  import opened PyJson

  /** The three supported vendors. */
  datatype ProviderType = SmsMan | FiveSim | VakSms

  datatype RentStatus = Waiting | Received | Finished | Timeout | Cancelled | Unknown

  /** One rental.  `smsText` and `smsCode` hold whatever the adapter assigned
      (the record does not re-validate on assignment); JNull is Python's None.
      `createdAt` is the clock reading taken at creation, and
      `expirationTime` the vendor's deadline exactly as it was received. */
  datatype Order = Order(
    orderId: string,
    phoneNumber: string,
    country: string,
    service: string,
    provider: ProviderType,
    status: RentStatus,
    smsText: Json,
    smsCode: Json,
    createdAt: int,
    expirationTime: Json)

  /** An order as the record's defaults leave it right after a rent. */
  function NewOrder(orderId: string, phoneNumber: string, country: string, service: string,
                    provider: ProviderType, createdAt: int, expirationTime: Json): Order
  {
    Order(orderId, phoneNumber, country, service, provider, Waiting, JNull, JNull, createdAt, expirationTime)
  }

  /** `o` was just created by `provider`'s rent for `country`/`service` at
      clock reading `now`: it is waiting and has seen no message. */
  predicate IsFresh(o: Order, provider: ProviderType, country: string, service: string, now: int) {
    && o.status == Waiting
    && o.smsText == JNull
    && o.smsCode == JNull
    && o.provider == provider
    && o.country == country
    && o.service == service
    && o.createdAt == now
  }

  /** `b` is the same rental as `a`: only status and message fields differ. */
  predicate SameRental(a: Order, b: Order) {
    && b.orderId == a.orderId
    && b.phoneNumber == a.phoneNumber
    && b.country == a.country
    && b.service == a.service
    && b.provider == a.provider
    && b.createdAt == a.createdAt
    && b.expirationTime == a.expirationTime
  }

  /** The condition on which polling stops: the order is marked received or
      holds a code Python considers true. */
  predicate CodeArrived(o: Order) {
    o.status == Received || Truthy(o.smsCode)
  }

  /** What an APIRequestError reports. */
  datatype ApiFailure =
    | HttpStatus(code: int, body: string)
    | NetworkError(description: string)
    | VendorError(vendor: ProviderType, detail: Json)

  /** The exceptions an operation can raise: the three SMS error kinds, a
      built-in exception escaping from response handling, and a rejection
      by the order record's own field validation. */
  datatype SmsError =
    | ApiRequestError(failure: ApiFailure)
    | BalanceError(message: string)
    | NoNumberError(message: string)
    | RuntimeFault(fault: PyFault)
    | ValidationFailure(field: string)

  /** A built-in exception propagating through adapter code. */
  function Py<T>(r: Result<T, PyFault>): Result<T, SmsError> {
    match r
    case Ok(v) => Ok(v)
    case Err(f) => Err(RuntimeFault(f))
  }

  /** Validation of a value assigned to a `str` field of the order record:
      strings pass, anything else is rejected. */
  function ValidatedStr(v: Json, field: string): Result<string, SmsError> {
    if v.JStr? then Ok(v.s) else Err(ValidationFailure(field))
  }

  /** The effect of reading the newest message out of a message list: take
      `messages[-1]`, copy its `text` and `code` (None when absent) and mark
      the order received. */
  function CaptureLatest(order: Order, messages: Json): (r: Result<Order, SmsError>)
    ensures r.Ok? <==> messages.JList? && |messages.items| > 0 && messages.items[|messages.items| - 1].JObject?
    ensures r.Ok? ==>
      var latest := messages.items[|messages.items| - 1];
      r.value == order.(status := Received, smsText := Field(latest, "text"), smsCode := Field(latest, "code"))
  {
    var latest :- Py(LastItem(messages));
    // Once `latest.get("text")` succeeds, `latest` is a dict and the second
    // lookup cannot raise.
    match latest
    case JObject(fields) =>
      Ok(order.(smsText := Lookup(fields, "text").GetOr(JNull),
                smsCode := Lookup(fields, "code").GetOr(JNull),
                status := Received))
    case _ => Err(RuntimeFault(AttributeError))
  }
}
