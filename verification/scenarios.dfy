/** Concrete replies and the orders they produce: the behaviours the system
    is meant to have, stated for specific values. */
module Scenarios {
  import opened Wrappers
  import opened PyJson
  import opened Orders
  import opened Transport
  import opened Manager
  import FiveSimAdapter
  import VakSmsAdapter
  import SmsManAdapter

  /** A freshly rented Vak-SMS order. */
  function Rented(): Order {
    NewOrder("9001", "79990000000", "ru", "tg", VakSms, 0, JNull)
  }

  /** Two messages with the vendor still running the order: the later code
      is taken and the order is received. */
  lemma FiveSimLatestMessageWins(order: Order)
    ensures FiveSimAdapter.Check(order,
      JObject([("sms", JList([JObject([("code", JStr("111"))]), JObject([("code", JStr("222"))])])),
               ("status", JStr("RUNNING"))]))
      == Ok(order.(status := Received, smsText := JNull, smsCode := JStr("222")))
  {
  }

  /** A finished order keeps the code captured from the same reply. */
  lemma FiveSimFinishedKeepsCode(order: Order)
    ensures FiveSimAdapter.Check(order,
      JObject([("sms", JList([JObject([("code", JStr("555")), ("text", JStr("code 555"))])])),
               ("status", JStr("FINISHED"))]))
      == Ok(order.(status := Finished, smsText := JStr("code 555"), smsCode := JStr("555")))
  {
  }

  /** "no_balance" is reported as a lack of funds, not as a request error. */
  lemma VakNoBalanceIsBalanceError(country: string, service: string, now: int)
    ensures VakSmsAdapter.Rent(JObject([("error", JStr("no_balance"))]), country, service, now)
      == Err(BalanceError("Vak-SMS: Insufficient balance"))
  {
  }

  /** An integer id becomes its decimal string. */
  lemma VakIntegerIdNormalised(now: int)
    ensures VakSmsAdapter.Rent(JObject([("idNum", JInt(42)), ("tel", JStr("79990000000"))]), "ru", "tg", now)
      == Ok(NewOrder("42", "79990000000", "ru", "tg", VakSms, now, JNull))
  {
    var resp := JObject([("idNum", JInt(42)), ("tel", JStr("79990000000"))]);
    assert Subscript(resp, "idNum") == Ok(JInt(42));
    assert Subscript(resp, "tel") == Ok(JStr("79990000000"));
    assert NatToString(4) == "4";
    assert NatToString(42) == NatToString(4) + [DigitChar(2)];
    assert Str(JInt(42)) == "42";
  }

  /** A waiting reply leaves a Vak-SMS order exactly as it was. */
  lemma VakWaitLeavesOrder(order: Order)
    ensures VakSmsAdapter.Check(order, JObject([("error", JStr("wait"))])) == Ok(order)
  {
  }

  /** An empty message list leaves an SMS-Man order exactly as it was. */
  lemma SmsManEmptyListLeavesOrder(order: Order)
    ensures SmsManAdapter.Check(order, JList([])) == Ok(order)
  {
  }

  /** A decoder that reads every body as the Vak-SMS waiting reply. */
  function AlwaysWaiting(text: string): Option<Json> {
    Some(JObject([("error", JStr("wait"))]))
  }

  /** With a one-second timeout and replies that never carry a code, the
      order comes back with status Timeout and still no code. */
  lemma WaitingReplyTimesOut()
    ensures
      var m := SmsManager(VakSms, "key");
      var ok := Reply(200, "application/json", "{\"error\": \"wait\"}");
      var r := WaitForCode(m, Rented(), 1, [Poll(0.0, ok), Poll(1.0, ok)], AlwaysWaiting);
      && r.outcome == TimedOut(Rented().(status := Timeout))
      && r.outcome.order.smsCode == JNull
      && r.checks == 1 && r.sleeps == 1
  {
  }
}
