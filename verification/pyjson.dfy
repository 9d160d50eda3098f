/** JSON values as Python's `json` module returns them, and the handful of
    Python operations the vendor adapters apply to them: `in`, subscription,
    `dict.get`, `x[-1]`, truthiness and `str()`.  Each operation raises the
    exception Python would raise on a value of the wrong shape. */
module PyJson {
  import opened Wrappers

  /** A decoded JSON document.  An object is kept as the (key, value) pairs
      the decoder read, in order; a key read twice is bound to its last
      value, as `json.loads` binds it. */
  datatype Json =
    | JNull
    | JBool(b: bool)
    | JInt(i: int)
    | JStr(s: string)
    | JList(items: seq<Json>)
    | JObject(fields: seq<(string, Json)>)

  /** The built-in exceptions the adapters can trigger by accident. */
  datatype PyFault =
    | KeyError(key: Json)
    | TypeError
    | AttributeError
    | IndexError
    | JsonDecodeError

  /** The value bound to `key` in an object's pairs: the last pair with that
      key, if any. */
  function Lookup(fields: seq<(string, Json)>, key: string): (r: Option<Json>)
    ensures r.Some? <==> exists k :: 0 <= k < |fields| && fields[k].0 == key
    ensures r.Some? ==> exists k :: 0 <= k < |fields| && fields[k] == (key, r.value) &&
                          forall j :: k < j < |fields| ==> fields[j].0 != key
  {
    if |fields| == 0 then None
    else if fields[|fields| - 1].0 == key then Some(fields[|fields| - 1].1)
    else
      var front := fields[..|fields| - 1];
      var rest := Lookup(front, key);
      assert forall k :: 0 <= k < |front| ==> front[k] == fields[k];
      rest
  }

  /** `v` is a dict with an entry for `key`. */
  predicate HasKey(v: Json, key: string) {
    v.JObject? && Lookup(v.fields, key).Some?
  }

  /** `v.get(key)` for a dict `v`: the entry, or None (JNull) when absent.
      Used in contracts, where the shape of `v` is stated separately. */
  function Field(v: Json, key: string): Json {
    if v.JObject? then Lookup(v.fields, key).GetOr(JNull) else JNull
  }

  /** Python's substring test `needle in hay` on two strings. */
  predicate Occurs(needle: string, hay: string) {
    needle <= hay || (|hay| > 0 && Occurs(needle, hay[1..]))
  }

  /** Python's `key in container` for a string `key`: dict keys, list
      elements, substrings; anything else is not iterable. */
  function In(key: string, container: Json): Result<bool, PyFault> {
    match container
    case JObject(fields) => Ok(Lookup(fields, key).Some?)
    case JList(items) => Ok(JStr(key) in items)
    case JStr(s) => Ok(Occurs(key, s))
    case _ => Err(TypeError)
  }

  /** Python's `container[key]` for a string `key`.  Lists and strings need
      integer indices; None, numbers and booleans are not subscriptable. */
  function Subscript(container: Json, key: string): Result<Json, PyFault> {
    match container
    case JObject(fields) =>
      (match Lookup(fields, key)
       case Some(v) => Ok(v)
       case None => Err(KeyError(JStr(key))))
    case _ => Err(TypeError)
  }

  /** Python's `container.get(key, default)`: only dicts have the method. */
  function Get(container: Json, key: string, default: Json): Result<Json, PyFault> {
    match container
    case JObject(fields) => Ok(Lookup(fields, key).GetOr(default))
    case _ => Err(AttributeError)
  }

  /** Python's `container[-1]`.  A dict is looked up under the key -1, which a
      decoded JSON object never has. */
  function LastItem(container: Json): Result<Json, PyFault> {
    match container
    case JList(items) => if |items| > 0 then Ok(items[|items| - 1]) else Err(IndexError)
    case JStr(s) => if |s| > 0 then Ok(JStr([s[|s| - 1]])) else Err(IndexError)
    case JObject(_) => Err(KeyError(JInt(-1)))
    case _ => Err(TypeError)
  }

  /** Python's truth value of a decoded JSON value. */
  predicate Truthy(v: Json) {
    match v
    case JNull => false
    case JBool(b) => b
    case JInt(i) => i != 0
    case JStr(s) => |s| > 0
    case JList(items) => |items| > 0
    case JObject(fields) => |fields| > 0
  }

  /** Python's `str(v)`: a string is itself, anything else its repr. */
  function Str(v: Json): string {
    if v.JStr? then v.s else Repr(v)
  }

  /** Python's `repr(v)`.  Strings are quoted with single quotes and not
      escaped, which is Python's rendering for strings without quotes,
      backslashes or unprintable characters. */
  function Repr(v: Json): string
    decreases v
  {
    match v
    case JNull => "None"
    case JBool(b) => if b then "True" else "False"
    case JInt(i) => IntToString(i)
    case JStr(s) => "'" + s + "'"
    case JList(items) =>
      "[" + Join(seq(|items|, k requires 0 <= k < |items| => Repr(items[k]))) + "]"
    case JObject(fields) =>
      "{" + Join(seq(|fields|, k requires 0 <= k < |fields| =>
                       var entry := fields[k];
                       "'" + entry.0 + "': " + Repr(entry.1))) + "}"
  }

  /** `", ".join(parts)`. */
  function Join(parts: seq<string>): string {
    if |parts| == 0 then ""
    else if |parts| == 1 then parts[0]
    else parts[0] + ", " + Join(parts[1..])
  }

  function DigitChar(d: nat): char
    requires d < 10
  {
    "0123456789"[d]
  }

  /** Decimal digits of `n` without leading zeros, as `str(n)` writes them. */
  function NatToString(n: nat): (s: string)
    ensures |s| > 0
  {
    if n < 10 then [DigitChar(n)] else NatToString(n / 10) + [DigitChar(n % 10)]
  }

  /** `str(i)` for a Python int. */
  function IntToString(i: int): string {
    if i < 0 then "-" + NatToString(-i) else NatToString(i)
  }

  predicate IsDigits(s: string) {
    forall k :: 0 <= k < |s| ==> '0' <= s[k] <= '9'
  }

  /** The number a string of decimal digits denotes. */
  function DigitsValue(s: string): int {
    if |s| == 0 then 0
    else DigitsValue(s[..|s| - 1]) * 10 + (s[|s| - 1] as int - '0' as int)
  }

  /** The integer an optionally signed decimal numeral denotes. */
  function DecimalValue(s: string): Option<int> {
    if |s| > 1 && s[0] == '-' && IsDigits(s[1..]) then Some(-DigitsValue(s[1..]))
    else if |s| > 0 && IsDigits(s) then Some(DigitsValue(s))
    else None
  }

  /** The digits of `n` denote `n`. */
  lemma {:induction false} NatToStringDenotes(n: nat)
    ensures IsDigits(NatToString(n))
    ensures DigitsValue(NatToString(n)) == n
  {
    if n >= 10 {
      NatToStringDenotes(n / 10);
      var s := NatToString(n);
      assert s[..|s| - 1] == NatToString(n / 10);
    }
  }

  /** `str(i)` loses nothing: reading the numeral back gives `i`. */
  lemma IntToStringDenotes(i: int)
    ensures DecimalValue(IntToString(i)) == Some(i)
  {
    var s := IntToString(i);
    if i < 0 {
      NatToStringDenotes(-i);
      assert s == "-" + NatToString(-i);
      assert s[1..] == NatToString(-i);
      assert |s| > 1 && s[0] == '-';
    } else {
      NatToStringDenotes(i);
      assert s == NatToString(i);
      assert '0' <= s[0] <= '9';
    }
  }
}
