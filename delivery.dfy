/**
 * delivery.go: the delivery states, the two lookup tables that decode a
 * delivery-receipt notification, the decoding done by ReceiptHandler.ServeHTTP
 * and the argument checks of DeliveryReceiptListen.
 */
module Delivery {
  import opened Wrappers
  import opened GoText
  import opened GoTime
  import opened Errors

  /** DeliveryState is a byte; the documented states are its values 0 to 8. */
  newtype DeliveryState = b: int | 0 <= b < 256

  const Queued: DeliveryState := 0
  const Enroute: DeliveryState := 1
  const Delivered: DeliveryState := 2
  const Expired: DeliveryState := 3
  const Deleted: DeliveryState := 4
  const Undelivered: DeliveryState := 5
  const Accepted: DeliveryState := 6
  const Unknown: DeliveryState := 7
  const Rejected: DeliveryState := 8

  /** The debug value toDeliveryState returns for a status it does not know. */
  const Unrecognised: DeliveryState := 126

  predicate IsNamedState(d: DeliveryState) { d <= Rejected }

  /** The gateway's status words, indexed by the state each one denotes. */
  const StatusWords: seq<string> :=
    ["QUEUED", "ENROUTE", "DELIVRD", "EXPIRED", "DELETED", "UNDELIV", "ACCEPTD", "UNKNOWN", "REJECTD"]

  /** The names String gives the states, indexed the same way. */
  const StateNames: seq<string> :=
    ["Queued", "Enroute", "Delivered", "Expired", "Deleted", "Undelivered", "Accepted", "Unknown", "Rejected"]

  /**
   * DeliveryState.String: a named state's name, "!ERROR!" for every other
   * byte value.
   */
  function StateString(d: DeliveryState): (name: string)
    ensures IsNamedState(d) ==> name == StateNames[d as int]
    ensures !IsNamedState(d) ==> name == "!ERROR!"
  {
    if d == Queued then "Queued"
    else if d == Enroute then "Enroute"
    else if d == Delivered then "Delivered"
    else if d == Expired then "Expired"
    else if d == Deleted then "Deleted"
    else if d == Undelivered then "Undelivered"
    else if d == Accepted then "Accepted"
    else if d == Unknown then "Unknown"
    else if d == Rejected then "Rejected"
    else "!ERROR!"
  }

  /**
   * toDeliveryState: each of the nine status words selects its own state;
   * anything else, however close, gives the debug value 126, which is not
   * the state Unknown.
   */
  function ToDeliveryState(s: string): (d: DeliveryState)
    ensures IsNamedState(d) <==> s in StatusWords
    ensures IsNamedState(d) ==> StatusWords[d as int] == s
    ensures !IsNamedState(d) ==> d == Unrecognised
  {
    if s == "QUEUED" then Queued
    else if s == "ENROUTE" then Enroute
    else if s == "DELIVRD" then Delivered
    else if s == "EXPIRED" then Expired
    else if s == "DELETED" then Deleted
    else if s == "UNDELIV" then Undelivered
    else if s == "ACCEPTD" then Accepted
    else if s == "UNKNOWN" then Unknown
    else if s == "REJECTD" then Rejected
    else Unrecognised
  }

  /** Every status word decodes to the state at its own index. */
  lemma StatusWordsDecode(k: nat)
    requires k < |StatusWords|
    ensures ToDeliveryState(StatusWords[k]) == k as DeliveryState
  {
  }

  /** A decoded status has a printable name exactly when the gateway sent one of its words. */
  lemma DecodedStateName(s: string)
    ensures StateString(ToDeliveryState(s)) == "!ERROR!" <==> s !in StatusWords
  {
    var d := ToDeliveryState(s);
    if IsNamedState(d) {
      assert StateNames[d as int] != "!ERROR!";
    }
  }

  /** The detail codes the gateway sends, with the error each one explains. */
  const DetailCodes: seq<string> := ["2", "3", "4", "5", "6", "9", "10"]
  const DetailErrors: seq<ErrorKind> :=
    [MessageDetailsWrong, PermOperator, TempOperator, PermAbsentSub, TempAbsentSub, PermPhone, TempPhone]

  /**
   * errorFromDetailCode: the seven known detail codes give their errors;
   * every other string, "0".."1", "7", "8" and the empty one among them,
   * gives no error at all, and ErrNoNetworkDetails is never produced.
   */
  function ErrorFromDetailCode(code: string): (e: Option<ErrorKind>)
    ensures e.Some? <==> code in DetailCodes
    ensures e.Some? ==> exists k :: 0 <= k < |DetailCodes| && DetailCodes[k] == code && DetailErrors[k] == e.value
    ensures e.Some? ==> IsDeliveryError(e.value) && e.value != NoNetworkDetails
  {
    if code == "2" then Some(MessageDetailsWrong)
    else if code == "3" then Some(PermOperator)
    else if code == "4" then Some(TempOperator)
    else if code == "5" then Some(PermAbsentSub)
    else if code == "6" then Some(TempAbsentSub)
    else if code == "9" then Some(PermPhone)
    else if code == "10" then Some(TempPhone)
    else None
  }

  /** Distinct detail codes explain distinct failures. */
  lemma DetailCodesInjective(a: string, b: string)
    requires ErrorFromDetailCode(a).Some? && ErrorFromDetailCode(a) == ErrorFromDetailCode(b)
    ensures a == b
  {
  }

  // ---------------------------------------------------------------------------
  // Receipts

  /** A delivery receipt handed to the callback. */
  datatype Receipt = Receipt(id: string, to: string, status: DeliveryState, time: Time, err: Option<ErrorKind>)

  /** url.Values: each key with the values given for it. */
  type Values = map<string, seq<string>>

  /** What net/url's parsers produce: every key present carries at least one value. */
  predicate WellFormed(vals: Values)
  {
    forall k :: k in vals ==> |vals[k]| > 0
  }

  /**
   * An incoming notification as the handler sees it: its HTTP method, the
   * decoded query string of its URL, and the decoded form of its body
   * (None when reading the body or parsing it failed).
   */
  datatype Request = Request(verb: string, query: Values, form: Option<Values>)

  /** The first value of a key, or "" when the key is absent. */
  function FirstValue(vals: Values, key: string): string
    requires WellFormed(vals)
  {
    if key in vals then vals[key][0] else ""
  }

  /**
   * The receipt a parameter set stands for: `msg_id` and `to` copied, `status`
   * through toDeliveryState, `detail` through errorFromDetailCode; an absent
   * key leaves the zero value ("", Queued, no error). The time is the
   * capture time.
   */
  function DecodeReceipt(vals: Values, now: Time): Receipt
    requires WellFormed(vals)
  {
    Receipt(FirstValue(vals, "msg_id"), FirstValue(vals, "to"),
            if "status" in vals then ToDeliveryState(vals["status"][0]) else Queued,
            now,
            if "detail" in vals then ErrorFromDetailCode(vals["detail"][0]) else None)
  }

  /** The parameters the handler reads: the query for GET, the form for POST, none otherwise. */
  function RequestValues(r: Request): Values
  {
    if r.verb == "GET" then r.query
    else if r.verb == "POST" && r.form.Some? then r.form.value
    else map[]
  }

  /**
   * ReceiptHandler.ServeHTTP: gathers the parameters, drops the
   * notification when there are none (or the POST body could not be read or
   * parsed), and otherwise builds the receipt field by field. The result is
   * the receipt the callback is invoked with, or None when it is not invoked.
   */
  method ServeHTTP(r: Request, now: Time) returns (delivered: Option<Receipt>)
    requires WellFormed(r.query)
    requires r.form.Some? ==> WellFormed(r.form.value)
    ensures delivered.None? <==> |RequestValues(r)| == 0
    ensures delivered.Some? ==> delivered.value == DecodeReceipt(RequestValues(r), now)
  {
    var vals: Values := map[];
    if r.verb == "GET" {
      vals := r.query;
    }
    if r.verb == "POST" {
      if r.form.None? {
        return None;
      }
      vals := r.form.value;
    }
    if |vals| == 0 {
      return None;
    }
    var receipt := Receipt("", "", Queued, ZeroTime, None);
    if "msg_id" in vals {
      receipt := receipt.(id := vals["msg_id"][0]);
    }
    if "to" in vals {
      receipt := receipt.(to := vals["to"][0]);
    }
    if "status" in vals {
      receipt := receipt.(status := ToDeliveryState(vals["status"][0]));
    }
    if "detail" in vals {
      receipt := receipt.(err := ErrorFromDetailCode(vals["detail"][0]));
    }
    receipt := receipt.(time := now);
    return Some(receipt);
  }

  /** The notification the gateway sends for a delivered message decodes to a clean receipt. */
  lemma DeliveredNotification(now: Time)
    ensures var vals: Values := map["msg_id" := ["LA_424242"], "status" := ["DELIVRD"],
                                     "detail" := ["0"], "to" := ["441234567890"]];
      DecodeReceipt(vals, now) == Receipt("LA_424242", "441234567890", Delivered, now, None)
  {
  }

  /**
   * A receipt does not tell an absent status from a queued one, nor an absent
   * detail from an unknown detail code.
   */
  lemma ZeroFieldsAmbiguous(now: Time)
    ensures DecodeReceipt(map["to" := ["1"]], now) == DecodeReceipt(map["to" := ["1"], "status" := ["QUEUED"]], now)
    ensures DecodeReceipt(map["to" := ["1"]], now) == DecodeReceipt(map["to" := ["1"], "detail" := ["7"]], now)
  {
  }

  // ---------------------------------------------------------------------------
  // DeliveryReceiptListen

  /** The handler's configuration; the callback is modelled by whether it is set. */
  datatype ReceiptHandler = ReceiptHandler(path: string, port: int, hasCallback: bool)

  datatype ListenOutcome =
    | Refused(err: ListenError)
    | Serving(pattern: string, addr: string)   // the mux pattern and the ":port" address

  /**
   * DeliveryReceiptListen before it blocks in ListenAndServe: a nil callback
   * is refused first, then an empty path; otherwise the handler is registered
   * on its path and the server listens on ":<port>".
   */
  function DeliveryReceiptListen(rh: ReceiptHandler): (r: ListenOutcome)
    ensures r.Serving? <==> rh.hasCallback && rh.path != ""
    ensures !rh.hasCallback ==> r == Refused(CallbackIsNil)
    ensures rh.hasCallback && rh.path == "" ==> r == Refused(PathIsEmpty)
    ensures r.Serving? ==> r.pattern == rh.path && r.addr == ":" + Itoa(rh.port)
  {
    if !rh.hasCallback then Refused(CallbackIsNil)
    else if rh.path == "" then Refused(PathIsEmpty)
    else Serving(rh.path, ":" + Itoa(rh.port))
  }
}
