/**
 * clockwork.go, the two request helpers: DoSendRequestHelper and
 * DoCreditRequestHelper. The HTTP exchange is a parameter, the reply the
 * Doer produced; each helper turns a reply other than 200 OK into
 * ErrStatusCode without looking at its body, and hands the body of a 200
 * reply to its parser.
 */
module Client {
  import opened Wrappers
  import opened Errors
  import opened GoText
  import opened SendOptions
  import opened SendResponse
  import opened CreditResponse

  /** The only status the helpers accept. */
  const StatusOK: int := 200

  /**
   * What the Doer gave back: an error (DoFailed), neither an error nor a
   * response (NoResponse, a nil *http.Response with a nil error), or a
   * response with its status code and its body as ioutil.ReadAll read it
   * (None when reading failed).
   */
  datatype HttpReply =
    | DoFailed
    | NoResponse
    | Reply(status: int, body: Option<string>)

  /** A response with a status other than 200. */
  predicate BadStatus(reply: HttpReply)
  {
    reply.Reply? && reply.status != StatusOK
  }

  /** A reply whose body the helper parses: status 200 and a body that could be read. */
  predicate Parsed(reply: HttpReply)
  {
    reply.Reply? && reply.status == StatusOK && reply.body.Some?
  }

  /**
   * DoSendRequestHelper: the query carries the options of the SMS and, under
   * "Key", the API key; a failed exchange or an unreadable body gives that
   * error, a status other than 200 gives ErrStatusCode, and a 200 reply is
   * what parseSendResponseBody makes of its lines. ErrStatusCode comes from
   * the status alone, and a transport error only from the exchange. With
   * no response and no error the status check dereferences nil and panics.
   */
  method DoSendRequestHelper(key: string, sms: SMS, reply: HttpReply) returns (sent: Query, outcome: SendOutcome)
    ensures Key in sent && sent[Key] == key && |sent| == |SetOptions(sms)| + 1
    ensures forall p :: p != Key ==> (p in sent <==> p in SetOptions(sms))
    ensures forall p :: p != Key && p in sent ==> sent[p] == SetOptions(sms)[p]
    ensures reply.DoFailed? ==> outcome == Returned(None, Some(TransportError))
    ensures reply.NoResponse? ==> outcome == Panicked
    ensures BadStatus(reply) ==> outcome == Returned(None, Some(StatusCode))
    ensures reply.Reply? && reply.status == StatusOK && reply.body.None? ==> outcome == Returned(None, Some(TransportError))
    ensures Parsed(reply) ==> outcome == Outcome(Lines(reply.body.value))
    ensures outcome == Returned(None, Some(StatusCode)) <==> BadStatus(reply)
    ensures outcome == Returned(None, Some(TransportError)) <==> !Parsed(reply) && !reply.NoResponse? && !BadStatus(reply)
  {
    var m := SetOptions(sms);
    OptionsLeaveKeyFree(sms);
    m := m[Key := key];
    sent := m;
    match reply {
      case DoFailed =>
        outcome := Returned(None, Some(TransportError));
      case NoResponse =>
        outcome := Panicked;
      case Reply(status, body) =>
        if status != StatusOK {
          outcome := Returned(None, Some(StatusCode));
        } else if body.None? {
          outcome := Returned(None, Some(TransportError));
        } else {
          outcome := ParseSendResponseBody(body.value);
          OutcomeErrors(Lines(body.value));
        }
    }
  }

  /**
   * DoCreditRequestHelper: the same gate in front of parseCreditResponseBody.
   * A balance comes only from a 200 reply with a readable body, and is then
   * the parsed balance; ErrStatusCode comes exactly from a status other
   * than 200, a transport error exactly from a failed exchange or read, and
   * the nil-pointer panic exactly from neither a response nor an error.
   */
  function DoCreditRequestHelper(reply: HttpReply): (r: CreditOutcome)
    ensures r.Balance? ==> Parsed(reply) && r == ParseCreditResponseBody(reply.body.value)
    ensures r == CreditFailed(StatusCode) <==> BadStatus(reply)
    ensures r == CreditFailed(TransportError) <==> !Parsed(reply) && !reply.NoResponse? && !BadStatus(reply)
    ensures r.CreditPanicked? <==> reply.NoResponse?
  {
    match reply
    case DoFailed => CreditFailed(TransportError)
    case NoResponse => CreditPanicked
    case Reply(status, body) =>
      if status != StatusOK then CreditFailed(StatusCode)
      else if body.None? then CreditFailed(TransportError)
      else
        CreditErrors(body.value);
        ParseCreditResponseBody(body.value)
  }

  /** A 200 reply with a readable body is handed to the parser unchanged. */
  lemma CreditParsed(reply: HttpReply)
    requires Parsed(reply)
    ensures DoCreditRequestHelper(reply) == ParseCreditResponseBody(reply.body.value)
  {
  }
}
