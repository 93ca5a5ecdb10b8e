/**
 * The error identities of errors.go and the fixed table from the gateway's
 * numeric API error codes to them. Go compares these errors by identity, so
 * each `var` becomes one constructor; the table is a read-only map.
 */
module Errors {
  import opened Wrappers

  datatype ErrorKind =
    // Delivery-receipt detail errors (errors.go:9-33).
    | NoNetworkDetails | MessageDetailsWrong | PermOperator | TempOperator
    | PermAbsentSub | TempAbsentSub | PermPhone | TempPhone
    // Gateway API errors (errors.go:39-208).
    | Internal | InvalidUsernamePassword | InsufficientCredit | AuthFail
    | InvalidMsgType | MissingTo | MissingContent | MissingMessageID
    | UnknownMessageID | InvalidTo | InvalidFrom | MessageTooLong
    | RoutingMessage | MessageExpired | NoRoute | MissingURL
    | InvalidSourceIP | MissingUDH | InvalidServType | InvalidExpiryTime
    | DuplicateClientID | InvalidTimeStamp | InvalidAbsExpiry | InvalidDlrType
    | InvalidConcat | InvalidUniqueID | ClientIDRequired | InvalidCharInContent
    | InvalidTextPayload | InvalidHexPayload | InvalidBase64Payload
    | MissingContentType | MissingID | MMSMessageTooLarge | InvalidPayloadID
    | DuplicatePayloadID | NoPayloadOnMMS | DuplicateFileName | MissingItemID
    | InvalidItemID | GenerateFileName | InvalidCharAction | InvalidDlrEnroute
    | InvalidTruncate | InvalidLong | NoAPIKey | InvalidAPIKey | MustUseAPIKeys
    | BlockedSpam | InvalidXML | InvalidXMLDoc | LongClientID | RateExceeded
    // Client-side errors of this package (errors.go:210-214).
    | StatusCode | Unknown
    // Errors that come from outside the package: a *strconv.NumError from
    // Atoi or ParseFloat, and whatever the HTTP doer or the body read returns.
    | ParseError | TransportError

  /** The eight errors that explain a failed delivery. */
  predicate IsDeliveryError(e: ErrorKind)
  {
    e.NoNetworkDetails? || e.MessageDetailsWrong? || e.PermOperator? || e.TempOperator? ||
    e.PermAbsentSub? || e.TempAbsentSub? || e.PermPhone? || e.TempPhone?
  }

  /**
   * errorMap, read as the two-valued lookup `err, ok := errorMap[c]`: the
   * entry for a code of the table, None for any other code.
   */
  function ErrorMap(c: int): Option<ErrorKind>
  {
    match c
    case 1 => Some(Internal)
    case 2 => Some(InvalidUsernamePassword)
    case 3 => Some(InsufficientCredit)
    case 4 => Some(AuthFail)
    case 5 => Some(InvalidMsgType)
    case 6 => Some(MissingTo)
    case 7 => Some(MissingContent)
    case 8 => Some(MissingMessageID)
    case 9 => Some(UnknownMessageID)
    case 10 => Some(InvalidTo)
    case 11 => Some(InvalidFrom)
    case 12 => Some(MessageTooLong)
    case 13 => Some(RoutingMessage)
    case 14 => Some(MessageExpired)
    case 15 => Some(NoRoute)
    case 16 => Some(MissingURL)
    case 17 => Some(InvalidSourceIP)
    case 18 => Some(MissingUDH)
    case 19 => Some(InvalidServType)
    case 20 => Some(InvalidExpiryTime)
    case 25 => Some(DuplicateClientID)
    case 26 => Some(Internal)
    case 27 => Some(InvalidTimeStamp)
    case 28 => Some(InvalidAbsExpiry)
    case 29 => Some(InvalidDlrType)
    case 31 => Some(InvalidConcat)
    case 32 => Some(InvalidUniqueID)
    case 33 => Some(ClientIDRequired)
    case 39 => Some(InvalidCharInContent)
    case 40 => Some(InvalidTextPayload)
    case 41 => Some(InvalidHexPayload)
    case 42 => Some(InvalidBase64Payload)
    case 43 => Some(MissingContentType)
    case 44 => Some(MissingID)
    case 45 => Some(MMSMessageTooLarge)
    case 46 => Some(InvalidPayloadID)
    case 47 => Some(DuplicatePayloadID)
    case 48 => Some(NoPayloadOnMMS)
    case 49 => Some(DuplicateFileName)
    case 50 => Some(MissingItemID)
    case 51 => Some(InvalidItemID)
    case 52 => Some(GenerateFileName)
    case 53 => Some(InvalidCharAction)
    case 54 => Some(InvalidDlrEnroute)
    case 55 => Some(InvalidTruncate)
    case 56 => Some(InvalidLong)
    case 57 => Some(NoAPIKey)
    case 58 => Some(InvalidAPIKey)
    case 59 => Some(MustUseAPIKeys)
    case 60 => Some(BlockedSpam)
    case 100 => Some(Internal)
    case 101 => Some(Internal)
    case 102 => Some(InvalidXML)
    case 103 => Some(InvalidXMLDoc)
    case 300 => Some(LongClientID)
    case 305 => Some(RateExceeded)
    case _ => None
  }

  /** The codes the gateway documents, as the ranges they fall in. */
  predicate IsDocumentedCode(c: int)
  {
    (1 <= c <= 20) || (25 <= c <= 29) || (31 <= c <= 33) || (39 <= c <= 60) ||
    (100 <= c <= 103) || c == 300 || c == 305
  }

  /**
   * errorFromCode: the table's entry, or Unknown for any code it lacks. The
   * result is never nil, never the status-code error and never one of the
   * delivery-receipt errors.
   */
  function ErrorFromCode(c: int): (e: ErrorKind)
    ensures e == Unknown <==> !IsDocumentedCode(c)
    ensures !IsDeliveryError(e) && e != StatusCode && e != ParseError && e != TransportError
  {
    match ErrorMap(c)
    case Some(err) => err
    case None => Unknown
  }

  /** Every code of the table is looked up to exactly its entry. */
  lemma ErrorFromCodeInTable(c: int)
    requires ErrorMap(c).Some?
    ensures ErrorFromCode(c) == ErrorMap(c).value && IsDocumentedCode(c)
  {
  }

  /** The table's keys are the documented ranges, no more and no fewer. */
  lemma TableKeysAreDocumented(c: int)
    ensures ErrorMap(c).Some? <==> IsDocumentedCode(c)
  {
  }

  /**
   * The codes that lead to each error, read off the table the other way
   * round; `Unknown` is reached exactly outside the table.
   */
  function CodesOf(e: ErrorKind): set<int>
  {
    match e
    case Internal => {1, 26, 100, 101}
    case InvalidUsernamePassword => {2}
    case InsufficientCredit => {3}
    case AuthFail => {4}
    case InvalidMsgType => {5}
    case MissingTo => {6}
    case MissingContent => {7}
    case MissingMessageID => {8}
    case UnknownMessageID => {9}
    case InvalidTo => {10}
    case InvalidFrom => {11}
    case MessageTooLong => {12}
    case RoutingMessage => {13}
    case MessageExpired => {14}
    case NoRoute => {15}
    case MissingURL => {16}
    case InvalidSourceIP => {17}
    case MissingUDH => {18}
    case InvalidServType => {19}
    case InvalidExpiryTime => {20}
    case DuplicateClientID => {25}
    case InvalidTimeStamp => {27}
    case InvalidAbsExpiry => {28}
    case InvalidDlrType => {29}
    case InvalidConcat => {31}
    case InvalidUniqueID => {32}
    case ClientIDRequired => {33}
    case InvalidCharInContent => {39}
    case InvalidTextPayload => {40}
    case InvalidHexPayload => {41}
    case InvalidBase64Payload => {42}
    case MissingContentType => {43}
    case MissingID => {44}
    case MMSMessageTooLarge => {45}
    case InvalidPayloadID => {46}
    case DuplicatePayloadID => {47}
    case NoPayloadOnMMS => {48}
    case DuplicateFileName => {49}
    case MissingItemID => {50}
    case InvalidItemID => {51}
    case GenerateFileName => {52}
    case InvalidCharAction => {53}
    case InvalidDlrEnroute => {54}
    case InvalidTruncate => {55}
    case InvalidLong => {56}
    case NoAPIKey => {57}
    case InvalidAPIKey => {58}
    case MustUseAPIKeys => {59}
    case BlockedSpam => {60}
    case InvalidXML => {102}
    case InvalidXMLDoc => {103}
    case LongClientID => {300}
    case RateExceeded => {305}
    case _ => {}
  }

  /** The lookup and the inverse table agree on every code and every error. */
  lemma ErrorFromCodeInverse(c: int, e: ErrorKind)
    requires e != Unknown
    ensures ErrorFromCode(c) == e <==> c in CodesOf(e)
  {
    if ErrorFromCode(c) == e {
      LookupInCodes(c);
    }
    if c in CodesOf(e) {
      CodesAreLookedUp(c, e);
    }
  }

  /** Each code of the table is among the codes of its entry. */
  lemma LookupInCodes(c: int)
    requires ErrorMap(c).Some?
    ensures c in CodesOf(ErrorMap(c).value)
  {
  }

  /** Each code listed for an error looks that error up. */
  lemma CodesAreLookedUp(c: int, e: ErrorKind)
    requires c in CodesOf(e)
    ensures ErrorFromCode(c) == e
  {
    CodesInTable(c, e);
  }

  /** Each code listed for an error is the table's key for it. */
  lemma CodesInTable(c: int, e: ErrorKind)
    requires c in CodesOf(e)
    ensures ErrorMap(c) == Some(e)
  {
    if InPart0(e) { CodesInTablePart0(c, e); }
    else if InPart1(e) { CodesInTablePart1(c, e); }
    else if InPart2(e) { CodesInTablePart2(c, e); }
    else if InPart3(e) { CodesInTablePart3(c, e); }
    else if InPart4(e) { CodesInTablePart4(c, e); }
    else if InPart5(e) { CodesInTablePart5(c, e); }
    else if InPart6(e) { CodesInTablePart6(c, e); }
    else if InPart7(e) { CodesInTablePart7(c, e); }
    else if InPart8(e) { CodesInTablePart8(c, e); }
  }

  /** Rows 1 to 6 of the inverse table: the errors with codes 1, 2, 3, 4, 5, 6, 26, 100, 101. */
  predicate InPart0(e: ErrorKind) { e.Internal? || e.InvalidUsernamePassword? || e.InsufficientCredit? || e.AuthFail? || e.InvalidMsgType? || e.MissingTo? }

  lemma CodesInTablePart0(c: int, e: ErrorKind)
    requires InPart0(e) && c in CodesOf(e)
    ensures ErrorMap(c) == Some(e)
  {
  }

  /** Rows 7 to 12 of the inverse table: the errors with codes 7, 8, 9, 10, 11, 12. */
  predicate InPart1(e: ErrorKind) { e.MissingContent? || e.MissingMessageID? || e.UnknownMessageID? || e.InvalidTo? || e.InvalidFrom? || e.MessageTooLong? }

  lemma CodesInTablePart1(c: int, e: ErrorKind)
    requires InPart1(e) && c in CodesOf(e)
    ensures ErrorMap(c) == Some(e)
  {
  }

  /** Rows 13 to 18 of the inverse table: the errors with codes 13, 14, 15, 16, 17, 18. */
  predicate InPart2(e: ErrorKind) { e.RoutingMessage? || e.MessageExpired? || e.NoRoute? || e.MissingURL? || e.InvalidSourceIP? || e.MissingUDH? }

  lemma CodesInTablePart2(c: int, e: ErrorKind)
    requires InPart2(e) && c in CodesOf(e)
    ensures ErrorMap(c) == Some(e)
  {
  }

  /** Rows 19 to 24 of the inverse table: the errors with codes 19, 20, 25, 27, 28, 29. */
  predicate InPart3(e: ErrorKind) { e.InvalidServType? || e.InvalidExpiryTime? || e.DuplicateClientID? || e.InvalidTimeStamp? || e.InvalidAbsExpiry? || e.InvalidDlrType? }

  lemma CodesInTablePart3(c: int, e: ErrorKind)
    requires InPart3(e) && c in CodesOf(e)
    ensures ErrorMap(c) == Some(e)
  {
  }

  /** Rows 25 to 30 of the inverse table: the errors with codes 31, 32, 33, 39, 40, 41. */
  predicate InPart4(e: ErrorKind) { e.InvalidConcat? || e.InvalidUniqueID? || e.ClientIDRequired? || e.InvalidCharInContent? || e.InvalidTextPayload? || e.InvalidHexPayload? }

  lemma CodesInTablePart4(c: int, e: ErrorKind)
    requires InPart4(e) && c in CodesOf(e)
    ensures ErrorMap(c) == Some(e)
  {
  }

  /** Rows 31 to 36 of the inverse table: the errors with codes 42, 43, 44, 45, 46, 47. */
  predicate InPart5(e: ErrorKind) { e.InvalidBase64Payload? || e.MissingContentType? || e.MissingID? || e.MMSMessageTooLarge? || e.InvalidPayloadID? || e.DuplicatePayloadID? }

  lemma CodesInTablePart5(c: int, e: ErrorKind)
    requires InPart5(e) && c in CodesOf(e)
    ensures ErrorMap(c) == Some(e)
  {
  }

  /** Rows 37 to 42 of the inverse table: the errors with codes 48, 49, 50, 51, 52, 53. */
  predicate InPart6(e: ErrorKind) { e.NoPayloadOnMMS? || e.DuplicateFileName? || e.MissingItemID? || e.InvalidItemID? || e.GenerateFileName? || e.InvalidCharAction? }

  lemma CodesInTablePart6(c: int, e: ErrorKind)
    requires InPart6(e) && c in CodesOf(e)
    ensures ErrorMap(c) == Some(e)
  {
  }

  /** Rows 43 to 48 of the inverse table: the errors with codes 54, 55, 56, 57, 58, 59. */
  predicate InPart7(e: ErrorKind) { e.InvalidDlrEnroute? || e.InvalidTruncate? || e.InvalidLong? || e.NoAPIKey? || e.InvalidAPIKey? || e.MustUseAPIKeys? }

  lemma CodesInTablePart7(c: int, e: ErrorKind)
    requires InPart7(e) && c in CodesOf(e)
    ensures ErrorMap(c) == Some(e)
  {
  }

  /** Rows 49 to 53 of the inverse table: the errors with codes 60, 102, 103, 300, 305. */
  predicate InPart8(e: ErrorKind) { e.BlockedSpam? || e.InvalidXML? || e.InvalidXMLDoc? || e.LongClientID? || e.RateExceeded? }

  lemma CodesInTablePart8(c: int, e: ErrorKind)
    requires InPart8(e) && c in CodesOf(e)
    ensures ErrorMap(c) == Some(e)
  {
  }


  /** The table is not injective: exactly four codes mean an internal error. */
  lemma InternalCodes(c: int)
    ensures ErrorFromCode(c) == Internal <==> c in {1, 26, 100, 101}
  {
    ErrorFromCodeInverse(c, Internal);
  }

  /** Named codes the gateway uses in its replies. */
  lemma WellKnownCodes()
    ensures ErrorFromCode(10) == InvalidTo
    ensures ErrorFromCode(58) == InvalidAPIKey
    ensures ErrorFromCode(0) == Unknown && ErrorFromCode(-1) == Unknown
    ensures forall c :: 21 <= c <= 24 || c == 30 || 34 <= c <= 38 ==> ErrorFromCode(c) == Unknown
    ensures forall c :: 61 <= c <= 99 || 104 <= c <= 299 ==> ErrorFromCode(c) == Unknown
  {
  }

  /** The argument checks of DeliveryReceiptListen fail with these. */
  datatype ListenError = CallbackIsNil | PathIsEmpty
}
