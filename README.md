# clockwork, modelled in Dafny

A model of the core of `clockwork`, a Go client for the Clockwork SMS gateway. The model covers five parts:

- **Gateway error table** (`errors.go`). `errorMap` maps the gateway's numeric codes to the package's error values. `errorFromCode` looks a code up and falls back to `ErrUnknown`.
- **Send-response parser** (`parseSendResponseBody`). It scans the reply to a `/send` call line by line:
  - a line with `Error` and `To:` flags a rejected recipient;
  - a line with `Error` alone stops the scan with the error of its code;
  - any other line records `<number> -> {"ID": <id>}`.
- **Credit-response parser** (`parseCreditResponseBody`). It reads `Balance: <amount> (<code>)`, or the error of an `Error <code>` reply.
- **Request helpers**. `smsSetOptions` and `formatTime` build the query of a `/send` request. `DoSendRequestHelper` and `DoCreditRequestHelper` reject any status other than 200 before parsing.
- **Delivery receipts** (`delivery.go`):
  - the delivery states and their names;
  - the two tables that decode the `status` and `detail` parameters of a notification;
  - `ReceiptHandler.ServeHTTP`;
  - the argument checks of `DeliveryReceiptListen`.

Each file is one module:

| file | module | contents |
|---|---|---|
| `wrappers.dfy` | `Wrappers` | `Option` |
| `gotext.dfy` | `GoText` | the parts of Go's `strings`, `strconv`, `bufio` and `fmt` that the core relies on |
| `gotime.dfy` | `GoTime` | `time.Time` by its calendar fields |
| `tokens.dfy` | `Tokens` | the five regular expressions, as leftmost-first scanners with RE2's greedy semantics |
| `errors.dfy` | `Errors` | `errors.go` |
| `delivery.dfy` | `Delivery` | `delivery.go` |
| `sendresponse.dfy` | `SendResponse` | `parseSendResponseBody` |
| `credit.dfy` | `CreditResponse` | `parseCreditResponseBody` |
| `sendoptions.dfy` | `SendOptions` | `smsSetOptions`, `formatTime` |
| `client.dfy` | `Client` | the two request helpers |

The form follows the source:

- `ParseSendResponseBody` is a method with the scan loop. Its loop invariant keeps the flag and the map equal to a specification function of the lines scanned so far. Its postcondition ties the result to `Outcome(Lines(body))`, and the properties of the parser are proved as lemmas about `Outcome`.
- `ServeHTTP` is a method that fills the receipt field by field.
- `DoSendRequestHelper` is a method that adds the key to the option map.
- The rest of the core computes values, and is modelled by functions and lemmas.

Behaviours of the code that the model keeps:

- **One-digit codes.** The code pattern `([0-9])\w+` needs at least two characters. So a gateway error with a one-digit code (`Error 2: ...`) finds no code, as long as its message holds no digit followed by a word character. `strconv.Atoi("")` then fails, and the parser returns Atoi's error (`ParseError` here), not the code's error (`OneDigitCode`, `OneDigitCodeReply`). If the message does hold a number of two or more digits, the first one is taken for the code: `Error 2: limit 10 reached` gives `ErrInvalidTo` (`OneDigitCodeTakesLaterNumber`, `LimitReachedIsInvalidTo`). The code is followed here, not a plain scan of digits.
- **Malformed lines panic.** A line with neither `Error` nor a recipient and an id is indexed at `strings.Split("", " ")[1]`. That is index 1 of a one-element slice, so the parser panics. This is the `Panicked` outcome; a blank line in the middle of a reply triggers it (`BlankLinePanics`).
- **Amounts are exact.** `ParseFloat` is modelled as an exact decimal, `Decimal(mantissa, scale)`. The model therefore proves the exact value read from every well-formed balance.
- **Unknown status words.** `toDeliveryState` returns the debug value 126 for a word it does not know, not `Unknown`.
- **Unknown detail codes.** `errorFromDetailCode` returns no error for codes it does not list, and never returns `ErrNoNetworkDetails`.
- **Fixed-width integers.**
  - Go's `int` is 64 bits. `Atoi` fails beyond that range.
  - `Truncate - 1` wraps at the smallest int (`Dec64`).
  - `expiry` is a `time.Duration` in nanoseconds. `Expiry.Minutes() > 10` is modelled as the exact comparison `expiry > 10 * time.Minute`.

Inputs from the outside world are parameters:

- The reply of the HTTP `Doer` (`Client.HttpReply`). It includes a nil response with a nil error: the helpers guard only the deferred `Close` against nil, and then read `resp.StatusCode`, so they panic.
- The incoming request of `ServeHTTP`, as its method, decoded query and decoded form.
- The capture time of a receipt.

## Model

| member | source | states |
|---|---|---|
| Errors.ErrorFromCode | errors.go:285-294 | The result is `ErrUnknown` exactly for codes outside the documented ranges. It is never a delivery error, `ErrStatusCode`, a parse error or a transport error. |
| Errors.ErrorMap | errors.go:220-283 | The table itself, read as the lookup `err, ok := errorMap[c]`. It has no contract of its own: `ErrorFromCodeInTable`, `TableKeysAreDocumented`, `ErrorFromCodeInverse`, `CodesInTable` and `InternalCodes` state its entries and its key set. |
| Errors.ErrorFromCodeInTable | errors.go:220-294 | A code in the table is looked up to exactly its entry, and lies in the documented ranges. |
| Errors.TableKeysAreDocumented | errors.go:220-283 | The table's keys are exactly the documented ranges 1-20, 25-29, 31-33, 39-60, 100-103, 300 and 305. |
| Errors.ErrorFromCodeInverse | errors.go:220-294 | For every error other than `ErrUnknown`, `errorFromCode(c)` is that error if and only if `c` is one of its codes in the independently written inverse table. |
| Errors.LookupInCodes | errors.go:220-283 | Each key of the table is among the codes listed for its entry. |
| Errors.CodesAreLookedUp | errors.go:285-294 | Each code listed for an error is looked up to that error. |
| Errors.CodesInTable | errors.go:220-283 | Each code listed for an error is a key of the table, with that error as its value. |
| Errors.InternalCodes | errors.go:221-277 | `ErrInternal` is returned for exactly the codes 1, 26, 100 and 101, so the table is not injective. |
| Errors.WellKnownCodes | errors.go:220-294 | Code 10 is `ErrInvalidTo`, 58 is `ErrInvalidAPIKey`. 0, -1 and the gaps between the ranges are `ErrUnknown`. |
| Delivery.StateString | delivery.go:40-63 | A state 0-8 gets its name, at its index in the name list. Every other byte value gets `!ERROR!`. |
| Delivery.ToDeliveryState | delivery.go:158-181 | A named state comes back exactly for one of the nine status words, and that word sits at the state's index. Anything else gives 126. |
| Delivery.StatusWordsDecode | delivery.go:158-181 | Each status word decodes to the state at its own index. |
| Delivery.DecodedStateName | delivery.go:40-63 | A decoded status prints as `!ERROR!` if and only if the gateway's word was not one of the nine. |
| Delivery.ErrorFromDetailCode | delivery.go:187-206 | An error comes back exactly for the seven listed detail codes, and it is the one listed at the code's position. It is always a delivery error and never `ErrNoNetworkDetails`. |
| Delivery.DetailCodesInjective | delivery.go:187-206 | Two detail codes that give the same error are the same code. |
| Delivery.DecodeReceipt | delivery.go:113-130 | The receipt a parameter set stands for. It has no contract of its own: `ServeHTTP` is proved to build exactly this receipt, and `DeliveredNotification` and `ZeroFieldsAmbiguous` state what it gives. |
| Delivery.ServeHTTP | delivery.go:88-139 | The callback is skipped exactly when the request carries no parameters: an empty GET query, a POST form that is empty or could not be read, or any other method. Otherwise the receipt is the decoding of those parameters, with absent keys left at their zero values and the capture time as its time. |
| Delivery.DeliveredNotification | clockwork_test/clockwork_test.go:285 | The tests' notification `msg_id=LA_424242&status=DELIVRD&detail=0&to=441234567890` decodes to a delivered receipt with no error. |
| Delivery.ZeroFieldsAmbiguous | delivery.go:114-129 | A receipt cannot tell an absent status from `QUEUED`, nor an absent detail from an unlisted detail code. |
| Delivery.DeliveryReceiptListen | delivery.go:142-153 | A nil callback is refused first, then an empty path. Otherwise it serves the path on `":<port>"`. |
| SendResponse.Classify | clockwork.go:256-293 | A line that stops on an error never stops with `ErrStatusCode` or a transport error. |
| SendResponse.ClassifyCases | clockwork.go:256-293 | A line is a rejected recipient if and only if it contains both `Error` and `To:`. It is a gateway error if and only if it contains `Error` without `To:`, and that error is the line's code error. It is a success if and only if it lacks `Error` and both the recipient and id patterns match. The recorded values are the pattern matches after their labels. |
| SendResponse.FirstStop | clockwork.go:254-281 | Finds the first line at which the loop returns; no earlier line returns. |
| SendResponse.StopOutcome | clockwork.go:276-281 | The first stopping line decides the result: the error of a gateway error line, or a panic for a malformed line. |
| SendResponse.EndOutcome | clockwork.go:297-304 | Without a stopping line: the map and no error if nothing was rejected, the map and `ErrInvalidTo` if something was rejected and something accepted, and nil and `ErrInvalidTo` if nothing was accepted. |
| SendResponse.Step | clockwork.go:268-293 | One more line extends the map by its recipient (success) or raises the flag (rejection), and changes nothing else. |
| SendResponse.ScanLine | clockwork.go:255-293 | The loop body for one line branches to exactly the line's classification. |
| SendResponse.Outcome | clockwork.go:252-305 | The specification of the parser: the result of the scan over the body's lines. It has no contract of its own: `ParseSendResponseBody` is proved equal to it, and `ReturnedMap`, `SuccessesKeys`, `LastSuccessWins`, `AnyRejectedIff`, `LinesAfterStopIgnored` and `OutcomeErrors` state its properties. |
| SendResponse.ParseSendResponseBody | clockwork.go:247-305 | The scan loop returns exactly `Outcome(Lines(body))`, the outcome of the body's scanned lines. |
| SendResponse.SuccessesKeys | clockwork.go:290-293 | The map holds exactly the recipients of the success lines. |
| SendResponse.LastSuccessWins | clockwork.go:293 | A recipient on several success lines keeps the id of the last one. |
| SendResponse.AnyRejectedIff | clockwork.go:258-269 | The flag is raised if and only if some line names a rejected recipient. |
| SendResponse.LinesAfterStopIgnored | clockwork.go:276-280 | Nothing after the first stopping line changes the outcome. |
| SendResponse.ReturnedMap | clockwork.go:297-304 | A nil map always comes with an error. When a map is returned: no line stopped the scan; its keys are exactly the recipients of the success lines; and there is an error exactly when some line was a rejection. That error is `ErrInvalidTo`, and then the map is non-empty. |
| SendResponse.OutcomeErrors | clockwork.go:247-305 | The parser never reports `ErrStatusCode` or a transport error. |
| SendResponse.EmptyLinePanics | clockwork.go:290-291 | An empty line is malformed. |
| SendResponse.SuccessTextRecipient | clockwork.go:287-290 | On a line `To: <number> ID: <id>`, with a number of two or more digits and an id of word characters that does not contain `Error`, the recipient pattern finds `To: <number>`. |
| SendResponse.SuccessTextId | clockwork.go:288-291 | On such a line the id pattern finds `ID: <id>`. |
| SendResponse.SuccessLineOf | clockwork.go:283-293 | A success line whose id does not contain `Error` records its number with its id. |
| SendResponse.RejectedLineAt | clockwork.go:256-269 | A line containing both `Error` and `To:` flags a rejected recipient. |
| SendResponse.RejectedLineOf | clockwork.go:258-268 | A line `To: <number> Error...` flags a rejected recipient. |
| SendResponse.EmptyReply | clockwork.go:251-304 | An empty body is a success with an empty, non-nil map. |
| SendResponse.BlankLinePanics | clockwork.go:290-291 | A blank line reached before any stopping line panics the parse. |
| SendResponse.OneLineOutcome | clockwork.go:254-304 | The result of a one-line reply, for each of the four line kinds. |
| SendResponse.CodeErrorLine | clockwork.go:270-280 | `Error <digits>:<message>`, with a message that does not contain `To:`, stops the scan with the error of its code. |
| SendResponse.SuccessReply | clockwork.go:283-304 | A reply of one success line (its id not containing `Error`) gives the map of that recipient and no error. |
| SendResponse.RejectedReply | clockwork.go:258-301 | A reply of one rejected recipient gives a nil map and `ErrInvalidTo`. |
| SendResponse.CodeErrorReply | clockwork.go:270-280 | A reply of one gateway error line, its message not containing `To:`, gives a nil map and the code's error. |
| SendResponse.OneValidNumber | clockwork_test/clockwork_test.go:38-75 | `To: 1234567890 ID: VE_439333520` gives `{1234567890: {ID: VE_439333520}}` and no error. |
| SendResponse.OneInvalidNumber | clockwork_test/clockwork_test.go:76-104 | `To: 123 Error 10: Invalid 'To' Parameter` gives a nil map and `ErrInvalidTo`. |
| SendResponse.InvalidKeyReply | clockwork.go:270-280 | `Error 58: Invalid API Key` gives `ErrInvalidAPIKey`. |
| SendResponse.MixedOutcome | clockwork.go:258-300 | Two rejected then two accepted recipients give the two accepted and `ErrInvalidTo`. |
| SendResponse.MixedReply | clockwork.go:258-300 | The same for the text of such a reply, with indented lines, scanned line by line. |
| SendResponse.BothValidAndInvalidNumbers | clockwork_test/clockwork_test.go:105-148 | The tests' four-line reply gives the numbers 13053696625 and 44123456789 with their ids, and `ErrInvalidTo`. |
| SendResponse.OneDigitCodeReply | clockwork.go:275-279 | A gateway error with a one-digit code, whose message holds no digit followed by a word character, is reported as Atoi's error, not the code's. |
| Tokens.FindToken | clockwork.go:287-291 | `FindString` returns "" exactly when the pattern matches nowhere. Otherwise it returns the leftmost match, with its `\w+` run taken greedily. |
| Tokens.FindTokenAt | clockwork.go:287-291 | The token found is fixed by where the leftmost match starts. |
| Tokens.TokenShape | clockwork.go:287-291 | Every token found is the pattern's head followed only by word characters. |
| Tokens.TokenBetween | clockwork.go:287-291 | A label token with no earlier label letter before it, and ended by a non-word character, is the one found. |
| Tokens.SplitLabelled | clockwork.go:290-291 | Splitting a recipient or id token on spaces gives exactly the label and the value, and the value has at least two characters. |
| Tokens.SplitEmpty | clockwork.go:290-291 | With no match, the split has one empty field, so index 1 is out of range. |
| Tokens.CodeError | clockwork.go:275-280 | The result is Atoi's error exactly when Atoi fails on the `([0-9])\w+` token: the token is absent, is not all digits (`5x`), or is beyond 64 bits. It is never `ErrStatusCode`, a transport error or a delivery error. |
| Tokens.CodeLine | clockwork.go:275-280 | `Error <code>:<message>`, with a code of two or more digits that fits in 64 bits and any message, reports `errorFromCode(code)`. |
| Tokens.CodeToken | clockwork.go:275-276 | On such a line the code pattern finds exactly the code's digits. |
| Tokens.InvalidKeyCode | clockwork.go:313-321 | `Error 58: Invalid API Key` reports `ErrInvalidAPIKey`. |
| Tokens.OneDigitCode | clockwork.go:275-279 | A one-digit code, in a message with no digit followed by a word character, finds no code, so Atoi's error is reported. |
| Tokens.OneDigitCodeTakesLaterNumber | clockwork.go:275-280 | With a one-digit code, the first number of two or more digits in the message, with no code pattern before it and no word character after it, gives the error of that number. |
| Tokens.LimitReachedIsInvalidTo | clockwork.go:275-280 | `Error 2: limit 10 reached` gives the error of code 10, `ErrInvalidTo`. |
| Tokens.FindAmount | clockwork.go:328-330 | "" exactly when the amount pattern matches nowhere. |
| Tokens.AmountShapeOfFound | clockwork.go:328-330 | Every amount found is an optional sign then `digits`, `digits.digits` or `.digits`. |
| Tokens.FindAmountAt | clockwork.go:328-330 | The amount found is fixed by where the leftmost match starts. |
| Tokens.AmountBetween | clockwork.go:328-330 | A signed or unsigned numeral after text with no digit, sign or point is the amount found. |
| Tokens.CurrencyBetween | clockwork.go:329-331 | A code of two capitals then word characters is the currency found. It must follow text with no capital except its first character, and be ended by a non-word character. |
| CreditResponse.ParseFloat | clockwork.go:332 | `strconv.ParseFloat` on decimal text, as an exact decimal. It has no contract of its own: `AmountParses`, `NumeralValue` and `ParseFormat` state its properties. |
| CreditResponse.AmountParses | clockwork.go:328-335 | `ParseFloat` accepts every amount the pattern can find, so its error arises only when nothing is found. |
| CreditResponse.NumeralValue | clockwork.go:332 | `ParseFloat` reads a signed numeral as the exact value of its digits over ten to the number of fraction digits, negated under `-`. |
| CreditResponse.ParseFormat | clockwork.go:332 | `ParseFloat` reads back every decimal printed with its scale, so distinct decimals are distinct texts. |
| CreditResponse.CreditErrors | clockwork.go:309-337 | The parser never reports `ErrStatusCode` or a transport error. |
| CreditResponse.ParseCreditResponseBody | clockwork.go:309-337 | The parse never panics, and never reports `ErrStatusCode`, a transport error or a delivery error. A balance comes only from a body without `Error`. `CreditCases`, `ErrorBodyFails` and `BalanceReply` state the rest. |
| CreditResponse.CreditCases | clockwork.go:309-337 | A balance comes back exactly when the body lacks `Error` and an amount is found; its value is `ParseFloat` of that amount. The currency is empty or two capitals then word characters. Without `Error`, a failure is `ParseFloat`'s error. |
| CreditResponse.ErrorBodyFails | clockwork.go:310-322 | A body containing `Error` always fails, with the error of its code. |
| CreditResponse.BalanceReply | clockwork.go:323-336 | Every reply `Balance: [-+]<digits>[.<digits>] (<code>)`, with an optional sign and a code of three or more capitals, gives exactly its signed amount and its code. |
| CreditResponse.BalanceAmount | clockwork.go:328-330 | On a balance reply the amount pattern finds the signed numeral. |
| CreditResponse.BalanceCurrency | clockwork.go:329-331 | On a balance reply the currency pattern finds the code. |
| CreditResponse.BalanceInPounds | clockwork.go:323-327 | `Balance: 287.58 (GBP)` gives 287.58 and `GBP`. |
| CreditResponse.NegativeBalance | clockwork_test/clockwork_test.go:192 | `Balance: -94.23 (GBP)` gives -94.23. |
| CreditResponse.ZeroBalances | clockwork_test/clockwork_test.go:182-191 | `Balance: 0.00 (GBP)` and `Balance: 0 (GBP)` both give zero. |
| CreditResponse.InvalidKeyCredit | clockwork_test/clockwork_test.go:228-256 | `Error 58: Invalid API Key` gives `ErrInvalidAPIKey`. |
| SendOptions.FormatTime | clockwork.go:389-392 | `formatTime`'s `%04d%02d%02d%02d%02d`. It has no contract of its own: `StampRoundTrip` and `StampInjective` state its properties. |
| SendOptions.StampRoundTrip | clockwork.go:389-392 | For a real time with a year 0-9999 the stamp is twelve digits, and it reads back as the same time to the minute. |
| SendOptions.StampInjective | clockwork.go:389-392 | Two such times with the same stamp agree to the minute. |
| SendOptions.NameInjective | clockwork.go:350-386 | No two parameters share a name. |
| SendOptions.FillMembers | clockwork.go:350-386 | After the inserts for a list of fields, the map holds exactly the set fields among them, each with its encoded value. |
| SendOptions.SetOptions | clockwork.go:350-386 | The parameter map `smsSetOptions` builds. It has no contract of its own: `FillIsSetOptions`, `FillMembers`, `OptionsRoundTrip`, `OptionsLeaveKeyFree`, `ExpiryParameter` and `TruncateParameter` state its properties. |
| SendOptions.FillIsSetOptions | clockwork.go:350-386 | The eleven conditional inserts, in source order, build exactly `SetOptions`: each set field under its name, with its encoded value. |
| SendOptions.EmptySMSHasNoOptions | clockwork.go:350-386 | An SMS with no field set sends no parameters. |
| SendOptions.OptionsLeaveKeyFree | clockwork.go:176-177 | The options never include `Key`, so adding the key overwrites none of them. |
| SendOptions.ExpiryParameter | clockwork.go:370-372 | `ExpiryTime` is sent exactly for an expiry over ten minutes, as its whole minutes, so never fewer than ten. |
| SendOptions.TruncateParameter | clockwork.go:382-384 | `Truncate` is sent exactly when set, as the value minus one, wrapping at the smallest int. |
| SendOptions.OptionsRoundTrip | clockwork.go:350-386 | When the recipient list is nil or non-empty with no comma in any number, and the absolute expiry is a real time with a year 0-9999, the parameters read back as the SMS's canonical form. That form drops an expiry of ten minutes or less, and keeps a longer expiry and the absolute expiry only to the minute. |
| SendOptions.RecipientsRoundTrip | clockwork.go:352-354 | A nil list stays nil. A non-empty list with no comma in any number splits back into itself. |
| SendOptions.NumbersRoundTrip | clockwork.go:364-384 | `Concat`, `InvalidCharAction` and `Truncate` read back exactly, including through the wrap-around. |
| SendOptions.NumberRoundTrip | clockwork.go:364-381 | A number written with Itoa reads back with Atoi. An unset one reads as 0. |
| SendOptions.ExpiryRoundTrip | clockwork.go:370-372 | The expiry reads back as its whole minutes when sent, and as 0 otherwise. |
| SendOptions.AbsExpiryRoundTrip | clockwork.go:373-375 | The absolute expiry reads back to the minute, and the zero time when unset. |
| SendOptions.SameOptionsSameMessage | clockwork.go:350-386 | Under the same conditions, two SMS with the same parameters have the same canonical form. |
| Client.DoSendRequestHelper | clockwork.go:175-209 | The request carries the options plus `Key`. A failed exchange or unreadable body gives a transport error. A status other than 200 gives `ErrStatusCode`, if and only if. No response and no error from the `Doer` panics at the status check. A 200 reply gives the parser's outcome on its lines. |
| Client.DoCreditRequestHelper | clockwork.go:212-243 | A balance only from a 200 reply with a readable body, equal to the parsed balance. `ErrStatusCode` exactly for a status other than 200. A transport error exactly for a failed exchange or read. The nil-pointer panic exactly for no response and no error from the `Doer`. |
| Client.CreditParsed | clockwork.go:233-242 | A 200 reply with a readable body is handed to the parser unchanged. |
| GoText.ContainsIffOccurs | clockwork.go:256-258 | `strings.Contains`, as a left-to-right scan, holds exactly when the substring occurs at some position. |
| GoText.Split | clockwork.go:290-291 | `strings.Split` never returns an empty slice, and no piece holds the separator. |
| GoText.SplitJoin | clockwork.go:352-354 | Splitting a join recovers the pieces when none holds the separator. |
| GoText.Lines | clockwork.go:252-255 | The lines of `bufio.ScanLines`; none holds a newline. |
| GoText.SingleLine | clockwork.go:252-255 | A body without a newline is one line, with one trailing `\r` dropped. |
| GoText.LinesTerminated | clockwork.go:252-255 | Newline-terminated lines scan back into themselves. |
| GoText.LinesJoined | clockwork.go:252-255 | Newline-separated lines, the last one not empty, scan back into themselves. |
| GoText.Atoi | clockwork.go:276-279 | `strconv.Atoi` succeeds only with a 64-bit value, and fails on "". |
| GoText.AtoiItoa | clockwork.go:364-384 | Atoi reads back what Itoa writes, for every 64-bit integer. |
| GoText.PadIntValue | clockwork.go:390-391 | `%0<w>d` of a number that fits is `w` digits that read back as the number. |

## Left out

- SendOptions.SetOptions: `smsSetOptions` fills a local map in place, one conditional insert per field. `SetOptions` is a map comprehension, and `Fill` models the inserts in source order (`FillIsSetOptions`). The update in place of that local, unaliased map is not modelled.
- `urlEncode` and the URL query encoding of the request are not modelled: the request is the parameter map. The credit request's unescaped `?key=` and the endpoint URLs are not modelled either.
- `http.NewRequest`'s error, the User-Agent and Content-Type headers and closing the response body are not modelled. The helpers take the `Doer`'s reply as a parameter.
- Client.DoCreditRequestHelper: takes no key or URL, because they only reach the unmodelled request.
- `strconv.ParseFloat`'s float64 rounding and range, and its syntaxes for exponents, hexadecimal, `inf` and `nan`, are not modelled. The amount pattern never hands it those; amounts are exact decimals.
- SendOptions.ExpiryMinutes: `Expiry.Minutes()` is a float64. Its rounding for durations beyond 2^53 nanoseconds is not modelled; the model takes whole minutes exactly.
- Time zones and the monotonic clock are not modelled. A time is its calendar fields in its own location.
- `bufio.Scanner`'s 64 KB token limit, and its error for a longer line, are not modelled; the body is split at once.
- ServeHTTP's parsing of the URL query and the POST body are not modelled (their results are parameters). Its logging, the callback itself, `WriteHeader(200)` and `time.Now()` are left out too (the capture time is a parameter), and so is blocking in `ListenAndServe`: the model stops at the arguments it would be given.
- The texts of the errors of errors.go (the strings given to `errors.New`) are not modelled. Every operation of the model returns an error by identity, as Go callers compare it with `==`, and no operation reads the text.
- The public wrappers `New`, `Send`, `Credit` and `Do`, `version.go`, `doc.go` and `patterns.go` are not part of this model.
