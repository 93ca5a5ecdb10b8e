/**
 * clockwork.go, the response side of Credit: parseCreditResponseBody, which
 * reads a gateway error or a balance such as "Balance: 287.58 (GBP)" out of
 * the plain-text body of a /credit reply. strconv.ParseFloat is read as an
 * exact decimal, a mantissa over a power of ten.
 */
module CreditResponse {
  import opened Wrappers
  import opened GoText
  import opened Errors
  import opened Tokens

  /** The number mantissa / 10^scale. */
  datatype Decimal = Decimal(mantissa: int, scale: nat)

  /** Two decimals stand for the same number (0.00 and 0, say). */
  predicate SameValue(a: Decimal, b: Decimal)
  {
    a.mantissa * Pow10(b.scale) == b.mantissa * Pow10(a.scale)
  }

  /**
   * strconv.ParseFloat(t, 64) on decimal text: an optional sign, then an
   * unsigned numeral.
   */
  function ParseFloat(t: string): Option<Decimal>
  {
    if t != [] && IsSign(t[0]) then Signed(t[0] == '-', ParseUnsigned(t[1..])) else ParseUnsigned(t)
  }

  /** A parsed value, negated under a minus sign. */
  function Signed(negative: bool, r: Option<Decimal>): Option<Decimal>
  {
    match r
    case Some(d) => Some(if negative then Decimal(-d.mantissa, d.scale) else d)
    case None => None
  }

  /** Integer digits, then an optional point and fraction digits, split at the first point. */
  function ParseUnsigned(u: string): Option<Decimal>
  {
    var k := IndexOf(u, '.');
    if k == |u| then DecimalOfDigits(u, []) else DecimalOfDigits(u[..k], u[k + 1..])
  }

  /**
   * The exact value of integer digits `ip` and fraction digits `fp`, at
   * least one digit in all: ip + fp / 10^|fp|, kept as the mantissa over
   * ten to the number of fraction digits.
   */
  function DecimalOfDigits(ip: string, fp: string): Option<Decimal>
  {
    if |ip| + |fp| > 0 && AllDigits(ip) && AllDigits(fp) then
      Some(Decimal(DigitsValue(ip) * Pow10(|fp|) + DigitsValue(fp), |fp|))
    else None
  }

  /** Every numeral the amount pattern can find is one ParseFloat accepts. */
  lemma AmountParses(t: string)
    requires AmountShape(t)
    ensures ParseFloat(t).Some?
  {
    var u := if IsSign(t[0]) then t[1..] else t;
    assert NumberShape(u);
    if u != [] && AllDigits(u) {
      NoPointIndex(u);
    } else {
      var k :| 0 <= k < |u| - 1 && u[k] == '.' && AllDigits(u[..k]) && AllDigits(u[k + 1..]);
      assert u == u[..k] + ['.'] + u[k + 1..];
      IndexOfAfterPrefix(u[..k], '.', u[k + 1..]);
    }
  }

  /** A numeral without a point is split at its end. */
  lemma NoPointIndex(u: string)
    requires AllDigits(u)
    ensures IndexOf(u, '.') == |u|
  {
  }

  /** The value ParseFloat reads from a numeral, with its sign; `m` is the numeral's digits as one number. */
  lemma NumeralValue(sign: string, ip: string, fp: string, m: int)
    requires sign == [] || sign == "-" || sign == "+"
    requires ip != [] && AllDigits(ip) && AllDigits(fp)
    requires m == DigitsValue(ip) * Pow10(|fp|) + DigitsValue(fp)
    ensures ParseFloat(sign + Numeral(ip, fp)) == Some(Decimal(if sign == "-" then -m else m, |fp|))
  {
    var u := Numeral(ip, fp);
    UnsignedValue(ip, fp);
    SignedDecimal(sign, u, m, |fp|);
  }

  /** A sign in front of an unsigned numeral applies to the value read from it. */
  lemma SignedDecimal(sign: string, u: string, m: int, scale: nat)
    requires sign == [] || sign == "-" || sign == "+"
    requires u != [] && !IsSign(u[0]) && ParseUnsigned(u) == Some(Decimal(m, scale))
    ensures ParseFloat(sign + u) == Some(Decimal(if sign == "-" then -m else m, scale))
  {
    SignedText(sign, u);
  }

  /** A sign in front of an unsigned numeral is read as such. */
  lemma SignedText(sign: string, u: string)
    requires sign == [] || sign == "-" || sign == "+"
    requires u != [] && !IsSign(u[0])
    ensures ParseFloat(sign + u) == if sign == [] then ParseUnsigned(u) else Signed(sign == "-", ParseUnsigned(u))
  {
    var t := sign + u;
    if sign == [] {
      assert t == u;
    } else {
      assert t[1..] == u && t[0] == sign[0];
      assert t[0] == '-' <==> sign == "-";
    }
  }

  lemma UnsignedValue(ip: string, fp: string)
    requires ip != [] && AllDigits(ip) && AllDigits(fp)
    ensures ParseUnsigned(Numeral(ip, fp)) == DecimalOfDigits(ip, fp)
  {
    var u := Numeral(ip, fp);
    assert u[0] == ip[0];
    if fp == [] {
      NoPointIndex(ip);
    } else {
      assert '.' !in ip;
      IndexOfAfterPrefix(ip, '.', fp);
      assert u[|ip| + 1..] == fp && u[..|ip|] == ip;
    }
  }

  // ---------------------------------------------------------------------------
  // A formatter for decimals: ParseFloat's partner

  function Abs(n: int): nat { if n < 0 then -n else n }

  /** The digits of a decimal's mantissa, padded to more than its scale. */
  function PaddedDigits(d: Decimal): string
  {
    ZeroPad(NatDigits(Abs(d.mantissa)), d.scale + 1)
  }

  /** The integer digits of a decimal: all but its last `scale` padded digits. */
  function IntDigits(d: Decimal): string
  {
    PaddedDigits(d)[..|PaddedDigits(d)| - d.scale]
  }

  /** The fraction digits of a decimal: its last `scale` padded digits. */
  function FracDigits(d: Decimal): string
  {
    PaddedDigits(d)[|PaddedDigits(d)| - d.scale..]
  }

  /**
   * A decimal written out with exactly `scale` fraction digits (and at least
   * one integer digit), with a minus sign when it is negative, as
   * fmt's "%.<scale>f" would print it.
   */
  function FormatDecimal(d: Decimal): string
  {
    (if d.mantissa < 0 then "-" else "") + Numeral(IntDigits(d), FracDigits(d))
  }

  /** ParseFloat reads back every decimal FormatDecimal writes. */
  lemma ParseFormat(d: Decimal)
    ensures ParseFloat(FormatDecimal(d)) == Some(d)
  {
    DigitParts(d);
    NumeralValue(if d.mantissa < 0 then "-" else "", IntDigits(d), FracDigits(d), Abs(d.mantissa));
  }

  /** The integer and fraction digits of a decimal are worth its mantissa, without sign. */
  lemma DigitParts(d: Decimal)
    ensures IntDigits(d) != [] && AllDigits(IntDigits(d)) && AllDigits(FracDigits(d))
    ensures |FracDigits(d)| == d.scale
    ensures DigitsValue(IntDigits(d)) * Pow10(d.scale) + DigitsValue(FracDigits(d)) == Abs(d.mantissa)
  {
    var ds := PaddedDigits(d);
    var ip, fp := IntDigits(d), FracDigits(d);
    PaddedValue(Abs(d.mantissa), d.scale + 1);
    assert ds == ip + fp;
    DigitsAppend(ip, fp);
  }

  /** Zero-padding keeps a numeral's digits and value. */
  lemma PaddedValue(n: nat, width: nat)
    ensures AllDigits(ZeroPad(NatDigits(n), width)) && DigitsValue(ZeroPad(NatDigits(n), width)) == n
  {
    if |NatDigits(n)| < width {
      ZerosValue(width - |NatDigits(n)|, NatDigits(n));
    }
  }

  // ---------------------------------------------------------------------------
  // parseCreditResponseBody

  /**
   * What Credit returns: the balance and its currency code, or the error
   * (with 0 and ""); CreditPanicked is the request helper's nil-pointer
   * panic, which the parser itself never raises.
   */
  datatype CreditOutcome =
    | Balance(amount: Decimal, currency: string)
    | CreditFailed(err: ErrorKind)
    | CreditPanicked

  /**
   * parseCreditResponseBody: a body mentioning "Error" gives the error of
   * its code; otherwise the first amount is parsed, and the currency
   * is the first code of two capitals and word characters, "" when there is
   * none. ParseFloat fails only when no amount is found at all.
   */
  function ParseCreditResponseBody(body: string): (r: CreditOutcome)
    ensures !r.CreditPanicked?
    ensures r.CreditFailed? ==> r.err != StatusCode && r.err != TransportError && !IsDeliveryError(r.err)
    ensures r.Balance? ==> !Contains(body, "Error")
  {
    if Contains(body, "Error") then CreditFailed(CodeError(body))
    else
      match ParseFloat(FindAmount(body))
      case None => CreditFailed(ParseError)
      case Some(d) => Balance(d, FindToken(CurrencyHead, body))
  }

  /** The parse never reports the client-side errors: a status-code or transport error cannot come from the body. */
  lemma CreditErrors(body: string)
    ensures ParseCreditResponseBody(body).CreditFailed? ==>
      ParseCreditResponseBody(body).err != StatusCode && ParseCreditResponseBody(body).err != TransportError
  {
  }

  /**
   * A balance comes back exactly when the body has no "Error" and holds an
   * amount; the balance is that amount, parsed, and the code is "" or two
   * capitals followed by word characters. A body without "Error" and
   * without an amount fails with ParseFloat's error.
   */
  lemma CreditCases(body: string)
    ensures var r := ParseCreditResponseBody(body);
      (r.Balance? <==> !Contains(body, "Error") && FindAmount(body) != []) &&
      (r.Balance? ==> AmountShape(FindAmount(body)) && ParseFloat(FindAmount(body)) == Some(r.amount)) &&
      (r.Balance? && r.currency != [] ==>
         |r.currency| >= 3 && IsUpper(r.currency[0]) && IsUpper(r.currency[1]) &&
         forall m :: 2 <= m < |r.currency| ==> IsWord(r.currency[m])) &&
      (r.CreditFailed? && !Contains(body, "Error") ==> r.err == ParseError)
  {
    var a := FindAmount(body);
    if !Contains(body, "Error") {
      if a != [] {
        AmountShapeOfFound(body);
        AmountParses(a);
      } else {
        assert ParseFloat(a).None?;
      }
      if FindToken(CurrencyHead, body) != [] {
        TokenShape(CurrencyHead, body);
      }
    }
  }

  /** A body that mentions "Error" fails with the error of its code, never with a balance. */
  lemma ErrorBodyFails(body: string)
    requires Contains(body, "Error")
    ensures ParseCreditResponseBody(body) == CreditFailed(CodeError(body))
    ensures CodeError(body) != StatusCode && CodeError(body) != TransportError
  {
  }

  // ---------------------------------------------------------------------------
  // The replies the gateway sends

  /** The body of a balance reply, "Balance: <amount> (<code>)". */
  function BalanceText(sign: string, ip: string, fp: string, cur: string): string
  {
    "Balance: " + sign + Numeral(ip, fp) + " (" + cur + ")"
  }

  /** A well-formed balance: an optional sign, digits, a three-or-more-letter code. */
  predicate WellFormedBalance(sign: string, ip: string, fp: string, cur: string)
  {
    (sign == [] || sign == "-" || sign == "+") && ip != [] && AllDigits(ip) && AllDigits(fp) &&
    |cur| >= 3 && forall k :: 0 <= k < |cur| ==> IsUpper(cur[k])
  }

  /**
   * Every balance reply gives its amount, read exactly, and its currency
   * code.
   */
  lemma BalanceReply(sign: string, ip: string, fp: string, cur: string, m: int)
    requires WellFormedBalance(sign, ip, fp, cur)
    requires m == DigitsValue(ip) * Pow10(|fp|) + DigitsValue(fp)
    ensures ParseCreditResponseBody(BalanceText(sign, ip, fp, cur)) ==
      Balance(Decimal(if sign == "-" then -m else m, |fp|), cur)
  {
    BalanceNoError(sign, ip, fp, cur);
    BalanceAmount(sign, ip, fp, cur);
    BalanceCurrency(sign, ip, fp, cur);
    NumeralValue(sign, ip, fp, m);
  }

  lemma BalanceNoError(sign: string, ip: string, fp: string, cur: string)
    requires WellFormedBalance(sign, ip, fp, cur)
    ensures !Contains(BalanceText(sign, ip, fp, cur), "Error")
  {
    var t := Numeral(ip, fp);
    var s := BalanceText(sign, ip, fp, cur);
    var n := |"Balance: " + sign|;
    var e := n + |t|;
    assert forall j :: 0 <= j < n ==> s[j] == ("Balance: " + sign)[j];
    assert forall j :: n <= j < e ==> s[j] == t[j - n];
    assert forall j :: e + 2 <= j < e + 2 + |cur| ==> s[j] == cur[j - e - 2];
    assert forall j :: 0 <= j < |t| ==> IsDigit(t[j]) || t[j] == '.';
    assert s[e] == ' ' && s[e + 1] == '(' && s[|s| - 1] == ')';
    MissingChar(s, "Error", 1);
  }

  lemma BalanceAmount(sign: string, ip: string, fp: string, cur: string)
    requires WellFormedBalance(sign, ip, fp, cur)
    ensures FindAmount(BalanceText(sign, ip, fp, cur)) == sign + Numeral(ip, fp)
  {
    var v := " (" + cur + ")";
    assert BalanceText(sign, ip, fp, cur) == "Balance: " + sign + Numeral(ip, fp) + v;
    AmountBetween("Balance: ", sign, ip, fp, v);
  }

  lemma BalanceCurrency(sign: string, ip: string, fp: string, cur: string)
    requires WellFormedBalance(sign, ip, fp, cur)
    ensures FindToken(CurrencyHead, BalanceText(sign, ip, fp, cur)) == cur
  {
    var t := Numeral(ip, fp);
    var u := "Balance: " + sign + t + " (";
    var n := |"Balance: " + sign|;
    assert BalanceText(sign, ip, fp, cur) == u + cur + ")";
    assert forall j :: 0 <= j < n ==> u[j] == ("Balance: " + sign)[j];
    assert forall j :: n <= j < n + |t| ==> u[j] == t[j - n];
    assert forall j :: 0 <= j < |t| ==> IsDigit(t[j]) || t[j] == '.';
    assert u[|u| - 2] == ' ' && u[|u| - 1] == '(';
    CurrencyBetween(u, cur, ")");
  }

  /** "Balance: 287.58 (GBP)" gives 287.58 and "GBP". */
  lemma BalanceInPounds(ip: string, fp: string, cur: string)
    requires ip == "287" && fp == "58" && cur == "GBP"
    ensures ParseCreditResponseBody(BalanceText("", ip, fp, cur)) == Balance(Decimal(28758, 2), "GBP")
  {
    ThreeDigits(ip);
    TwoDigits(fp);
    assert Pow10(2) == 100;
    BalanceReply("", ip, fp, cur, 28758);
  }

  /** "Balance: -94.23 (GBP)" gives -94.23: an overdrawn account keeps its sign. */
  lemma NegativeBalance(sign: string, ip: string, fp: string, cur: string)
    requires sign == "-" && ip == "94" && fp == "23" && cur == "GBP"
    ensures ParseCreditResponseBody(BalanceText(sign, ip, fp, cur)) == Balance(Decimal(-9423, 2), "GBP")
  {
    TwoDigits(ip);
    TwoDigits(fp);
    assert Pow10(2) == 100;
    BalanceReply(sign, ip, fp, cur, 9423);
  }

  /** "Balance: 0 (GBP)" and "Balance: 0.00 (GBP)" both give zero. */
  lemma ZeroBalances(ip: string, fp: string, cur: string)
    requires ip == "0" && fp == "00" && cur == "GBP"
    ensures ParseCreditResponseBody(BalanceText("", ip, "", cur)) == Balance(Decimal(0, 0), "GBP")
    ensures ParseCreditResponseBody(BalanceText("", ip, fp, cur)) == Balance(Decimal(0, 2), "GBP")
    ensures SameValue(Decimal(0, 0), Decimal(0, 2))
  {
    assert ip[..0] == [] && DigitsValue(ip) == 0;
    TwoDigits(fp);
    assert Pow10(0) == 1;
    BalanceReply("", ip, "", cur, 0);
    BalanceReply("", ip, fp, cur, 0);
  }

  lemma ThreeDigits(ds: string)
    requires |ds| == 3 && AllDigits(ds)
    ensures DigitsValue(ds) == 100 * DigitValue(ds[0]) + 10 * DigitValue(ds[1]) + DigitValue(ds[2])
  {
    var front := ds[..2];
    TwoDigits(front);
    assert ds[..|ds| - 1] == front;
  }

  /** The reply to a wrong key, "Error 58: Invalid API Key", fails with ErrInvalidAPIKey. */
  lemma InvalidKeyCredit(ds: string, msg: string)
    requires ds == "58" && msg == " Invalid API Key"
    ensures ParseCreditResponseBody("Error " + ds + ":" + msg) == CreditFailed(InvalidAPIKey)
  {
    var body := "Error " + ds + ":" + msg;
    assert body[0..5] == "Error";
    ContainsAt(body, "Error", 0);
    InvalidKeyCode(ds, msg);
  }
}
