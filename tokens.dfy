/**
 * The five regular expressions the response parsers use, each written as a
 * hand-made scanner with the boundaries RE2's leftmost-first FindString gives
 * them:
 *
 *   ([0-9])\w+            the error code in "Error 58: Invalid API Key"
 *   (To: [0-9])\w+        the recipient in "To: 441234567890 ID: VE_439221450"
 *   (ID: [A-Z0-9])\w+     the message id in the same line
 *   ([A-Z]{2})\w+         the currency in "Balance: 287.58 (GBP)"
 *   [-+]?([0-9]*\.[0-9]+|[0-9]+)   the amount in the same body
 *
 * The first four are "a fixed head, then one or more word characters", and
 * share one scanner; the amount has its own.
 */
module Tokens {
  import opened Wrappers
  import opened GoText
  import opened Errors

  /** The fixed part each word-token pattern starts with. */
  datatype Head =
    | CodeHead      // ([0-9])
    | ToHead        // (To: [0-9])
    | IdHead        // (ID: [A-Z0-9])
    | CurrencyHead  // ([A-Z]{2})

  function HeadLen(h: Head): nat
  {
    match h
    case CodeHead => 1
    case ToHead => 5
    case IdHead => 5
    case CurrencyHead => 2
  }

  /** The head of pattern `h` matches `s` at position `i`. */
  predicate HeadAt(h: Head, s: string, i: nat)
  {
    i + HeadLen(h) <= |s| &&
    match h
    case CodeHead => IsDigit(s[i])
    case ToHead => s[i..i + 4] == "To: " && IsDigit(s[i + 4])
    case IdHead => s[i..i + 4] == "ID: " && (IsUpper(s[i + 4]) || IsDigit(s[i + 4]))
    case CurrencyHead => IsUpper(s[i]) && IsUpper(s[i + 1])
  }

  /** The whole pattern matches at `i`: its head, then at least one word character. */
  predicate MatchAt(h: Head, s: string, i: nat)
  {
    HeadAt(h, s, i) && i + HeadLen(h) < |s| && IsWord(s[i + HeadLen(h)])
  }

  /** The end of the run of word characters that starts at `j`. */
  function WordEnd(s: string, j: nat): (k: nat)
    requires j <= |s|
    ensures j <= k <= |s|
    ensures forall m :: j <= m < k ==> IsWord(s[m])
    ensures k < |s| ==> !IsWord(s[k])
    decreases |s| - j
  {
    if j < |s| && IsWord(s[j]) then WordEnd(s, j + 1) else j
  }

  /** The leftmost position at or after `from` where pattern `h` matches. */
  function FirstMatch(h: Head, s: string, from: nat): (r: Option<nat>)
    requires from <= |s|
    ensures r.Some? ==> from <= r.value < |s| && MatchAt(h, s, r.value)
    ensures r.Some? ==> forall j :: from <= j < r.value ==> !MatchAt(h, s, j)
    ensures r.None? ==> forall j :: from <= j < |s| ==> !MatchAt(h, s, j)
    decreases |s| - from
  {
    if from == |s| then None
    else if MatchAt(h, s, from) then Some(from)
    else FirstMatch(h, s, from + 1)
  }

  /**
   * `t` is what FindString returns when the leftmost match starts at `i`:
   * greedy `\w+` runs to the first non-word character.
   */
  predicate LeftmostToken(h: Head, s: string, i: nat, t: string)
  {
    i < |s| && MatchAt(h, s, i) &&
    (forall j :: 0 <= j < i ==> !MatchAt(h, s, j)) &&
    t == s[i..WordEnd(s, i + HeadLen(h))]
  }

  /** regexp.FindString for a word-token pattern; "" when nothing matches. */
  function FindToken(h: Head, s: string): (t: string)
    ensures t == [] <==> forall i :: 0 <= i < |s| ==> !MatchAt(h, s, i)
    ensures t != [] ==> exists i :: LeftmostToken(h, s, i, t)
  {
    match FirstMatch(h, s, 0)
    case None => ""
    case Some(i) =>
      assert LeftmostToken(h, s, i, s[i..WordEnd(s, i + HeadLen(h))]);
      s[i..WordEnd(s, i + HeadLen(h))]
  }

  /** The leftmost token is determined by where the leftmost match begins. */
  lemma FindTokenAt(h: Head, s: string, i: nat)
    requires i < |s| && MatchAt(h, s, i)
    requires forall j :: 0 <= j < i ==> !MatchAt(h, s, j)
    ensures FindToken(h, s) == s[i..WordEnd(s, i + HeadLen(h))]
  {
    FirstMatchFrom(h, s, 0, i);
  }

  lemma {:induction false} FirstMatchFrom(h: Head, s: string, from: nat, i: nat)
    requires from <= i < |s| && MatchAt(h, s, i)
    requires forall j :: from <= j < i ==> !MatchAt(h, s, j)
    ensures FirstMatch(h, s, from) == Some(i)
    decreases i - from
  {
    if from < i {
      FirstMatchFrom(h, s, from + 1, i);
    }
  }

  /** The word characters from `j` to the first one that is not, as WordEnd finds them. */
  lemma WordEndAt(s: string, j: nat, k: nat)
    requires j <= k <= |s|
    requires forall m :: j <= m < k ==> IsWord(s[m])
    requires k < |s| ==> !IsWord(s[k])
    ensures WordEnd(s, j) == k
  {
  }

  /** Every token found has the pattern's head followed by word characters only. */
  lemma TokenShape(h: Head, s: string)
    requires FindToken(h, s) != []
    ensures var t := FindToken(h, s);
      |t| > HeadLen(h) && HeadAt(h, t, 0) &&
      forall m :: HeadLen(h) <= m < |t| ==> IsWord(t[m])
  {
    var t := FindToken(h, s);
    var i: nat :| LeftmostToken(h, s, i, t);
    var e := WordEnd(s, i + HeadLen(h));
    assert t == s[i..e];
    match h
    case CodeHead =>
    case CurrencyHead =>
    case ToHead =>
      assert t[0..4] == s[i..i + 4];
    case IdHead =>
      assert t[0..4] == s[i..i + 4];
  }

  /** Where a token starts and where its run of word characters ends fix the token. */
  lemma TokenAt(h: Head, s: string, i: nat, e: nat)
    requires i + HeadLen(h) < e <= |s| && HeadAt(h, s, i)
    requires forall j :: 0 <= j < i ==> !MatchAt(h, s, j)
    requires forall m :: i + HeadLen(h) <= m < e ==> IsWord(s[m])
    requires e < |s| ==> !IsWord(s[e])
    ensures FindToken(h, s) == s[i..e]
  {
    FindTokenAt(h, s, i);
    WordEndAt(s, i + HeadLen(h), e);
  }

  /** The letter a recipient or id label starts with. */
  function LabelStart(h: Head): char
  {
    if h == ToHead then 'T' else 'I'
  }

  /** No label can start where its first letter is missing. */
  lemma NoLabelBefore(h: Head, s: string, n: nat)
    requires h == ToHead || h == IdHead
    requires n <= |s| && forall j :: 0 <= j < n ==> s[j] != LabelStart(h)
    ensures forall j :: 0 <= j < n ==> !MatchAt(h, s, j)
  {
    forall j | 0 <= j < n ensures !MatchAt(h, s, j) {
      if j + 4 <= |s| {
        assert s[j..j + 4][0] == s[j];
      }
    }
  }

  /**
   * A labelled token placed after text without its label's first letter,
   * and ended by a character that is not a word character (or by the end),
   * is the first one found.
   */
  lemma TokenBetween(h: Head, u: string, t: string, v: string)
    requires h == ToHead || h == IdHead
    requires forall j :: 0 <= j < |u| ==> u[j] != LabelStart(h)
    requires |t| > HeadLen(h) && HeadAt(h, t, 0)
    requires forall m :: HeadLen(h) <= m < |t| ==> IsWord(t[m])
    requires v != [] ==> !IsWord(v[0])
    ensures FindToken(h, u + t + v) == t
  {
    var s := u + t + v;
    var i := |u|;
    var e := i + |t|;
    assert forall j :: 0 <= j < i ==> s[j] == u[j];
    assert forall m :: i <= m < e ==> s[m] == t[m - i];
    assert e < |s| ==> s[e] == v[0];
    assert s[i..e] == t;
    assert s[i..i + 4] == t[0..4];
    NoLabelBefore(h, s, i);
    TokenAt(h, s, i, e);
  }

  /**
   * A recipient or id token holds exactly one space, after its label, so
   * splitting it on spaces gives the label and the value.
   */
  lemma SplitLabelled(h: Head, s: string)
    requires h == ToHead || h == IdHead
    requires FindToken(h, s) != []
    ensures var t := FindToken(h, s);
      Split(t, ' ') == [t[..3], t[4..]] && |t[4..]| >= 2
  {
    var t := FindToken(h, s);
    TokenShape(h, s);
    assert t[..4] == t[0..4];
    assert t == t[..3] + [' '] + t[4..];
    assert ' ' !in t[..3];
    assert ' ' !in t[4..] by {
      forall m | 0 <= m < |t[4..]| ensures t[4..][m] != ' ' {
        assert t[4..][m] == t[4 + m];
        if m > 0 { assert IsWord(t[4 + m]); }
      }
    }
    assert Join([t[..3], t[4..]], ' ') == t;
    SplitJoin([t[..3], t[4..]], ' ');
  }

  /** With no word-token match at all, the split of "" has a single, empty field. */
  lemma SplitEmpty()
    ensures Split("", ' ') == [""]
  {
  }

  /**
   * The error both parsers report for a body that mentions "Error": the first
   * match of the code pattern, through strconv.Atoi and errorFromCode. When
   * Atoi fails (no match at all, or a value beyond 64 bits) its *NumError is
   * returned instead.
   */
  function CodeError(s: string): (e: ErrorKind)
    ensures e != StatusCode && e != TransportError && !IsDeliveryError(e)
    ensures e == ParseError <==> Atoi(FindToken(CodeHead, s)).None?
  {
    match Atoi(FindToken(CodeHead, s))
    case None => ParseError
    case Some(c) => ErrorFromCode(c)
  }

  /** A gateway error line with a code of two or more digits reports that code's error. */
  lemma CodeLine(ds: string, msg: string)
    requires |ds| >= 2 && AllDigits(ds) && DigitsValue(ds) <= MaxInt64
    ensures CodeError("Error " + ds + ":" + msg) == ErrorFromCode(DigitsValue(ds))
  {
    CodeToken(ds, msg);
    AtoiDigits(ds);
  }

  lemma CodeToken(ds: string, msg: string)
    requires |ds| >= 2 && AllDigits(ds)
    ensures FindToken(CodeHead, "Error " + ds + ":" + msg) == ds
  {
    var head := "Error ";
    var tail := ":" + msg;
    var s := head + ds + tail;
    var e := 6 + |ds|;
    assert s[..6] == head && s[6..e] == ds && s[e..] == tail;
    assert forall j :: 0 <= j < 6 ==> s[j] == head[j];
    assert forall m :: 6 <= m < e ==> s[m] == ds[m - 6];
    assert s[e] == tail[0];
    TokenAt(CodeHead, s, 6, e);
    assert s == "Error " + ds + ":" + msg;
  }

  /** The gateway's reply to a wrong key, "Error 58: Invalid API Key", reports ErrInvalidAPIKey. */
  lemma InvalidKeyCode(ds: string, msg: string)
    requires ds == "58" && msg == " Invalid API Key"
    ensures CodeError("Error " + ds + ":" + msg) == InvalidAPIKey
  {
    TwoDigits(ds);
    CodeLine(ds, msg);
    WellKnownCodes();
  }

  /** No digit of `msg` is followed by a word character: the code pattern matches nowhere in it. */
  predicate NoCodeIn(msg: string)
  {
    forall k :: 0 <= k < |msg| - 1 ==> !(IsDigit(msg[k]) && IsWord(msg[k + 1]))
  }

  /**
   * The code pattern needs two characters, so a gateway error line with a
   * one-digit code (1 to 9, all of them in the table), whose message gives
   * the pattern nothing to match either, finds no code and reports Atoi's
   * error instead of the code's.
   */
  lemma OneDigitCode(d: char, msg: string)
    requires IsDigit(d)
    requires NoCodeIn(msg)
    ensures CodeError("Error " + [d] + ":" + msg) == ParseError
  {
    var head := "Error " + [d] + ":";
    var s := head + msg;
    assert forall j :: 0 <= j < 8 ==> s[j] == head[j];
    assert forall j :: 8 <= j < |s| ==> s[j] == msg[j - 8];
    forall i | 0 <= i < |s| ensures !MatchAt(CodeHead, s, i) {
      if i < 8 {
        assert i != 6 ==> !IsDigit(head[i]);
      } else if i + 1 < |s| {
        assert s[i] == msg[i - 8] && s[i + 1] == msg[i + 1 - 8];
      }
    }
    assert FindToken(CodeHead, s) == [];
  }

  /**
   * With a one-digit code, the first number of two or more digits in the
   * message, standing on its own, is taken for the code instead.
   */
  lemma OneDigitCodeTakesLaterNumber(d: char, pre: string, ds: string, post: string)
    requires IsDigit(d) && NoCodeIn(pre) && (pre != [] ==> !IsDigit(pre[|pre| - 1]))
    requires |ds| >= 2 && AllDigits(ds) && DigitsValue(ds) <= MaxInt64
    requires post != [] ==> !IsWord(post[0])
    ensures CodeError("Error " + [d] + ":" + pre + ds + post) == ErrorFromCode(DigitsValue(ds))
  {
    LaterNumberToken(d, pre, ds, post);
    AtoiDigits(ds);
  }

  /** The token found there is that number. */
  lemma LaterNumberToken(d: char, pre: string, ds: string, post: string)
    requires IsDigit(d) && NoCodeIn(pre) && (pre != [] ==> !IsDigit(pre[|pre| - 1]))
    requires |ds| >= 2 && AllDigits(ds)
    requires post != [] ==> !IsWord(post[0])
    ensures FindToken(CodeHead, "Error " + [d] + ":" + pre + ds + post) == ds
  {
    var head := "Error " + [d] + ":" + pre;
    var tail := ds + post;
    var s := head + tail;
    assert s == "Error " + [d] + ":" + pre + ds + post;
    NoCodeBefore(d, pre, tail);
    var i := |head|;
    var e := i + |ds|;
    assert s[i..e] == ds && s[e..] == post;
    assert forall m :: i <= m < e ==> s[m] == ds[m - i];
    TokenAt(CodeHead, s, i, e);
  }

  /** Neither a one-digit code nor a message without a code pattern holds a match. */
  lemma NoCodeBefore(d: char, pre: string, rest: string)
    requires IsDigit(d) && NoCodeIn(pre) && (pre != [] ==> !IsDigit(pre[|pre| - 1]))
    ensures forall j :: 0 <= j < 8 + |pre| ==> !MatchAt(CodeHead, "Error " + [d] + ":" + pre + rest, j)
  {
    var head := "Error " + [d] + ":";
    var s := head + pre + rest;
    assert forall j :: 0 <= j < 8 ==> s[j] == head[j];
    assert forall j :: 8 <= j < 8 + |pre| ==> s[j] == pre[j - 8];
    forall j | 0 <= j < 8 + |pre| ensures !MatchAt(CodeHead, s, j) {
      if j < 8 {
        assert j != 6 ==> !IsDigit(head[j]);
      } else if j + 1 < 8 + |pre| {
        assert s[j + 1] == pre[j + 1 - 8];
      }
    }
  }

  /** "Error 2: limit 10 reached" reports the error of code 10, ErrInvalidTo. */
  lemma LimitReachedIsInvalidTo(pre: string, post: string)
    requires pre == " limit " && post == " reached"
    ensures CodeError("Error 2:" + pre + "10" + post) == InvalidTo
  {
    TwoDigits("10");
    OneDigitCodeTakesLaterNumber('2', pre, "10", post);
    assert "Error 2:" == "Error " + ['2'] + ":";
    WellKnownCodes();
  }

  // ---------------------------------------------------------------------------
  // [-+]?([0-9]*\.[0-9]+|[0-9]+)

  predicate IsSign(c: char) { c == '-' || c == '+' }

  /** The end of the run of digits that starts at `j`. */
  function DigitEnd(s: string, j: nat): (k: nat)
    requires j <= |s|
    ensures j <= k <= |s|
    ensures forall m :: j <= m < k ==> IsDigit(s[m])
    ensures k < |s| ==> !IsDigit(s[k])
    decreases |s| - j
  {
    if j < |s| && IsDigit(s[j]) then DigitEnd(s, j + 1) else j
  }

  /**
   * Where `[0-9]*\.[0-9]+|[0-9]+` ends when started at `p`. The first
   * alternative wins whenever it matches; both are greedy.
   */
  function NumberAt(s: string, p: nat): (r: Option<nat>)
    requires p <= |s|
    ensures r.Some? ==> p < r.value <= |s|
  {
    var d := DigitEnd(s, p);
    if d + 1 < |s| && s[d] == '.' && IsDigit(s[d + 1]) then Some(DigitEnd(s, d + 1))
    else if d > p then Some(d)
    else None
  }

  /**
   * Where the whole amount pattern ends when started at `i`: the optional
   * sign is taken when present (without it the number cannot start at a sign).
   */
  function AmountAt(s: string, i: nat): (r: Option<nat>)
    requires i <= |s|
    ensures r.Some? ==> i < r.value <= |s|
  {
    if i < |s| && IsSign(s[i]) then NumberAt(s, i + 1) else NumberAt(s, i)
  }

  /** The leftmost position at or after `from` where an amount starts. */
  function FirstAmount(s: string, from: nat): (r: Option<nat>)
    requires from <= |s|
    ensures r.Some? ==> from <= r.value < |s| && AmountAt(s, r.value).Some?
    ensures r.Some? ==> forall j :: from <= j < r.value ==> AmountAt(s, j).None?
    ensures r.None? ==> forall j :: from <= j <= |s| ==> AmountAt(s, j).None?
    decreases |s| - from
  {
    if from == |s| then None
    else if AmountAt(s, from).Some? then Some(from)
    else FirstAmount(s, from + 1)
  }

  /** regexp.FindString for the amount pattern; "" when nothing matches. */
  function FindAmount(s: string): (t: string)
    ensures t == [] <==> forall i :: 0 <= i <= |s| ==> AmountAt(s, i).None?
  {
    match FirstAmount(s, 0)
    case None => ""
    case Some(i) => s[i..AmountAt(s, i).value]
  }

  /** The numeral grammar the amount pattern accepts after its sign. */
  predicate NumberShape(t: string)
  {
    (t != [] && AllDigits(t)) ||
    exists k :: 0 <= k < |t| - 1 && t[k] == '.' && AllDigits(t[..k]) && AllDigits(t[k + 1..])
  }

  /** The whole amount grammar: an optional sign, then a numeral. */
  predicate AmountShape(t: string)
  {
    t != [] && if IsSign(t[0]) then NumberShape(t[1..]) else NumberShape(t)
  }

  lemma NumberAtShape(s: string, p: nat)
    requires p <= |s| && NumberAt(s, p).Some?
    ensures NumberShape(s[p..NumberAt(s, p).value])
  {
    var d := DigitEnd(s, p);
    var t := s[p..NumberAt(s, p).value];
    if d + 1 < |s| && s[d] == '.' && IsDigit(s[d + 1]) {
      var e := DigitEnd(s, d + 1);
      var k := d - p;
      var ip := s[p..d];
      var fp := s[d + 1..e];
      assert AllDigits(ip) && AllDigits(fp);
      assert t == ip + [s[d]] + fp;
      assert t[k] == '.' && t[..k] == ip && t[k + 1..] == fp;
    } else {
      assert NumberAt(s, p) == Some(d);
      assert t == s[p..d];
      assert forall m :: 0 <= m < |t| ==> t[m] == s[p + m];
      assert t != [] && AllDigits(t);
    }
  }

  /** Every amount found has the amount grammar. */
  lemma AmountShapeOfFound(s: string)
    requires FindAmount(s) != []
    ensures AmountShape(FindAmount(s))
  {
    var i := FirstAmount(s, 0).value;
    var t := FindAmount(s);
    var e := AmountAt(s, i).value;
    if IsSign(s[i]) {
      NumberAtShape(s, i + 1);
      assert t[1..] == s[i + 1..e];
    } else {
      NumberAtShape(s, i);
    }
  }

  /** The leftmost amount is determined by where it begins. */
  lemma FindAmountAt(s: string, i: nat)
    requires i < |s| && AmountAt(s, i).Some?
    requires forall j :: 0 <= j < i ==> AmountAt(s, j).None?
    ensures FindAmount(s) == s[i..AmountAt(s, i).value]
  {
    FirstAmountFrom(s, 0, i);
  }

  lemma {:induction false} FirstAmountFrom(s: string, from: nat, i: nat)
    requires from <= i < |s| && AmountAt(s, i).Some?
    requires forall j :: from <= j < i ==> AmountAt(s, j).None?
    ensures FirstAmount(s, from) == Some(i)
    decreases i - from
  {
    if from < i {
      FirstAmountFrom(s, from + 1, i);
    }
  }

  lemma DigitEndAt(s: string, j: nat, k: nat)
    requires j <= k <= |s|
    requires forall m :: j <= m < k ==> IsDigit(s[m])
    requires k < |s| ==> !IsDigit(s[k])
    ensures DigitEnd(s, j) == k
  {
  }

  /** The numeral with integer digits `ip` and fraction digits `fp` (no point when `fp` is empty). */
  function Numeral(ip: string, fp: string): string
  {
    if fp == [] then ip else ip + "." + fp
  }

  /** No amount starts at a character that is neither a digit, a sign nor a point. */
  lemma NoAmountBefore(s: string, n: nat)
    requires n <= |s|
    requires forall j :: 0 <= j < n ==> !IsDigit(s[j]) && !IsSign(s[j]) && s[j] != '.'
    ensures forall j :: 0 <= j < n ==> AmountAt(s, j).None?
  {
    forall j | 0 <= j < n ensures AmountAt(s, j).None? {
      assert DigitEnd(s, j) == j;
    }
  }

  /** The numeral pattern, started on a numeral followed by neither a digit nor a point, takes exactly it. */
  lemma NumeralEnd(s: string, p: nat, ip: string, fp: string)
    requires ip != [] && AllDigits(ip) && AllDigits(fp)
    requires p + |Numeral(ip, fp)| <= |s| && s[p..p + |Numeral(ip, fp)|] == Numeral(ip, fp)
    requires p + |Numeral(ip, fp)| < |s| ==> !IsDigit(s[p + |Numeral(ip, fp)|]) && s[p + |Numeral(ip, fp)|] != '.'
    ensures NumberAt(s, p) == Some(p + |Numeral(ip, fp)|)
  {
    var t := Numeral(ip, fp);
    var q := p + |ip|;
    assert forall m :: p <= m < p + |t| ==> s[m] == t[m - p];
    assert forall m :: p <= m < q ==> s[m] == ip[m - p];
    if fp == [] {
      DigitEndAt(s, p, q);
    } else {
      var e := q + 1 + |fp|;
      assert s[q] == '.';
      assert forall m :: q + 1 <= m < e ==> s[m] == fp[m - q - 1];
      DigitEndAt(s, p, q);
      DigitEndAt(s, q + 1, e);
    }
  }

  /** The amount pattern, started on an optional sign and a numeral, takes exactly them. */
  lemma SignedNumeralAt(s: string, i: nat, sign: string, ip: string, fp: string)
    requires sign == [] || (|sign| == 1 && IsSign(sign[0]))
    requires ip != [] && AllDigits(ip) && AllDigits(fp)
    requires i + |sign| + |Numeral(ip, fp)| <= |s|
    requires s[i..i + |sign|] == sign
    requires s[i + |sign|..i + |sign| + |Numeral(ip, fp)|] == Numeral(ip, fp)
    requires i + |sign| + |Numeral(ip, fp)| < |s| ==>
      !IsDigit(s[i + |sign| + |Numeral(ip, fp)|]) && s[i + |sign| + |Numeral(ip, fp)|] != '.'
    ensures AmountAt(s, i) == Some(i + |sign| + |Numeral(ip, fp)|)
  {
    var t := Numeral(ip, fp);
    var p := i + |sign|;
    NumeralEnd(s, p, ip, fp);
    assert t[0] == ip[0];
    assert s[p] == t[0];
    if sign != [] {
      assert s[i] == sign[0];
    }
  }

  /**
   * A signed or unsigned numeral after text with no digit, sign or point,
   * and followed by neither a digit nor a point, is the amount found.
   */
  lemma AmountBetween(u: string, sign: string, ip: string, fp: string, v: string)
    requires forall j :: 0 <= j < |u| ==> !IsDigit(u[j]) && !IsSign(u[j]) && u[j] != '.'
    requires sign == [] || (|sign| == 1 && IsSign(sign[0]))
    requires ip != [] && AllDigits(ip) && AllDigits(fp)
    requires v != [] ==> !IsDigit(v[0]) && v[0] != '.'
    ensures FindAmount(u + sign + Numeral(ip, fp) + v) == sign + Numeral(ip, fp)
  {
    var t := Numeral(ip, fp);
    var s := u + sign + t + v;
    var i := |u|;
    var p := i + |sign|;
    var e := p + |t|;
    Pieces(u, sign, t, v);
    assert s[i..e][..|sign|] == sign;
    NoAmountBefore(s, i);
    SignedNumeralAt(s, i, sign, ip, fp);
    FindAmountAt(s, i);
  }

  /**
   * A currency code, two capitals and then word characters, after text
   * with no capital but its first character and ended by a character that
   * is not a word character, is the code found.
   */
  lemma CurrencyBetween(u: string, t: string, v: string)
    requires |u| >= 2 && forall j :: 0 < j < |u| ==> !IsUpper(u[j])
    requires |t| > 2 && HeadAt(CurrencyHead, t, 0)
    requires forall m :: 2 <= m < |t| ==> IsWord(t[m])
    requires v != [] ==> !IsWord(v[0])
    ensures FindToken(CurrencyHead, u + t + v) == t
  {
    var s := u + t + v;
    var i := |u|;
    var e := i + |t|;
    assert forall j :: 0 <= j < i ==> s[j] == u[j];
    assert s[i..e] == t;
    assert forall m :: i <= m < e ==> s[m] == t[m - i];
    assert e < |s| ==> s[e] == v[0];
    assert forall j :: 0 <= j < i ==> !MatchAt(CurrencyHead, s, j) by {
      assert !IsUpper(s[1]);
    }
    TokenAt(CurrencyHead, s, i, e);
  }
}
