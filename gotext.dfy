/**
 * The pieces of Go's standard library that the client relies on for text:
 * strings.Contains, strings.Split, strings.Join, bufio.ScanLines,
 * strconv.Atoi / strconv.Itoa (64-bit `int`) and the zero-padded `%0Nd` verb
 * of fmt. Strings are sequences of characters; every character class below is
 * the ASCII one that Go's RE2 syntax uses.
 */
module GoText {
  import opened Wrappers

  const MaxInt64: int := 0x7fff_ffff_ffff_ffff
  const MinInt64: int := -0x8000_0000_0000_0000

  /** Go's `int` on a 64-bit platform. */
  predicate InInt64(n: int) { MinInt64 <= n <= MaxInt64 }

  /** Go's int (and int64, and time.Duration) on a 64-bit platform. */
  type Int64 = n: int | MinInt64 <= n <= MaxInt64

  predicate IsDigit(c: char) { '0' <= c <= '9' }
  predicate IsUpper(c: char) { 'A' <= c <= 'Z' }
  predicate IsLower(c: char) { 'a' <= c <= 'z' }

  /** The class `\w` of RE2: ASCII letters, digits and the underscore. */
  predicate IsWord(c: char) { IsDigit(c) || IsUpper(c) || IsLower(c) || c == '_' }

  predicate AllDigits(s: string) { forall i :: 0 <= i < |s| ==> IsDigit(s[i]) }

  // ---------------------------------------------------------------------------
  // strings.Contains

  /** `sub` occurs in `s` starting at position `i`. */
  predicate OccursAt(s: string, sub: string, i: int)
  {
    0 <= i && i + |sub| <= |s| && s[i..i + |sub|] == sub
  }

  /** strings.Contains, as a left-to-right scan. */
  predicate Contains(s: string, sub: string)
    decreases |s|
  {
    (|sub| <= |s| && s[..|sub|] == sub) || (|s| > 0 && Contains(s[1..], sub))
  }

  /** The scan finds `sub` exactly when it occurs somewhere in `s`. */
  lemma {:induction false} ContainsIffOccurs(s: string, sub: string)
    ensures Contains(s, sub) <==> exists i :: OccursAt(s, sub, i)
    decreases |s|
  {
    if |sub| <= |s| && s[..|sub|] == sub {
      assert OccursAt(s, sub, 0);
    } else if |s| > 0 {
      ContainsIffOccurs(s[1..], sub);
      if Contains(s[1..], sub) {
        var i :| OccursAt(s[1..], sub, i);
        assert s[1..][i..i + |sub|] == s[i + 1..i + 1 + |sub|];
        assert OccursAt(s, sub, i + 1);
      } else {
        forall i | OccursAt(s, sub, i) && i > 0 ensures false {
          assert s[1..][i - 1..i - 1 + |sub|] == s[i..i + |sub|];
          assert OccursAt(s[1..], sub, i - 1);
        }
      }
    }
  }

  /** An occurrence at a known position is found by the scan. */
  lemma ContainsAt(s: string, sub: string, i: nat)
    requires OccursAt(s, sub, i)
    ensures Contains(s, sub)
  {
    ContainsIffOccurs(s, sub);
  }

  /** A string lacking one of the characters of `sub` does not contain `sub`. */
  lemma MissingChar(s: string, sub: string, k: nat)
    requires k < |sub| && sub[k] !in s
    ensures !Contains(s, sub)
  {
    ContainsIffOccurs(s, sub);
  }

  /** A substring that cannot start inside `a` occurs in `a + b` exactly when it occurs in `b`. */
  lemma ContainsPastPrefix(a: string, b: string, sub: string)
    requires sub != [] && sub[0] !in a
    ensures Contains(a + b, sub) <==> Contains(b, sub)
  {
    var s := a + b;
    ContainsIffOccurs(s, sub);
    ContainsIffOccurs(b, sub);
    if Contains(s, sub) {
      var i :| OccursAt(s, sub, i);
      assert s[i] == sub[0];
      assert i >= |a|;
      assert s[i..i + |sub|] == b[i - |a|..i - |a| + |sub|];
      assert OccursAt(b, sub, i - |a|);
    }
    if Contains(b, sub) {
      var j :| OccursAt(b, sub, j);
      assert s[j + |a|..j + |a| + |sub|] == b[j..j + |sub|];
      assert OccursAt(s, sub, j + |a|);
    }
  }

  // ---------------------------------------------------------------------------
  // strings.IndexByte, strings.Split and strings.Join with a one-character separator

  /** Position of the first `c` in `s`, or |s| when there is none. */
  function IndexOf(s: string, c: char): (i: nat)
    ensures i <= |s|
    ensures i < |s| ==> s[i] == c
    ensures forall j :: 0 <= j < i ==> s[j] != c
  {
    if s == [] then 0
    else if s[0] == c then 0
    else 1 + IndexOf(s[1..], c)
  }

  /** strings.Split(s, sep): the pieces between the separators; never empty. */
  function Split(s: string, sep: char): (parts: seq<string>)
    ensures |parts| > 0
    ensures forall k :: 0 <= k < |parts| ==> sep !in parts[k]
    decreases |s|
  {
    var i := IndexOf(s, sep);
    if i == |s| then [s] else [s[..i]] + Split(s[i + 1..], sep)
  }

  /** strings.Join(parts, sep). */
  function Join(parts: seq<string>, sep: char): string
  {
    if parts == [] then ""
    else if |parts| == 1 then parts[0]
    else parts[0] + [sep] + Join(parts[1..], sep)
  }

  /** Splitting a join recovers the pieces when none of them holds the separator. */
  lemma {:induction false} SplitJoin(parts: seq<string>, sep: char)
    requires |parts| > 0
    requires forall k :: 0 <= k < |parts| ==> sep !in parts[k]
    ensures Split(Join(parts, sep), sep) == parts
    decreases |parts|
  {
    if |parts| == 1 {
      NoSepIndex(parts[0], sep);
    } else {
      var s := Join(parts, sep);
      var rest := Join(parts[1..], sep);
      assert s == parts[0] + [sep] + rest;
      NoSepIndex(parts[0], sep);
      IndexOfAfterPrefix(parts[0], sep, rest);
      assert s[..|parts[0]|] == parts[0];
      assert s[|parts[0]| + 1..] == rest;
      SplitJoin(parts[1..], sep);
    }
  }

  lemma NoSepIndex(s: string, c: char)
    requires c !in s
    ensures IndexOf(s, c) == |s|
  {
  }

  lemma IndexOfAfterPrefix(p: string, c: char, rest: string)
    requires c !in p
    ensures IndexOf(p + [c] + rest, c) == |p|
  {
    var s := p + [c] + rest;
    assert s[|p|] == c;
    assert forall j :: 0 <= j < |p| ==> s[j] == p[j];
  }

  // ---------------------------------------------------------------------------
  // bufio.ScanLines

  /** Drops one trailing carriage return, as bufio's dropCR does. */
  function DropCR(s: string): (r: string)
    ensures r == s || (s == r + ['\r'])
  {
    if |s| > 0 && s[|s| - 1] == '\r' then s[..|s| - 1] else s
  }

  /**
   * The tokens a bufio.Scanner with the ScanLines split function yields:
   * every newline-terminated segment, and the final unterminated segment
   * when it is not empty; each with one trailing '\r' removed.
   */
  function Lines(s: string): (ls: seq<string>)
    ensures forall k :: 0 <= k < |ls| ==> '\n' !in ls[k]
    decreases |s|
  {
    if s == [] then []
    else
      var i := IndexOf(s, '\n');
      if i == |s| then [DropCR(s)] else [DropCR(s[..i])] + Lines(s[i + 1..])
  }

  /** Lines terminated by a newline each, the inverse of Lines. */
  function Terminated(ls: seq<string>): string
  {
    if ls == [] then "" else ls[0] + ['\n'] + Terminated(ls[1..])
  }

  /** A body with no newline at all is read as a single line. */
  lemma SingleLine(s: string)
    requires s != [] && '\n' !in s
    ensures Lines(s) == [DropCR(s)]
  {
    NoSepIndex(s, '\n');
  }

  /**
   * ScanLines inverts newline termination: no empty final token is produced,
   * as long as no line holds a newline or ends in a carriage return.
   */
  lemma {:induction false} LinesTerminated(ls: seq<string>)
    requires forall k :: 0 <= k < |ls| ==> '\n' !in ls[k]
    requires forall k :: 0 <= k < |ls| ==> ls[k] == [] || ls[k][|ls[k]| - 1] != '\r'
    ensures Lines(Terminated(ls)) == ls
    decreases |ls|
  {
    if ls != [] {
      var rest := Terminated(ls[1..]);
      var s := Terminated(ls);
      assert s == ls[0] + ['\n'] + rest;
      IndexOfAfterPrefix(ls[0], '\n', rest);
      assert s[..|ls[0]|] == ls[0];
      assert s[|ls[0]| + 1..] == rest;
      LinesTerminated(ls[1..]);
    }
  }

  /**
   * A body of newline-separated lines, with no trailing newline, scans back
   * into those lines as long as the last one is not empty.
   */
  lemma {:induction false} LinesJoined(ls: seq<string>)
    requires |ls| > 0 && ls[|ls| - 1] != []
    requires forall k :: 0 <= k < |ls| ==> '\n' !in ls[k]
    requires forall k :: 0 <= k < |ls| ==> ls[k] == [] || ls[k][|ls[k]| - 1] != '\r'
    ensures Lines(Join(ls, '\n')) == ls
    decreases |ls|
  {
    if |ls| == 1 {
      SingleLine(ls[0]);
    } else {
      var rest := Join(ls[1..], '\n');
      var s := Join(ls, '\n');
      assert s == ls[0] + ['\n'] + rest;
      IndexOfAfterPrefix(ls[0], '\n', rest);
      assert s[..|ls[0]|] == ls[0];
      assert s[|ls[0]| + 1..] == rest;
      LinesJoined(ls[1..]);
    }
  }

  // ---------------------------------------------------------------------------
  // Decimal digits, strconv.Atoi and strconv.Itoa

  function DigitValue(c: char): (d: nat)
    requires IsDigit(c)
    ensures d < 10
  {
    (c as int) - ('0' as int)
  }

  function DigitChar(d: nat): (c: char)
    requires d < 10
    ensures IsDigit(c) && DigitValue(c) == d
  {
    (('0' as int) + d) as char
  }

  /** The number a string of decimal digits denotes. */
  function DigitsValue(s: string): nat
    requires AllDigits(s)
  {
    if s == [] then 0 else DigitsValue(s[..|s| - 1]) * 10 + DigitValue(s[|s| - 1])
  }

  /** Where the pieces of a four-part concatenation sit in it. */
  lemma Pieces(a: string, b: string, c: string, d: string)
    ensures var s := a + b + c + d;
      (forall j :: 0 <= j < |a| ==> s[j] == a[j]) &&
      s[|a|..|a| + |b| + |c|] == b + c &&
      s[|a| + |b|..|a| + |b| + |c|] == c &&
      (d != [] ==> s[|a| + |b| + |c|] == d[0])
  {
    var s := a + b + c + d;
    assert s == a + (b + c) + d;
    assert s == (a + b) + c + d;
  }

  /** Two numerals written side by side: the first is shifted by the length of the second. */
  lemma {:induction false} DigitsAppend(a: string, b: string)
    requires AllDigits(a) && AllDigits(b)
    ensures AllDigits(a + b) && DigitsValue(a + b) == DigitsValue(a) * Pow10(|b|) + DigitsValue(b)
    decreases |b|
  {
    DigitsConcat(a, b);
    if b == [] {
      assert a + b == a;
    } else {
      var s := a + b;
      var b' := b[..|b| - 1];
      assert s[..|s| - 1] == a + b';
      assert s[|s| - 1] == b[|b| - 1];
      DigitsAppend(a, b');
      ShiftDigit(DigitsValue(a), Pow10(|b'|), DigitsValue(b'), DigitValue(b[|b| - 1]));
    }
  }

  lemma DigitsConcat(a: string, b: string)
    requires AllDigits(a) && AllDigits(b)
    ensures AllDigits(a + b)
  {
    var s := a + b;
    forall i | 0 <= i < |s| ensures IsDigit(s[i]) {
      if i < |a| { assert s[i] == a[i]; } else { assert s[i] == b[i - |a|]; }
    }
  }

  /** One more digit after a shifted numeral: the step of DigitsAppend. */
  lemma ShiftDigit(x: int, y: int, z: int, d: int)
    ensures (x * y + z) * 10 + d == x * (10 * y) + (z * 10 + d)
  {
  }

  /** The value of a two-digit numeral. */
  lemma TwoDigits(ds: string)
    requires |ds| == 2 && AllDigits(ds)
    ensures DigitsValue(ds) == 10 * DigitValue(ds[0]) + DigitValue(ds[1])
  {
    var first := ds[..1];
    assert first[..0] == [] && first[0] == ds[0];
    assert DigitsValue(first) == DigitValue(ds[0]);
    assert ds[..|ds| - 1] == first;
  }

  /** The shortest decimal numeral of `n`. */
  function NatDigits(n: nat): (s: string)
    ensures |s| > 0 && AllDigits(s)
    ensures DigitsValue(s) == n
    ensures |s| > 1 ==> s[0] != '0'
  {
    if n < 10 then [DigitChar(n)]
    else
      var s := NatDigits(n / 10) + [DigitChar(n % 10)];
      assert s[..|s| - 1] == NatDigits(n / 10);
      s
  }

  /** strconv.Itoa. */
  function Itoa(n: int): string
  {
    if n < 0 then "-" + NatDigits(-n) else NatDigits(n)
  }

  /** The result of strconv.Atoi for a string of digits, given its sign. */
  function SignedValue(negative: bool, ds: string): (r: Option<int>)
    requires AllDigits(ds)
    ensures r.Some? ==> InInt64(r.value)
  {
    if ds == [] then None
    else
      var d: int := DigitsValue(ds);
      var v := if negative then -d else d;
      if InInt64(v) then Some(v) else None
  }

  /**
   * strconv.Atoi on a 64-bit platform: an optional sign and at least one
   * decimal digit, nothing else, and a value that fits in `int`. None stands
   * for the returned *NumError (syntax or range).
   */
  function Atoi(s: string): (r: Option<int>)
    ensures r.Some? ==> InInt64(r.value)
    ensures s == [] ==> r == None
  {
    if |s| > 0 && (s[0] == '-' || s[0] == '+') then
      if AllDigits(s[1..]) then SignedValue(s[0] == '-', s[1..]) else None
    else if AllDigits(s) then SignedValue(false, s)
    else None
  }

  /** Atoi reads back what Itoa writes, for every 64-bit integer. */
  lemma AtoiItoa(n: int)
    requires InInt64(n)
    ensures Atoi(Itoa(n)) == Some(n)
  {
    if n < 0 {
      var s := Itoa(n);
      assert s[1..] == NatDigits(-n);
    } else {
      assert !IsDigit('-') && !IsDigit('+');
      assert Itoa(n)[0] != '-' && Itoa(n)[0] != '+';
    }
  }

  /** Atoi of a lone digit string is its value. */
  lemma AtoiDigits(ds: string)
    requires ds != [] && AllDigits(ds) && DigitsValue(ds) <= MaxInt64
    ensures Atoi(ds) == Some(DigitsValue(ds))
  {
    assert IsDigit(ds[0]);
  }

  // ---------------------------------------------------------------------------
  // fmt's "%0Nd"

  function Zeros(n: nat): (z: string)
    ensures |z| == n && AllDigits(z)
  {
    if n == 0 then "" else "0" + Zeros(n - 1)
  }

  /** Left-pads a numeral with zeros to `width` characters. */
  function ZeroPad(ds: string, width: int): (r: string)
    ensures |r| == if |ds| < width then width else |ds|
  {
    if |ds| < width then Zeros(width - |ds|) + ds else ds
  }

  /**
   * fmt.Sprintf("%0<width>d", n): a negative number keeps its sign in front
   * of the padding, which then covers one position fewer.
   */
  function PadInt(n: int, width: nat): string
  {
    if n < 0 then "-" + ZeroPad(NatDigits(-n), width - 1) else ZeroPad(NatDigits(n), width)
  }

  /** Leading zeros do not change a numeral's value. */
  lemma {:induction false} ZerosValue(n: nat, ds: string)
    requires AllDigits(ds)
    ensures AllDigits(Zeros(n) + ds) && DigitsValue(Zeros(n) + ds) == DigitsValue(ds)
    decreases |ds|
  {
    var s := Zeros(n) + ds;
    assert AllDigits(s) by {
      forall i | 0 <= i < |s| ensures IsDigit(s[i]) {
        if i < n { assert s[i] == Zeros(n)[i]; } else { assert s[i] == ds[i - n]; }
      }
    }
    if ds == [] {
      assert s == Zeros(n);
      ZerosAreZero(n);
    } else {
      assert s[..|s| - 1] == Zeros(n) + ds[..|ds| - 1];
      ZerosValue(n, ds[..|ds| - 1]);
    }
  }

  lemma {:induction false} ZerosAreZero(n: nat)
    ensures DigitsValue(Zeros(n)) == 0
  {
    if n > 0 {
      var z := Zeros(n);
      assert z == Zeros(n - 1) + "0" by { ZerosSnoc(n); }
      assert z[..|z| - 1] == Zeros(n - 1);
      ZerosAreZero(n - 1);
    }
  }

  lemma {:induction false} ZerosSnoc(n: nat)
    requires n > 0
    ensures Zeros(n) == Zeros(n - 1) + "0"
  {
    if n > 1 {
      ZerosSnoc(n - 1);
    }
  }

  /** A non-negative number padded to a width it fits in reads back as itself. */
  lemma PadIntValue(n: nat, width: nat)
    requires |NatDigits(n)| <= width
    ensures |PadInt(n, width)| == width && AllDigits(PadInt(n, width))
    ensures DigitsValue(PadInt(n, width)) == n
  {
    ZerosValue(width - |NatDigits(n)|, NatDigits(n));
  }

  function Pow10(w: nat): nat
  {
    if w == 0 then 1 else 10 * Pow10(w - 1)
  }

  /** A number below 10^w has at most w digits (0 itself takes one). */
  lemma {:induction false} NatDigitsLength(n: nat, w: nat)
    requires 0 < w && n < Pow10(w)
    ensures |NatDigits(n)| <= w
  {
    if n >= 10 {
      assert w > 1 && n / 10 < Pow10(w - 1);
      NatDigitsLength(n / 10, w - 1);
      assert NatDigits(n) == NatDigits(n / 10) + [DigitChar(n % 10)];
    }
  }
}
