/**
 * parseSendResponseBody (clockwork.go): the plain-text reply of the /send
 * endpoint, one line per recipient, read line by line. A line that mentions
 * "Error" and "To:" flags a rejected recipient and is otherwise skipped; a
 * line that mentions "Error" only ends the parse with the gateway's error;
 * any other line is an accepted recipient with its message id, and panics
 * when either of the two is missing.
 */
module SendResponse {
  import opened Wrappers
  import opened GoText
  import opened Errors
  import opened Tokens

  /** SMSResponse: each accepted recipient with the fields of its reply. */
  type SMSResponse = map<string, map<string, string>>

  /** The reply fields stored for one recipient. */
  function IdEntry(id: string): map<string, string>
  {
    map["ID" := id]
  }

  /**
   * What a call of parseSendResponseBody comes to: the two results it
   * returns (None standing for nil), or a run-time panic.
   */
  datatype SendOutcome =
    | Returned(resp: Option<SMSResponse>, err: Option<ErrorKind>)
    | Panicked

  /** What the loop makes of one line. */
  datatype LineKind =
    | RejectedLine                          // "To: 123 Error 10: ...": flag it, go on
    | ErrorLine(err: ErrorKind)             // "Error 58: ...": stop with this error
    | SuccessLine(to: string, id: string)   // "To: 44... ID: VE_...": record it, go on
    | MalformedLine                         // no recipient or no id: index out of range

  function Classify(line: string): (k: LineKind)
    ensures k.ErrorLine? ==> k.err != StatusCode && k.err != TransportError
  {
    if Contains(line, "Error") then
      if Contains(line, "To:") then RejectedLine else ErrorLine(CodeError(line))
    else
      var to := Split(FindToken(ToHead, line), ' ');
      var id := Split(FindToken(IdHead, line), ' ');
      if |to| < 2 || |id| < 2 then MalformedLine else SuccessLine(to[1], id[1])
  }

  /** The kind of every scanned line, in order. */
  function Kinds(lines: seq<string>): seq<LineKind>
  {
    if lines == [] then [] else [Classify(lines[0])] + Kinds(lines[1..])
  }

  lemma {:induction false} KindsAt(lines: seq<string>, i: nat)
    requires i < |lines|
    ensures |Kinds(lines)| == |lines| && Kinds(lines)[i] == Classify(lines[i])
  {
    KindsLength(lines);
    if i > 0 {
      KindsAt(lines[1..], i - 1);
    }
  }

  lemma {:induction false} KindsLength(lines: seq<string>)
    ensures |Kinds(lines)| == |lines|
  {
    if lines != [] {
      KindsLength(lines[1..]);
    }
  }

  /** The lines at which the loop returns early. */
  predicate IsStop(k: LineKind) { k.ErrorLine? || k.MalformedLine? }

  /** The first line at or after `from` at which the loop returns. */
  function FirstStop(ks: seq<LineKind>, from: nat): (r: Option<nat>)
    requires from <= |ks|
    ensures r.Some? ==> from <= r.value < |ks| && IsStop(ks[r.value])
    ensures r.Some? ==> forall j :: from <= j < r.value ==> !IsStop(ks[j])
    ensures r.None? ==> forall j :: from <= j < |ks| ==> !IsStop(ks[j])
    decreases |ks| - from
  {
    if from == |ks| then None
    else if IsStop(ks[from]) then Some(from)
    else FirstStop(ks, from + 1)
  }

  /** The recipients recorded from a run of lines: later lines overwrite earlier ones. */
  function Successes(ks: seq<LineKind>): SMSResponse
  {
    if ks == [] then map[]
    else
      var before := Successes(ks[..|ks| - 1]);
      match ks[|ks| - 1]
      case SuccessLine(to, id) => before[to := IdEntry(id)]
      case _ => before
  }

  /** Some line of the run flagged a rejected recipient. */
  predicate AnyRejected(ks: seq<LineKind>)
  {
    ks != [] && (AnyRejected(ks[..|ks| - 1]) || ks[|ks| - 1].RejectedLine?)
  }

  /**
   * What the parse of a run of lines comes to: the first line that stops
   * it decides, and the successes before it are dropped; without one, the
   * recorded recipients, with ErrInvalidTo when some recipient was
   * rejected, and a nil map when moreover none was accepted.
   */
  function OutcomeOf(ks: seq<LineKind>): SendOutcome
  {
    match FirstStop(ks, 0)
    case Some(i) =>
      (match ks[i]
       case ErrorLine(e) => Returned(None, Some(e))
       case _ => Panicked)
    case None =>
      var nums := Successes(ks);
      if AnyRejected(ks) then
        if |nums| > 0 then Returned(Some(nums), Some(InvalidTo)) else Returned(None, Some(InvalidTo))
      else Returned(Some(nums), None)
  }

  /** The outcome of parsing the scanned lines of a body. */
  function Outcome(lines: seq<string>): SendOutcome
  {
    OutcomeOf(Kinds(lines))
  }

  /** None of the first `i` lines stops the loop. */
  predicate Unstopped(ks: seq<LineKind>, i: nat)
    requires i <= |ks|
  {
    forall j :: 0 <= j < i ==> !IsStop(ks[j])
  }

  /** The first line that stops the loop decides the outcome. */
  lemma StopOutcome(ks: seq<LineKind>, i: nat)
    requires i < |ks| && IsStop(ks[i])
    requires Unstopped(ks, i)
    ensures OutcomeOf(ks) == if ks[i].ErrorLine? then Returned(None, Some(ks[i].err)) else Panicked
  {
    assert FirstStop(ks, 0) == Some(i);
  }

  /** Without a stopping line the flag and the map decide the outcome. */
  lemma EndOutcome(ks: seq<LineKind>, nums: SMSResponse, badNumbers: bool)
    requires Unstopped(ks, |ks|)
    requires nums == Successes(ks) && (badNumbers <==> AnyRejected(ks))
    ensures OutcomeOf(ks) ==
      if !badNumbers then Returned(Some(nums), None)
      else if |nums| > 0 then Returned(Some(nums), Some(InvalidTo))
      else Returned(None, Some(InvalidTo))
  {
    assert FirstStop(ks, 0).None?;
  }

  /** A line that does not stop the loop extends the run of lines that did not. */
  lemma NoStopYet(ks: seq<LineKind>, i: nat)
    requires i < |ks| && !IsStop(ks[i])
    requires Unstopped(ks, i)
    ensures Unstopped(ks, i + 1)
  {
  }

  /** One more line taken: the map and the flag of the longer prefix. */
  lemma Step(ks: seq<LineKind>, i: nat)
    requires i < |ks|
    ensures Successes(ks[..i + 1]) ==
      match ks[i]
      case SuccessLine(to, id) => Successes(ks[..i])[to := IdEntry(id)]
      case _ => Successes(ks[..i])
    ensures AnyRejected(ks[..i + 1]) <==> AnyRejected(ks[..i]) || ks[i].RejectedLine?
  {
    assert ks[..i + 1][..i] == ks[..i];
    assert ks[..i + 1][i] == ks[i];
  }

  /** The body of the scan loop for one line, as the source branches on it. */
  method ScanLine(line: string) returns (k: LineKind)
    ensures k == Classify(line)
  {
    if Contains(line, "Error") {
      if Contains(line, "To:") {
        return RejectedLine;
      }
      var code := Atoi(FindToken(CodeHead, line));
      if code.None? {
        return ErrorLine(ParseError);
      }
      return ErrorLine(ErrorFromCode(code.value));
    }
    var to := Split(FindToken(ToHead, line), ' ');
    var id := Split(FindToken(IdHead, line), ' ');
    if |to| < 2 || |id| < 2 {
      return MalformedLine;
    }
    return SuccessLine(to[1], id[1]);
  }

  /**
   * parseSendResponseBody, with bufio's ScanLines as Lines: the scan loop
   * keeps the flag and the map of its prefix, and returns at the first
   * line that stops it, with the error or the panic of that line.
   */
  method ParseSendResponseBody(body: string) returns (outcome: SendOutcome)
    ensures outcome == Outcome(Lines(body))
  {
    var lines := Lines(body);
    ghost var ks := Kinds(lines);
    KindsLength(lines);
    var badNumbers := false;
    var nums: SMSResponse := map[];
    var i := 0;
    while i < |lines|
      invariant 0 <= i <= |lines|
      invariant Unstopped(ks, i)
      invariant nums == Successes(ks[..i])
      invariant badNumbers <==> AnyRejected(ks[..i])
    {
      KindsAt(lines, i);
      var k := ScanLine(lines[i]);
      Step(ks, i);
      match k {
        case RejectedLine =>
          NoStopYet(ks, i);
          badNumbers := true;
        case ErrorLine(e) =>
          StopOutcome(ks, i);
          return Returned(None, Some(e));
        case MalformedLine =>
          StopOutcome(ks, i);
          return Panicked;
        case SuccessLine(to, id) =>
          NoStopYet(ks, i);
          nums := nums[to := map["ID" := id]];
      }
      i := i + 1;
    }
    assert ks[..i] == ks;
    EndOutcome(ks, nums, badNumbers);
    if badNumbers {
      if |nums| > 0 {
        return Returned(Some(nums), Some(InvalidTo));
      }
      return Returned(None, Some(InvalidTo));
    }
    return Returned(Some(nums), None);
  }

  // ---------------------------------------------------------------------------
  // What an outcome says about the reply

  /** `k` records recipient `to`. */
  predicate Records(k: LineKind, to: string) { k.SuccessLine? && k.to == to }

  /** The map holds exactly the recipients of the success lines. */
  lemma {:induction false} SuccessesKeys(ks: seq<LineKind>, to: string)
    ensures to in Successes(ks) <==> exists j :: 0 <= j < |ks| && Records(ks[j], to)
    decreases |ks|
  {
    if ks != [] {
      var n := |ks| - 1;
      SuccessesKeys(ks[..n], to);
      if exists j :: 0 <= j < n && Records(ks[..n][j], to) {
        var j :| 0 <= j < n && Records(ks[..n][j], to);
        assert Records(ks[j], to);
      }
      if exists j :: 0 <= j < |ks| && Records(ks[j], to) {
        var j :| 0 <= j < |ks| && Records(ks[j], to);
        if j < n {
          assert Records(ks[..n][j], to);
        }
      }
    }
  }

  /**
   * A recipient named on several success lines keeps the id of the last
   * of them: each line overwrites the map entry.
   */
  lemma {:induction false} LastSuccessWins(ks: seq<LineKind>, j: nat)
    requires j < |ks| && ks[j].SuccessLine?
    requires forall l :: j < l < |ks| ==> !Records(ks[l], ks[j].to)
    ensures ks[j].to in Successes(ks) && Successes(ks)[ks[j].to] == IdEntry(ks[j].id)
    decreases |ks|
  {
    var n := |ks| - 1;
    if j < n {
      assert ks[..n][j] == ks[j];
      LastSuccessWins(ks[..n], j);
    }
  }

  /** The rejection flag is raised exactly when some line was a rejected recipient. */
  lemma {:induction false} AnyRejectedIff(ks: seq<LineKind>)
    ensures AnyRejected(ks) <==> exists j :: 0 <= j < |ks| && ks[j].RejectedLine?
    decreases |ks|
  {
    if ks != [] {
      var n := |ks| - 1;
      AnyRejectedIff(ks[..n]);
      if exists j :: 0 <= j < n && ks[..n][j].RejectedLine? {
        var j :| 0 <= j < n && ks[..n][j].RejectedLine?;
        assert ks[j].RejectedLine?;
      }
      if exists j :: 0 <= j < |ks| && ks[j].RejectedLine? {
        var j :| 0 <= j < |ks| && ks[j].RejectedLine?;
        if j < n {
          assert ks[..n][j].RejectedLine?;
        }
      }
    }
  }

  /**
   * The loop returns at its first stopping line, so nothing after it can
   * change the outcome.
   */
  lemma LinesAfterStopIgnored(ks: seq<LineKind>, i: nat, rest: seq<LineKind>)
    requires i < |ks| && IsStop(ks[i])
    ensures OutcomeOf(ks[..i + 1] + rest) == OutcomeOf(ks[..i + 1])
  {
    var f := FirstStop(ks[..i + 1], 0).value;
    var a := ks[..i + 1];
    assert IsStop(a[i]);
    assert forall j :: 0 <= j <= f ==> (a + rest)[j] == a[j];
    StopOutcome(a, f);
    StopOutcome(a + rest, f);
  }

  /**
   * When the map comes back it is the whole record of the reply: no line
   * stopped the loop, every success line's recipient is in it, and the
   * error beside it is ErrInvalidTo exactly when some recipient was
   * rejected, in which case the map is not empty. A nil map comes with an
   * error always.
   */
  lemma ReturnedMap(ks: seq<LineKind>)
    ensures OutcomeOf(ks).Returned? && OutcomeOf(ks).resp.None? ==> OutcomeOf(ks).err.Some?
    ensures OutcomeOf(ks).Returned? && OutcomeOf(ks).resp.Some? ==>
      var m := OutcomeOf(ks).resp.value;
      (forall j :: 0 <= j < |ks| ==> !IsStop(ks[j])) &&
      (forall j :: 0 <= j < |ks| && ks[j].SuccessLine? ==> ks[j].to in m) &&
      (forall to :: to in m ==> exists j :: 0 <= j < |ks| && Records(ks[j], to)) &&
      (OutcomeOf(ks).err.Some? <==> exists j :: 0 <= j < |ks| && ks[j].RejectedLine?) &&
      (OutcomeOf(ks).err.Some? ==> OutcomeOf(ks).err == Some(InvalidTo) && |m| > 0)
  {
    AnyRejectedIff(ks);
    forall to {
      SuccessesKeys(ks, to);
    }
    forall j | 0 <= j < |ks| && ks[j].SuccessLine?
      ensures ks[j].to in Successes(ks)
    {
      SuccessesKeys(ks, ks[j].to);
      assert Records(ks[j], ks[j].to);
    }
  }

  /**
   * The parse never reports the client-side errors: a status-code or
   * transport error cannot come from the body.
   */
  lemma OutcomeErrors(lines: seq<string>)
    ensures Outcome(lines).Returned? && Outcome(lines).err.Some? ==>
      Outcome(lines).err.value != StatusCode && Outcome(lines).err.value != TransportError
  {
    var ks := Kinds(lines);
    match FirstStop(ks, 0)
    case Some(i) =>
      KindsLength(lines);
      KindsAt(lines, i);
    case None =>
  }

  // ---------------------------------------------------------------------------
  // Lines as the loop reads them

  /**
   * How one line is read: the two "Error"/"To:" tests pick the branch; a
   * success line is one on which both the recipient and the id patterns
   * match, and they give the text after the label, a recipient starting with
   * a digit; on any other line the split on spaces has one field only.
   */
  lemma ClassifyCases(line: string)
    ensures Classify(line).RejectedLine? <==> Contains(line, "Error") && Contains(line, "To:")
    ensures Classify(line).ErrorLine? <==> Contains(line, "Error") && !Contains(line, "To:")
    ensures Classify(line).ErrorLine? ==> Classify(line).err == CodeError(line)
    ensures Classify(line).SuccessLine? <==>
      !Contains(line, "Error") && FindToken(ToHead, line) != [] && FindToken(IdHead, line) != []
    ensures Classify(line).SuccessLine? ==>
      var k := Classify(line);
      k.to == FindToken(ToHead, line)[4..] && k.id == FindToken(IdHead, line)[4..] &&
      |k.to| >= 2 && IsDigit(k.to[0]) && |k.id| >= 2
  {
    var t := FindToken(ToHead, line);
    var d := FindToken(IdHead, line);
    if t != [] {
      SplitLabelled(ToHead, line);
      TokenShape(ToHead, line);
      assert t[4..][0] == t[4];
    }
    if d != [] {
      SplitLabelled(IdHead, line);
    }
  }

  /** An empty line, such as a blank line in the middle of a reply, panics. */
  lemma EmptyLinePanics()
    ensures Classify("") == MalformedLine
  {
    assert !Contains("", "Error");
  }

  /** The layout of a success line: "To: <number> ID: <id>" after some blanks. */
  function SuccessText(pre: string, to: string, id: string): string
  {
    pre + "To: " + to + " ID: " + id
  }

  predicate Blanks(pre: string) { forall k :: 0 <= k < |pre| ==> pre[k] == ' ' || pre[k] == '\t' }

  /**
   * A number and an id the two patterns take whole: a number of two or more
   * digits, an id of word characters starting with a capital or a digit.
   * An id holding "Error" would turn the line into an error line.
   */
  predicate WellFormedPair(to: string, id: string)
  {
    |to| >= 2 && AllDigits(to) &&
    |id| >= 2 && (IsUpper(id[0]) || IsDigit(id[0])) &&
    (forall k :: 0 <= k < |id| ==> IsWord(id[k])) &&
    !Contains(id, "Error")
  }

  /** Where each piece of a success line sits. */
  lemma SuccessTextLayout(pre: string, to: string, id: string)
    ensures var line := SuccessText(pre, to, id); var p := |pre|; var b := p + 4 + |to|;
      |line| == b + 5 + |id| &&
      (forall k :: 0 <= k < p ==> line[k] == pre[k]) &&
      line[p..p + 4] == "To: " && line[p] == 'T' &&
      (forall k :: p + 4 <= k < b ==> line[k] == to[k - p - 4]) &&
      line[b] == ' ' && line[b + 1..b + 5] == "ID: " && line[b + 1] == 'I' &&
      (forall k :: b + 5 <= k < |line| ==> line[k] == id[k - b - 5])
  {
    var line := SuccessText(pre, to, id);
    var p := |pre|;
    var b := p + 4 + |to|;
    var head := pre + ("To: " + to);
    assert line == head + (" ID: " + id);
    var head2 := pre + "To: " + to + " ";
    assert line == head2 + ("ID: " + id);
  }

  /** No 'I' before the id label, and no 'E' before the id. */
  lemma SuccessTextLetters(pre: string, to: string, id: string)
    requires Blanks(pre) && WellFormedPair(to, id)
    ensures var line := SuccessText(pre, to, id);
      (forall k :: 0 <= k <= |pre| + 4 + |to| ==> line[k] != 'I') &&
      (forall k :: 0 <= k < |pre| + 4 + |to| + 5 ==> line[k] != 'E')
  {
    var line := SuccessText(pre, to, id);
    SuccessTextLayout(pre, to, id);
    var p := |pre|;
    var b := p + 4 + |to|;
    assert line[p + 1] == 'o' && line[p + 2] == ':' && line[p + 3] == ' ';
    assert line[b + 2] == 'D' && line[b + 3] == ':' && line[b + 4] == ' ';
  }

  lemma SuccessTextNoError(pre: string, to: string, id: string)
    requires Blanks(pre) && WellFormedPair(to, id)
    ensures !Contains(SuccessText(pre, to, id), "Error")
  {
    var line := SuccessText(pre, to, id);
    var head := pre + "To: " + to + " ID: ";
    assert line == head + id;
    SuccessTextLetters(pre, to, id);
    assert forall k :: 0 <= k < |head| ==> head[k] == line[k];
    ContainsPastPrefix(head, id, "Error");
  }

  lemma SuccessTextRecipient(pre: string, to: string, id: string)
    requires Blanks(pre) && WellFormedPair(to, id)
    ensures FindToken(ToHead, SuccessText(pre, to, id)) == "To: " + to
  {
    var t := "To: " + to;
    var v := " ID: " + id;
    assert SuccessText(pre, to, id) == pre + t + v;
    assert t[0..4] == "To: " && t[4] == to[0];
    assert forall m :: 4 <= m < |t| ==> t[m] == to[m - 4];
    TokenBetween(ToHead, pre, t, v);
  }

  lemma SuccessTextId(pre: string, to: string, id: string)
    requires Blanks(pre) && WellFormedPair(to, id)
    ensures FindToken(IdHead, SuccessText(pre, to, id)) == "ID: " + id
  {
    var line := SuccessText(pre, to, id);
    var head := pre + "To: " + to + " ";
    var tail := "ID: " + id;
    assert line == head + tail + [];
    SuccessTextLetters(pre, to, id);
    assert forall j :: 0 <= j < |head| ==> head[j] == line[j];
    assert tail[0..4] == "ID: " && tail[4] == id[0];
    assert forall m :: 4 <= m < |tail| ==> tail[m] == id[m - 4];
    TokenBetween(IdHead, head, tail, []);
  }

  /** A success line records its number with its id. */
  lemma SuccessLineOf(pre: string, to: string, id: string)
    requires Blanks(pre) && WellFormedPair(to, id)
    ensures Classify(SuccessText(pre, to, id)) == SuccessLine(to, id)
  {
    var line := SuccessText(pre, to, id);
    SuccessTextNoError(pre, to, id);
    SuccessTextRecipient(pre, to, id);
    SuccessTextId(pre, to, id);
    ClassifyCases(line);
    assert ("To: " + to)[4..] == to;
    assert ("ID: " + id)[4..] == id;
  }

  /** A line naming a recipient and an error flags a rejected recipient. */
  lemma RejectedLineAt(line: string, i: nat, j: nat)
    requires OccursAt(line, "Error", i) && OccursAt(line, "To:", j)
    ensures Classify(line) == RejectedLine
  {
    ContainsAt(line, "Error", i);
    ContainsAt(line, "To:", j);
  }

  // ---------------------------------------------------------------------------
  // Whole replies

  /** An empty reply is a success with an empty, non-nil map. */
  lemma EmptyReply()
    ensures Outcome(Lines("")) == Returned(Some(map[]), None)
  {
  }

  /** A blank line reached before any stopping line panics the parse. */
  lemma BlankLinePanics(lines: seq<string>, i: nat)
    requires i < |lines| && lines[i] == ""
    requires forall j :: 0 <= j < i ==> !IsStop(Classify(lines[j]))
    ensures Outcome(lines) == Panicked
  {
    var ks := Kinds(lines);
    KindsLength(lines);
    forall j | 0 <= j < i ensures !IsStop(ks[j]) {
      KindsAt(lines, j);
    }
    KindsAt(lines, i);
    EmptyLinePanics();
    StopOutcome(ks, i);
  }

  /** A reply of a single line is read as that line alone. */
  lemma OneLineReply(line: string, k: LineKind)
    requires line != [] && '\n' !in line && line[|line| - 1] != '\r'
    requires Classify(line) == k
    ensures Outcome(Lines(line)) == OutcomeOf([k])
  {
    SingleLine(line);
    assert Kinds([line]) == [Classify(line)];
  }

  /** The outcome of a reply of one line of kind `k`. */
  lemma OneLineOutcome(k: LineKind)
    ensures OutcomeOf([k]) ==
      match k
      case RejectedLine => Returned(None, Some(InvalidTo))
      case ErrorLine(e) => Returned(None, Some(e))
      case SuccessLine(to, id) => Returned(Some(map[to := IdEntry(id)]), None)
      case MalformedLine => Panicked
  {
    var ks := [k];
    assert ks[..0] == [] && ks[..|ks| - 1] == [] && ks[|ks| - 1] == k;
    assert FirstStop(ks, 1) == None;
    assert Successes([]) == map[];
    match k
    case SuccessLine(to, id) =>
      assert Successes(ks) == map[to := IdEntry(id)];
      assert FirstStop(ks, 0) == None;
      assert !AnyRejected(ks[..0]);
      assert !AnyRejected(ks);
    case RejectedLine =>
      assert Successes(ks) == map[];
    case _ =>
  }

  /** The layout of a rejected recipient: "To: <number> Error<rest>" after some blanks. */
  function RejectedText(pre: string, to: string, rest: string): string
  {
    pre + "To: " + to + " Error" + rest
  }

  lemma RejectedLineOf(pre: string, to: string, rest: string)
    ensures Classify(RejectedText(pre, to, rest)) == RejectedLine
  {
    var line := RejectedText(pre, to, rest);
    var p := |pre|;
    var q := p + 5 + |to|;
    var tail := "To:" + (" " + to + " Error" + rest);
    assert line == pre + tail;
    assert line[p..p + 3] == tail[..3];
    var tail2 := "Error" + rest;
    assert line == (pre + "To: " + to + " ") + tail2;
    assert line[q..q + 5] == tail2[..5];
    RejectedLineAt(line, q, p);
  }

  /** A gateway error line "Error <code>:<message>" stops the parse with the code's error. */
  lemma CodeErrorLine(ds: string, msg: string)
    requires !Contains(msg, "To:")
    requires AllDigits(ds)
    ensures Classify("Error " + ds + ":" + msg) == ErrorLine(CodeError("Error " + ds + ":" + msg))
  {
    var line := "Error " + ds + ":" + msg;
    var head := "Error " + ds + ":";
    assert line == head + msg;
    assert line[0..5] == "Error";
    ContainsAt(line, "Error", 0);
    assert forall k :: 6 <= k < 6 + |ds| ==> head[k] == ds[k - 6];
    assert 'T' !in head by {
      forall k | 0 <= k < |head| ensures head[k] != 'T' {
        if 6 <= k < 6 + |ds| { assert IsDigit(ds[k - 6]); }
      }
    }
    ContainsPastPrefix(head, msg, "To:");
  }

  /** No character of `msg` ends a line. */
  predicate LineSafe(msg: string)
  {
    forall k :: 0 <= k < |msg| ==> msg[k] != '\n' && msg[k] != '\r'
  }

  /** A success line is a whole line for the scanner. */
  lemma SuccessTextSafe(pre: string, to: string, id: string)
    requires Blanks(pre) && WellFormedPair(to, id)
    ensures var line := SuccessText(pre, to, id);
      line != [] && '\n' !in line && line[|line| - 1] != '\r'
  {
    var line := SuccessText(pre, to, id);
    SuccessTextLayout(pre, to, id);
    assert line[|line| - 1] == id[|id| - 1];
    forall j | 0 <= j < |line| ensures line[j] != '\n' {
      if j >= |pre| + 4 + |to| + 5 { assert IsWord(id[j - |pre| - 4 - |to| - 5]); }
    }
  }

  /** A reply of one success line. */
  lemma SuccessReply(pre: string, to: string, id: string)
    requires Blanks(pre) && WellFormedPair(to, id)
    ensures Outcome(Lines(SuccessText(pre, to, id))) == Returned(Some(map[to := IdEntry(id)]), None)
  {
    SuccessLineOf(pre, to, id);
    SuccessTextSafe(pre, to, id);
    OneLineReply(SuccessText(pre, to, id), SuccessLine(to, id));
    OneLineOutcome(SuccessLine(to, id));
  }

  /** A reply of one rejected-recipient line: a nil map and ErrInvalidTo. */
  lemma RejectedReply(pre: string, to: string, rest: string)
    requires Blanks(pre) && AllDigits(to) && rest != [] && LineSafe(rest)
    ensures Outcome(Lines(RejectedText(pre, to, rest))) == Returned(None, Some(InvalidTo))
  {
    var line := RejectedText(pre, to, rest);
    RejectedLineOf(pre, to, rest);
    assert forall j :: 0 <= j < |pre| ==> line[j] == pre[j];
    assert forall j :: |pre| + 4 <= j < |pre| + 4 + |to| ==> line[j] == to[j - |pre| - 4];
    assert forall j :: |pre| + 4 + |to| + 6 <= j < |line| ==> line[j] == rest[j - |pre| - 4 - |to| - 6];
    OneLineReply(line, RejectedLine);
    OneLineOutcome(RejectedLine);
  }

  /** A gateway error line is a whole line for the scanner. */
  lemma CodeTextSafe(ds: string, msg: string)
    requires AllDigits(ds) && msg != [] && LineSafe(msg)
    ensures var line := "Error " + ds + ":" + msg;
      line != [] && '\n' !in line && line[|line| - 1] != '\r'
  {
    var line := "Error " + ds + ":" + msg;
    assert forall j :: 7 + |ds| <= j < |line| ==> line[j] == msg[j - 7 - |ds|];
    assert forall j :: 6 <= j < 6 + |ds| ==> line[j] == ds[j - 6];
    assert line[..6] == "Error ";
  }

  /** A reply of one gateway error line. */
  lemma CodeErrorReply(ds: string, msg: string)
    requires AllDigits(ds) && msg != [] && LineSafe(msg)
    requires !Contains(msg, "To:")
    ensures Outcome(Lines("Error " + ds + ":" + msg)) == Returned(None, Some(CodeError("Error " + ds + ":" + msg)))
  {
    var line := "Error " + ds + ":" + msg;
    CodeErrorLine(ds, msg);
    CodeTextSafe(ds, msg);
    OneLineReply(line, ErrorLine(CodeError(line)));
    OneLineOutcome(ErrorLine(CodeError(line)));
  }

  /** The reply to a message for one valid number, "To: 1234567890 ID: VE_439333520". */
  lemma OneValidNumber(to: string, id: string)
    requires to == "1234567890" && id == "VE_439333520"
    ensures Outcome(Lines(SuccessText("", to, id))) == Returned(Some(map["1234567890" := IdEntry("VE_439333520")]), None)
  {
    ExamplePairWellFormed(to, id);
    SuccessReply("", to, id);
  }

  /** The reply to a message for one invalid number, "To: 123 Error 10: Invalid 'To' Parameter". */
  lemma OneInvalidNumber(to: string, rest: string)
    requires to == "123" && rest == " 10: Invalid 'To' Parameter"
    ensures Outcome(Lines(RejectedText("", to, rest))) == Returned(None, Some(InvalidTo))
  {
    RejectedReply("", to, rest);
  }

  /** The reply to a request with a wrong key, "Error 58: Invalid API Key". */
  lemma InvalidKeyReply(ds: string, msg: string)
    requires ds == "58" && msg == " Invalid API Key"
    ensures Outcome(Lines("Error " + ds + ":" + msg)) == Returned(None, Some(InvalidAPIKey))
  {
    KeyMessageClean(msg);
    CodeErrorReply(ds, msg);
    InvalidKeyCode(ds, msg);
  }

  /** The message of the wrong-key reply is one line and names no recipient. */
  lemma KeyMessageClean(msg: string)
    requires msg == " Invalid API Key"
    ensures msg != [] && LineSafe(msg) && !Contains(msg, "To:")
  {
    MissingChar(msg, "To:", 0);
  }

  /** A rejected-recipient line is a whole line for the scanner. */
  lemma RejectedTextSafe(pre: string, to: string, rest: string)
    requires Blanks(pre) && AllDigits(to) && rest != [] && LineSafe(rest)
    ensures var line := RejectedText(pre, to, rest);
      line != [] && '\n' !in line && line[|line| - 1] != '\r'
  {
    var line := RejectedText(pre, to, rest);
    assert forall j :: 0 <= j < |pre| ==> line[j] == pre[j];
    assert forall j :: |pre| + 4 <= j < |pre| + 4 + |to| ==> line[j] == to[j - |pre| - 4];
    assert forall j :: |pre| + 4 + |to| + 6 <= j < |line| ==> line[j] == rest[j - |pre| - 4 - |to| - 6];
  }

  /** The outcome of two rejected recipients followed by two accepted ones. */
  lemma MixedOutcome(to3: string, id3: string, to4: string, id4: string)
    requires to3 != to4
    ensures OutcomeOf([RejectedLine, RejectedLine, SuccessLine(to3, id3), SuccessLine(to4, id4)]) ==
      Returned(Some(map[to3 := IdEntry(id3), to4 := IdEntry(id4)]), Some(InvalidTo))
  {
    var k0 := [RejectedLine];
    var k1 := k0 + [RejectedLine];
    var k2 := k1 + [SuccessLine(to3, id3)];
    var ks := k2 + [SuccessLine(to4, id4)];
    assert ks == [RejectedLine, RejectedLine, SuccessLine(to3, id3), SuccessLine(to4, id4)];
    assert FirstStop(ks, 0) == None by {
      assert forall j :: 0 <= j < 4 ==> !IsStop(ks[j]);
    }
    AnyRejectedIff(ks);
    assert ks[0].RejectedLine?;
    assert k0[..0] == [] && Successes(k0) == map[];
    assert k1[..1] == k0 && Successes(k1) == map[];
    assert k2[..2] == k1 && Successes(k2) == map[to3 := IdEntry(id3)];
    assert ks[..3] == k2 && Successes(ks) == map[to3 := IdEntry(id3), to4 := IdEntry(id4)];
    assert to3 in Successes(ks);
  }

  /** The four lines of a reply with two rejected and two accepted recipients. */
  function MixedLines(pre: string, bad1: string, rest1: string, bad2: string, rest2: string,
                      to3: string, id3: string, to4: string, id4: string): seq<string>
  {
    [RejectedText("", bad1, rest1), RejectedText(pre, bad2, rest2),
     SuccessText(pre, to3, id3), SuccessText(pre, to4, id4)]
  }

  lemma MixedScan(pre: string, bad1: string, rest1: string, bad2: string, rest2: string,
                  to3: string, id3: string, to4: string, id4: string)
    requires Blanks(pre) && AllDigits(bad1) && AllDigits(bad2)
    requires rest1 != [] && LineSafe(rest1) && rest2 != [] && LineSafe(rest2)
    requires WellFormedPair(to3, id3) && WellFormedPair(to4, id4)
    ensures var ls := MixedLines(pre, bad1, rest1, bad2, rest2, to3, id3, to4, id4);
      Lines(Join(ls, '\n')) == ls
  {
    RejectedTextSafe("", bad1, rest1);
    RejectedTextSafe(pre, bad2, rest2);
    SuccessTextSafe(pre, to3, id3);
    SuccessTextSafe(pre, to4, id4);
    LinesJoined(MixedLines(pre, bad1, rest1, bad2, rest2, to3, id3, to4, id4));
  }

  lemma MixedKinds(pre: string, bad1: string, rest1: string, bad2: string, rest2: string,
                   to3: string, id3: string, to4: string, id4: string)
    requires Blanks(pre) && WellFormedPair(to3, id3) && WellFormedPair(to4, id4)
    ensures Kinds(MixedLines(pre, bad1, rest1, bad2, rest2, to3, id3, to4, id4)) ==
      [RejectedLine, RejectedLine, SuccessLine(to3, id3), SuccessLine(to4, id4)]
  {
    var ls := MixedLines(pre, bad1, rest1, bad2, rest2, to3, id3, to4, id4);
    RejectedLineOf("", bad1, rest1);
    RejectedLineOf(pre, bad2, rest2);
    SuccessLineOf(pre, to3, id3);
    SuccessLineOf(pre, to4, id4);
    KindsAt(ls, 0);
    KindsAt(ls, 1);
    KindsAt(ls, 2);
    KindsAt(ls, 3);
  }

  /**
   * A reply with two rejected recipients and two accepted ones, each line
   * after the first indented: ErrInvalidTo, and the map of the two accepted.
   */
  lemma MixedReply(pre: string, bad1: string, rest1: string, bad2: string, rest2: string,
                   to3: string, id3: string, to4: string, id4: string)
    requires Blanks(pre) && AllDigits(bad1) && AllDigits(bad2)
    requires rest1 != [] && LineSafe(rest1) && rest2 != [] && LineSafe(rest2)
    requires WellFormedPair(to3, id3) && WellFormedPair(to4, id4) && to3 != to4
    ensures Outcome(Lines(Join(MixedLines(pre, bad1, rest1, bad2, rest2, to3, id3, to4, id4), '\n'))) ==
      Returned(Some(map[to3 := IdEntry(id3), to4 := IdEntry(id4)]), Some(InvalidTo))
  {
    MixedScan(pre, bad1, rest1, bad2, rest2, to3, id3, to4, id4);
    MixedKinds(pre, bad1, rest1, bad2, rest2, to3, id3, to4, id4);
    MixedOutcome(to3, id3, to4, id4);
  }

  /** The numbers and ids of the package's tests are taken whole by the two patterns. */
  lemma ExamplePairWellFormed(to: string, id: string)
    requires (to == "13053696625" && id == "LA_360224205") || (to == "44123456789" && id == "VE_360224242") ||
             (to == "1234567890" && id == "VE_439333520")
    ensures WellFormedPair(to, id)
  {
    PairWithoutR(to, id);
  }

  /** An id with no 'r' cannot hold "Error". */
  lemma PairWithoutR(to: string, id: string)
    requires |to| >= 2 && AllDigits(to) && |id| >= 2 && (IsUpper(id[0]) || IsDigit(id[0]))
    requires forall k :: 0 <= k < |id| ==> IsWord(id[k]) && id[k] != 'r'
    ensures WellFormedPair(to, id)
  {
    MissingChar(id, "Error", 1);
  }

  /** The reply with both invalid and valid numbers that the package's tests use. */
  lemma BothValidAndInvalidNumbers(pre: string, bad1: string, bad2: string, rest: string,
                                   to3: string, id3: string, to4: string, id4: string)
    requires pre == "\t\t\t\t\t " && bad1 == "123" && bad2 == "456" && rest == " 10: Invalid 'To' Parameter"
    requires to3 == "13053696625" && id3 == "LA_360224205" && to4 == "44123456789" && id4 == "VE_360224242"
    ensures Outcome(Lines(Join(MixedLines(pre, bad1, rest, bad2, rest, to3, id3, to4, id4), '\n'))) ==
      Returned(Some(map["13053696625" := IdEntry("LA_360224205"), "44123456789" := IdEntry("VE_360224242")]),
               Some(InvalidTo))
  {
    assert to3[0] != to4[0];
    ExamplePairWellFormed(to3, id3);
    ExamplePairWellFormed(to4, id4);
    MixedReply(pre, bad1, rest, bad2, rest, to3, id3, to4, id4);
  }

  /**
   * A gateway error with a one-digit code, and a message in which no digit
   * is followed by a word character, is reported as Atoi's error, not as
   * the code's: the code pattern cannot match a single digit.
   */
  lemma OneDigitCodeReply(d: char, msg: string)
    requires IsDigit(d) && msg != [] && LineSafe(msg)
    requires NoCodeIn(msg) && !Contains(msg, "To:")
    ensures Outcome(Lines("Error " + [d] + ":" + msg)) == Returned(None, Some(ParseError))
  {
    CodeErrorReply([d], msg);
    OneDigitCode(d, msg);
  }
}
