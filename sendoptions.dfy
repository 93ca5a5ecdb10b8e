/**
 * clockwork.go, the request side of Send: the SMS record, formatTime, and
 * smsSetOptions, which turns the fields a caller has set into the string
 * parameters of the /send query.
 */
module SendOptions {
  import opened Wrappers
  import opened GoText
  import opened GoTime

  /**
   * clockwork.SMS. `to` is None for a nil slice; `expiry` is a time.Duration
   * in nanoseconds.
   */
  datatype SMS = SMS(
    to: Option<seq<string>>,
    content: string,
    from: string,
    msgType: string,
    concat: Int64,
    clientID: string,
    expiry: Int64,
    absExpiry: Time,
    uniqueIDChecks: bool,
    invalidCharAction: Int64,
    truncate: Int64)

  /** The SMS with no field set. */
  const EmptySMS: SMS := SMS(None, "", "", "", 0, "", 0, ZeroTime, false, 0, 0)

  // ---------------------------------------------------------------------------
  // formatTime

  /**
   * formatTime: "%04d%02d%02d%02d%02d" of year, month, day, hour and minute,
   * so seconds and nanoseconds are dropped.
   */
  function FormatTime(t: Time): string
  {
    PadInt(t.year, 4) + PadInt(t.month, 2) + PadInt(t.day, 2) + PadInt(t.hour, 2) + PadInt(t.minute, 2)
  }

  /** Reads a yyyyMMddHHmm stamp back into a time with no seconds. */
  function ParseStamp(s: string): Option<Time>
  {
    if |s| == 12 && AllDigits(s) then
      assert forall a, b :: 0 <= a <= b <= 12 ==> AllDigits(s[a..b]);
      Some(Time(DigitsValue(s[0..4]), DigitsValue(s[4..6]), DigitsValue(s[6..8]),
                DigitsValue(s[8..10]), DigitsValue(s[10..12]), 0, 0))
    else None
  }

  /** The time a stamp stands for: the same minute, seconds and nanoseconds cleared. */
  function ToMinute(t: Time): Time
  {
    t.(second := 0, nanosecond := 0)
  }

  lemma PadField(n: nat, w: nat)
    requires 0 < w && n < Pow10(w)
    ensures |PadInt(n, w)| == w && AllDigits(PadInt(n, w)) && DigitsValue(PadInt(n, w)) == n
  {
    NatDigitsLength(n, w);
    PadIntValue(n, w);
  }

  /**
   * For every real time in the years 0 to 9999 the stamp is twelve digits,
   * and it gives back the time to the minute.
   */
  lemma StampRoundTrip(t: Time)
    requires ValidTime(t) && 0 <= t.year <= 9999
    ensures |FormatTime(t)| == 12 && AllDigits(FormatTime(t))
    ensures ParseStamp(FormatTime(t)) == Some(ToMinute(t))
  {
    assert Pow10(2) == 100 && Pow10(4) == 10000 by {
      assert Pow10(1) == 10;
      assert Pow10(3) == 1000;
    }
    PadField(t.year, 4);
    PadField(t.month, 2);
    PadField(t.day, 2);
    PadField(t.hour, 2);
    PadField(t.minute, 2);
    var y, mo, d, h, mi := PadInt(t.year, 4), PadInt(t.month, 2), PadInt(t.day, 2), PadInt(t.hour, 2), PadInt(t.minute, 2);
    StampFields(y, mo, d, h, mi);
  }

  /** Five fixed-width digit fields, written side by side, are read back field by field. */
  lemma StampFields(y: string, mo: string, d: string, h: string, mi: string)
    requires |y| == 4 && |mo| == 2 && |d| == 2 && |h| == 2 && |mi| == 2
    requires AllDigits(y) && AllDigits(mo) && AllDigits(d) && AllDigits(h) && AllDigits(mi)
    ensures var s := y + mo + d + h + mi;
      |s| == 12 && AllDigits(s) &&
      ParseStamp(s) == Some(Time(DigitsValue(y), DigitsValue(mo), DigitsValue(d), DigitsValue(h), DigitsValue(mi), 0, 0))
  {
    var s := y + mo + d + h + mi;
    assert s[0..4] == y && s[4..6] == mo && s[6..8] == d && s[8..10] == h && s[10..12] == mi;
  }

  /** Distinct minutes get distinct stamps. */
  lemma StampInjective(t: Time, u: Time)
    requires ValidTime(t) && 0 <= t.year <= 9999
    requires ValidTime(u) && 0 <= u.year <= 9999
    requires FormatTime(t) == FormatTime(u)
    ensures ToMinute(t) == ToMinute(u)
  {
    StampRoundTrip(t);
    StampRoundTrip(u);
  }

  // ---------------------------------------------------------------------------
  // smsSetOptions

  /**
   * The query parameters of a /send request: the eleven options and the API
   * key. The map smsSetOptions builds is keyed by their names.
   */
  datatype Param =
    | To | Content | From | MsgType | Concat | ClientID | ExpiryTime
    | AbsExpiry | UniqueId | InvalidCharAction | Truncate | Key

  /** The parameter's name on the wire. */
  function Name(p: Param): string
  {
    match p
    case To => "To"
    case Content => "Content"
    case From => "From"
    case MsgType => "MsgType"
    case Concat => "Concat"
    case ClientID => "ClientID"
    case ExpiryTime => "ExpiryTime"
    case AbsExpiry => "AbsExpiry"
    case UniqueId => "UniqueId"
    case InvalidCharAction => "InvalidCharAction"
    case Truncate => "Truncate"
    case Key => "Key"
  }

  /** No two parameters share a name, so keying by Param is keying by name. */
  lemma NameInjective(p: Param, q: Param)
    requires Name(p) == Name(q)
    ensures p == q
  {
  }

  /** The parameters smsSetOptions may write: all but the key. */
  const OptionParams: set<Param> :=
    {To, Content, From, MsgType, Concat, ClientID, ExpiryTime, AbsExpiry, UniqueId, InvalidCharAction, Truncate}

  /** A parameter map, as smsSetOptions returns it and the request carries it. */
  type Query = map<Param, string>

  /** The shortest expiry, in minutes, the gateway takes. */
  const MinExpiryMinutes: int := 10

  /**
   * int(Expiry.Minutes()): the whole minutes of a positive duration (the
   * float64 conversion truncates toward zero).
   */
  function ExpiryMinutes(d: Int64): int
  {
    d / Minute
  }

  /** sms.Truncate - 1 in Go's 64-bit int: the smallest int wraps to the largest. */
  function Dec64(n: Int64): Int64
  {
    if n == MinInt64 then MaxInt64 else n - 1
  }

  /** The inverse of Dec64. */
  function Inc64(n: Int64): Int64
  {
    if n == MaxInt64 then MinInt64 else n + 1
  }

  /** Whether smsSetOptions writes parameter `p` for `sms`: its field differs from the zero value. */
  predicate IsSet(sms: SMS, p: Param)
  {
    match p
    case To => sms.to.Some?
    case Content => sms.content != ""
    case From => sms.from != ""
    case MsgType => sms.msgType != ""
    case Concat => sms.concat != 0
    case ClientID => sms.clientID != ""
    // Minutes() > 10 holds exactly when the duration exceeds 10 minutes
    case ExpiryTime => sms.expiry > MinExpiryMinutes * Minute
    case AbsExpiry => !IsZero(sms.absExpiry)
    case UniqueId => sms.uniqueIDChecks
    case InvalidCharAction => sms.invalidCharAction != 0
    case Truncate => sms.truncate != 0
    case Key => false
  }

  /** The text smsSetOptions writes for parameter `p`. */
  function Encoded(sms: SMS, p: Param): string
  {
    match p
    case To => if sms.to.Some? then Join(sms.to.value, ',') else ""
    case Content => sms.content
    case From => sms.from
    case MsgType => sms.msgType
    case Concat => Itoa(sms.concat)
    case ClientID => sms.clientID
    case ExpiryTime => Itoa(ExpiryMinutes(sms.expiry))
    case AbsExpiry => FormatTime(sms.absExpiry)
    case UniqueId => "1"
    case InvalidCharAction => Itoa(sms.invalidCharAction)
    case Truncate => Itoa(Dec64(sms.truncate))
    case Key => ""
  }

  /**
   * smsSetOptions: the parameter map of an SMS, holding each field that is
   * set, under its parameter, encoded. The source writes the entries one by
   * one; each key is written at most once, so the order does not matter.
   */
  function SetOptions(sms: SMS): Query
  {
    map p | p in OptionParams && IsSet(sms, p) :: Encoded(sms, p)
  }

  /** The order in which smsSetOptions considers the fields. */
  const FieldOrder: seq<Param> :=
    [To, Content, From, MsgType, Concat, ClientID, ExpiryTime, AbsExpiry, UniqueId, InvalidCharAction, Truncate]

  /**
   * The map smsSetOptions holds after its conditional inserts for the fields
   * `ps`, taken in that order: each field that is set is written under its
   * parameter, one after the other.
   */
  function Fill(sms: SMS, ps: seq<Param>): Query
  {
    if ps == [] then map[]
    else
      var m := Fill(sms, ps[..|ps| - 1]);
      var p := ps[|ps| - 1];
      if IsSet(sms, p) then m[p := Encoded(sms, p)] else m
  }

  /** After the inserts for `ps`, the map holds exactly the set parameters among them, encoded. */
  lemma {:induction false} FillMembers(sms: SMS, ps: seq<Param>)
    ensures forall p :: p in Fill(sms, ps) <==> p in ps && IsSet(sms, p)
    ensures forall p :: p in Fill(sms, ps) ==> Fill(sms, ps)[p] == Encoded(sms, p)
  {
    if ps != [] {
      var init := ps[..|ps| - 1];
      FillMembers(sms, init);
      assert ps == init + [ps[|ps| - 1]];
      forall p ensures p in ps <==> p in init || p == ps[|ps| - 1] {
      }
    }
  }

  /** The inserts, in source order, build SetOptions(sms): their order does not matter. */
  lemma FillIsSetOptions(sms: SMS)
    ensures Fill(sms, FieldOrder) == SetOptions(sms)
  {
    FillMembers(sms, FieldOrder);
    forall p ensures p in FieldOrder <==> p in OptionParams {
    }
  }

  /** The SMS with nothing set sends no parameters. */
  lemma EmptySMSHasNoOptions()
    ensures SetOptions(EmptySMS) == map[]
  {
  }

  /** The options never include the API key, so adding the key overwrites none of them. */
  lemma OptionsLeaveKeyFree(sms: SMS)
    ensures Key !in SetOptions(sms)
  {
  }

  /**
   * An expiry is sent only above the 10-minute minimum, and then as its whole
   * minutes, which are never fewer than ten (a duration of 10 minutes and one
   * nanosecond is sent as 10).
   */
  lemma ExpiryParameter(sms: SMS)
    ensures ExpiryTime in SetOptions(sms) <==> sms.expiry > MinExpiryMinutes * Minute
    ensures ExpiryTime in SetOptions(sms) ==>
      Atoi(SetOptions(sms)[ExpiryTime]) == Some(ExpiryMinutes(sms.expiry)) &&
      ExpiryMinutes(sms.expiry) >= MinExpiryMinutes &&
      ExpiryMinutes(sms.expiry) * Minute <= sms.expiry < (ExpiryMinutes(sms.expiry) + 1) * Minute
  {
    if sms.expiry > MinExpiryMinutes * Minute {
      AtoiItoa(ExpiryMinutes(sms.expiry));
    }
  }

  /**
   * Truncate is sent one lower than the field (the gateway counts its
   * options from 0, the client from 1), with Go's wrap-around at the
   * smallest int.
   */
  lemma TruncateParameter(sms: SMS)
    ensures Truncate in SetOptions(sms) <==> sms.truncate != 0
    ensures Truncate in SetOptions(sms) ==>
      Atoi(SetOptions(sms)[Truncate]) == Some(Dec64(sms.truncate)) &&
      (sms.truncate != MinInt64 ==> Dec64(sms.truncate) == sms.truncate - 1)
  {
    if sms.truncate != 0 {
      AtoiItoa(Dec64(sms.truncate));
    }
  }

  // ---------------------------------------------------------------------------
  // Reading the parameters back

  function Text(vals: Query, p: Param): string
  {
    if p in vals then vals[p] else ""
  }

  function Number(vals: Query, p: Param): Int64
  {
    if p in vals && Atoi(vals[p]).Some? then Atoi(vals[p]).value else 0
  }

  /** The absolute expiry a parameter map describes; the zero time when it has none. */
  function StampOf(vals: Query): Time
  {
    if AbsExpiry in vals && ParseStamp(vals[AbsExpiry]).Some? then ParseStamp(vals[AbsExpiry]).value else ZeroTime
  }

  /** The SMS a parameter map describes, as the gateway would read it. */
  function DecodeOptions(vals: Query): SMS
  {
    var minutes := Number(vals, ExpiryTime);
    SMS(
      if To in vals then Some(Split(vals[To], ',')) else None,
      Text(vals, Content),
      Text(vals, From),
      Text(vals, MsgType),
      Number(vals, Concat),
      Text(vals, ClientID),
      if InInt64(minutes * Minute) then minutes * Minute else 0,
      StampOf(vals),
      UniqueId in vals,
      Number(vals, InvalidCharAction),
      if Truncate in vals then Inc64(Number(vals, Truncate)) else 0)
  }

  /**
   * What of an SMS reaches the gateway: an expiry of at most 10 minutes is
   * not sent and a longer one only to the minute, and the absolute expiry
   * only to the minute.
   */
  function Canonical(sms: SMS): SMS
  {
    sms.(expiry := if sms.expiry > MinExpiryMinutes * Minute then ExpiryMinutes(sms.expiry) * Minute else 0,
         absExpiry := if IsZero(sms.absExpiry) then ZeroTime else ToMinute(sms.absExpiry))
  }

  /** The recipients joined with commas can be told apart again. */
  predicate SplittableTo(sms: SMS)
  {
    sms.to.Some? ==> |sms.to.value| > 0 && forall k :: 0 <= k < |sms.to.value| ==> ',' !in sms.to.value[k]
  }

  /**
   * smsSetOptions loses nothing but what Canonical drops: the parameters
   * of an SMS read back as its canonical form, provided the recipients hold
   * no comma and the absolute expiry is a real time with a four-digit year.
   */
  lemma OptionsRoundTrip(sms: SMS)
    requires SplittableTo(sms)
    requires ValidTime(sms.absExpiry) && 0 <= sms.absExpiry.year <= 9999
    ensures DecodeOptions(SetOptions(sms)) == Canonical(sms)
  {
    var d := DecodeOptions(SetOptions(sms));
    RecipientsRoundTrip(sms);
    NumbersRoundTrip(sms);
    ExpiryRoundTrip(sms);
    AbsExpiryRoundTrip(sms);
    assert d.content == sms.content && d.from == sms.from && d.msgType == sms.msgType;
    assert d.clientID == sms.clientID && d.uniqueIDChecks == sms.uniqueIDChecks;
  }

  lemma RecipientsRoundTrip(sms: SMS)
    requires SplittableTo(sms)
    ensures DecodeOptions(SetOptions(sms)).to == sms.to
  {
    if sms.to.Some? {
      SplitJoin(sms.to.value, ',');
    }
  }

  lemma NumbersRoundTrip(sms: SMS)
    ensures DecodeOptions(SetOptions(sms)).concat == sms.concat
    ensures DecodeOptions(SetOptions(sms)).invalidCharAction == sms.invalidCharAction
    ensures DecodeOptions(SetOptions(sms)).truncate == sms.truncate
  {
    NumberRoundTrip(sms, Concat, sms.concat);
    NumberRoundTrip(sms, InvalidCharAction, sms.invalidCharAction);
    TruncateParameter(sms);
  }

  /** A number written with Itoa reads back with Atoi; an unset one reads back as 0. */
  lemma NumberRoundTrip(sms: SMS, p: Param, n: Int64)
    requires p == Concat || p == InvalidCharAction
    requires n == (if p == Concat then sms.concat else sms.invalidCharAction)
    ensures Number(SetOptions(sms), p) == n
  {
    if n != 0 { AtoiItoa(n); }
  }

  lemma ExpiryRoundTrip(sms: SMS)
    ensures DecodeOptions(SetOptions(sms)).expiry == Canonical(sms).expiry
  {
    ExpiryParameter(sms);
    if sms.expiry > MinExpiryMinutes * Minute {
      var m := ExpiryMinutes(sms.expiry);
      assert 0 < m * Minute <= sms.expiry;
      assert Number(SetOptions(sms), ExpiryTime) == m;
    }
  }

  lemma AbsExpiryRoundTrip(sms: SMS)
    requires ValidTime(sms.absExpiry) && 0 <= sms.absExpiry.year <= 9999
    ensures DecodeOptions(SetOptions(sms)).absExpiry == Canonical(sms).absExpiry
  {
    var vals := SetOptions(sms);
    if !IsZero(sms.absExpiry) {
      assert AbsExpiry in vals && vals[AbsExpiry] == FormatTime(sms.absExpiry);
      StampRoundTrip(sms.absExpiry);
    } else {
      assert AbsExpiry !in vals;
    }
    assert DecodeOptions(vals).absExpiry == StampOf(vals);
  }

  /** Two SMS the gateway cannot tell apart agree in their canonical forms. */
  lemma SameOptionsSameMessage(a: SMS, b: SMS)
    requires SplittableTo(a) && ValidTime(a.absExpiry) && 0 <= a.absExpiry.year <= 9999
    requires SplittableTo(b) && ValidTime(b.absExpiry) && 0 <= b.absExpiry.year <= 9999
    requires SetOptions(a) == SetOptions(b)
    ensures Canonical(a) == Canonical(b)
  {
    OptionsRoundTrip(a);
    OptionsRoundTrip(b);
  }
}
