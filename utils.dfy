/**
 * utils.py: the chat allow-list test in front of every command handler, and
 * the two time helpers the scheduler uses, `random_time_in_range` and
 * `parse_time_from_string`. A `datetime.time` is a `Time`; the `ValueError`s
 * the helpers raise are `Err` results.
 */
module Utils {
  import opened Wrappers
  import opened PyStr

  // ---------------------------------------------------------------------
  // Allowed chats
  // ---------------------------------------------------------------------

  /** `is_allowed_chat(chat_id)`: `chat_id in ALLOWED_CHAT_IDS`, the list given as `allowed`. */
  predicate IsAllowedChat(allowed: seq<int>, chatId: int)
  {
    chatId in allowed
  }

  /** The notice a chat that is not allowed receives before the bot leaves it. */
  const RefusalNotice: string := "Извините, я могу работать только в разрешённых группах."

  /**
   * What `check_chat_and_execute` does with a command: run the handler, or
   * send the notice to that chat and try to leave it (a failure to leave is
   * only logged, so it is not part of the outcome).
   */
  datatype Screening = RunHandler | Refuse(chat: int, notice: string)

  function CheckChat(allowed: seq<int>, chatId: int): (r: Screening)
    ensures r.RunHandler? <==> exists i | 0 <= i < |allowed| :: allowed[i] == chatId
    ensures r.Refuse? ==> r.chat == chatId && r.notice == RefusalNotice
  {
    if !IsAllowedChat(allowed, chatId) then Refuse(chatId, RefusalNotice) else RunHandler
  }

  /** Adding a chat to the list lets it through and changes nothing for the others. */
  lemma AllowingAChat(allowed: seq<int>, chatId: int, other: int)
    ensures CheckChat(allowed + [chatId], chatId) == RunHandler
    ensures other != chatId ==> CheckChat(allowed + [chatId], other) == CheckChat(allowed, other)
  {
    assert (allowed + [chatId])[|allowed|] == chatId;
    if other != chatId && other in allowed + [chatId] {
      var i :| 0 <= i < |allowed| + 1 && (allowed + [chatId])[i] == other;
      assert allowed[i] == other;
    }
  }

  // ---------------------------------------------------------------------
  // Times of day
  // ---------------------------------------------------------------------

  /** `datetime.time(hour, minute, second)`. */
  datatype Time = Time(hour: int, minute: int, second: int)

  /** The ranges `datetime.time` enforces; every `Time` the bot holds satisfies them. */
  predicate ValidTime(t: Time)
  {
    0 <= t.hour < 24 && 0 <= t.minute < 60 && 0 <= t.second < 60
  }

  /** Why a helper raises `ValueError`. */
  datatype TimeError =
    | EmptyRange        // `random.randint(a, b)` with `a > b`
    | NotTwoIntegers    // the text is not two `int` literals around one `:`
    | OutOfRange        // `datetime.time` refused the hour, minute or second

  /** `datetime.time(hour=h, minute=m, second=s)`. */
  function MakeTime(h: int, m: int, s: int): (r: Result<Time, TimeError>)
    ensures r.Ok? <==> ValidTime(Time(h, m, s))
    ensures r.Ok? ==> r.value == Time(h, m, s)
    ensures r.Err? ==> r.error == OutOfRange
  {
    if 0 <= h < 24 && 0 <= m < 60 && 0 <= s < 60 then Ok(Time(h, m, s)) else Err(OutOfRange)
  }

  /** `t.hour * 3600 + t.minute * 60 + t.second`: seconds since midnight. */
  function SecondsOf(t: Time): int
  {
    t.hour * 3600 + t.minute * 60 + t.second
  }

  /**
   * `hh = r // 3600`, `mm = (r % 3600) // 60`, `ss = r % 60`. On the
   * non-negative `r` that occur, Python's floor division and Dafny's
   * Euclidean division agree.
   */
  function Decompose(r: nat): (t: Time)
    ensures SecondsOf(t) == r
    ensures t.hour >= 0 && 0 <= t.minute < 60 && 0 <= t.second < 60
    ensures t.hour < 24 <==> r < 86400
  {
    var t := Time(r / 3600, (r % 3600) / 60, r % 60);
    assert r % 3600 == ((r % 3600) / 60) * 60 + r % 60;
    t
  }

  /** The decomposition is unique: a valid time is recovered from its seconds. */
  lemma DecomposeSecondsOf(t: Time)
    requires ValidTime(t)
    ensures SecondsOf(t) >= 0 && Decompose(SecondsOf(t)) == t
  {
    var x := SecondsOf(t);
    var low := t.minute * 60 + t.second;
    assert 0 <= low < 3600;
    assert x == t.hour * 3600 + low;
    assert x / 3600 == t.hour && x % 3600 == low;
    assert low / 60 == t.minute && low % 60 == t.second;
    assert x % 60 == low % 60;
  }

  /** `random.randint(a, b)` with the random draw given as `draw`. */
  function RandInt(a: int, b: int, draw: nat): (r: Result<int, TimeError>)
    ensures r.Err? <==> a > b
    ensures r.Err? ==> r.error == EmptyRange
    ensures r.Ok? ==> a <= r.value <= b
  {
    if a > b then Err(EmptyRange) else Ok(a + draw % (b - a + 1))
  }

  /** Every number of the range is drawn by some draw. */
  lemma RandIntCovers(a: int, b: int, x: int)
    requires a <= x <= b
    ensures RandInt(a, b, x - a) == Ok(x)
  {
  }

  /**
   * `random_time_in_range(start, end)`: a time between `start` and `end`,
   * both included, or the `ValueError` of `randint` when `start` is later
   * than `end` (the range does not wrap past midnight).
   */
  function RandomTimeInRange(start: Time, end: Time, draw: nat): (r: Result<Time, TimeError>)
    requires ValidTime(start) && ValidTime(end)
    ensures r.Err? <==> SecondsOf(start) > SecondsOf(end)
    ensures r.Err? ==> r.error == EmptyRange
    ensures r.Ok? ==> ValidTime(r.value)
    ensures r.Ok? ==> SecondsOf(start) <= SecondsOf(r.value) <= SecondsOf(end)
  {
    var startS := SecondsOf(start);
    var endS := SecondsOf(end);
    match RandInt(startS, endS, draw)
    case Err(e) => Err(e)
    case Ok(x) =>
      var t := Decompose(x);
      MakeTime(t.hour, t.minute, t.second)
  }

  /** Every second of a non-empty range is a possible result. */
  lemma RandomTimeCovers(start: Time, end: Time, t: Time)
    requires ValidTime(start) && ValidTime(end) && ValidTime(t)
    requires SecondsOf(start) <= SecondsOf(t) <= SecondsOf(end)
    ensures RandomTimeInRange(start, end, SecondsOf(t) - SecondsOf(start)) == Ok(t)
  {
    RandIntCovers(SecondsOf(start), SecondsOf(end), SecondsOf(t));
    DecomposeSecondsOf(t);
  }

  // ---------------------------------------------------------------------
  // Parsing "HH:MM"
  // ---------------------------------------------------------------------

  predicate IsDigit(c: char)
  {
    '0' <= c <= '9'
  }

  predicate AllDigits(s: string)
  {
    forall i | 0 <= i < |s| :: IsDigit(s[i])
  }

  /** The number a string of decimal digits denotes. */
  function DigitsValue(s: string): nat
    requires AllDigits(s)
  {
    if s == [] then 0 else DigitsValue(s[..|s| - 1]) * 10 + (s[|s| - 1] as int - '0' as int)
  }

  /**
   * `int(s)` on a string: surrounding whitespace, an optional sign, then
   * decimal digits; anything else raises `ValueError`, here `None`.
   */
  function ParseInt(s: string): (r: Option<int>)
    ensures r.Some? ==> Strip(s) != []
  {
    var t := Strip(s);
    if t == [] then None
    else
      var body := if t[0] == '-' || t[0] == '+' then t[1..] else t;
      if body == [] || !AllDigits(body) then None
      else if t[0] == '-' then Some(0 - DigitsValue(body) as int)
      else Some(DigitsValue(body))
  }

  /** A text of whitespace only. */
  predicate Blank(w: string)
  {
    forall i | 0 <= i < |w| :: IsSpace(w[i])
  }

  /** The parts of a text `int()` accepts: whitespace, an optional sign, digits, whitespace. */
  predicate Numeral(w1: string, sign: string, d: string, w2: string)
  {
    Blank(w1) && Blank(w2) && (sign == "" || sign == "+" || sign == "-") && d != [] && AllDigits(d)
  }

  /** Digits with an optional sign, between any whitespace, are read as the number they denote. */
  lemma ParseIntPadded(w1: string, sign: string, d: string, w2: string)
    requires Numeral(w1, sign, d, w2)
    ensures ParseInt(w1 + (sign + d) + w2) == Some(if sign == "-" then 0 - DigitsValue(d) as int else DigitsValue(d) as int)
  {
    var p := sign + d;
    var s := w1 + p + w2;
    SignedDigitsTrimmed(sign, d);
    StripPadded(w1, p, w2);
    StripTrimmed(p);
    ParseIntSeesStripped(s, p);
    SignedDigitsValue(sign, d);
  }

  /**
   * Conversely, every text `int()` reads has that shape, and its value is the
   * value of its digits with their sign: no other text parses.
   */
  lemma ParseIntOnlyNumerals(s: string)
    requires ParseInt(s).Some?
    ensures exists w1, sign, d, w2 | Numeral(w1, sign, d, w2) ::
      s == w1 + (sign + d) + w2
      && ParseInt(s).value == if sign == "-" then 0 - DigitsValue(d) as int else DigitsValue(d) as int
  {
    ParseIntReadsSigned(s);
    var w1, t, w2 := StripParts(s);
    var sign, d := SignParts(t);
    ParseIntPadded(w1, sign, d, w2);
    assert Numeral(w1, sign, d, w2);
  }

  /** A stripped text of an optional sign followed by at least one digit. */
  predicate SignedDigits(t: string)
  {
    t != [] && var body := if t[0] == '-' || t[0] == '+' then t[1..] else t;
    body != [] && AllDigits(body)
  }

  /** `int()` reads a text only when its stripped core is a signed run of digits. */
  lemma ParseIntReadsSigned(s: string)
    requires ParseInt(s).Some?
    ensures SignedDigits(Strip(s))
  {
  }

  /** A signed run of digits is its sign followed by its digits. */
  lemma SignParts(t: string) returns (sign: string, d: string)
    requires SignedDigits(t)
    ensures (sign == "" || sign == "+" || sign == "-") && d != [] && AllDigits(d) && t == sign + d
  {
    if t[0] == '-' || t[0] == '+' {
      sign, d := [t[0]], t[1..];
    } else {
      sign, d := "", t;
    }
  }

  /** Any text is its stripped core between blanks. */
  lemma StripParts(s: string) returns (w1: string, t: string, w2: string)
    ensures Blank(w1) && Blank(w2) && t == Strip(s) && s == w1 + t + w2
  {
    w1 := LeadingBlanks(s);
    w2 := TrailingBlanks(TrimStart(s));
    t := Strip(s);
  }

  /** What `TrimStart` drops is blank. */
  lemma LeadingBlanks(s: string) returns (w: string)
    ensures Blank(w) && s == w + TrimStart(s)
  {
    var u := TrimStart(s);
    TrimStartFacts(s);
    w := s[..|s| - |u|];
    forall i | 0 <= i < |w| ensures IsSpace(w[i]) {
      assert w[i] == s[i];
    }
  }

  /** What `TrimEnd` drops is blank. */
  lemma TrailingBlanks(s: string) returns (w: string)
    ensures Blank(w) && s == TrimEnd(s) + w
  {
    var u := TrimEnd(s);
    TrimEndFacts(s);
    w := s[|u|..];
    forall i | 0 <= i < |w| ensures IsSpace(w[i]) {
      assert w[i] == s[|u| + i];
    }
  }

  lemma ParseIntSeesStripped(s: string, p: string)
    requires Strip(s) == Strip(p)
    ensures ParseInt(s) == ParseInt(p)
  {
  }

  lemma SignedDigitsTrimmed(sign: string, d: string)
    requires sign == "" || sign == "+" || sign == "-"
    requires d != [] && AllDigits(d)
    ensures sign + d != [] && Trimmed(sign + d)
  {
    var p := sign + d;
    assert p[|p| - 1] == d[|d| - 1];
    assert IsDigit(d[|d| - 1]);
    if sign == "" {
      assert p[0] == d[0] && IsDigit(d[0]);
    } else {
      assert p[0] == sign[0];
    }
  }

  lemma SignedDigitsValue(sign: string, d: string)
    requires sign == "" || sign == "+" || sign == "-"
    requires d != [] && AllDigits(d)
    ensures Strip(sign + d) == sign + d ==>
      ParseInt(sign + d) == Some(if sign == "-" then 0 - DigitsValue(d) as int else DigitsValue(d) as int)
  {
    var p := sign + d;
    if sign == "" {
      assert p == d && IsDigit(d[0]);
    } else {
      assert p[0] == sign[0] && p[1..] == d;
    }
  }

  const Colon: string := ":"

  /**
   * `parse_time_from_string(time_str)`: `hours, minutes = map(int,
   * time_str.split(':'))`, then `datetime.time(hour=hours, minute=minutes)`.
   * The unpacking and `int` fail before `datetime.time` is reached, so those
   * errors come first.
   */
  function ParseTime(s: string): (r: Result<Time, TimeError>)
    ensures r.Ok? ==> ValidTime(r.value) && r.value.second == 0
  {
    var parts := Split(s, Colon);
    if |parts| != 2 then Err(NotTwoIntegers)
    else
      match (ParseInt(parts[0]), ParseInt(parts[1]))
      case (Some(h), Some(m)) => MakeTime(h, m, 0)
      case _ => Err(NotTwoIntegers)
  }

  /** How often `c` occurs in `s`. */
  function CountChar(s: string, c: char): nat
  {
    if s == [] then 0 else (if s[0] == c then 1 else 0) + CountChar(s[1..], c)
  }

  /** Splitting on one character yields one piece more than it has occurrences. */
  lemma {:induction false} SplitCountsSeparators(s: string, c: char)
    ensures |Split(s, [c])| == CountChar(s, c) + 1
    decreases |s|
  {
    if s != [] {
      SplitCountsSeparators(s[1..], c);
      if s[..1] == [c] {
        assert s[0] == c;
        assert s[1..] == s[|[c]|..];
      } else {
        assert s[0] != c;
      }
    }
  }

  /** Only a text with exactly one `:` parses. */
  lemma ParseTimeNeedsOneColon(s: string)
    ensures ParseTime(s).Ok? ==> CountChar(s, ':') == 1
  {
    SplitCountsSeparators(s, ':');
  }

  /**
   * A text with one `:` parses exactly when both sides are integer literals
   * and they name an hour of the day and a minute of the hour.
   */
  lemma ParseTimeOfPieces(a: string, b: string)
    requires CountChar(a, ':') == 0 && CountChar(b, ':') == 0
    ensures var r := ParseTime(a + Colon + b);
      && (r.Ok? <==> ParseInt(a).Some? && ParseInt(b).Some?
                      && 0 <= ParseInt(a).value < 24 && 0 <= ParseInt(b).value < 60)
      && (r.Ok? ==> r.value == Time(ParseInt(a).value, ParseInt(b).value, 0))
      && (r.Err? && ParseInt(a).Some? && ParseInt(b).Some? ==> r.error == OutOfRange)
  {
    NoColonFree(a);
    NoColonFree(b);
    forall j: nat | j < |a| ensures !OccursAt(a + Colon + b, Colon, j) {
      assert (a + Colon + b)[j..j + 1] == a[j..j + 1];
      assert !OccursAt(a, Colon, j);
    }
    SplitAtFirst(a, Colon, b);
    SplitFree(b, Colon);
  }

  lemma {:induction false} NoColonFree(s: string)
    requires CountChar(s, ':') == 0
    ensures Free(s, Colon)
    decreases |s|
  {
    if s != [] {
      NoColonFree(s[1..]);
      forall j: nat | j < |s| ensures !OccursAt(s, Colon, j) {
        if j > 0 && j + 1 <= |s| {
          assert s[j..j + 1] == s[1..][j - 1..j];
          assert !OccursAt(s[1..], Colon, j - 1);
        }
      }
    }
  }

  function DigitChar(d: nat): char
    requires d < 10
  {
    ('0' as int + d) as char
  }

  /** Two decimal digits, zero-padded. */
  function Pad2(n: nat): (r: string)
    requires n < 100
    ensures |r| == 2 && AllDigits(r)
  {
    [DigitChar(n / 10), DigitChar(n % 10)]
  }

  /** The `HH:MM` text the schedule is written in. */
  function Format(h: nat, m: nat): (r: string)
    requires h < 100 && m < 100
    ensures |r| == 5 && r[2] == ':' && AllDigits(r[..2]) && AllDigits(r[3..])
  {
    var r := Pad2(h) + Colon + Pad2(m);
    assert r[..2] == Pad2(h) && r[3..] == Pad2(m);
    r
  }

  lemma ParseIntPad2(n: nat)
    requires n < 100
    ensures CountChar(Pad2(n), ':') == 0
    ensures ParseInt(Pad2(n)) == Some(n)
  {
    var p := Pad2(n);
    assert CountChar(p[1..], ':') == 0;
    ParseIntPadded("", "", p, "");
    assert "" + ("" + p) + "" == p;
    assert p[..1] == [p[0]];
    assert DigitsValue(p[..1]) == n / 10;
    assert DigitsValue(p) == DigitsValue(p[..1]) * 10 + n % 10;
  }

  /** Formatting a time of day as `HH:MM` and parsing the text gives the hour and minute back. */
  lemma FormatParseRoundTrip(h: nat, m: nat)
    requires h < 24 && m < 60
    ensures ParseTime(Format(h, m)) == Ok(Time(h, m, 0))
  {
    ParseIntPad2(h);
    ParseIntPad2(m);
    ParseTimeOfPieces(Pad2(h), Pad2(m));
  }

  /** An hour or minute out of range is refused after an otherwise good parse. */
  lemma ParseTimeRefusesRange(h: nat, m: nat)
    requires h < 100 && m < 100 && (h >= 24 || m >= 60)
    ensures ParseTime(Format(h, m)) == Err(OutOfRange)
  {
    ParseIntPad2(h);
    ParseIntPad2(m);
    ParseTimeOfPieces(Pad2(h), Pad2(m));
  }
}
