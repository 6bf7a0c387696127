/** The computations of the operator page: the table of duration tiers
    offered in the rate form, the rate shown for a tier, the "time left"
    column of the booking table and the `msToTime` rendering it uses.
    Rendering, event wiring and requests to the server are not modelled;
    the clock is the `now` parameter. */
module AdminView {
  import opened JsValues
  import AdminRoutes

  /** One choice of the rate form: what it says and the tier it stands for. */
  datatype DurationChoice = DurationChoice(caption: string, value: string)

  /** The tiers the rate form offers, in the order it offers them. */
  const Durations: seq<DurationChoice> := [
    DurationChoice("30 min", "30"),
    DurationChoice("45 min", "45"),
    DurationChoice("1 hour", "60"),
    DurationChoice("2 hours", "120"),
    DurationChoice("4 hours", "240"),
    DurationChoice("8 hours", "480"),
    DurationChoice("12 hours", "720"),
    DurationChoice("24 hours", "1440")
  ]

  /** The tiers in minutes, as numbers. */
  const TierMinutes: seq<nat> := [30, 45, 60, 120, 240, 480, 720, 1440]

  /** The form offers exactly the tiers the rates route accepts, in the
      same order. */
  lemma DurationsMatchTiers()
    ensures |Durations| == |AdminRoutes.ValidDurations| == 8
    ensures forall i :: 0 <= i < 8 ==> Durations[i].value == AdminRoutes.ValidDurations[i]
  {
  }

  /** The tier strings are the decimal renderings of the minute counts,
      which ascend. */
  lemma DurationsAscend()
    ensures forall i :: 0 <= i < 8 ==> ParseNat(Durations[i].value) == TierMinutes[i]
    ensures forall i, j :: 0 <= i < j < 8 ==> TierMinutes[i] < TierMinutes[j]
  {
    ShortTierValues();
    LongTierValues();
  }

  lemma ShortTierValues()
    ensures ParseNat("30") == 30 && ParseNat("45") == 45 && ParseNat("60") == 60 && ParseNat("120") == 120
  {
    TierValue(30, "30");
    TierValue(45, "45");
    TierValue(60, "60");
    TierValue(120, "120");
  }

  lemma LongTierValues()
    ensures ParseNat("240") == 240 && ParseNat("480") == 480 && ParseNat("720") == 720 && ParseNat("1440") == 1440
  {
    TierValue(240, "240");
    TierValue(480, "480");
    TierValue(720, "720");
    TierValue(1440, "1440");
  }

  lemma TierValue(n: nat, text: string)
    requires NatToString(n) == text
    ensures ParseNat(text) == n
  {
    ParseNatToString(n);
  }

  /** The rate the form shows for a tier: the spot's stored rate if it has
      one, else 0. */
  function RateShown(spot: AdminRoutes.Spot, value: string): (r: real)
    ensures AdminRoutes.RatesValid(spot.rates) ==> r >= 0.0
  {
    if value in spot.rates then spot.rates[value] else 0.0
  }

  /** Entry i is the last one of the request's object with this key. */
  predicate LastEntryFor(entries: seq<(string, Json)>, key: string, i: int) {
    0 <= i < |entries| && entries[i].0 == key && forall j :: i < j < |entries| ==> entries[j].0 != key
  }

  /** After a successful rates request, the form shows for each tier the
      number the request gave it, and 0 for a tier the request left out,
      whatever the spot's rates were before. */
  lemma RateShownAfterSetRates(spot: AdminRoutes.Spot, entries: seq<(string, Json)>, value: string)
    requires forall i :: 0 <= i < |entries| ==> AdminRoutes.EntryOk(entries[i])
    ensures (forall i :: 0 <= i < |entries| ==> entries[i].0 != value) ==>
      RateShown(spot.(rates := AdminRoutes.RatesMap(entries)), value) == 0.0
    ensures forall i :: LastEntryFor(entries, value, i) ==>
      RateShown(spot.(rates := AdminRoutes.RatesMap(entries)), value) == entries[i].1.x
  {
    AdminRoutes.RatesMapKeys(entries);
    forall i | LastEntryFor(entries, value, i)
      ensures RateShown(spot.(rates := AdminRoutes.RatesMap(entries)), value) == entries[i].1.x
    {
      AdminRoutes.RatesMapValue(entries, i);
    }
  }

  // ---- msToTime ----

  /** Hours, minutes and seconds of a time of day. */
  datatype Clock = Clock(hours: nat, minutes: nat, seconds: nat)

  /** The parts `msToTime` shows for a number of milliseconds: whole
      seconds, minutes and hours, each taken modulo the next unit, so whole
      days are dropped. */
  function ClockOf(ms: nat): (c: Clock)
    ensures c.hours < 24 && c.minutes < 60 && c.seconds < 60
  {
    Clock((ms / 3600000) % 24, (ms / 60000) % 60, (ms / 1000) % 60)
  }

  /** One shown part, such as "12h", present only when its value is above 0. */
  function Part(v: nat, unit: char): seq<string> {
    if v > 0 then [NatToString(v) + [unit]] else []
  }

  /** The words shown, hours before minutes before seconds. */
  function Words(c: Clock): seq<string> {
    Part(c.hours, 'h') + Part(c.minutes, 'm') + Part(c.seconds, 's')
  }

  function JoinSpaces(ws: seq<string>): string
    decreases |ws|
  {
    if |ws| == 0 then ""
    else if |ws| == 1 then ws[0]
    else ws[0] + " " + JoinSpaces(ws[1..])
  }

  /** The text for a clock: its present parts separated by single
      spaces, or "0s" when none is present. */
  function TimeText(c: Clock): string {
    var ws := Words(c);
    if ws == [] then "0s" else JoinSpaces(ws)
  }

  /** What `String.prototype.trim` strips. */
  predicate IsWhitespace(c: char) {
    var n := c as int;
    n == 0x09 || n == 0x0A || n == 0x0B || n == 0x0C || n == 0x0D || n == 0x20 || n == 0xA0 ||
    n == 0x1680 || (0x2000 <= n <= 0x200A) || n == 0x2028 || n == 0x2029 || n == 0x202F ||
    n == 0x205F || n == 0x3000 || n == 0xFEFF
  }

  function TrimStart(t: string): string
    decreases |t|
  {
    if t != [] && IsWhitespace(t[0]) then TrimStart(t[1..]) else t
  }

  function TrimEnd(t: string): string
    decreases |t|
  {
    if t != [] && IsWhitespace(t[|t| - 1]) then TrimEnd(t[..|t| - 1]) else t
  }

  function Trim(t: string): string {
    TrimEnd(TrimStart(t))
  }

  /** `msToTime`: computes the parts, appends each present one followed by
      a space (the seconds part without), trims, and falls back to "0s". */
  method MsToTime(duration: nat) returns (r: string)
    ensures r == TimeText(ClockOf(duration))
  {
    var seconds := (duration / 1000) % 60;
    var minutes := (duration / 60000) % 60;
    var hours := (duration / 3600000) % 24;

    var timeStr := "";
    if hours > 0 {
      timeStr := timeStr + NatToString(hours) + "h ";
    }
    if minutes > 0 {
      timeStr := timeStr + NatToString(minutes) + "m ";
    }
    if seconds > 0 {
      timeStr := timeStr + NatToString(seconds) + "s";
    }
    TrimmedAppendsAreTimeText(Clock(hours, minutes, seconds), timeStr);
    var trimmed := Trim(timeStr);
    r := if trimmed == "" then "0s" else trimmed;
  }

  /** A shown word: digits then a unit letter, with no whitespace. */
  predicate IsWord(w: string) {
    |w| >= 2 && (forall i :: 0 <= i < |w| - 1 ==> IsDigit(w[i])) && w[|w| - 1] in "hms"
  }

  lemma PartIsWord(v: nat, unit: char)
    requires unit in "hms"
    ensures forall w :: w in Part(v, unit) ==> IsWord(w)
  {
  }

  lemma WordsAreWords(c: Clock)
    ensures forall i :: 0 <= i < |Words(c)| ==> IsWord(Words(c)[i])
  {
    PartIsWord(c.hours, 'h');
    PartIsWord(c.minutes, 'm');
    PartIsWord(c.seconds, 's');
  }

  lemma TrimStartNoop(t: string)
    requires t == [] || !IsWhitespace(t[0])
    ensures TrimStart(t) == t
  {
  }

  lemma TrimEndNoop(t: string)
    requires t == [] || !IsWhitespace(t[|t| - 1])
    ensures TrimEnd(t) == t
  {
  }

  lemma TrimEndSpace(t: string)
    requires t != [] && !IsWhitespace(t[|t| - 1])
    ensures TrimEnd(t + " ") == t
  {
    assert (t + " ")[..|t|] == t;
  }

  /** A word followed by a space, or nothing when the part is absent. */
  function Spaced(part: seq<string>): string
    requires |part| <= 1
  {
    if part == [] then "" else part[0] + " "
  }

  lemma JoinTwo(a: string, b: string)
    ensures JoinSpaces([a, b]) == a + " " + b
  {
    assert [a, b][1..] == [b];
  }

  lemma JoinThree(a: string, b: string, c: string)
    ensures JoinSpaces([a, b, c]) == a + " " + b + " " + c
  {
    assert [a, b, c][1..] == [b, c];
    JoinTwo(b, c);
  }

  lemma DigitNotWhitespace(c: char)
    requires IsDigit(c)
    ensures !IsWhitespace(c)
  {
  }

  lemma UnitNotWhitespace(c: char)
    requires c in "hms"
    ensures !IsWhitespace(c)
  {
  }

  /** A joined text starts with its first word's first letter and ends
      with its last word's last letter. */
  lemma {:induction false} JoinSpacesEnds(ws: seq<string>)
    requires ws != [] && forall i :: 0 <= i < |ws| ==> ws[i] != []
    ensures JoinSpaces(ws) != []
    ensures JoinSpaces(ws)[0] == ws[0][0]
    ensures JoinSpaces(ws)[|JoinSpaces(ws)| - 1] == ws[|ws| - 1][|ws[|ws| - 1]| - 1]
    decreases |ws|
  {
    if |ws| > 1 {
      JoinSpacesEnds(ws[1..]);
    }
  }

  /** The appended text is the joined words, with one trailing space when
      the seconds word is absent. */
  lemma {:induction false} AppendsAreJoined(hw: seq<string>, mw: seq<string>, sw: seq<string>, raw: string)
    requires |hw| <= 1 && |mw| <= 1 && |sw| <= 1
    requires raw == Spaced(hw) + Spaced(mw) + (if sw == [] then "" else sw[0])
    ensures hw + mw + sw == [] ==> raw == ""
    ensures sw != [] ==> raw == JoinSpaces(hw + mw + sw)
    ensures sw == [] && hw + mw != [] ==> raw == JoinSpaces(hw + mw) + " "
  {
    if sw != [] {
      assert sw == [sw[0]];
      AppendsWithSeconds(hw, mw, sw[0], raw);
    } else if hw != [] && mw != [] {
      JoinTwo(hw[0], mw[0]);
      assert hw + mw + sw == [hw[0], mw[0]];
    }
  }

  lemma {:induction false} AppendsWithSeconds(hw: seq<string>, mw: seq<string>, sec: string, raw: string)
    requires |hw| <= 1 && |mw| <= 1
    requires raw == Spaced(hw) + Spaced(mw) + sec
    ensures raw == JoinSpaces(hw + mw + [sec])
  {
    if hw != [] && mw != [] {
      JoinThree(hw[0], mw[0], sec);
      assert hw + mw + [sec] == [hw[0], mw[0], sec];
    } else if hw != [] {
      JoinTwo(hw[0], sec);
      assert hw + mw + [sec] == [hw[0], sec];
    } else if mw != [] {
      JoinTwo(mw[0], sec);
      assert hw + mw + [sec] == [mw[0], sec];
    } else {
      assert hw + mw + [sec] == [sec];
    }
  }

  /** Appending the present words, a space after the hours and minutes
      words, then trimming, gives the words joined by single spaces. */
  lemma {:induction false} TrimmedJoin(hw: seq<string>, mw: seq<string>, sw: seq<string>, raw: string)
    requires |hw| <= 1 && |mw| <= 1 && |sw| <= 1
    requires forall i :: 0 <= i < |hw + mw + sw| ==> IsWord((hw + mw + sw)[i])
    requires raw == Spaced(hw) + Spaced(mw) + (if sw == [] then "" else sw[0])
    ensures hw + mw + sw == [] ==> raw == ""
    ensures hw + mw + sw != [] ==> Trim(raw) == JoinSpaces(hw + mw + sw) && Trim(raw) != ""
  {
    AppendsAreJoined(hw, mw, sw, raw);
    var ws := hw + mw + sw;
    if ws != [] {
      var body := if sw != [] then ws else hw + mw;
      assert body == ws;
      JoinSpacesEnds(ws);
      var joined := JoinSpaces(ws);
      assert IsWord(ws[0]) && IsWord(ws[|ws| - 1]);
      DigitNotWhitespace(joined[0]);
      UnitNotWhitespace(joined[|joined| - 1]);
      if sw != [] {
        TrimStartNoop(raw);
        TrimEndNoop(raw);
      } else {
        TrimStartNoop(raw);
        TrimEndSpace(joined);
      }
    }
  }

  /** The text `msToTime` builds by appending and trimming is TimeText. */
  lemma {:induction false} TrimmedAppendsAreTimeText(c: Clock, raw: string)
    requires raw == (if c.hours > 0 then NatToString(c.hours) + "h " else "")
                  + (if c.minutes > 0 then NatToString(c.minutes) + "m " else "")
                  + (if c.seconds > 0 then NatToString(c.seconds) + "s" else "")
    ensures (if Trim(raw) == "" then "0s" else Trim(raw)) == TimeText(c)
  {
    var hw, mw, sw := Part(c.hours, 'h'), Part(c.minutes, 'm'), Part(c.seconds, 's');
    assert c.hours > 0 ==> NatToString(c.hours) + "h " == hw[0] + " ";
    assert c.minutes > 0 ==> NatToString(c.minutes) + "m " == mw[0] + " ";
    WordsAreWords(c);
    TrimmedJoin(hw, mw, sw, raw);
  }

  // ---- Reading the text back ----

  /** The position of the first space of a text that has one. */
  function FirstSpace(t: string): (i: nat)
    requires ' ' in t
    ensures i < |t| && t[i] == ' ' && ' ' !in t[..i]
    decreases |t|
  {
    if t[0] == ' ' then 0
    else
      var i := 1 + FirstSpace(t[1..]);
      assert t[..i] == [t[0]] + t[1..][..i - 1];
      i
  }

  /** A space with none before it is the first space. */
  lemma {:induction false} FirstSpaceAt(t: string, n: nat)
    requires n < |t| && t[n] == ' ' && ' ' !in t[..n]
    ensures ' ' in t && FirstSpace(t) == n
    decreases n
  {
    assert t[n] in t;
    if n > 0 {
      assert t[0] == t[..n][0];
      assert t[1..][..n - 1] == t[..n][1..];
      FirstSpaceAt(t[1..], n - 1);
    }
  }

  /** The words of a text, split at each single space. */
  function SplitSpaces(t: string): seq<string>
    decreases |t|
  {
    if ' ' in t then
      var i := FirstSpace(t);
      [t[..i]] + SplitSpaces(t[i + 1..])
    else [t]
  }

  lemma WordHasNoSpace(w: string)
    requires IsWord(w)
    ensures ' ' !in w
  {
    forall i | 0 <= i < |w|
      ensures w[i] != ' '
    {
      if i < |w| - 1 {
        assert IsDigit(w[i]);
      }
    }
  }

  /** Splitting joined words gives the words back. */
  lemma {:induction false} SplitJoin(ws: seq<string>)
    requires ws != []
    requires forall i :: 0 <= i < |ws| ==> ' ' !in ws[i]
    ensures SplitSpaces(JoinSpaces(ws)) == ws
    decreases |ws|
  {
    if |ws| == 1 {
      assert JoinSpaces(ws) == ws[0];
    } else {
      var t := JoinSpaces(ws);
      var n := |ws[0]|;
      assert t == ws[0] + " " + JoinSpaces(ws[1..]);
      assert t[n] == ' ';
      assert t[..n] == ws[0];
      FirstSpaceAt(t, n);
      assert t[n + 1..] == JoinSpaces(ws[1..]);
      SplitJoin(ws[1..]);
      assert ws == [ws[0]] + ws[1..];
    }
  }

  /** Reads one word, such as "12m", into the clock part its unit names. */
  function ReadWord(w: string, acc: Clock): Clock {
    if w == [] then acc
    else
      var v := ParseNat(w[..|w| - 1]);
      var unit := w[|w| - 1];
      if unit == 'h' then acc.(hours := v)
      else if unit == 'm' then acc.(minutes := v)
      else if unit == 's' then acc.(seconds := v)
      else acc
  }

  function ReadWords(ws: seq<string>, acc: Clock): Clock
    decreases |ws|
  {
    if ws == [] then acc else ReadWords(ws[1..], ReadWord(ws[0], acc))
  }

  /** Reads a shown time back into hours, minutes and seconds. */
  function ReadTimeText(t: string): Clock {
    ReadWords(SplitSpaces(t), Clock(0, 0, 0))
  }

  lemma {:induction false} ReadWordsAppend(a: seq<string>, b: seq<string>, acc: Clock)
    ensures ReadWords(a + b, acc) == ReadWords(b, ReadWords(a, acc))
    decreases |a|
  {
    if a == [] {
      assert a + b == b;
    } else {
      assert (a + b)[0] == a[0];
      assert (a + b)[1..] == a[1..] + b;
      ReadWordsAppend(a[1..], b, ReadWord(a[0], acc));
    }
  }

  lemma ReadPart(v: nat, unit: char, acc: Clock)
    ensures unit == 'h' && (v > 0 || acc.hours == 0) ==> ReadWords(Part(v, unit), acc) == acc.(hours := v)
    ensures unit == 'm' && (v > 0 || acc.minutes == 0) ==> ReadWords(Part(v, unit), acc) == acc.(minutes := v)
    ensures unit == 's' && (v > 0 || acc.seconds == 0) ==> ReadWords(Part(v, unit), acc) == acc.(seconds := v)
  {
    if v > 0 {
      var w := NatToString(v) + [unit];
      assert w[..|w| - 1] == NatToString(v);
      ParseNatToString(v);
      assert Part(v, unit)[1..] == [];
    }
  }

  /** The shown text determines the clock it was made from: reading it
      back gives the hours, minutes and seconds, so each part is shown
      exactly when it is above 0, and in the order hours, minutes, seconds. */
  lemma {:induction false} ReadTimeTextRoundTrip(c: Clock)
    ensures ReadTimeText(TimeText(c)) == c
  {
    var ws := Words(c);
    if ws == [] {
      assert ' ' !in "0s";
      assert "0s"[..1] == "0";
      assert ParseNat("0") == 0;
    } else {
      WordsAreWords(c);
      forall i | 0 <= i < |ws|
        ensures ' ' !in ws[i]
      {
        WordHasNoSpace(ws[i]);
      }
      SplitJoin(ws);
      var zero := Clock(0, 0, 0);
      var hw, mw, sw := Part(c.hours, 'h'), Part(c.minutes, 'm'), Part(c.seconds, 's');
      ReadWordsAppend(hw + mw, sw, zero);
      ReadWordsAppend(hw, mw, zero);
      ReadPart(c.hours, 'h', zero);
      ReadPart(c.minutes, 'm', zero.(hours := c.hours));
      ReadPart(c.seconds, 's', Clock(c.hours, c.minutes, 0));
    }
  }

  /** Different clocks are shown differently. */
  lemma TimeTextInjective(a: Clock, b: Clock)
    ensures TimeText(a) == TimeText(b) ==> a == b
  {
    ReadTimeTextRoundTrip(a);
    ReadTimeTextRoundTrip(b);
  }

  /** The text is never empty, and it is "0s" exactly when hours, minutes
      and seconds are all 0. */
  lemma TimeTextZero(c: Clock)
    ensures TimeText(c) != ""
    ensures TimeText(c) == "0s" <==> c == Clock(0, 0, 0)
  {
    TimeTextInjective(c, Clock(0, 0, 0));
    if Words(c) != [] {
      WordsAreWords(c);
      JoinSpacesEnds(Words(c));
    }
  }

  /** The text always starts with a digit. */
  lemma TimeTextStartsWithDigit(c: Clock)
    ensures TimeText(c) != [] && IsDigit(TimeText(c)[0])
  {
    if Words(c) != [] {
      WordsAreWords(c);
      JoinSpacesEnds(Words(c));
    }
  }

  /** Less than a second shows as "0s". */
  lemma UnderOneSecond(ms: nat)
    requires ms < 1000
    ensures TimeText(ClockOf(ms)) == "0s"
  {
  }

  // ---- Time left ----

  /** A booking has expired once its duration, in minutes, has fully
      elapsed since it was made; the instant it elapses counts as expired. */
  predicate IsExpired(timestamp: int, duration: int, now: int) {
    now - timestamp >= duration * 60000
  }

  /** The "time left" column: the remaining time as `msToTime` shows it,
      or "Expired". */
  function TimeLeft(timestamp: int, duration: int, now: int): (shown: string)
    ensures shown == "Expired" <==> IsExpired(timestamp, duration, now)
    ensures !IsExpired(timestamp, duration, now) ==>
      shown == TimeText(ClockOf(duration * 60000 - (now - timestamp)))
  {
    var timePassedMs := now - timestamp;
    var durationMs := duration * 60 * 1000;
    var timeLeftMs := durationMs - timePassedMs;
    if timeLeftMs > 0 then
      TimeTextStartsWithDigit(ClockOf(timeLeftMs));
      TimeText(ClockOf(timeLeftMs))
    else "Expired"
  }

  /** A 30-minute booking made at t0 shows "Expired" at t0 + 30 min exactly
      and "1s" one second earlier. */
  lemma ExpiryBoundary(t0: int)
    ensures TimeLeft(t0, 30, t0 + 1800000) == "Expired"
    ensures TimeLeft(t0, 30, t0 + 1799000) == "1s"
  {
    assert ClockOf(1000) == Clock(0, 0, 1);
    assert NatToString(1) == "1";
  }

  /** In its last second a booking is not yet expired but shows "0s". */
  lemma LastSecondShowsZero(timestamp: int, duration: int, now: int)
    requires 0 < duration * 60000 - (now - timestamp) < 1000
    ensures !IsExpired(timestamp, duration, now) && TimeLeft(timestamp, duration, now) == "0s"
  {
    var left := duration * 60000 - (now - timestamp);
    assert duration * 60 * 1000 == duration * 60000;
    UnderOneSecond(left);
  }

  /** Since whole days are dropped, a 24-hour booking looked at the very
      instant it is made shows "0s". */
  lemma FullDayShowsZero(t: int)
    ensures TimeLeft(t, 1440, t) == "0s"
  {
    assert ClockOf(86400000) == Clock(0, 0, 0);
  }
}
