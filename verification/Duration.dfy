/** The duration text of `sshflow stats`. */
module Duration {
  import opened Outcomes
  import opened Decimal
  import opened Splitting

  function FormatDurationMs(ms: nat): string {
    if ms < 1000 then Render(ms) + "ms"
    else
      var totalSecs := ms / 1000;
      var mins, secs := totalSecs / 60, totalSecs % 60;
      if mins > 0 then Render(mins) + "m " + Render(secs) + "s" else Render(secs) + "s"
  }

  /** What a reader learns from a duration text. */
  datatype Reading = Millis(ms: nat) | WholeSeconds(secs: nat)

  function ReadingOf(ms: nat): Reading {
    if ms < 1000 then Millis(ms) else WholeSeconds(ms / 1000)
  }

  /** Digits without a superfluous zero. */
  function ReadNumeral(s: string): Option<nat> {
    if s != "" && AllDigits(s) && !SuperfluousZero(s) then Some(Value(s)) else None
  }

  /** `<secs>s` below a minute, `<mins>m <secs>s` from one minute on, seconds always below 60. */
  function ReadSeconds(body: string): Option<nat> {
    match SplitOnce(body, 'm')
    case None =>
      (match ReadNumeral(body)
       case None => None
       case Some(secs) => if 1 <= secs < 60 then Some(secs) else None)
    case Some((first, rest)) =>
      (match (ReadNumeral(first), if rest != "" && rest[0] == ' ' then ReadNumeral(rest[1..]) else None)
       case (Some(mins), Some(secs)) => if mins > 0 && secs < 60 then Some(60 * mins + secs) else None
       case _ => None)
  }

  /** A strict reader: nothing but `<ms>ms` below one second and the two forms of whole seconds. */
  function ReadDuration(text: string): Option<Reading> {
    var n := |text|;
    if n >= 2 && text[n - 2..] == "ms" then
      (match ReadNumeral(text[..n - 2])
       case None => None
       case Some(ms) => if ms < 1000 then Some(Millis(ms)) else None)
    else if n >= 1 && text[n - 1] == 's' then
      (match ReadSeconds(text[..n - 1])
       case None => None
       case Some(secs) => Some(WholeSeconds(secs)))
    else None
  }

  lemma ReadRendered(n: nat)
    ensures ReadNumeral(Render(n)) == Some(n)
    ensures forall c | c in Render(n) :: IsDigit(c)
  {
    RenderRoundTrip(n);
    RenderedHasNoZero(n);
  }

  lemma NumeralIsRendered(s: string, n: nat)
    requires ReadNumeral(s) == Some(n)
    ensures s == Render(n)
  {
    RenderIsShortest(s);
  }

  function SecondsText(secs: nat): string {
    if secs >= 60 then Render(secs / 60) + "m " + Render(secs % 60) else Render(secs)
  }

  lemma FormatIsText(ms: nat)
    ensures FormatDurationMs(ms) == if ms < 1000 then Render(ms) + "ms" else SecondsText(ms / 1000) + "s"
  {
    if ms >= 60_000 {
      var mins, secs := ms / 1000 / 60, ms / 1000 % 60;
      assert Render(mins) + "m " + Render(secs) + "s" == (Render(mins) + "m " + Render(secs)) + "s";
    }
  }

  lemma ShortSecondsRead(secs: nat)
    requires 0 < secs < 60
    ensures ReadSeconds(SecondsText(secs)) == Some(secs)
  {
    ReadRendered(secs);
    assert 'm' !in Render(secs);
  }

  lemma LongSecondsRead(secs: nat)
    requires secs >= 60
    ensures ReadSeconds(SecondsText(secs)) == Some(secs)
  {
    hide Render, ReadNumeral;
    var mins, below := secs / 60, secs % 60;
    ReadRendered(mins);
    ReadRendered(below);
    var rest := " " + Render(below);
    assert SecondsText(secs) == Render(mins) + ['m'] + rest;
    SplitOnceUnique(Render(mins), 'm', rest);
    assert rest[0] == ' ' && rest[1..] == Render(below);
  }

  lemma OnlySecondsRead(body: string, secs: nat)
    requires ReadSeconds(body) == Some(secs)
    ensures secs > 0 && body == SecondsText(secs)
  {
    hide Render, ReadNumeral;
    match SplitOnce(body, 'm') {
      case None =>
        NumeralIsRendered(body, secs);
      case Some((first, rest)) =>
        var mins, below := secs / 60, secs % 60;
        assert ReadNumeral(first) == Some(mins) && ReadNumeral(rest[1..]) == Some(below);
        NumeralIsRendered(first, mins);
        NumeralIsRendered(rest[1..], below);
        assert rest == " " + rest[1..];
        assert body == first + ['m'] + rest == first + "m " + rest[1..];
    }
  }

  lemma ReadSecondsIff(body: string, secs: nat)
    ensures ReadSeconds(body) == Some(secs) <==> secs > 0 && body == SecondsText(secs)
  {
    hide ReadSeconds, SecondsText;
    if ReadSeconds(body) == Some(secs) {
      OnlySecondsRead(body, secs);
    }
    if 0 < secs < 60 {
      ShortSecondsRead(secs);
    } else if secs >= 60 {
      LongSecondsRead(secs);
    }
  }

  /** The text of whole seconds ends in a digit, so it is never taken for milliseconds. */
  lemma SecondsEndInDigit(secs: nat)
    ensures var text := SecondsText(secs); text != "" && IsDigit(text[|text| - 1])
  {
    ReadRendered(secs);
    ReadRendered(secs % 60);
    RenderRoundTrip(secs);
    RenderRoundTrip(secs % 60);
  }

  lemma ReadMillisIff(text: string, ms: nat)
    ensures ReadDuration(text) == Some(Millis(ms)) <==> ms < 1000 && text == Render(ms) + "ms"
  {
    hide Render, ReadNumeral, ReadSeconds;
    ReadRendered(ms);
    if ms < 1000 && text == Render(ms) + "ms" {
      assert text[..|text| - 2] == Render(ms) && text[|text| - 2..] == "ms";
    }
    if ReadDuration(text) == Some(Millis(ms)) {
      NumeralIsRendered(text[..|text| - 2], ms);
      assert text == text[..|text| - 2] + text[|text| - 2..];
    }
  }

  lemma ReadWholeIff(text: string, secs: nat)
    ensures ReadDuration(text) == Some(WholeSeconds(secs)) <==> secs > 0 && text == SecondsText(secs) + "s"
  {
    hide SecondsText, ReadNumeral, ReadSeconds;
    SecondsEndInDigit(secs);
    var n := |text|;
    if n >= 1 {
      ReadSecondsIff(text[..n - 1], secs);
    }
    if secs > 0 && text == SecondsText(secs) + "s" {
      assert text[..n - 1] == SecondsText(secs);
      assert text[n - 2..][0] == text[n - 2];
    }
    if ReadDuration(text) == Some(WholeSeconds(secs)) {
      assert text == text[..n - 1] + [text[n - 1]];
    }
  }

  /**
   The strict reader reads exactly the printed texts: the milliseconds below one second,
   the whole seconds above, minutes shown from one minute on and seconds below 60.
   */
  lemma ReadFormatted(ms: nat)
    ensures ReadDuration(FormatDurationMs(ms)) == Some(ReadingOf(ms))
  {
    FormatIsText(ms);
    if ms < 1000 {
      ReadMillisIff(FormatDurationMs(ms), ms);
    } else {
      ReadWholeIff(FormatDurationMs(ms), ms / 1000);
    }
  }

  /** Nothing else is read: a text with a reading is the text of every duration of that reading. */
  lemma ReadTextIsPrinted(text: string, ms: nat)
    requires ReadDuration(text) == Some(ReadingOf(ms))
    ensures text == FormatDurationMs(ms)
  {
    FormatIsText(ms);
    if ms < 1000 {
      ReadMillisIff(text, ms);
    } else {
      ReadWholeIff(text, ms / 1000);
    }
  }

  /** Minutes are shown exactly from 60000 ms on. */
  lemma MinutesShownIff(ms: nat)
    ensures ' ' in FormatDurationMs(ms) <==> ms >= 60_000
  {
    hide Render, FormatDurationMs;
    FormatIsText(ms);
    ReadRendered(ms);
    ReadRendered(ms / 1000);
    if ms >= 60_000 {
      var mins := Render(ms / 1000 / 60);
      assert FormatDurationMs(ms)[|mins| + 1] == ' ';
    }
  }

  /** Two durations print alike exactly when they agree to the printed precision. */
  lemma SameTextIff(a: nat, b: nat)
    ensures FormatDurationMs(a) == FormatDurationMs(b) <==>
            if a < 1000 || b < 1000 then a == b else a / 1000 == b / 1000
  {
    ReadFormatted(a);
    ReadFormatted(b);
  }
}
