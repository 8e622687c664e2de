/**
 * The sample-track player: the clock text under the progress bar, the track
 * durations read from the catalog, and the playlist navigation state
 * (which track is active and whether it is playing).
 */
module AudioPlayer {
  import opened Wrappers
  import opened JsStrings

  /** One entry of the track catalog; `duration` is its `"m:ss"` text. */
  datatype Track = Track(title: string, genre: string, src: string, duration: string)

  /** `Math.floor(seconds / 60)` for a non-negative time: the whole minutes. */
  function WholeMinutes(v: real): (m: nat)
    requires v >= 0.0
    ensures m as real * 60.0 <= v < (m + 1) as real * 60.0
  {
    var f := (v / 60.0).Floor;
    assert f as real <= v / 60.0 < f as real + 1.0;
    f
  }

  /** `Math.floor(seconds % 60)` for a non-negative time: the whole seconds past the whole minutes. */
  function WholeSeconds(v: real): (s: nat)
    requires v >= 0.0
    ensures s < 60
    ensures (WholeMinutes(v) * 60 + s) as real <= v < (WholeMinutes(v) * 60 + s + 1) as real
  {
    var rest := v - 60.0 * WholeMinutes(v) as real;
    rest.Floor
  }

  /**
   * `formatTime(seconds)`: `"0:00"` for a time that is not finite or is negative,
   * otherwise the minutes, a colon and the seconds as exactly two digits below 60.
   */
  function FormatTime(seconds: JsNumber): (r: string)
    ensures !seconds.Finite? || seconds.value < 0.0 ==> r == "0:00"
    ensures |r| >= 4 && r[|r| - 3] == ':' && AllDigits(r[|r| - 2..]) && DigitsValue(r[|r| - 2..]) < 60
  {
    if !seconds.Finite? || seconds.value < 0.0 then
      assert "0:00"[2..] == "00" && "00"[..1] == "0";
      assert DigitsValue("00") == 0;
      "0:00"
    else
      var secs := WholeSeconds(seconds.value);
      var field := PadStartZero(NatToString(secs), 2);
      SecondsFieldIsTwoDigits(secs);
      var r := NatToString(WholeMinutes(seconds.value)) + ":" + field;
      assert r[|r| - 2..] == field;
      r
  }

  /** `secs.toString().padStart(2, '0')` for a seconds count below 60 is two digits worth that count. */
  lemma SecondsFieldIsTwoDigits(secs: nat)
    requires secs < 60
    ensures |PadStartZero(NatToString(secs), 2)| == 2
    ensures AllDigits(PadStartZero(NatToString(secs), 2))
    ensures DigitsValue(PadStartZero(NatToString(secs), 2)) == secs
    ensures ':' !in PadStartZero(NatToString(secs), 2)
  {
    if secs >= 10 {
      assert NatToString(secs) == NatToString(secs / 10) + [DigitChar(secs % 10)];
    }
    DigitsValueOfNatToString(secs);
    PadStartZeroValue(NatToString(secs), 2);
  }

  /** For a whole number of seconds the clock shows `n / 60`, a colon and `n % 60` padded to two digits. */
  lemma FormatTimeOfWholeSeconds(n: nat)
    ensures FormatTime(Finite(n as real)) == NatToString(n / 60) + ":" + PadStartZero(NatToString(n % 60), 2)
  {
    var v := n as real;
    var m := WholeMinutes(v);
    var s := WholeSeconds(v);
    assert m * 60 <= n < (m + 1) * 60;
    assert m == n / 60;
    assert m * 60 + s <= n < m * 60 + s + 1;
    assert s == n % 60;
  }

  /**
   * `durationToSeconds(duration)`: the first two fields of `duration.split(':')`
   * read as numbers and combined as minutes and seconds. Without a colon the
   * seconds field is `undefined`, and arithmetic with it or with `NaN` gives `NaN`.
   */
  function DurationToSeconds(duration: string): (r: JsNumber)
    ensures ':' !in duration ==> r == NaN
    ensures r.IsInfinite() ==>
      && ':' in duration
      && (ToNumber(MinutesText(duration)).IsInfinite() || ToNumber(SecondsText(duration)).IsInfinite())
  {
    if ':' !in duration then NaN
    else MinutesAndSeconds(ToNumber(MinutesText(duration)), ToNumber(SecondsText(duration)))
  }

  /** The `mins` field: the text before the first colon. */
  function MinutesText(duration: string): string
    requires ':' in duration
  {
    duration[..IndexOf(duration, ':').value]
  }

  /** The `secs` field: the text between the first colon and the next one, or the end. */
  function SecondsText(duration: string): string
    requires ':' in duration
  {
    UpToColon(duration[IndexOf(duration, ':').value + 1..])
  }

  /** The text before the first colon, or all of it. */
  function UpToColon(s: string): (r: string)
    ensures ':' !in r
  {
    match IndexOf(s, ':')
    case None => s
    case Some(j) => s[..j]
  }

  /** The two fields read are the first two parts `split(':')` gives, and there is a second one iff there is a colon. */
  lemma DurationFieldsAreSplitParts(duration: string)
    ensures |Split(duration, ':')| >= 2 <==> ':' in duration
    ensures ':' in duration ==> Split(duration, ':')[0] == MinutesText(duration) && Split(duration, ':')[1] == SecondsText(duration)
  {
    match IndexOf(duration, ':')
    case None =>
    case Some(i) =>
      var rest := duration[i + 1..];
      assert Split(duration, ':') == [duration[..i]] + Split(rest, ':');
      match IndexOf(rest, ':')
      case None =>
        assert Split(rest, ':') == [rest];
      case Some(j) =>
        assert Split(rest, ':')[0] == rest[..j];
  }

  /**
   * `mins * 60 + secs` in JavaScript arithmetic: `NaN` when either is `NaN` or when
   * infinities of opposite signs meet, an infinity when one side is infinite.
   */
  function MinutesAndSeconds(mins: JsNumber, secs: JsNumber): (r: JsNumber)
    ensures r.Finite? <==> mins.Finite? && secs.Finite?
    ensures r.Finite? ==> r.value == mins.value * 60.0 + secs.value
    ensures r.IsInfinite() ==> mins.IsInfinite() || secs.IsInfinite()
    ensures r == NaN <==> mins == NaN || secs == NaN || (mins.IsInfinite() && secs.IsInfinite() && mins != secs)
  {
    var scaled := if mins.Finite? then Finite(mins.value * 60.0) else mins;
    if scaled == NaN || secs == NaN then NaN
    else if scaled.Finite? then (if secs.Finite? then Finite(scaled.value + secs.value) else secs)
    else if secs.Finite? || secs == scaled then scaled
    else NaN
  }

  /** `"m:ss"` with decimal digits on both sides reads as `m * 60 + ss` seconds. */
  lemma DurationOfMinutesAndSeconds(mins: string, secs: string)
    requires mins != "" && AllDigits(mins)
    requires secs != "" && AllDigits(secs)
    ensures DurationToSeconds(mins + ":" + secs) == Finite((DigitsValue(mins) * 60 + DigitsValue(secs)) as real)
  {
    FieldsAtColon(mins, secs);
    DigitFieldsValue(mins, secs);
  }

  lemma DigitFieldsValue(mins: string, secs: string)
    requires mins != "" && AllDigits(mins)
    requires secs != "" && AllDigits(secs)
    ensures MinutesAndSeconds(ToNumber(mins), ToNumber(secs)) == Finite((DigitsValue(mins) * 60 + DigitsValue(secs)) as real)
  {
    ToNumberOfDigits(mins);
    ToNumberOfDigits(secs);
    MinutesAndSecondsOfNumbers(ToNumber(mins), ToNumber(secs), DigitsValue(mins), DigitsValue(secs));
  }

  lemma MinutesAndSecondsOfNumbers(mins: JsNumber, secs: JsNumber, m: int, s: int)
    requires mins == Finite(m as real) && secs == Finite(s as real)
    ensures MinutesAndSeconds(mins, secs) == Finite((m * 60 + s) as real)
  {
  }

  /** In `mins:secs` with digit sides the fields are `mins` and `secs`. */
  lemma FieldsAtColon(mins: string, secs: string)
    requires AllDigits(mins) && AllDigits(secs)
    ensures DurationToSeconds(mins + ":" + secs) == MinutesAndSeconds(ToNumber(mins), ToNumber(secs))
  {
    DigitsHaveNoColon(mins);
    DigitsHaveNoColon(secs);
    FieldsOfColonFree(mins, secs);
  }

  /** In `mins:secs` with colon-free sides the fields are `mins` and `secs`. */
  lemma FieldsOfColonFree(mins: string, secs: string)
    requires ':' !in mins && ':' !in secs
    ensures ':' in mins + ":" + secs && MinutesText(mins + ":" + secs) == mins && SecondsText(mins + ":" + secs) == secs
  {
    var d := mins + ":" + secs;
    assert d == mins + (":" + secs);
    IndexOfAfterPrefix(mins, ":" + secs, ':');
    assert IndexOf(d, ':') == Some(|mins|);
    assert d[..|mins|] == mins;
    assert d[|mins| + 1..] == secs;
    assert IndexOf(secs, ':') == None;
  }

  lemma DigitsHaveNoColon(s: string)
    requires AllDigits(s)
    ensures ':' !in s
  {
    forall i | 0 <= i < |s| ensures s[i] != ':' {
      assert IsDigit(s[i]);
    }
  }

  /**
   * An infinite minutes field (`"Infinity"`, say) makes the duration that infinity,
   * unless the seconds field is `NaN` or the opposite infinity, which make it `NaN`.
   */
  lemma InfiniteMinutesField(mins: string, secs: string)
    requires ':' !in mins && ':' !in secs
    requires ToNumber(mins).IsInfinite()
    ensures DurationToSeconds(mins + ":" + secs) ==
      if ToNumber(secs) == NaN || (ToNumber(secs).IsInfinite() && ToNumber(secs) != ToNumber(mins)) then NaN
      else ToNumber(mins)
  {
    FieldsOfColonFree(mins, secs);
  }

  /** `durationToSeconds("Infinity:" + secs)` is `Infinity` for digit seconds such as `"00"`. */
  lemma DurationOfInfinity(secs: string)
    requires AllDigits(secs)
    ensures DurationToSeconds("Infinity" + ":" + secs) == PosInfinity
  {
    DigitsHaveNoColon(secs);
    InfinityReadsAsInfinity();
    if secs == "" {
      ToNumberOfBlank(secs);
    } else {
      ToNumberOfDigits(secs);
    }
    InfiniteMinutesField("Infinity", secs);
  }

  lemma InfinityReadsAsInfinity()
    ensures ':' !in "Infinity" && ToNumber("Infinity") == PosInfinity
  {
    TrimOfTrimmed("Infinity");
  }

  /** A duration text without a colon has no seconds part and reads as `NaN`. */
  lemma DurationWithoutColon(duration: string)
    requires ':' !in duration
    ensures DurationToSeconds(duration) == NaN
  {
  }

  /** Reading the clock text back gives the whole seconds it shows: the floor of a valid time, 0 otherwise. */
  lemma FormatTimeReadsBack(seconds: JsNumber)
    ensures DurationToSeconds(FormatTime(seconds)) ==
      if seconds.Finite? && seconds.value >= 0.0 then Finite(seconds.value.Floor as real) else Finite(0.0)
  {
    if seconds.Finite? && seconds.value >= 0.0 {
      ValidTimeReadsBack(seconds.value);
    } else {
      ZeroClockReadsBack();
    }
  }

  /** The placeholder "0:00" reads back as zero seconds. */
  lemma ZeroClockReadsBack()
    ensures DurationToSeconds("0:00") == Finite(0.0)
  {
    assert "0:00" == "0" + ":" + "00";
    assert DigitsValue("0") == 0 && "00"[..1] == "0";
    assert DigitsValue("00") == 0;
    DurationOfFields("0:00", "0", "00", 0, 0, 0);
  }

  lemma ValidTimeReadsBack(v: real)
    requires v >= 0.0
    ensures DurationToSeconds(FormatTime(Finite(v))) == Finite(v.Floor as real)
  {
    FormatTimeOfFloor(v);
    ClockReadsBack(v.Floor);
  }

  /** The clock text of a whole number of seconds `n`. */
  function Clock(n: nat): string {
    NatToString(n / 60) + ":" + PadStartZero(NatToString(n % 60), 2)
  }

  /** A valid time shows the clock text of its whole seconds. */
  lemma FormatTimeOfFloor(v: real)
    requires v >= 0.0
    ensures v.Floor >= 0 && FormatTime(Finite(v)) == Clock(v.Floor)
  {
    MinutesAndSecondsOfFloor(v);
  }

  lemma MinutesAndSecondsOfFloor(v: real)
    requires v >= 0.0
    ensures v.Floor >= 0 && WholeMinutes(v) == v.Floor / 60 && WholeSeconds(v) == v.Floor % 60
  {
    var m, s := WholeMinutes(v), WholeSeconds(v);
    FloorOfBounds(v, m * 60 + s);
    DivModUnique(m * 60 + s, 60, m, s);
  }

  /** The clock text of `n` seconds reads back as `n`. */
  lemma ClockReadsBack(n: nat)
    ensures DurationToSeconds(Clock(n)) == Finite(n as real)
  {
    var m, s := n / 60, n % 60;
    SecondsFieldIsTwoDigits(s);
    DigitsValueOfNatToString(m);
    DurationOfFields(Clock(n), NatToString(m), PadStartZero(NatToString(s), 2), m, s, n);
  }

  lemma DurationOfFields(text: string, mins: string, secs: string, m: nat, s: nat, total: nat)
    requires text == mins + ":" + secs && total == m * 60 + s
    requires mins != "" && AllDigits(mins) && DigitsValue(mins) == m
    requires secs != "" && AllDigits(secs) && DigitsValue(secs) == s
    ensures DurationToSeconds(text) == Finite(total as real)
  {
    DurationOfMinutesAndSeconds(mins, secs);
    assert (m * 60 + s) as real == total as real;
  }

  lemma FloorOfBounds(v: real, k: int)
    requires k as real <= v < (k + 1) as real
    ensures v.Floor == k
  {
  }

  /**
   * JavaScript's `a % n`, which truncates towards zero: `a` minus a multiple of `n`,
   * smaller than `n` in magnitude and with the sign of `a`.
   */
  function JsRemainder(a: int, n: int): (r: int)
    requires n > 0
    ensures (a - r) % n == 0
    ensures a >= 0 ==> 0 <= r < n
    ensures a < 0 ==> -n < r <= 0
  {
    if a >= 0 then
      DivModUnique(a - a % n, n, a / n, 0);
      a % n
    else
      var q := (-a) / n;
      DivModUnique(a + (-a) % n, n, -q, 0);
      -((-a) % n)
  }

  /** `(prev + 1) % tracks.length`: the next track, wrapping from the last to the first. */
  function NextIndex(i: int, count: int): (r: int)
    requires 0 <= i < count
    ensures 0 <= r < count
    ensures r == if i == count - 1 then 0 else i + 1
  {
    JsRemainder(i + 1, count)
  }

  /** `(prev - 1 + tracks.length) % tracks.length`: the previous track, wrapping from the first to the last. */
  function PrevIndex(i: int, count: int): (r: int)
    requires 0 <= i < count
    ensures 0 <= r < count
    ensures r == if i == 0 then count - 1 else i - 1
  {
    JsRemainder(i - 1 + count, count)
  }

  /** Previous undoes next, and next undoes previous. */
  lemma PrevUndoesNext(i: int, count: int)
    requires 0 <= i < count
    ensures PrevIndex(NextIndex(i, count), count) == i
    ensures NextIndex(PrevIndex(i, count), count) == i
  {
  }

  /** The track reached after pressing next `k` times. */
  function NextTimes(i: int, count: int, k: nat): (r: int)
    requires 0 <= i < count
    ensures 0 <= r < count
  {
    if k == 0 then i else NextIndex(NextTimes(i, count, k - 1), count)
  }

  /** Pressing next `k` times moves `k` places round the playlist, so `tracks.length` presses come back. */
  lemma {:induction false} NextTimesIsOffset(i: int, count: int, k: nat)
    requires 0 <= i < count
    ensures NextTimes(i, count, k) == (i + k) % count
  {
    if k > 0 {
      NextTimesIsOffset(i, count, k - 1);
      ModSuccessor(i + k - 1, count);
    }
  }

  /** One more than `x` lands one place further round the remainders, wrapping at `n`. */
  lemma ModSuccessor(x: int, n: int)
    requires n > 0
    ensures (x + 1) % n == if x % n == n - 1 then 0 else x % n + 1
  {
    var q, p := x / n, x % n;
    assert x == q * n + p;
    if p == n - 1 {
      assert x + 1 == (q + 1) * n + 0 by {
        assert (q + 1) * n == q * n + n;
      }
      DivModUnique(x + 1, n, q + 1, 0);
    } else {
      DivModUnique(x + 1, n, q, p + 1);
    }
  }

  /** Quotient and remainder are the only such pair. */
  lemma DivModUnique(x: int, n: int, q: int, r: int)
    requires n > 0 && 0 <= r < n && x == q * n + r
    ensures x / n == q && x % n == r
  {
    var q', r' := x / n, x % n;
    assert x == q' * n + r';
    assert (q - q') * n == r' - r;
    if q > q' {
      MulAtLeast(q - q', n);
    } else if q < q' {
      MulAtLeast(q' - q, n);
    }
  }

  lemma MulAtLeast(d: int, n: int)
    requires d >= 1 && n > 0
    ensures d * n >= n
  {
  }

  /** The player's navigation state over a non-empty track catalog. */
  class Player {
    const tracks: seq<Track>
    var activeTrackIndex: int
    var isPlaying: bool

    ghost predicate Valid()
      reads this
    {
      0 <= activeTrackIndex < |tracks|
    }

    /** The first track is active and nothing plays; the page cannot render an empty catalog. */
    constructor (tracks: seq<Track>)
      requires |tracks| > 0
      ensures Valid()
      ensures this.tracks == tracks && activeTrackIndex == 0 && !isPlaying
    {
      this.tracks := tracks;
      activeTrackIndex := 0;
      isPlaying := false;
    }

    /** The track the page shows as "Now Playing". */
    function ActiveTrack(): (r: Track)
      reads this
      requires Valid()
      ensures r in tracks
    {
      tracks[activeTrackIndex]
    }

    /** `fallbackDuration`: the active track's catalog duration in seconds. */
    function FallbackDuration(): JsNumber
      reads this
      requires Valid()
    {
      DurationToSeconds(ActiveTrack().duration)
    }

    /** `handleTrackSelect(index)`: the active track toggles play and pause; another track becomes active and plays. */
    method HandleTrackSelect(index: int)
      requires Valid() && 0 <= index < |tracks|
      modifies this
      ensures Valid()
      ensures activeTrackIndex == index
      ensures isPlaying == if index == old(activeTrackIndex) then !old(isPlaying) else true
    {
      if index == activeTrackIndex {
        isPlaying := !isPlaying;
        return;
      }
      activeTrackIndex := index;
      isPlaying := true;
    }

    /** `handleNext`: the next track, wrapping round, and play. */
    method HandleNext()
      requires Valid()
      modifies this
      ensures Valid()
      ensures activeTrackIndex == NextIndex(old(activeTrackIndex), |tracks|) && isPlaying
    {
      activeTrackIndex := JsRemainder(activeTrackIndex + 1, |tracks|);
      isPlaying := true;
    }

    /** `handlePrevious`: the previous track, wrapping round, and play. */
    method HandlePrevious()
      requires Valid()
      modifies this
      ensures Valid()
      ensures activeTrackIndex == PrevIndex(old(activeTrackIndex), |tracks|) && isPlaying
    {
      activeTrackIndex := JsRemainder(activeTrackIndex - 1 + |tracks|, |tracks|);
      isPlaying := true;
    }

    /** The play/pause button: `setIsPlaying((prev) => !prev)`. */
    method TogglePlay()
      requires Valid()
      modifies this
      ensures Valid()
      ensures activeTrackIndex == old(activeTrackIndex) && isPlaying == !old(isPlaying)
    {
      isPlaying := !isPlaying;
    }
  }
}
