/** The display helpers for a trail's duration and distance. The trail
    page (`formatDuration(ms)`, `formatTrailDistance`) and the history
    dialog (`formatDuration(startTime, endTime)`, `formatDistance`) carry the
    same arithmetic; it is defined once here. */
module Formatting {
  import opened Types
  import opened Numbers

  /** Hours, minutes and seconds of a duration, as the helpers compute them. */
  datatype Hms = Hms(hours: int, minutes: int, seconds: int)

  /** The three components computed from `ms` with JavaScript's operators:
      `Math.floor((ms / 1000) % 60)`, `Math.floor((ms / 60000) % 60)` and
      `Math.floor(ms / 3600000)`. For a non-negative duration they are the
      Euclidean decomposition of the whole seconds; for a negative one the
      truncating `%` gives non-positive minutes and seconds. */
  function DurationParts(ms: int): (p: Hms)
    ensures ms >= 0 ==> p == Hms(ms / 3600000, ms / 60000 % 60, ms / 1000 % 60)
    ensures ms >= 0 ==> 0 <= p.seconds < 60 && 0 <= p.minutes < 60 && 0 <= p.hours
    ensures ms >= 0 ==> p.hours * 3600 + p.minutes * 60 + p.seconds == ms / 1000
    ensures ms < 0 ==> p.hours < 0 && -60 <= p.minutes <= 0 && -60 <= p.seconds <= 0
  {
    var x := ms as real;
    var p := Hms((x / 3600000.0).Floor, JsRem(x / 60000.0, 60.0).Floor, JsRem(x / 1000.0, 60.0).Floor);
    if ms >= 0 then
      FloorOfQuotient(ms, 1000);
      FloorOfQuotient(ms, 60000);
      FloorOfQuotient(ms, 3600000);
      NestedQuotients(ms);
      FloorMinusMultiple(x / 1000.0, ms / 60000);
      FloorMinusMultiple(x / 60000.0, ms / 3600000);
      p
    else
      NegativeRemainder(x / 1000.0);
      NegativeRemainder(x / 60000.0);
      p
  }

  /** For a positive divisor, flooring the exact quotient is integer division. */
  lemma FloorOfQuotient(n: int, d: int)
    requires n >= 0 && d > 0
    ensures (n as real / d as real).Floor == n / d
  {
    var q, r := n / d, n % d;
    assert n == q * d + r;
    assert (n as real) == (q as real) * (d as real) + (r as real);
    assert n as real / d as real == q as real + r as real / d as real;
  }

  /** Whole minutes are whole seconds over 60, whole hours whole minutes
      over 60. */
  lemma NestedQuotients(ms: int)
    requires ms >= 0
    ensures ms / 60000 == ms / 1000 / 60
    ensures ms / 3600000 == ms / 60000 / 60
  {
  }

  /** `y % 60` for a non-negative `y` whose sixtieth floors to `k`. */
  lemma FloorMinusMultiple(y: real, k: int)
    requires y >= 0.0 && (y / 60.0).Floor == k
    ensures JsRem(y, 60.0).Floor == y.Floor - 60 * k
  {
  }

  lemma NegativeRemainder(y: real)
    requires y < 0.0
    ensures -60 <= JsRem(y, 60.0).Floor <= 0
  {
  }

  /** The rendered duration: the hours part only when positive; the minutes
      and seconds parts always, seconds last. */
  function DurationText(p: Hms): (r: string)
    ensures 'h' in r <==> p.hours > 0
    ensures 'm' in r && r[|r| - 1] == 's'
  {
    (if p.hours > 0 then NumberString(p.hours) + "h " else "") + MinutesSecondsText(p)
  }

  /** The text shows the numbers: equal texts have equal minutes and
      seconds, and equal hours whenever one of them shows hours. (Every
      hours value from 0 down renders the same, as no hours part.) */
  lemma DurationTextInjective(p: Hms, q: Hms)
    requires DurationText(p) == DurationText(q)
    ensures p.minutes == q.minutes && p.seconds == q.seconds
    ensures p.hours > 0 || q.hours > 0 ==> p.hours == q.hours
  {
    var tp, tq := MinutesSecondsText(p), MinutesSecondsText(q);
    if p.hours > 0 && q.hours > 0 {
      HoursSplit(p.hours, tp);
      HoursSplit(q.hours, tq);
      SplitAtFirst(NumberString(p.hours), " " + tp, NumberString(q.hours), " " + tq, 'h');
      NumberStringInjective(p.hours, q.hours);
      assert tp == (" " + tp)[1..] == (" " + tq)[1..] == tq;
    } else {
      assert p.hours <= 0 && q.hours <= 0;
      assert DurationText(p) == tp && DurationText(q) == tq;
    }
    MinutesSecondsInjective(p, q);
  }

  /** The part of the duration text after the hours. */
  function MinutesSecondsText(p: Hms): string
  {
    NumberString(p.minutes) + "m " + NumberString(p.seconds) + "s"
  }

  lemma HoursSplit(hours: int, rest: string)
    ensures NumberString(hours) + "h " + rest == NumberString(hours) + ['h'] + (" " + rest)
  {
  }

  /** Minutes and seconds are read back from their text. */
  lemma MinutesSecondsInjective(p: Hms, q: Hms)
    requires MinutesSecondsText(p) == MinutesSecondsText(q)
    ensures p.minutes == q.minutes && p.seconds == q.seconds
  {
    var sp := " " + NumberString(p.seconds) + "s";
    var sq := " " + NumberString(q.seconds) + "s";
    assert MinutesSecondsText(p) == NumberString(p.minutes) + ['m'] + sp;
    assert MinutesSecondsText(q) == NumberString(q.minutes) + ['m'] + sq;
    SplitAtFirst(NumberString(p.minutes), sp, NumberString(q.minutes), sq, 'm');
    NumberStringInjective(p.minutes, q.minutes);
    SecondsInjective(p.seconds, q.seconds);
  }

  /** The seconds are read back from the ` Ys` that ends the text. */
  lemma SecondsInjective(s1: int, s2: int)
    requires " " + NumberString(s1) + "s" == " " + NumberString(s2) + "s"
    ensures s1 == s2
  {
    var t1, t2 := " " + NumberString(s1) + "s", " " + NumberString(s2) + "s";
    assert NumberString(s1) == t1[1..|t1| - 1] == t2[1..|t2| - 1] == NumberString(s2);
    NumberStringInjective(s1, s2);
  }

  /** A separator that occurs in neither prefix splits both strings at the
      same place. */
  lemma SplitAtFirst(a: string, b: string, c: string, d: string, sep: char)
    requires sep !in a && sep !in c
    requires a + [sep] + b == c + [sep] + d
    ensures a == c && b == d
  {
    var t := a + [sep] + b;
    SeparatorAt(a, b, sep);
    SeparatorAt(c, d, sep);
    assert |a| == |c|;
    assert a == t[..|a|] == c;
    assert b == t[|a| + 1..] == d;
  }

  /** In `a + [sep] + b` with no `sep` in `a`, the first `sep` is at `|a|`. */
  lemma SeparatorAt(a: string, b: string, sep: char)
    requires sep !in a
    ensures (a + [sep] + b)[|a|] == sep
    ensures forall i :: 0 <= i < |a| ==> (a + [sep] + b)[i] != sep
  {
    forall i | 0 <= i < |a|
      ensures (a + [sep] + b)[i] != sep
    {
      assert (a + [sep] + b)[i] == a[i];
    }
  }

  /** The trail page's `formatDuration(ms)`: hours are omitted below one hour
      (and for any negative duration). For a non-negative duration the text
      shows the Euclidean hours/minutes/seconds decomposition of the whole
      seconds in `ms`. */
  function FormatDuration(ms: int): (r: string)
    ensures 'h' in r <==> ms >= 3600000
    ensures ms >= 0 ==> r == DurationText(Hms(ms / 3600000, ms / 60000 % 60, ms / 1000 % 60))
  {
    DurationText(DurationParts(ms))
  }

  /** The history dialog's `formatDuration(startTime, endTime)`: the same
      rendering applied to `endTime - startTime`. */
  function FormatTrailDuration(startTime: int, endTime: int): (r: string)
    ensures 'h' in r <==> endTime - startTime >= 3600000
    ensures startTime <= endTime ==>
      var d := endTime - startTime;
      r == DurationText(Hms(d / 3600000, d / 60000 % 60, d / 1000 % 60))
  {
    FormatDuration(endTime - startTime)
  }

  /** What `formatDistance` displays: "N/A", a whole number of metres
      (`toFixed(0)`), or kilometres to two decimals (`toFixed(2)`); the
      string rendering of the number is not modelled. */
  datatype DistanceText = NotAvailable | Metres(metres: real) | Kilometres(kilometres: real)

  /** `formatDistance` (identical to the trail page's `formatTrailDistance`):
      metres below 1000, kilometres from 1000 on, "N/A" when the trail has no
      distance. */
  function FormatDistance(distance: Option<real>): (r: DistanceText)
    ensures r == NotAvailable <==> distance.None?
    ensures r.Metres? <==> distance.Some? && distance.value < 1000.0
    ensures r.Metres? ==> r.metres == distance.value
    ensures r.Kilometres? ==> r.kilometres >= 1.0 && r.kilometres * 1000.0 == distance.value
  {
    match distance
    case None => NotAvailable
    case Some(d) => if d < 1000.0 then Metres(d) else Kilometres(d / 1000.0)
  }
}
