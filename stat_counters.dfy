/**
 * The one-shot counters of animateStatNumber, animateServiceMetric and animateRecoveryStat:
 * reading a target from the element's text, starting at 80% of it, and climbing a thirtieth of
 * the remaining fifth per tick until clamped at the target.
 */
module StatCounters {
  import opened Wrappers
  import opened Rounding
  import opened DecimalText

  /** Ticks per animation (1000 ms at 1000/30 ms per tick). */
  const Steps: nat := 30

  /** How the text is rendered on each tick, from the flags sniffed off the original text. */
  datatype Format = Format(monetary: bool, millions: bool, plus: bool, alwaysRound: bool)

  /** What a counter needs: its target (None where parseFloat gives NaN) and its format. */
  datatype Setup = Setup(target: Option<real>, format: Format)

  /** The number part of a rendered text; locale thousands separators are not modelled. */
  datatype Magnitude =
    | Tenths(tenths: int)     // (current / 1000000).toFixed(1) + 'M', as a count of tenths
    | Whole(n: int)           // Math.round(current) or Math.floor(current)
    | NaN(millions: bool)     // "NaN", or "NaNM" when the text had an M

  /** A rendered text: optional '$', the number, optional trailing '+'. */
  datatype Shown = Shown(monetary: bool, magnitude: Magnitude, plus: bool)

  /** An element's text: as the page shipped it, or as a tick last wrote it. */
  datatype Text = Raw(s: string) | Rendered(shown: Shown)

  function Millions(v: Option<real>): Option<real>
  {
    match v
    case None => None
    case Some(x) => Some(x * 1000000.0)
  }

  /** The target and format of a .stat-number or .recovery-number. */
  function StatSetup(text: string): (r: Setup)
    ensures r.target.Some? ==> r.target.value >= 0.0
  {
    var hasM := 'M' in text;
    var n := ParseDecimal(Strip(text));
    Setup(if hasM then Millions(n) else n, Format('$' in text, hasM, '+' in text, false))
  }

  /** The target and format of a .service-metric: no '$' or 'M' handling, always Math.round. */
  function MetricSetup(text: string): (r: Setup)
    ensures r.target.Some? ==> r.target.value >= 0.0
  {
    Setup(ParseDecimal(Strip(text)), Format(false, false, '+' in text, true))
  }

  /** "$13M+": a monetary target of 13 million, shown with '$', 'M' and '+'. */
  lemma StatSetupExample(t: string)
    requires t == "$13M+"
    ensures StatSetup(t) == Setup(Some(13000000.0), Format(true, true, true, false))
  {
    StripExample(t);
    ParseThirteen();
    assert t[0] == '$' && t[3] == 'M' && t[4] == '+';
    MonetaryMillionsPlus(t, 13.0);
  }

  lemma StripExample(t: string)
    requires t == "$13M+"
    ensures Strip(t) == "13"
  {
    assert t == "$" + ("13" + "M+");
    StripConcat("$", "13" + "M+");
    StripConcat("13", "M+");
    StripConcat("M", "+");
    StripNumeric("13");
    StripOther('$');
    StripOther('M');
    StripOther('+');
    assert "13" + [] == "13";
  }

  lemma ParseThirteen()
    ensures ParseDecimal("13") == Some(13.0)
  {
    ParseDigits("13");
    assert "13"[..1] == "1";
  }

  lemma MonetaryMillionsPlus(t: string, v: real)
    requires ParseDecimal(Strip(t)) == Some(v) && '$' in t && 'M' in t && '+' in t
    ensures StatSetup(t) == Setup(Some(v * 1000000.0), Format(true, true, true, false))
  {
  }

  lemma StripOther(c: char)
    requires !IsNumeric(c)
    ensures Strip([c]) == []
  {
    assert [c][1..] == [];
  }

  /** Removing one character `c` from a text leaves its strip unchanged when `c` is not numeric. */
  lemma StripDrops(a: string, c: char, b: string)
    requires !IsNumeric(c)
    ensures Strip(a + [c] + b) == Strip(a + b)
  {
    StripConcat(a + [c], b);
    StripConcat(a, [c]);
    StripConcat(a, b);
    StripOther(c);
    assert Strip(a) + [] == Strip(a);
  }

  /** Removing `c` from a text keeps every other character's presence. */
  lemma InDrops(a: string, c: char, b: string, x: char)
    requires x != c
    ensures (x in a + [c] + b) == (x in a + b)
  {
    if x in a + [c] + b {
      var k :| 0 <= k < |a + [c] + b| && (a + [c] + b)[k] == x;
      if k < |a| {
        assert (a + b)[k] == x;
      } else {
        assert k > |a|;
        assert (a + b)[k - 1] == x;
      }
    }
    if x in a + b {
      var k :| 0 <= k < |a + b| && (a + b)[k] == x;
      if k < |a| {
        assert (a + [c] + b)[k] == x;
      } else {
        assert (a + [c] + b)[k + 1] == x;
      }
    }
  }

  /**
   * Characters other than digits, points, '$', '+' and 'M' (thousands separators, spaces,
   * other letters) do not change what the text means to a stat counter.
   */
  lemma StatSetupIgnores(a: string, c: char, b: string)
    requires !IsNumeric(c) && c != '$' && c != '+' && c != 'M'
    ensures StatSetup(a + [c] + b) == StatSetup(a + b)
  {
    StripDrops(a, c, b);
    InDrops(a, c, b, '$');
    InDrops(a, c, b, '+');
    InDrops(a, c, b, 'M');
  }

  /** The same for a service metric, where '$' and 'M' are ignored too. */
  lemma MetricSetupIgnores(a: string, c: char, b: string)
    requires !IsNumeric(c) && c != '+'
    ensures MetricSetup(a + [c] + b) == MetricSetup(a + b)
  {
    StripDrops(a, c, b);
    InDrops(a, c, b, '+');
  }

  /** `targetNumber * 0.8`. */
  function Start(t: real): real { t * 0.8 }

  /** `(targetNumber - current) / steps` with current at its start. */
  function Increment(t: real): real { (t - Start(t)) / Steps as real }

  /** The closure state of one counter: `current`, and whether its interval is still set. */
  datatype Phase = Phase(current: real, running: bool)

  /** One tick: add the increment; at or past the target, clamp to it and clear the interval. */
  function TickPhase(p: Phase, t: real): (r: Phase)
    ensures r.current <= t && (r.running <==> r.current < t)
    ensures r.running ==> r.current == p.current + Increment(t)
    ensures !r.running ==> r.current == t && p.current + Increment(t) >= t
  {
    var c := p.current + Increment(t);
    if c >= t then Phase(t, false) else Phase(c, true)
  }

  /** The state after `k` ticks of a counter with target `t`; a cleared interval stays put. */
  function After(t: real, k: nat): Phase
  {
    if k == 0 then Phase(Start(t), true)
    else
      var p := After(t, k - 1);
      if p.running then TickPhase(p, t) else p
  }

  /** The counter never holds a value above its target. */
  lemma {:induction false} NeverAbove(t: real, k: nat)
    requires t >= 0.0
    ensures After(t, k).current <= t
  {
    if k > 0 {
      NeverAbove(t, k - 1);
    }
  }

  /** After at least one tick, the counter is running exactly while it is below its target. */
  lemma {:induction false} RunningIffBelow(t: real, k: nat)
    requires k >= 1
    ensures After(t, k).running <==> After(t, k).current < t
    ensures !After(t, k).running ==> After(t, k).current == t
  {
    if k > 1 {
      RunningIffBelow(t, k - 1);
    }
  }

  /** For a positive target, the first `Steps` ticks step evenly from 80% of it, still running. */
  lemma {:induction false} EvenSteps(t: real, k: nat)
    requires t > 0.0 && k < Steps
    ensures After(t, k) == Phase(Start(t) + k as real * Increment(t), true)
  {
    if k > 0 {
      EvenSteps(t, k - 1);
      var c := Start(t) + (k - 1) as real * Increment(t) + Increment(t);
      assert c == Start(t) + k as real * Increment(t);
      assert c == t - (Steps - k) as real * Increment(t);
      assert (Steps - k) as real * Increment(t) >= Increment(t) > 0.0;
    }
  }

  /** A stopped counter stays stopped, at the same value. */
  lemma {:induction false} StaysStopped(t: real, k: nat, j: nat)
    requires !After(t, k).running && k <= j
    ensures After(t, j) == After(t, k)
  {
    if j > k {
      StaysStopped(t, k, j - 1);
    }
  }

  /**
   * A counter with a target t >= 0 is at t with its interval cleared by tick `Steps`; for t > 0 it
   * is running on every tick before that one.
   */
  lemma Schedule(t: real, k: nat)
    requires t >= 0.0
    ensures k >= Steps ==> After(t, k) == Phase(t, false)
    ensures t > 0.0 ==> (After(t, k).running <==> k < Steps)
  {
    if t == 0.0 {
      assert After(t, 1) == Phase(t, false);
      if k >= 1 {
        StaysStopped(t, 1, k);
      }
    } else {
      EvenSteps(t, Steps - 1);
      var c := Start(t) + (Steps - 1) as real * Increment(t) + Increment(t);
      assert c == t;
      assert After(t, Steps) == Phase(t, false);
      if k >= Steps {
        StaysStopped(t, Steps, k);
      } else {
        EvenSteps(t, k);
      }
    }
  }

  /** The text a tick writes for a counter at `current` with target `t`. */
  function Render(f: Format, current: real, t: real): (s: Shown)
    ensures s.monetary == f.monetary && (s.plus <==> f.plus && current == t)
    ensures f.millions <==> s.magnitude.Tenths?
    ensures s.magnitude.Tenths? ==>
              s.magnitude.tenths as real - 0.5 <= current / 100000.0 < s.magnitude.tenths as real + 0.5
    ensures s.magnitude.Whole? && (f.alwaysRound || current >= 1000.0) ==>
              s.magnitude.n as real - 0.5 <= current < s.magnitude.n as real + 0.5
    ensures s.magnitude.Whole? && !f.alwaysRound && current < 1000.0 ==>
              s.magnitude.n as real <= current < s.magnitude.n as real + 1.0
  {
    var m :=
      if f.millions then Tenths(Round(current / 100000.0))
      else if f.alwaysRound || current >= 1000.0 then Whole(Round(current))
      else Whole(current.Floor);
    Shown(f.monetary, m, f.plus && current == t)
  }

  /** What a tick writes for a NaN target: the comparison never holds, so no '+'. */
  function RenderNaN(f: Format): (s: Shown)
    ensures s.monetary == f.monetary && !s.plus
    ensures s.magnitude.NaN? && (s.magnitude.millions <==> f.millions)
  {
    Shown(f.monetary, NaN(f.millions), false)
  }

  /** The number a magnitude shows, in its own unit. */
  function Shows(m: Magnitude): int
  {
    match m
    case Tenths(n) => n
    case Whole(n) => n
    case NaN(_) => 0
  }

  /** A larger value is never rendered as a smaller number. */
  lemma RenderMonotone(f: Format, x: real, y: real, t: real)
    requires x <= y
    ensures Shows(Render(f, x, t).magnitude) <= Shows(Render(f, y, t).magnitude)
  {
    RoundMonotone(x / 100000.0, y / 100000.0);
    RoundMonotone(x, y);
    FloorMonotone(x, y);
    if x < 1000.0 <= y {
      assert x.Floor <= 999;
    }
  }

  /** No tick ever shows a number above the one shown at rest. */
  lemma ShownNeverAbove(f: Format, t: real, k: nat)
    requires t >= 0.0
    ensures Shows(Render(f, After(t, k).current, t).magnitude) <= Shows(Render(f, t, t).magnitude)
  {
    NeverAbove(t, k);
    RenderMonotone(f, After(t, k).current, t, t);
  }

  /** A tick shows the '+' suffix exactly when the text had one and the counter has come to rest. */
  lemma PlusOnlyAtRest(f: Format, t: real, k: nat)
    requires k >= 1
    ensures Render(f, After(t, k).current, t).plus <==> f.plus && !After(t, k).running
  {
    RunningIffBelow(t, k);
  }

  /**
   * One counter: the closure of the setInterval started for a numeric element. For a NaN target
   * the comparison `current >= targetNumber` never holds, so the interval is never cleared.
   */
  class StatCounter {
    const target: real
    const isNumber: bool
    const format: Format
    const increment: real
    var current: real
    var running: bool
    var ticks: nat
    var text: Text

    ghost predicate Valid()
      reads this
    {
      increment == Increment(target) &&
      (isNumber ==> target >= 0.0 && Phase(current, running) == After(target, ticks)) &&
      (!isNumber ==> running)
    }

    constructor (setup: Setup, rawText: string)
      requires setup.target.Some? ==> setup.target.value >= 0.0
      ensures Valid() && running && ticks == 0 && text == Raw(rawText)
      ensures format == setup.format && isNumber == setup.target.Some?
      ensures isNumber ==> target == setup.target.value && current == Start(target)
    {
      var t := if setup.target.Some? then setup.target.value else 0.0;
      isNumber := setup.target.Some?;
      target := t;
      format := setup.format;
      increment := Increment(t);
      current := Start(t);
      running := true;
      ticks := 0;
      text := Raw(rawText);
    }

    /** One timer tick; a cleared interval never ticks again. */
    method Tick()
      requires Valid() && running
      modifies this
      ensures Valid() && ticks == old(ticks) + 1
      ensures isNumber ==> Phase(current, running) == TickPhase(old(Phase(current, running)), target)
      ensures isNumber ==> text == Rendered(Render(format, current, target))
      ensures !isNumber ==> running && text == Rendered(RenderNaN(format))
    {
      ticks := ticks + 1;
      if isNumber {
        current := current + increment;
        if current >= target {
          current := target;
          running := false;
        }
        text := Rendered(Render(format, current, target));
      } else {
        text := Rendered(RenderNaN(format));
      }
    }
  }
}
