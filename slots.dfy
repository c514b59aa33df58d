/**
 * `generateSlots` of server.js: the day window `[dayStart, dayEnd)` cut into
 * whole steps of `slotMinutes`, each printed as "HH:MM".
 */
module Slots {
  import opened Wrappers
  import opened Js
  import opened Clock
  import opened Arith

  /** The settings keys `generateSlots` destructures. */
  const DayStartKey: string := "dayStart"
  const DayEndKey: string := "dayEnd"
  const SlotMinutesKey: string := "slotMinutes"

  /** A settings key, or `undefined` when it is missing. */
  function Lookup(settings: map<string, Value>, key: string): Option<Value>
  {
    if key in settings then Some(settings[key]) else None
  }

  /** `Number(slotMinutes) || 10`: a step of 0 or NaN falls back to 10. */
  function StepOf(slotMinutes: Option<Value>): (step: int)
    ensures step != 0
    ensures ToNumber(slotMinutes).Finite? && ToNumber(slotMinutes).value != 0 ==> step == ToNumber(slotMinutes).value
    ensures ToNumber(slotMinutes) == NaN || ToNumber(slotMinutes) == Finite(0) ==> step == 10
  {
    match ToNumber(slotMinutes)
    case Finite(n) => if n != 0 then n else 10
    case NaN => 10
  }

  /** The window as `generateSlots` reads it: start and end in minutes, and the step. */
  datatype Window = Window(start: JsNumber, end: JsNumber, step: int)

  /**
   * Reading the window calls `toMinutes` on `dayStart` and `dayEnd`, which
   * throws a TypeError (`None`) unless both are strings.
   */
  function WindowOf(settings: map<string, Value>): Option<Window>
  {
    match (Lookup(settings, DayStartKey), Lookup(settings, DayEndKey))
    case (Some(Str(ds)), Some(Str(de))) =>
      Some(Window(ToMinutes(ds), ToMinutes(de), StepOf(Lookup(settings, SlotMinutesKey))))
    case _ => None
  }

  /**
   * The loop `for (t = start; t <= end - step; t += step)` ends exactly when
   * the step is positive or the guard fails at once; a NaN bound makes every
   * comparison false, so the loop does not run.
   */
  predicate Halts(w: Window)
  {
    w.start.Finite? && w.end.Finite? ==> w.step > 0 || w.start.value > w.end.value - w.step
  }

  /** `generateSlots(settings)` halts (or throws) for these settings. */
  predicate SettingsHalt(settings: map<string, Value>)
  {
    WindowOf(settings).Some? ==> Halts(WindowOf(settings).value)
  }

  /** The loop's successive values of `t`, from `t` on. */
  function SlotStarts(t: int, end: int, step: int): seq<int>
    requires step > 0 || t > end - step
    decreases end - t
  {
    if t <= end - step then [t] + SlotStarts(t + step, end, step) else []
  }

  /** Each start printed with `toHHMM`. */
  function Labels(ts: seq<int>): (r: seq<string>)
    ensures |r| == |ts|
  {
    if ts == [] then [] else [ToHHMM(ts[0])] + Labels(ts[1..])
  }

  /** The slot strings of a window: empty when either bound is NaN. */
  function WindowSlots(w: Window): seq<string>
    requires Halts(w)
  {
    if w.start.Finite? && w.end.Finite? then Labels(SlotStarts(w.start.value, w.end.value, w.step)) else []
  }

  /** What `generateSlots(settings)` returns, or `None` when it throws. */
  function SlotsOf(settings: map<string, Value>): Option<seq<string>>
    requires SettingsHalt(settings)
  {
    match WindowOf(settings)
    case Some(w) => Some(WindowSlots(w))
    case None => None
  }

  /** `generateSlots(settings)`: read the window, then run the counting loop over it. */
  method GenerateSlots(settings: map<string, Value>) returns (slots: Option<seq<string>>)
    requires SettingsHalt(settings)
    ensures slots == SlotsOf(settings)
  {
    // `toMinutes(dayStart)`, `toMinutes(dayEnd)` and `Number(slotMinutes) || 10`
    var window := WindowOf(settings);
    if window.None? {
      return None;
    }
    var w := window.value;
    if !(w.start.Finite? && w.end.Finite?) {
      return Some([]);
    }
    var tiles := Tile(w.start.value, w.end.value, w.step);
    return Some(tiles);
  }

  /**
   * The loop `for (let t = start; t <= end - step; t += step) slots.push(toHHMM(t))`
   * with finite bounds.
   */
  method Tile(start: int, end: int, step: int) returns (slots: seq<string>)
    requires step > 0 || start > end - step
    ensures slots == Labels(SlotStarts(start, end, step))
  {
    var t := start;
    slots := [];
    ghost var done: seq<int> := [];
    while t <= end - step
      invariant step > 0 || t > end - step
      invariant done + SlotStarts(t, end, step) == SlotStarts(start, end, step)
      invariant slots == Labels(done)
      decreases end - t
    {
      TileStep(start, end, step, t, done, slots);
      slots := slots + [ToHHMM(t)];
      done := done + [t];
      t := t + step;
    }
    TileDone(start, end, step, t, done, slots);
  }

  /** One turn of the loop in `Tile` pushes the next start's label. */
  lemma TileStep(start: int, end: int, step: int, t: int, done: seq<int>, slots: seq<string>)
    requires step > 0 && t <= end - step
    requires done + SlotStarts(t, end, step) == SlotStarts(start, end, step)
    requires slots == Labels(done)
    ensures (done + [t]) + SlotStarts(t + step, end, step) == SlotStarts(start, end, step)
    ensures slots + [ToHHMM(t)] == Labels(done + [t])
  {
    LabelsAppend(done, t);
    SlotStartsCons(t, end, step);
    ConcatAssoc(done, [t], SlotStarts(t + step, end, step));
  }

  /** A turn of the loop that runs contributes its start first. */
  lemma SlotStartsCons(t: int, end: int, step: int)
    requires step > 0 && t <= end - step
    ensures SlotStarts(t, end, step) == [t] + SlotStarts(t + step, end, step)
  {
  }

  lemma ConcatAssoc(a: seq<int>, b: seq<int>, c: seq<int>)
    ensures (a + b) + c == a + (b + c)
  {
  }

  /** When the guard of the loop in `Tile` fails, every start has been pushed. */
  lemma TileDone(start: int, end: int, step: int, t: int, done: seq<int>, slots: seq<string>)
    requires step > 0 || start > end - step
    requires t > end - step
    requires done + SlotStarts(t, end, step) == SlotStarts(start, end, step)
    requires slots == Labels(done)
    ensures slots == Labels(SlotStarts(start, end, step))
  {
    assert SlotStarts(t, end, step) == [];
    assert done + [] == done;
  }

  lemma {:induction false} LabelsAt(ts: seq<int>, i: nat)
    requires i < |ts|
    ensures Labels(ts)[i] == ToHHMM(ts[i])
  {
    if i > 0 {
      LabelsAt(ts[1..], i - 1);
    }
  }

  lemma {:induction false} LabelsAppend(ts: seq<int>, t: int)
    ensures Labels(ts + [t]) == Labels(ts) + [ToHHMM(t)]
  {
    if ts != [] {
      assert (ts + [t])[1..] == ts[1..] + [t];
      LabelsAppend(ts[1..], t);
    }
  }

  // ---------------------------------------------------------------------------
  // Arithmetic facts about Euclidean division by a positive step
  // ---------------------------------------------------------------------------

  lemma DivStep(a: int, d: int)
    requires d > 0 && a >= d
    ensures a / d == (a - d) / d + 1
  {
    var q, r := (a - d) / d, (a - d) % d;
    assert a == (q + 1) * d + r;
    DivUnique(a, d, q + 1, r);
  }

  /** Slot `i` ends within the window when `i` is below the number of whole steps. */
  lemma FitsBelow(i: nat, a: int, d: int)
    requires d > 0 && a >= 0 && i < a / d
    ensures i * d + d <= a
  {
    var q := a / d;
    var k := q - (i + 1);
    assert a >= q * d;
    if k >= 1 {
      MulAtLeast(k, d);
    }
    assert k * d >= 0;
    assert q * d == (i + 1) * d + k * d;
    assert (i + 1) * d == i * d + d;
  }

  lemma MulStrict(i: int, j: int, d: int)
    requires i < j && d > 0
    ensures i * d < j * d
  {
    assert j * d - i * d == (j - i) * d;
  }

  // ---------------------------------------------------------------------------
  // What the starts are
  // ---------------------------------------------------------------------------

  /** The k-th start is `t + k * step`. */
  lemma {:induction false} SlotStartsAt(t: int, end: int, step: int, k: nat)
    requires step > 0
    requires k < |SlotStarts(t, end, step)|
    ensures SlotStarts(t, end, step)[k] == t + k * step
    decreases end - t
  {
    if k > 0 {
      SlotStartsAt(t + step, end, step, k - 1);
    }
  }

  /** There are `floor((end - t) / step)` starts when `end >= t`, and none otherwise. */
  lemma {:induction false} SlotStartsLength(t: int, end: int, step: int)
    requires step > 0
    ensures |SlotStarts(t, end, step)| == if end < t then 0 else (end - t) / step
    decreases end - t
  {
    if t <= end - step {
      SlotStartsLength(t + step, end, step);
      DivStep(end - t, step);
    } else if end >= t {
      DivUnique(end - t, step, 0, end - t);
    }
  }

  /**
   * The starts tile `[start, end)`: strictly increasing, exactly `step` apart,
   * each slot `[t, t + step)` inside the window, as many as fit, and none when
   * even one step does not fit.
   */
  lemma SlotStartsShape(start: int, end: int, step: int)
    requires step > 0
    ensures var ts := SlotStarts(start, end, step);
      && (forall i :: 0 <= i < |ts| ==> start <= ts[i] && ts[i] + step <= end)
      && (forall i :: 0 <= i < |ts| - 1 ==> ts[i + 1] == ts[i] + step)
      && (forall i, j :: 0 <= i < j < |ts| ==> ts[i] < ts[j])
      && (end >= start ==> |ts| == (end - start) / step)
      && (end - start < step ==> ts == [])
  {
    var ts := SlotStarts(start, end, step);
    SlotStartsLength(start, end, step);
    forall i | 0 <= i < |ts|
      ensures ts[i] == start + i * step
    {
      SlotStartsAt(start, end, step, i);
    }
    forall i | 0 <= i < |ts|
      ensures start <= ts[i] && ts[i] + step <= end
    {
      FitsBelow(i, end - start, step);
      assert 0 <= i * step;
    }
    forall i, j | 0 <= i < j < |ts|
      ensures ts[i] < ts[j]
    {
      MulStrict(i, j, step);
    }
    forall i | 0 <= i < |ts| - 1
      ensures ts[i + 1] == ts[i] + step
    {
      assert (i + 1) * step == i * step + step;
    }
  }

  /** A window whose step is not positive yields no slots whenever the loop halts. */
  lemma NonPositiveStepIsEmpty(start: int, end: int, step: int)
    requires step <= 0 && start > end - step
    ensures SlotStarts(start, end, step) == []
  {
  }

  /** When the start is not negative, the slot strings are pairwise distinct. */
  lemma SlotsDistinct(start: nat, end: int, step: int)
    requires step > 0
    ensures var r := Labels(SlotStarts(start, end, step));
      forall i, j :: 0 <= i < j < |r| ==> r[i] != r[j]
  {
    var ts := SlotStarts(start, end, step);
    SlotStartsShape(start, end, step);
    forall i, j | 0 <= i < j < |ts|
      ensures Labels(ts)[i] != Labels(ts)[j]
    {
      LabelsAt(ts, i);
      LabelsAt(ts, j);
      if ToHHMM(ts[i]) == ToHHMM(ts[j]) {
        ToHHMMInjective(ts[i], ts[j]);
      }
    }
  }

  /** Every slot string of non-negative starts reads back, through `toMinutes`, as its start. */
  lemma SlotsReadBack(start: nat, end: int, step: int, i: nat)
    requires step > 0
    requires i < |SlotStarts(start, end, step)|
    ensures ToMinutes(Labels(SlotStarts(start, end, step))[i]) == Finite(SlotStarts(start, end, step)[i])
  {
    SlotStartsShape(start, end, step);
    LabelsAt(SlotStarts(start, end, step), i);
    RoundTrip(SlotStarts(start, end, step)[i]);
  }

  /** No generated slot is the empty string. */
  lemma SlotsNonEmpty(settings: map<string, Value>)
    requires SettingsHalt(settings) && SlotsOf(settings).Some?
    ensures forall t :: t in SlotsOf(settings).value ==> t != ""
  {
    forall t | t in SlotsOf(settings).value
      ensures t != ""
    {
      var w := WindowOf(settings).value;
      var ts := SlotStarts(w.start.value, w.end.value, w.step);
      var i :| 0 <= i < |Labels(ts)| && Labels(ts)[i] == t;
      LabelsAt(ts, i);
      ToHHMMNonEmpty(ts[i]);
    }
  }
}
