/**
 * Wall-clock arithmetic of server.js: `toMinutes` reads an "HH:MM" string as
 * minutes since midnight and `toHHMM` prints minutes back as "HH:MM".
 */
module Clock {
  import opened Wrappers
  import opened Js
  import Arith

  /** `const [h, m] = hhmm.split(":")`: the first field and, when there is one, the second. */
  function Fields(hhmm: string): (string, Option<string>)
  {
    var parts := Split(hhmm, ':');
    (parts[0], if |parts| >= 2 then Some(parts[1]) else None)
  }

  /**
   * `toMinutes(hhmm)`: `h * 60 + m` over `Number` of both fields. NaN in
   * either field, or a missing minute field (`undefined`), makes it NaN;
   * fields after the second are ignored.
   */
  function ToMinutes(hhmm: string): JsNumber
  {
    var (h, m) := Fields(hhmm);
    match (NumberOfString(h), m)
    case (Finite(hv), Some(ms)) =>
      (match NumberOfString(ms)
       case Finite(mv) => Finite(hv * 60 + mv)
       case NaN => NaN)
    case _ => NaN
  }

  /** JavaScript's `a % n` for a positive `n`: the remainder takes the sign of `a`. */
  function TruncRem(a: int, n: int): (r: int)
    requires n > 0
    ensures a >= 0 ==> r == a % n
    ensures a < 0 ==> r <= 0
    ensures (a - r) % n == 0
    ensures -n < r < n
  {
    if a >= 0 then
      Arith.DivUnique(a - a % n, n, a / n, 0);
      a % n
    else
      var q := (-a) / n;
      var rem := (-a) % n;
      assert -a == q * n + rem;
      assert a + rem == (-q) * n;
      Arith.DivUnique(a + rem, n, -q, 0);
      -rem
  }

  /**
   * `toHHMM(totalMins)`: `Math.floor(totalMins / 60)` and `totalMins % 60`,
   * each printed and zero-padded to at least two characters.
   */
  function ToHHMM(totalMins: int): string
  {
    PadStart2(IntToString(totalMins / 60)) + ":" + PadStart2(IntToString(TruncRem(totalMins, 60)))
  }

  /** The two printed fields of `ToHHMM(m)` for a non-negative `m`. */
  lemma HHMMParts(m: nat)
    ensures var hh := PadStart2(NatToString(m / 60));
      var mm := PadStart2(NatToString(m % 60));
      && ToHHMM(m) == hh + [':'] + mm
      && AllDigits(hh) && AllDigits(mm) && |hh| >= 2 && |mm| == 2
      && ':' !in hh && ':' !in mm
  {
    var hh := PadStart2(NatToString(m / 60));
    var mm := PadStart2(NatToString(m % 60));
    PaddedValue(m / 60);
    PaddedValue(m % 60);
    NatToStringLength(m % 60);
    assert forall i :: 0 <= i < |hh| ==> hh[i] != ':';
    assert forall i :: 0 <= i < |mm| ==> mm[i] != ':';
  }

  /** The fields `toMinutes` reads from `ToHHMM(m)` are the two printed numbers. */
  lemma FieldsOfHHMM(m: nat)
    ensures Fields(ToHHMM(m)) == (PadStart2(NatToString(m / 60)), Some(PadStart2(NatToString(m % 60))))
  {
    var hh := PadStart2(NatToString(m / 60));
    var mm := PadStart2(NatToString(m % 60));
    HHMMParts(m);
    SplitAt(hh, mm, ':');
    SplitNone(mm, ':');
  }

  /** `toMinutes` of a string whose fields read as the hour and minute of `m`. */
  lemma ToMinutesOfFields(s: string, hh: string, mm: string, m: nat)
    requires Fields(s) == (hh, Some(mm))
    requires NumberOfString(hh) == Finite(m / 60) && NumberOfString(mm) == Finite(m % 60)
    ensures ToMinutes(s) == Finite(m)
  {
  }

  /** Printing then reading a non-negative number of minutes gives it back. */
  lemma RoundTrip(m: nat)
    ensures ToMinutes(ToHHMM(m)) == Finite(m)
  {
    FieldsOfHHMM(m);
    NumberOfPadded(m / 60);
    NumberOfPadded(m % 60);
    ToMinutesOfFields(ToHHMM(m), PadStart2(NatToString(m / 60)), PadStart2(NatToString(m % 60)), m);
  }

  /** Within one day (indeed below 100 hours) the printed form is exactly "HH:MM". */
  lemma ToHHMMShape(m: nat)
    requires m < 6000
    ensures var r := ToHHMM(m);
      && |r| == 5 && r[2] == ':'
      && IsDigit(r[0]) && IsDigit(r[1]) && IsDigit(r[3]) && IsDigit(r[4])
      && DigitsValue(r[..2]) == m / 60 && DigitsValue(r[3..]) == m % 60
  {
    var hh := PadStart2(NatToString(m / 60));
    var mm := PadStart2(NatToString(m % 60));
    HHMMParts(m);
    NatToStringLength(m / 60);
    PaddedValue(m / 60);
    PaddedValue(m % 60);
    var r := ToHHMM(m);
    assert r[..2] == hh;
    assert r[3..] == mm;
  }

  /** Distinct non-negative minute values print differently. */
  lemma ToHHMMInjective(a: nat, b: nat)
    requires ToHHMM(a) == ToHHMM(b)
    ensures a == b
  {
    RoundTrip(a);
    RoundTrip(b);
  }

  /** A printed time is never the empty string: it always holds the ':' separator. */
  lemma ToHHMMNonEmpty(t: int)
    ensures ':' in ToHHMM(t) && ToHHMM(t) != ""
  {
    var hh := PadStart2(IntToString(t / 60));
    assert ToHHMM(t)[|hh|] == ':';
  }
}
