/**
 * The few pieces of JavaScript's built-in semantics that the queue server and
 * the display read their inputs with: `String.prototype.trim`, `split(":")`,
 * `Number(...)` on strings and JSON scalars, `String(v || "")`, integer
 * printing and `padStart(2, "0")`.
 *
 * Numbers are integers here: a JavaScript number is either a finite value or
 * NaN, and only the integral finite values are modelled.
 */
module Js {
  import opened Wrappers

  /** A JavaScript number as the core uses it: finite (integral) or NaN. */
  datatype JsNumber = Finite(value: int) | NaN

  /** A JSON scalar as it arrives in a request body or sits in the settings object. */
  datatype Value = Str(s: string) | Int(n: int) | Bool(b: bool) | Null

  // ---------------------------------------------------------------------------
  // Whitespace and trim
  // ---------------------------------------------------------------------------

  /** The white-space and line-terminator characters `trim` and `Number` strip. */
  predicate IsSpace(c: char)
  {
    c == '\U{0009}' || c == '\U{000A}' || c == '\U{000B}' || c == '\U{000C}' || c == '\U{000D}'
    || c == '\U{0020}' || c == '\U{00A0}' || c == '\U{1680}' || ('\U{2000}' <= c <= '\U{200A}')
    || c == '\U{2028}' || c == '\U{2029}' || c == '\U{202F}' || c == '\U{205F}'
    || c == '\U{3000}' || c == '\U{FEFF}'
  }

  function TrimStart(s: string): (r: string)
    ensures |r| <= |s|
    ensures forall i :: 0 <= i < |s| - |r| ==> IsSpace(s[i])
    ensures r == [] || !IsSpace(r[0])
  {
    if s != [] && IsSpace(s[0]) then TrimStart(s[1..]) else s
  }

  function TrimEnd(s: string): (r: string)
    ensures |r| <= |s|
    ensures forall i :: |r| <= i < |s| ==> IsSpace(s[i])
    ensures r == [] || !IsSpace(r[|r| - 1])
  {
    if s != [] && IsSpace(s[|s| - 1]) then TrimEnd(s[..|s| - 1]) else s
  }

  /** `s.trim()`: `s` without its leading and trailing white space. */
  function Trim(s: string): (r: string)
  {
    TrimEnd(TrimStart(s))
  }

  /** A string that neither starts nor ends with white space is its own trim. */
  lemma TrimNoop(s: string)
    requires s == [] || (!IsSpace(s[0]) && !IsSpace(s[|s| - 1]))
    ensures Trim(s) == s
  {
  }

  /** Trimming twice is trimming once. */
  lemma TrimIdempotent(s: string)
    ensures Trim(Trim(s)) == Trim(s)
  {
    var t := Trim(s);
    if t != [] {
      TrimEndKeepsPrefix(TrimStart(s), 0);
    }
    TrimNoop(t);
  }

  /** Trimming at the end keeps every character it does not drop. */
  lemma {:induction false} TrimEndKeepsPrefix(s: string, i: int)
    requires 0 <= i < |TrimEnd(s)|
    ensures TrimEnd(s)[i] == s[i]
  {
    if s != [] && IsSpace(s[|s| - 1]) {
      TrimEndKeepsPrefix(s[..|s| - 1], i);
    }
  }

  predicate AllSpace(s: string)
  {
    forall i :: 0 <= i < |s| ==> IsSpace(s[i])
  }

  lemma {:induction false} TrimStartSkips(pre: string, s: string)
    requires AllSpace(pre)
    ensures TrimStart(pre + s) == TrimStart(s)
  {
    if pre == [] {
      assert pre + s == s;
    } else {
      assert (pre + s)[0] == pre[0];
      assert (pre + s)[1..] == pre[1..] + s;
      TrimStartSkips(pre[1..], s);
    }
  }

  lemma {:induction false} TrimEndSkips(s: string, post: string)
    requires AllSpace(post)
    ensures TrimEnd(s + post) == TrimEnd(s)
  {
    if post == [] {
      assert s + post == s;
    } else {
      var p := post[..|post| - 1];
      assert (s + post)[|s + post| - 1] == post[|post| - 1];
      assert (s + post)[..|s + post| - 1] == s + p;
      TrimEndSkips(s, p);
    }
  }

  /** Trimming at the start moves past trailing white space unchanged, or clears it all. */
  lemma {:induction false} TrimStartAppend(s: string, post: string)
    requires AllSpace(post)
    ensures TrimStart(s + post) == if TrimStart(s) == [] then [] else TrimStart(s) + post
  {
    if s == [] {
      TrimStartSkips(post, []);
      assert post + [] == post && s + post == post;
    } else if IsSpace(s[0]) {
      assert (s + post)[1..] == s[1..] + post;
      TrimStartAppend(s[1..], post);
    } else {
      assert (s + post)[0] == s[0];
    }
  }

  /** White space added around a string does not change its trim. */
  lemma TrimPadded(pre: string, s: string, post: string)
    requires AllSpace(pre) && AllSpace(post)
    ensures Trim(pre + s + post) == Trim(s)
  {
    assert pre + s + post == pre + (s + post);
    TrimStartSkips(pre, s + post);
    TrimStartAppend(s, post);
    if TrimStart(s) != [] {
      TrimEndSkips(TrimStart(s), post);
    }
  }

  // ---------------------------------------------------------------------------
  // split(sep)
  // ---------------------------------------------------------------------------

  /** `s.split(sep)` for a one-character separator: never empty, no part holds `sep`. */
  function Split(s: string, sep: char): (parts: seq<string>)
    ensures |parts| >= 1
    ensures forall p | p in parts :: sep !in p
  {
    if s == [] then [""]
    else
      var rest := Split(s[1..], sep);
      if s[0] == sep then [""] + rest else [[s[0]] + rest[0]] + rest[1..]
  }

  /** `parts.join(sep)`, the inverse of `Split`. */
  function Join(parts: seq<string>, sep: char): string
    requires |parts| >= 1
  {
    if |parts| == 1 then parts[0] else parts[0] + [sep] + Join(parts[1..], sep)
  }

  lemma {:induction false} JoinSplit(s: string, sep: char)
    ensures Join(Split(s, sep), sep) == s
  {
    if s != [] {
      JoinSplit(s[1..], sep);
      var rest := Split(s[1..], sep);
      if s[0] != sep {
        if |rest| == 1 {
          assert Split(s, sep) == [[s[0]] + rest[0]];
        } else {
          var parts := Split(s, sep);
          assert parts[1..] == rest[1..];
        }
      }
    }
  }

  /** Splitting `a + sep + b`, where `a` holds no `sep`, gives `a` and then the parts of `b`. */
  lemma {:induction false} SplitAt(a: string, b: string, sep: char)
    requires sep !in a
    ensures Split(a + [sep] + b, sep) == [a] + Split(b, sep)
  {
    if a == [] {
      assert a + [sep] + b == [sep] + b;
    } else {
      assert (a + [sep] + b)[1..] == a[1..] + [sep] + b;
      SplitAt(a[1..], b, sep);
      assert [a[0]] + a[1..] == a;
    }
  }

  /** A string without `sep` splits into itself alone. */
  lemma {:induction false} SplitNone(s: string, sep: char)
    requires sep !in s
    ensures Split(s, sep) == [s]
  {
    if s != [] {
      SplitNone(s[1..], sep);
      assert [s[0]] + s[1..] == s;
    }
  }

  // ---------------------------------------------------------------------------
  // Decimal digits, integer printing and padStart(2, "0")
  // ---------------------------------------------------------------------------

  predicate IsDigit(c: char)
  {
    '0' <= c <= '9'
  }

  predicate AllDigits(s: string)
  {
    forall i :: 0 <= i < |s| ==> IsDigit(s[i])
  }

  function DigitValue(c: char): nat
    requires IsDigit(c)
  {
    (c - '0') as nat
  }

  function DigitChar(d: nat): (c: char)
    requires d < 10
    ensures IsDigit(c) && DigitValue(c) == d
  {
    ('0' as int + d) as char
  }

  /** The value of a string of decimal digits, most significant first. */
  function DigitsValue(s: string): nat
    requires AllDigits(s)
  {
    if s == [] then 0 else 10 * DigitsValue(s[..|s| - 1]) + DigitValue(s[|s| - 1])
  }

  /** Leading zeros do not change the value. */
  lemma {:induction false} LeadingZero(s: string)
    requires AllDigits(s)
    ensures AllDigits("0" + s) && DigitsValue("0" + s) == DigitsValue(s)
  {
    if s != [] {
      LeadingZero(s[..|s| - 1]);
      assert ("0" + s)[..|s|] == "0" + s[..|s| - 1];
    }
  }

  /** `String(n)` for a non-negative integer: shortest decimal digits. */
  function NatToString(n: nat): (s: string)
    ensures |s| >= 1 && AllDigits(s)
  {
    if n < 10 then [DigitChar(n)] else NatToString(n / 10) + [DigitChar(n % 10)]
  }

  /** `String(n)` for any integer: a minus sign before the digits of a negative one. */
  function IntToString(n: int): string
  {
    if n < 0 then "-" + NatToString(-n) else NatToString(n)
  }

  lemma {:induction false} NatToStringValue(n: nat)
    ensures DigitsValue(NatToString(n)) == n
  {
    if n >= 10 {
      NatToStringValue(n / 10);
      var s := NatToString(n);
      assert s[..|s| - 1] == NatToString(n / 10);
    }
  }

  /** Printing needs fewer than two digits exactly below 10. */
  lemma {:induction false} NatToStringLength(n: nat)
    ensures (|NatToString(n)| == 1) == (n < 10)
    ensures n < 100 ==> |NatToString(n)| <= 2
  {
    if n >= 10 {
      NatToStringLength(n / 10);
    }
  }

  /** `s.padStart(2, "0")`. */
  function PadStart2(s: string): string
  {
    if |s| >= 2 then s else if |s| == 1 then "0" + s else "00"
  }

  /** Zero-padding a printed non-negative integer keeps its value and its digits. */
  lemma PaddedValue(n: nat)
    ensures AllDigits(PadStart2(NatToString(n)))
    ensures |PadStart2(NatToString(n))| >= 2
    ensures DigitsValue(PadStart2(NatToString(n))) == n
  {
    NatToStringValue(n);
    if |NatToString(n)| == 1 {
      LeadingZero(NatToString(n));
    }
  }

  // ---------------------------------------------------------------------------
  // Number(...), truthiness and String(v || "")
  // ---------------------------------------------------------------------------

  /**
   * `Number(s)` on a string: surrounding white space is ignored, the empty
   * string is 0, an optional sign followed by decimal digits is that integer,
   * anything else is NaN.
   */
  function NumberOfString(s: string): (r: JsNumber)
  {
    var t := Trim(s);
    if t == [] then Finite(0)
    else if (t[0] == '-' || t[0] == '+') && |t| >= 2 && AllDigits(t[1..]) then
      Finite(if t[0] == '-' then -(DigitsValue(t[1..]) as int) else DigitsValue(t[1..]))
    else if AllDigits(t) then Finite(DigitsValue(t))
    else NaN
  }

  /** A zero-padded printed non-negative integer reads back as that integer. */
  lemma NumberOfPadded(n: nat)
    ensures NumberOfString(PadStart2(NatToString(n))) == Finite(n)
  {
    PaddedValue(n);
    NumberOfDigits(PadStart2(NatToString(n)));
  }

  /** A non-empty string of decimal digits reads as its value. */
  lemma NumberOfDigits(s: string)
    requires s != [] && AllDigits(s)
    ensures NumberOfString(s) == Finite(DigitsValue(s))
  {
    assert IsDigit(s[0]) && IsDigit(s[|s| - 1]);
    TrimNoop(s);
    assert s[0] != '-' && s[0] != '+';
  }

  /** `Number(v)` for a JSON scalar, where `None` is `undefined`. */
  function ToNumber(v: Option<Value>): JsNumber
  {
    match v
    case None => NaN
    case Some(Str(s)) => NumberOfString(s)
    case Some(Int(n)) => Finite(n)
    case Some(Bool(b)) => Finite(if b then 1 else 0)
    case Some(Null) => Finite(0)
  }

  /** JavaScript truthiness of a JSON scalar or `undefined`. */
  predicate Truthy(v: Option<Value>)
  {
    match v
    case None => false
    case Some(Str(s)) => s != ""
    case Some(Int(n)) => n != 0
    case Some(Bool(b)) => b
    case Some(Null) => false
  }

  /** `String(v || "")`: the text of a truthy value, otherwise the empty string. */
  function StringOrEmpty(v: Option<Value>): (r: string)
    ensures r == "" <==> !Truthy(v)
    ensures v.Some? && v.value.Str? ==> r == v.value.s
  {
    if !Truthy(v) then ""
    else match v.value
      case Str(s) => s
      case Int(n) => IntToString(n)
      case Bool(_) => "true"
      case Null => ""
  }
}
