/**
 * The admin and display front end of src/App.jsx, without React: the helpers
 * the admin screen uses (`toMinutes`, `canSubmit`, the view-settings draft,
 * the manual-time prefill, the brightness clamp, `isHex`) and the data the
 * public view screen derives from the queue, the slots, the taken times,
 * the settings and the current minute of the day, which is a parameter here.
 */
module Display {
  import opened Wrappers
  import opened Js
  import opened Clock
  import opened Queue
  import Slots
  import Server
  import Colorlight

  // ---------------------------------------------------------------------------
  // toMinutes (the client's version)
  // ---------------------------------------------------------------------------

  /** `toMinutes(hhmm)` of the client: `null` unless both fields read as finite numbers. */
  function AppToMinutes(hhmm: string): (r: Option<int>)
    ensures r.Some? <==> ToMinutes(hhmm).Finite?
    ensures r.Some? ==> r.value == ToMinutes(hhmm).value
  {
    var parts := Split(hhmm, ':');
    var h := NumberOfString(parts[0]);
    var m := if |parts| >= 2 then NumberOfString(parts[1]) else NaN;
    if !h.Finite? || !m.Finite? then None else Some(h.value * 60 + m.value)
  }

  /** The client reads back every time the server prints. */
  lemma AppReadsServerTimes(m: nat)
    ensures AppToMinutes(ToHHMM(m)) == Some(m)
  {
    RoundTrip(m);
  }

  // ---------------------------------------------------------------------------
  // canSubmit and the booking it sends
  // ---------------------------------------------------------------------------

  const ManualMode: string := "manual"
  const AutoMode: string := "auto"

  /** Whether the admin form may be sent: a name, and in manual mode a chosen time. */
  function CanSubmit(name: string, mode: string, manualTime: string): (ok: bool)
    ensures Trim(name) == "" ==> !ok
    ensures Trim(name) != "" && mode != ManualMode ==> ok
    ensures Trim(name) != "" && mode == ManualMode ==> (ok <==> manualTime != "")
  {
    if Trim(name) == "" then false
    else if mode == ManualMode then manualTime != ""
    else true
  }

  /** The body `addPerson` posts: the trimmed name, and the time only in manual mode. */
  function Payload(name: string, mode: string, manualTime: string): Server.Booking
  {
    if mode == ManualMode then Server.Booking(Some(Str(Trim(name))), Some(Str(ManualMode)), Some(Str(manualTime)))
    else Server.Booking(Some(Str(Trim(name))), Some(Str(AutoMode)), None)
  }

  /**
   * A form the client lets through passes the server's presence checks: the
   * server never answers "Name is required." and, when the chosen time is
   * not blank, never "Time is required for manual mode".
   */
  lemma SubmittedFormHasNameAndTime(name: string, mode: string, manualTime: string,
                                    queue: seq<Entry>, settings: map<string, Value>, id: string, createdAt: int)
    requires CanSubmit(name, mode, manualTime)
    requires mode == ManualMode ==> Trim(manualTime) != ""
    requires Slots.SettingsHalt(settings)
    ensures var r := Server.Admit(queue, settings, Payload(name, mode, manualTime), id, createdAt);
      r != Server.Validation(Server.NameRequired) && r != Server.Validation(Server.TimeRequired)
  {
    var req := Payload(name, mode, manualTime);
    PayloadPresent(name, mode, manualTime);
    if Server.Admit(queue, settings, req, id, createdAt) == Server.Validation(Server.TimeRequired) {
      Server.TimeRequiredOnlyManual(queue, settings, req, id, createdAt);
    }
  }

  /** The payload of a form `canSubmit` lets through carries a name, and a time in manual mode. */
  lemma PayloadPresent(name: string, mode: string, manualTime: string)
    requires CanSubmit(name, mode, manualTime)
    requires mode == ManualMode ==> Trim(manualTime) != ""
    ensures var req := Payload(name, mode, manualTime);
      && Trim(StringOrEmpty(req.name)) != ""
      && (Server.ModeOf(req.mode) == Manual ==> Trim(StringOrEmpty(req.time)) != "")
  {
    TrimIdempotent(name);
    var req := Payload(name, mode, manualTime);
    assert StringOrEmpty(req.name) == Trim(name);
    assert Server.ModeOf(req.mode) == Manual ==> mode == ManualMode && StringOrEmpty(req.time) == manualTime;
  }

  // ---------------------------------------------------------------------------
  // mergeViewDraftFromSettings
  // ---------------------------------------------------------------------------

  /** `defaultView`: the view draft before any settings arrive. */
  const DefaultView: map<string, Value> := map[
    "viewAlign" := Str("center"),
    "viewJustify" := Str("center"),
    "viewSize" := Str("6xl"),
    "viewSpacing" := Str("4"),
    "viewShowCount" := Int(3),
    "viewNamePx" := Int(72),
    "viewSafeBottomPx" := Int(240),
    "viewShowAvailable" := Bool(true),
    "viewFontFamily" := Str("DM Sans"),
    "viewFontColor" := Str("#ffffff"),
    "viewBgImageUrl" := Str("")
  ]

  /** The draft for server settings `s` over `defaults`: each default key takes the server's value when `s` has one. */
  function DraftOf(defaults: map<string, Value>, s: map<string, Value>): map<string, Value>
  {
    map k | k in defaults :: if k in s then s[k] else defaults[k]
  }

  function ViewDraftOf(s: map<string, Value>): map<string, Value>
  {
    DraftOf(DefaultView, s)
  }

  /**
   * `mergeViewDraftFromSettings(s)`, called with `defaults` = `DefaultView`:
   * the draft it stores, built key by key over the keys of the defaults.
   */
  method MergeViewDraft(defaults: map<string, Value>, s: map<string, Value>) returns (next: map<string, Value>)
    ensures next == DraftOf(defaults, s)
  {
    next := defaults;
    var keys := defaults.Keys;
    while keys != {}
      invariant keys <= defaults.Keys
      invariant next.Keys == defaults.Keys
      invariant forall k :: k in next ==> next[k] == if k !in keys && k in s then s[k] else defaults[k]
      decreases |keys|
    {
      var k :| k in keys;
      if k in s {
        next := next[k := s[k]];
      }
      keys := keys - {k};
    }
  }

  /**
   * The draft has exactly the default keys; each holds the server's value when
   * there is one and the default otherwise, so keys outside `defaultView`
   * never reach it.
   */
  lemma ViewDraftShape(s: map<string, Value>, extra: string, v: Value)
    requires extra !in DefaultView
    ensures ViewDraftOf(s).Keys == DefaultView.Keys
    ensures forall k :: k in DefaultView && k in s ==> ViewDraftOf(s)[k] == s[k]
    ensures forall k :: k in DefaultView && k !in s ==> ViewDraftOf(s)[k] == DefaultView[k]
    ensures ViewDraftOf(s[extra := v]) == ViewDraftOf(s)
    ensures ViewDraftOf(map[]) == DefaultView
  {
  }

  /** Merging a draft back into itself changes nothing. */
  lemma ViewDraftIdempotent(s: map<string, Value>)
    ensures ViewDraftOf(ViewDraftOf(s)) == ViewDraftOf(s)
  {
  }

  // ---------------------------------------------------------------------------
  // The manual-time prefill
  // ---------------------------------------------------------------------------

  ghost predicate FirstUntaken(slots: seq<string>, taken: seq<string>, k: int)
  {
    0 <= k < |slots| && slots[k] !in taken && forall j :: 0 <= j < k ==> slots[j] in taken
  }

  /**
   * The manual time after a refresh: an empty one is filled with the first
   * slot not in `taken`, when there is such a slot and it is not empty; a
   * chosen one is kept.
   */
  function Prefill(manualTime: string, slots: seq<string>, taken: seq<string>): (r: string)
    ensures manualTime != "" ==> r == manualTime
    ensures r != manualTime ==> r != "" && exists k :: FirstUntaken(slots, taken, k) && r == slots[k]
    ensures manualTime == "" && (exists k :: FirstUntaken(slots, taken, k) && slots[k] != "") ==> r != ""
  {
    if manualTime == "" && |slots| > 0 then
      match Server.FindFree(slots, set t | t in taken)
      case None => manualTime
      case Some(i) =>
        assert FirstUntaken(slots, taken, i);
        if slots[i] != "" then slots[i] else manualTime
    else manualTime
  }

  // ---------------------------------------------------------------------------
  // The brightness clamp and isHex
  // ---------------------------------------------------------------------------

  /** `Math.max(0, Math.min(100, Number(value)))`; NaN passes through both. */
  function ClampBrightness(v: JsNumber): (r: JsNumber)
    ensures r.Finite? <==> v.Finite?
    ensures r.Finite? ==> 0 <= r.value <= 100
    ensures v.Finite? && 0 <= v.value <= 100 ==> r == v
    ensures v.Finite? && v.value < 0 ==> r == Finite(0)
    ensures v.Finite? && v.value > 100 ==> r == Finite(100)
  {
    match v
    case NaN => NaN
    case Finite(x) => Finite(if x > 100 then 100 else if x < 0 then 0 else x)
  }

  /**
   * A clamped slider value is always one the switcher's brightness handler
   * turns into a frame, for an admitted client.
   */
  lemma ClampedBrightnessIsSent(allowedIp: string, v: int)
    ensures var b := ClampBrightness(Finite(v)).value;
      Colorlight.OnBrightness(allowedIp, Some(allowedIp), [b]).Some?
      && Colorlight.Decode(Colorlight.OnBrightness(allowedIp, Some(allowedIp), [b]).value)
         == Some(Colorlight.Brightness(Colorlight.NormalisedBrightness(b), true))
  {
  }

  /**
   * The slider's value 1 is a percentage to the client but a fraction to the
   * switcher: it reaches the processor as full brightness.
   */
  lemma SliderOneIsFullBrightness(allowedIp: string)
    ensures ClampBrightness(Finite(1)) == Finite(1)
    ensures Colorlight.OnBrightness(allowedIp, Some(allowedIp), [1]).Some?
    ensures Colorlight.Decode(Colorlight.OnBrightness(allowedIp, Some(allowedIp), [1]).value)
      == Some(Colorlight.Brightness(100, true))
  {
    ClampedBrightnessIsSent(allowedIp, 1);
  }

  predicate IsHexDigit(c: char)
  {
    ('0' <= c <= '9') || ('a' <= c <= 'f') || ('A' <= c <= 'F')
  }

  /** `isHex(v)`: a string whose trim is `#` and exactly six hexadecimal digits. */
  predicate IsHex(v: Value)
  {
    v.Str? && var t := Trim(v.s);
    |t| == 7 && t[0] == '#' && forall i :: 1 <= i < 7 ==> IsHexDigit(t[i])
  }

  /** White space around a colour does not change whether it is accepted. */
  lemma IsHexPadded(pre: string, s: string, post: string)
    requires AllSpace(pre) && AllSpace(post)
    ensures IsHex(Str(pre + s + post)) == IsHex(Str(s))
  {
    TrimPadded(pre, s, post);
  }

  /** Every seven-character string `#rrggbb` is accepted as written. */
  lemma IsHexExactly(s: string)
    requires |s| == 7 && s[0] == '#' && forall i :: 1 <= i < 7 ==> IsHexDigit(s[i])
    ensures IsHex(Str(s))
  {
    HexDigitNotSpace(s[6]);
    TrimNoop(s);
    var t := Trim(s);
    assert t == s;
    assert |t| == 7 && t[0] == '#';
    assert forall i :: 1 <= i < 7 ==> IsHexDigit(t[i]);
  }

  lemma HexDigitNotSpace(c: char)
    requires IsHexDigit(c)
    ensures !IsSpace(c)
  {
  }

  // ---------------------------------------------------------------------------
  // The view screen: next up and the remaining queue
  // ---------------------------------------------------------------------------

  /** An entry still to come: no finite slot minute, or one at or after `now`. */
  predicate IsUpcoming(e: Entry, now: int)
  {
    !e.slotMinutes.Finite? || e.slotMinutes.value >= now
  }

  /** `queue.findIndex(...)`: the first upcoming entry. */
  function NextUpIndex(queue: seq<Entry>, now: int): (r: Option<nat>)
    ensures r.Some? ==> r.value < |queue| && IsUpcoming(queue[r.value], now)
    ensures r.Some? ==> forall j :: 0 <= j < r.value ==> !IsUpcoming(queue[j], now)
    ensures r.None? ==> forall j :: 0 <= j < |queue| ==> !IsUpcoming(queue[j], now)
  {
    if queue == [] then None
    else if IsUpcoming(queue[0], now) then Some(0)
    else
      match NextUpIndex(queue[1..], now)
      case None => None
      case Some(i) => Some(i + 1)
  }

  function NextUp(queue: seq<Entry>, now: int): Option<Entry>
  {
    match NextUpIndex(queue, now)
    case None => None
    case Some(i) => Some(queue[i])
  }

  /** The queue without the next-up entry, in queue order; putting it back restores the queue. */
  function RemainingQueue(queue: seq<Entry>, now: int): (rest: seq<Entry>)
    ensures NextUpIndex(queue, now).None? ==> rest == queue
    ensures NextUpIndex(queue, now).Some? ==>
      var i := NextUpIndex(queue, now).value;
      |rest| + 1 == |queue| && queue == rest[..i] + [queue[i]] + rest[i..]
  {
    match NextUpIndex(queue, now)
    case None => queue
    case Some(i) =>
      var rest := queue[..i] + queue[i + 1..];
      assert rest[..i] == queue[..i] && rest[i..] == queue[i + 1..];
      assert queue == queue[..i] + [queue[i]] + queue[i + 1..];
      rest
  }

  /** `filter` of the upcoming entries, in order. */
  function Upcoming(list: seq<Entry>, now: int): (r: seq<Entry>)
    ensures forall e :: e in r <==> e in list && IsUpcoming(e, now)
  {
    if list == [] then []
    else
      assert forall e :: e in list <==> e == list[0] || e in list[1..];
      (if IsUpcoming(list[0], now) then [list[0]] else []) + Upcoming(list[1..], now)
  }

  lemma {:induction false} UpcomingAppend(a: seq<Entry>, b: seq<Entry>, now: int)
    ensures Upcoming(a + b, now) == Upcoming(a, now) + Upcoming(b, now)
  {
    if a == [] {
      assert a + b == b;
    } else {
      assert (a + b)[0] == a[0];
      assert (a + b)[1..] == a[1..] + b;
      UpcomingAppend(a[1..], b, now);
    }
  }

  /** `futureBooked`: the upcoming entries of the remaining queue. */
  function FutureBooked(queue: seq<Entry>, now: int): seq<Entry>
  {
    Upcoming(RemainingQueue(queue, now), now)
  }

  lemma NoneUpcoming(list: seq<Entry>, now: int)
    requires forall j :: 0 <= j < |list| ==> !IsUpcoming(list[j], now)
    ensures Upcoming(list, now) == []
  {
    if Upcoming(list, now) != [] {
      assert Upcoming(list, now)[0] in Upcoming(list, now);
    }
  }

  /**
   * The next-up entry is the first upcoming entry of the queue, and the
   * future bookings are the upcoming entries after it, in order.
   */
  lemma NextUpThenFuture(queue: seq<Entry>, now: int)
    ensures NextUp(queue, now).None? ==> Upcoming(queue, now) == [] && FutureBooked(queue, now) == []
    ensures NextUp(queue, now).Some? ==> Upcoming(queue, now) == [NextUp(queue, now).value] + FutureBooked(queue, now)
  {
    match NextUpIndex(queue, now)
    case None =>
      NoneUpcoming(queue, now);
    case Some(i) =>
      FutureAfter(queue, now, i);
  }

  lemma FutureAfter(queue: seq<Entry>, now: int, i: nat)
    requires NextUpIndex(queue, now) == Some(i)
    ensures Upcoming(queue, now) == [queue[i]] + Upcoming(RemainingQueue(queue, now), now)
  {
    var before := queue[..i];
    var after := queue[i + 1..];
    assert queue == before + [queue[i]] + after;
    assert RemainingQueue(queue, now) == before + after;
    UpcomingSkip(before, queue[i], after, now);
  }

  /** Entries before the first upcoming one contribute nothing to the filter. */
  lemma UpcomingSkip(before: seq<Entry>, x: Entry, after: seq<Entry>, now: int)
    requires forall j :: 0 <= j < |before| ==> !IsUpcoming(before[j], now)
    requires IsUpcoming(x, now)
    ensures Upcoming(before + [x] + after, now) == [x] + Upcoming(before + after, now)
  {
    var xa := [x] + after;
    assert before + [x] + after == before + xa;
    UpcomingAppend(before, xa, now);
    UpcomingAppend(before, after, now);
    NoneUpcoming(before, now);
    UpcomingCons(x, after, now);
    assert Upcoming(before + xa, now) == Upcoming(xa, now);
    assert Upcoming(before + after, now) == Upcoming(after, now);
  }

  lemma UpcomingCons(x: Entry, after: seq<Entry>, now: int)
    requires IsUpcoming(x, now)
    ensures Upcoming([x] + after, now) == [x] + Upcoming(after, now)
  {
    assert ([x] + after)[0] == x;
    assert ([x] + after)[1..] == after;
  }

  // ---------------------------------------------------------------------------
  // The view screen: available times and the booked-by-time grouping
  // ---------------------------------------------------------------------------

  /**
   * The view derivation below reads slot times with `minutesOf`, which the
   * display instantiates with `AppToMinutes`; its properties hold for any
   * reader.
   */
  type MinuteReader = string -> Option<int>

  /** A slot shown as open: not taken, and at or after `now` by the reader. */
  predicate IsOpenSlot(t: string, taken: set<string>, now: int, minutesOf: MinuteReader)
  {
    t !in taken && minutesOf(t).Some? && minutesOf(t).value >= now
  }

  /** `availableTimes`: the open slots, in slot order. */
  function AvailableTimes(slots: seq<string>, taken: set<string>, now: int, minutesOf: MinuteReader): (r: seq<string>)
    ensures |r| <= |slots|
    ensures forall t :: t in r <==> t in slots && IsOpenSlot(t, taken, now, minutesOf)
  {
    if slots == [] then []
    else
      assert forall t :: t in slots <==> t == slots[0] || t in slots[1..];
      (if IsOpenSlot(slots[0], taken, now, minutesOf) then [slots[0]] else []) + AvailableTimes(slots[1..], taken, now, minutesOf)
  }

  /** The entries of `list` booked at `t`, in order. */
  function BookedAt(list: seq<Entry>, t: string): (r: seq<Entry>)
    ensures forall e :: e in r <==> e in list && e.slot.time == t
  {
    if list == [] then []
    else
      var init := list[..|list| - 1];
      var last := list[|list| - 1];
      assert list == init + [last];
      BookedAt(init, t) + (if last.slot.time == t then [last] else [])
  }

  /** `bookedByTime` as the grouping it builds: each non-empty slot time held, to its entries. */
  function Grouped(list: seq<Entry>): map<string, seq<Entry>>
  {
    map t | t in TakenTimes(list) :: BookedAt(list, t)
  }

  /** The times held after adding one entry at the end. */
  lemma TakenStep(list: seq<Entry>, q: Entry)
    ensures TakenTimes(list + [q]) == TakenTimes(list) + (if q.slot.time == "" then {} else {q.slot.time})
  {
    var l := list + [q];
    forall s | s in TakenTimes(l)
      ensures s in TakenTimes(list) || s == q.slot.time
    {
      var i :| 0 <= i < |l| && l[i].slot.time == s;
      if i < |list| {
        assert list[i] == l[i];
      }
    }
    forall s | s in TakenTimes(list)
      ensures s in TakenTimes(l)
    {
      var i :| 0 <= i < |list| && list[i].slot.time == s;
      assert l[i] == list[i];
    }
    if q.slot.time != "" {
      assert l[|list|] == q;
    }
  }

  /** An entry with no booking at `t` before it has none in `BookedAt`. */
  lemma BookedAtAbsent(list: seq<Entry>, t: string)
    requires t != "" && t !in TakenTimes(list)
    ensures BookedAt(list, t) == []
  {
  }

  /** Adding one entry at the end adds it to the entries of its own time only. */
  lemma BookedAtStep(list: seq<Entry>, q: Entry, s: string)
    ensures BookedAt(list + [q], s) == BookedAt(list, s) + (if q.slot.time == s then [q] else [])
  {
    assert (list + [q])[..|list + [q]| - 1] == list;
  }

  lemma MapExtensional(a: map<string, seq<Entry>>, b: map<string, seq<Entry>>)
    requires a.Keys == b.Keys
    requires forall k :: k in a ==> a[k] == b[k]
    ensures a == b
  {
  }

  /** `m` groups `list`: its keys are the non-empty times held, each with its entries in order. */
  ghost predicate GroupsOf(m: map<string, seq<Entry>>, list: seq<Entry>)
  {
    m.Keys == TakenTimes(list) && forall s :: s in m ==> m[s] == BookedAt(list, s)
  }

  /** Pushing one more entry under its time (when it has one) keeps the grouping exact. */
  lemma GroupsStep(m: map<string, seq<Entry>>, list: seq<Entry>, q: Entry)
    requires GroupsOf(m, list)
    ensures var t := q.slot.time;
      GroupsOf(if t == "" then m else m[t := (if t in m then m[t] else []) + [q]], list + [q])
  {
    var t := q.slot.time;
    var m' := if t == "" then m else m[t := (if t in m then m[t] else []) + [q]];
    GroupsKeysStep(m, list, q);
    forall s | s in m'
      ensures m'[s] == BookedAt(list + [q], s)
    {
      GroupsStepAt(m, list, q, s);
    }
  }

  lemma GroupsKeysStep(m: map<string, seq<Entry>>, list: seq<Entry>, q: Entry)
    requires m.Keys == TakenTimes(list)
    ensures var t := q.slot.time;
      (if t == "" then m else m[t := (if t in m then m[t] else []) + [q]]).Keys == TakenTimes(list + [q])
  {
    TakenStep(list, q);
  }

  lemma GroupsStepAt(m: map<string, seq<Entry>>, list: seq<Entry>, q: Entry, s: string)
    requires GroupsOf(m, list)
    requires s in m || s == q.slot.time != ""
    ensures BookedAt(list + [q], s) == (if s in m then m[s] else []) + (if q.slot.time == s then [q] else [])
  {
    BookedAtStep(list, q, s);
    if s !in m {
      BookedAtAbsent(list, s);
    }
  }

  /** The for loop that fills `bookedByTime`. */
  method GroupByTime(futureBooked: seq<Entry>) returns (byTime: map<string, seq<Entry>>)
    ensures byTime == Grouped(futureBooked)
  {
    byTime := map[];
    var i := 0;
    while i < |futureBooked|
      invariant 0 <= i <= |futureBooked|
      invariant GroupsOf(byTime, futureBooked[..i])
    {
      var q := futureBooked[i];
      var t := q.slot.time;
      GroupsStep(byTime, futureBooked[..i], q);
      assert futureBooked[..i + 1] == futureBooked[..i] + [q];
      if t != "" {
        // `if (!bookedByTime.has(t)) bookedByTime.set(t, [])` and then the push
        var atTime := if t in byTime then byTime[t] else [];
        byTime := byTime[t := atTime + [q]];
      }
      i := i + 1;
    }
    assert futureBooked[..i] == futureBooked;
    MapExtensional(byTime, Grouped(futureBooked));
  }

  /** Every grouped entry sits under its own non-empty time, and every entry with a time is grouped. */
  lemma GroupedContents(list: seq<Entry>, t: string, e: Entry)
    ensures t in Grouped(list) && e in Grouped(list)[t] <==> e in list && e.slot.time == t && t != ""
  {
    if e in list && e.slot.time == t && t != "" {
      var i :| 0 <= i < |list| && list[i] == e;
      assert t in TakenTimes(list);
    }
  }

  // ---------------------------------------------------------------------------
  // The view screen: rows
  // ---------------------------------------------------------------------------

  /** One line of the public table. */
  datatype Row = Row(id: string, name: string, time: string, available: bool)

  const AvailableLabel: string := "Available"
  const NoTime: string := "--:--"

  function BookedRow(q: Entry): Row
  {
    Row(q.id, q.name, if q.slot.time != "" then q.slot.time else NoTime, false)
  }

  function AvailableRow(t: string): Row
  {
    Row("available-" + t, AvailableLabel, t, true)
  }

  /** The rows of the entries booked at one time, in their order. */
  function BookedRows(booked: seq<Entry>): (rows: seq<Row>)
    ensures |rows| == |booked|
    ensures forall k :: 0 <= k < |booked| ==> rows[k] == BookedRow(booked[k])
  {
    if booked == [] then [] else BookedRows(booked[..|booked| - 1]) + [BookedRow(booked[|booked| - 1])]
  }

  lemma BookedRowsStep(booked: seq<Entry>, j: nat)
    requires j < |booked|
    ensures BookedRows(booked[..j + 1]) == BookedRows(booked[..j]) + [BookedRow(booked[j])]
  {
    assert booked[..j + 1][..j] == booked[..j];
  }

  /**
   * The rows one slot contributes: none before `now` or for an unreadable
   * time; otherwise its bookings, or else an "Available" row when those are
   * shown and the slot is one of the available times.
   */
  function SlotRows(t: string, booked: map<string, seq<Entry>>, available: seq<string>, showAvailable: bool, now: int, minutesOf: MinuteReader): seq<Row>
  {
    var mins := minutesOf(t);
    if mins.None? || mins.value < now then []
    else
      var atTime := if t in booked then booked[t] else [];
      if |atTime| > 0 then BookedRows(atTime)
      else if showAvailable && t in available then [AvailableRow(t)]
      else []
  }

  /** `allRows`: the rows of every slot, in slot order. */
  function Rows(slots: seq<string>, booked: map<string, seq<Entry>>, available: seq<string>, showAvailable: bool, now: int, minutesOf: MinuteReader): seq<Row>
  {
    if slots == [] then []
    else Rows(slots[..|slots| - 1], booked, available, showAvailable, now, minutesOf)
         + SlotRows(slots[|slots| - 1], booked, available, showAvailable, now, minutesOf)
  }

  lemma RowsStep(slots: seq<string>, i: nat, booked: map<string, seq<Entry>>, available: seq<string>, showAvailable: bool, now: int, minutesOf: MinuteReader)
    requires i < |slots|
    ensures Rows(slots[..i + 1], booked, available, showAvailable, now, minutesOf)
         == Rows(slots[..i], booked, available, showAvailable, now, minutesOf) + SlotRows(slots[i], booked, available, showAvailable, now, minutesOf)
  {
    assert slots[..i + 1][..i] == slots[..i];
  }

  /** The nested loops that fill `allRows`. */
  method BuildRows(slots: seq<string>, booked: map<string, seq<Entry>>, available: seq<string>, showAvailable: bool, now: int, minutesOf: MinuteReader)
    returns (rows: seq<Row>)
    ensures rows == Rows(slots, booked, available, showAvailable, now, minutesOf)
  {
    rows := [];
    var i := 0;
    while i < |slots|
      invariant 0 <= i <= |slots|
      invariant rows == Rows(slots[..i], booked, available, showAvailable, now, minutesOf)
    {
      var t := slots[i];
      RowsStep(slots, i, booked, available, showAvailable, now, minutesOf);
      var mins := minutesOf(t);
      if mins.Some? && mins.value >= now {
        var bookedAtTime := if t in booked then booked[t] else [];
        if |bookedAtTime| > 0 {
          ghost var before := rows;
          var j := 0;
          while j < |bookedAtTime|
            invariant 0 <= j <= |bookedAtTime|
            invariant rows == before + BookedRows(bookedAtTime[..j])
          {
            BookedRowsStep(bookedAtTime, j);
            AppendAssoc(before, BookedRows(bookedAtTime[..j]), BookedRow(bookedAtTime[j]));
            rows := rows + [BookedRow(bookedAtTime[j])];
            j := j + 1;
          }
          assert bookedAtTime[..j] == bookedAtTime;
        } else if showAvailable && t in available {
          rows := rows + [AvailableRow(t)];
        }
      }
      i := i + 1;
    }
    assert slots[..i] == slots;
  }

  lemma AppendAssoc(a: seq<Row>, b: seq<Row>, r: Row)
    ensures (a + b) + [r] == a + (b + [r])
  {
  }

  /** A row is in `Rows` exactly when some slot contributes it. */
  lemma {:induction false} RowsElement(slots: seq<string>, booked: map<string, seq<Entry>>, available: seq<string>,
                                       showAvailable: bool, now: int, minutesOf: MinuteReader, r: Row)
    ensures r in Rows(slots, booked, available, showAvailable, now, minutesOf)
      <==> exists k :: 0 <= k < |slots| && r in SlotRows(slots[k], booked, available, showAvailable, now, minutesOf)
  {
    if slots != [] {
      var init := slots[..|slots| - 1];
      RowsElement(init, booked, available, showAvailable, now, minutesOf, r);
      if r in Rows(slots, booked, available, showAvailable, now, minutesOf) {
        if r in Rows(init, booked, available, showAvailable, now, minutesOf) {
          var k :| 0 <= k < |init| && r in SlotRows(init[k], booked, available, showAvailable, now, minutesOf);
          assert slots[k] == init[k];
        }
      } else {
        forall k | 0 <= k < |slots|
          ensures r !in SlotRows(slots[k], booked, available, showAvailable, now, minutesOf)
        {
          if k < |init| {
            assert slots[k] == init[k];
          }
        }
      }
    }
  }

  /** `allRows` for the whole view: the grouping of the future bookings and the available times. */
  function AllRows(queue: seq<Entry>, slots: seq<string>, taken: set<string>, now: int, showAvailable: bool,
                   minutesOf: MinuteReader): seq<Row>
  {
    Rows(slots, Grouped(FutureBooked(queue, now)), AvailableTimes(slots, taken, now, minutesOf), showAvailable, now, minutesOf)
  }

  /** A booked row of one slot shows an entry of `future` held at that slot. */
  lemma SlotRowBooked(t: string, future: seq<Entry>, available: seq<string>, showAvailable: bool, now: int,
                      minutesOf: MinuteReader, r: Row) returns (e: Entry)
    requires r in SlotRows(t, Grouped(future), available, showAvailable, now, minutesOf) && !r.available
    ensures e in future && e.slot.time == t && r == BookedRow(e)
    ensures minutesOf(t).Some? && minutesOf(t).value >= now
  {
    var g := Grouped(future);
    assert t in g && r in BookedRows(g[t]);
    var j :| 0 <= j < |g[t]| && r == BookedRows(g[t])[j];
    e := g[t][j];
    GroupedContents(future, t, e);
  }

  /** An available row of one slot is that slot, shown, available and held by no entry of `future`. */
  lemma SlotRowAvailable(t: string, future: seq<Entry>, available: seq<string>, showAvailable: bool, now: int,
                         minutesOf: MinuteReader, r: Row)
    requires minutesOf("").None?
    requires r in SlotRows(t, Grouped(future), available, showAvailable, now, minutesOf) && r.available
    ensures showAvailable && r == AvailableRow(t) && t in available
    ensures forall e :: e in future ==> e.slot.time != t
  {
    forall e | e in future
      ensures e.slot.time != t
    {
      GroupedContents(future, t, e);
    }
  }

  /**
   * Every booked row shows an upcoming entry of the remaining queue (its id,
   * name and time) whose time is a slot at or after `now`.
   */
  lemma BookedRowsSound(queue: seq<Entry>, slots: seq<string>, taken: set<string>, now: int, showAvailable: bool,
                        minutesOf: MinuteReader, r: Row)
    requires r in AllRows(queue, slots, taken, now, showAvailable, minutesOf) && !r.available
    ensures exists e :: && e in RemainingQueue(queue, now) && IsUpcoming(e, now) && r == BookedRow(e)
                        && e.slot.time in slots && minutesOf(e.slot.time).Some?
                        && minutesOf(e.slot.time).value >= now
  {
    var future := FutureBooked(queue, now);
    var available := AvailableTimes(slots, taken, now, minutesOf);
    RowsElement(slots, Grouped(future), available, showAvailable, now, minutesOf, r);
    var k :| 0 <= k < |slots| && r in SlotRows(slots[k], Grouped(future), available, showAvailable, now, minutesOf);
    var e := SlotRowBooked(slots[k], future, available, showAvailable, now, minutesOf, r);
    assert e in RemainingQueue(queue, now) && IsUpcoming(e, now);
  }

  /**
   * Every available row is a slot at or after `now` that is not taken and
   * has no upcoming booking in the remaining queue, shown because available
   * slots are on (for a reader that does not read the empty string).
   */
  lemma AvailableRowsSound(queue: seq<Entry>, slots: seq<string>, taken: set<string>, now: int, showAvailable: bool,
                           minutesOf: MinuteReader, r: Row)
    requires minutesOf("").None?
    requires r in AllRows(queue, slots, taken, now, showAvailable, minutesOf) && r.available
    ensures showAvailable && r == AvailableRow(r.time) && r.name == AvailableLabel
    ensures r.time in slots && IsOpenSlot(r.time, taken, now, minutesOf)
    ensures forall e :: e in RemainingQueue(queue, now) && IsUpcoming(e, now) ==> e.slot.time != r.time
  {
    var future := FutureBooked(queue, now);
    var available := AvailableTimes(slots, taken, now, minutesOf);
    RowsElement(slots, Grouped(future), available, showAvailable, now, minutesOf, r);
    var k :| 0 <= k < |slots| && r in SlotRows(slots[k], Grouped(future), available, showAvailable, now, minutesOf);
    SlotRowAvailable(slots[k], future, available, showAvailable, now, minutesOf, r);
  }

  /**
   * Every upcoming entry of the remaining queue booked at a slot at or after
   * `now` has its row, for a reader that does not read the empty string.
   */
  lemma BookedRowsComplete(queue: seq<Entry>, slots: seq<string>, taken: set<string>, now: int, showAvailable: bool,
                           minutesOf: MinuteReader, e: Entry, k: nat)
    requires minutesOf("").None?
    requires e in RemainingQueue(queue, now) && IsUpcoming(e, now)
    requires k < |slots| && e.slot.time == slots[k]
    requires minutesOf(slots[k]).Some? && minutesOf(slots[k]).value >= now
    ensures BookedRow(e) in AllRows(queue, slots, taken, now, showAvailable, minutesOf)
  {
    var future := FutureBooked(queue, now);
    var available := AvailableTimes(slots, taken, now, minutesOf);
    SlotRowHasBooked(slots[k], future, available, showAvailable, now, minutesOf, e);
    RowsElement(slots, Grouped(future), available, showAvailable, now, minutesOf, BookedRow(e));
  }

  /** An entry of `future` held at a readable slot at or after `now` has its row among that slot's rows. */
  lemma SlotRowHasBooked(t: string, future: seq<Entry>, available: seq<string>, showAvailable: bool, now: int,
                         minutesOf: MinuteReader, e: Entry)
    requires t != "" && e in future && e.slot.time == t
    requires minutesOf(t).Some? && minutesOf(t).value >= now
    ensures BookedRow(e) in SlotRows(t, Grouped(future), available, showAvailable, now, minutesOf)
  {
    var g := Grouped(future);
    GroupedContents(future, t, e);
    var j :| 0 <= j < |g[t]| && g[t][j] == e;
    assert BookedRows(g[t])[j] == BookedRow(e);
  }

  /** The client's `toMinutes` reads nothing from the empty string. */
  lemma EmptyTimeUnread()
    ensures AppToMinutes("") == None
  {
    assert Split("", ':') == [""];
  }

  /**
   * With available slots shown, every open slot that no upcoming entry of
   * the remaining queue holds gets its "Available" row.
   */
  lemma AvailableRowsComplete(queue: seq<Entry>, slots: seq<string>, taken: set<string>, now: int,
                              minutesOf: MinuteReader, k: nat)
    requires k < |slots| && IsOpenSlot(slots[k], taken, now, minutesOf)
    requires forall e :: e in RemainingQueue(queue, now) && IsUpcoming(e, now) ==> e.slot.time != slots[k]
    ensures AvailableRow(slots[k]) in AllRows(queue, slots, taken, now, true, minutesOf)
  {
    var future := FutureBooked(queue, now);
    var available := AvailableTimes(slots, taken, now, minutesOf);
    var t := slots[k];
    SlotRowHasAvailable(t, future, available, now, minutesOf);
    RowsElement(slots, Grouped(future), available, true, now, minutesOf, AvailableRow(t));
  }

  /** An available slot at or after `now` that no entry of `future` holds has its "Available" row. */
  lemma SlotRowHasAvailable(t: string, future: seq<Entry>, available: seq<string>, now: int, minutesOf: MinuteReader)
    requires t in available && minutesOf(t).Some? && minutesOf(t).value >= now
    requires forall e :: e in future ==> e.slot.time != t
    ensures AvailableRow(t) in SlotRows(t, Grouped(future), available, true, now, minutesOf)
  {
    BookedAtNone(future, t);
  }

  /** No entry booked at `t` means nothing grouped under it. */
  lemma {:induction false} BookedAtNone(list: seq<Entry>, t: string)
    requires forall e :: e in list ==> e.slot.time != t
    ensures BookedAt(list, t) == []
  {
    if list != [] {
      var init := list[..|list| - 1];
      assert forall e :: e in init ==> e in list;
      BookedAtNone(init, t);
      assert list[|list| - 1] in list;
    }
  }

  // ---------------------------------------------------------------------------
  // The view screen: shown rows and the "+N more" count
  // ---------------------------------------------------------------------------

  /** Where `list.slice(0, n)` stops, for a list of length `len`. */
  function SliceEnd(len: nat, n: JsNumber): (end: nat)
    ensures end <= len
    ensures n.NaN? ==> end == 0
    ensures n.Finite? && n.value >= 0 ==> end == if n.value < len then n.value else len
    ensures n.Finite? && n.value < 0 ==> end == if len + n.value > 0 then len + n.value else 0
  {
    match n
    case NaN => 0
    case Finite(x) =>
      if x >= 0 then (if x < len then x else len)
      else if len + x > 0 then len + x else 0
  }

  /** `showCount`: `Number(s.viewShowCount || 3)`. */
  function ShowCount(v: Option<Value>): (n: JsNumber)
    ensures !Truthy(v) ==> n == Finite(3)
    ensures v.Some? && v.value.Int? && v.value.n != 0 ==> n == Finite(v.value.n)
    ensures v.Some? && v.value.Str? && v.value.s != "" ==> n == NumberOfString(v.value.s)
    ensures v == Some(Bool(true)) ==> n == Finite(1)
  {
    ToNumber(if Truthy(v) then v else Some(Int(3)))
  }

  /** `showAvailable`: `s.viewShowAvailable !== false`. */
  function ShowAvailable(v: Option<Value>): (show: bool)
    ensures !show <==> v == Some(Bool(false))
  {
    v != Some(Bool(false))
  }

  /** What the view screen displays. */
  datatype Screen = Screen(nextUp: Option<Entry>, tableRows: seq<Row>, restCount: nat, hasRows: bool)

  /**
   * The view screen for a queue, the slots and taken times, the settings and
   * the current minute of the day.
   */
  method ViewScreen(queue: seq<Entry>, slots: seq<string>, taken: set<string>, settings: map<string, Value>, now: int)
    returns (screen: Screen)
    ensures screen.nextUp == NextUp(queue, now)
    ensures var style := Server.Merge(DefaultView, settings);
      var all := AllRows(queue, slots, taken, now, ShowAvailable(Slots.Lookup(style, "viewShowAvailable")), AppToMinutes);
      && screen.tableRows == all[..SliceEnd(|all|, ShowCount(Slots.Lookup(style, "viewShowCount")))]
      && screen.restCount + |screen.tableRows| == |all|
    ensures screen.hasRows <==> screen.nextUp.Some? || |screen.tableRows| > 0
  {
    // `viewStyle` reads `{ ...defaultView, ...settings }`
    var style := Server.Merge(DefaultView, settings);
    var showAvailable := ShowAvailable(Slots.Lookup(style, "viewShowAvailable"));
    var showCount := ShowCount(Slots.Lookup(style, "viewShowCount"));
    var nextUp := NextUp(queue, now);
    var availableTimes := AvailableTimes(slots, taken, now, AppToMinutes);
    var futureBooked := FutureBooked(queue, now);
    var bookedByTime := GroupByTime(futureBooked);
    var allRows := BuildRows(slots, bookedByTime, availableTimes, showAvailable, now, AppToMinutes);
    var tableRows := allRows[..SliceEnd(|allRows|, showCount)];
    var restCount := if |allRows| - |tableRows| > 0 then |allRows| - |tableRows| else 0;
    screen := Screen(nextUp, tableRows, restCount, nextUp.Some? || |tableRows| > 0);
  }

  /** With a non-negative count, the table shows the first `min(count, |rows|)` rows and counts the rest. */
  lemma TableSplit(all: seq<Row>, count: nat)
    ensures var shown := all[..SliceEnd(|all|, Finite(count))];
      && |shown| == (if count < |all| then count else |all|)
      && shown + all[|shown|..] == all
  {
  }
}
