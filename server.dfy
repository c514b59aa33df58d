/**
 * The request handlers of server.js over its two pieces of in-memory state,
 * the queue and the settings object: booking (POST /api/queue), deletion
 * (DELETE /api/queue/:id), the settings merge (PUT /api/settings) and the
 * background-image setting the upload route writes.
 */
module Server {
  import opened Wrappers
  import opened Js
  import opened Clock
  import opened Slots
  import opened Queue

  /**
   * What a handler answers: success (201/200), a validation error (400), a
   * conflict (409), a missing entry (404), or an exception inside the
   * handler, which Express turns into a 500.
   */
  datatype Outcome<T> = Ok(value: T) | Validation(error: string) | Conflict(error: string) | NotFound(error: string) | ServerError

  const NameRequired: string := "Name is required."
  const TimeRequired: string := "Time is required for manual mode"
  const InvalidSlot: string := "Invalid time slot"
  const SlotTaken: string := "Slot already taken"
  const NoSlots: string := "No slots available"
  const EntryNotFound: string := "not found"
  const BodyNotObject: string := "body must be an object"

  const ViewBgImageUrlKey: string := "viewBgImageUrl"

  /** The settings object at process start (`viewBgOverlay: 0.35` is not an integer and is not modelled). */
  const DefaultSettings: map<string, Value> := map[
    "slotMinutes" := Int(15),
    "dayStart" := Str("09:00"),
    "dayEnd" := Str("17:00"),
    "viewFontFamily" := Str("System"),
    "viewFontColor" := Str("#ffffff"),
    "viewBgImageUrl" := Str(""),
    "viewAlign" := Str("center"),
    "viewJustify" := Str("center"),
    "viewSize" := Str("6xl"),
    "viewSpacing" := Str("4"),
    "viewShowCount" := Int(3)
  ]

  /** The fields of a POST /api/queue body; `None` is a missing field (or a missing body). */
  datatype Booking = Booking(name: Option<Value>, mode: Option<Value>, time: Option<Value>)

  /** A PUT /api/settings body: a JSON object, or anything else (null, a scalar, no body). */
  datatype SettingsBody = Object(fields: map<string, Value>) | NotObject

  // ---------------------------------------------------------------------------
  // Booking
  // ---------------------------------------------------------------------------

  /** `req.body?.mode === "manual" ? "manual" : "auto"`. */
  function ModeOf(mode: Option<Value>): (m: Mode)
    ensures m == Manual <==> mode == Some(Str("manual"))
  {
    if mode == Some(Str("manual")) then Manual else Auto
  }

  /** `slots.find(t => !taken.has(t))`, as the index of the slot it finds. */
  function FindFree(slots: seq<string>, taken: set<string>): (r: Option<nat>)
    ensures r.Some? ==> r.value < |slots| && slots[r.value] !in taken
    ensures r.Some? ==> forall j :: 0 <= j < r.value ==> slots[j] in taken
    ensures r.None? ==> forall j :: 0 <= j < |slots| ==> slots[j] in taken
  {
    if slots == [] then None
    else if slots[0] !in taken then Some(0)
    else
      match FindFree(slots[1..], taken)
      case None => None
      case Some(i) => Some(i + 1)
  }

  /** The item a successful booking appends. */
  function NewEntry(id: string, name: string, createdAt: int, mode: Mode, time: string): Entry
  {
    Entry(id, name, createdAt, Slot(mode, time), ToMinutes(time))
  }

  /**
   * The answer of POST /api/queue for a queue, settings and body, given the
   * fresh id and the creation time the handler would draw. `generateSlots`
   * runs only once the name is present, and must halt then.
   */
  function Admit(queue: seq<Entry>, settings: map<string, Value>, req: Booking, id: string, createdAt: int): (r: Outcome<Entry>)
    requires Trim(StringOrEmpty(req.name)) != "" ==> SettingsHalt(settings)
    ensures r == Validation(NameRequired) <==> Trim(StringOrEmpty(req.name)) == ""
    ensures r.Ok? ==> && r.value.id == id && r.value.name == Trim(StringOrEmpty(req.name))
                      && r.value.createdAt == createdAt && r.value.slot.kind == ModeOf(req.mode)
                      && r.value.slotMinutes == ToMinutes(r.value.slot.time)
    ensures r.Ok? ==> && SlotsOf(settings).Some? && r.value.slot.time in SlotsOf(settings).value
                      && r.value.slot.time != "" && r.value.slot.time !in TakenTimes(queue)
  {
    var name := Trim(StringOrEmpty(req.name));
    if name == "" then Validation(NameRequired)
    else
      var mode := ModeOf(req.mode);
      match SlotsOf(settings)
      case None => ServerError
      case Some(slots) =>
        var choice := ChooseTime(mode, Trim(StringOrEmpty(req.time)), slots, TakenTimes(queue));
        if choice.Ok? then Ok(NewEntry(id, name, createdAt, mode, choice.value)) else Refusal(choice)
  }

  /** The same refusal, answered for a booking. */
  function Refusal(choice: Outcome<string>): (r: Outcome<Entry>)
    requires !choice.Ok?
    ensures !r.Ok?
    ensures r.Validation? <==> choice.Validation?
    ensures r.Validation? ==> r.error == choice.error
  {
    match choice
    case Validation(e) => Validation(e)
    case Conflict(e) => Conflict(e)
    case NotFound(e) => NotFound(e)
    case ServerError => ServerError
  }

  /**
   * The slot a named booking gets once the slots are known: the requested
   * one in manual mode, checked in order for presence, validity and
   * availability; otherwise the first free one, refused when there is none.
   */
  function ChooseTime(mode: Mode, requested: string, slots: seq<string>, taken: set<string>): (r: Outcome<string>)
    ensures r.Ok? ==> r.value in slots && r.value != "" && r.value !in taken
    ensures r.Validation? ==> mode == Manual && (r.error == TimeRequired <==> requested == "")
    ensures r.Validation? ==> r.error == TimeRequired || r.error == InvalidSlot
    ensures r != Validation(NameRequired)
    ensures !r.Validation? && !r.Ok? ==> r.Conflict?
  {
    if mode == Manual then
      if requested == "" then Validation(TimeRequired)
      else if requested !in slots then Validation(InvalidSlot)
      else if requested in taken then Conflict(SlotTaken)
      else Ok(requested)
    else
      match FindFree(slots, taken)
      case None => Conflict(NoSlots)
      case Some(i) =>
        // `slots.find(...) || null`: an empty string would count as no slot
        if slots[i] == "" then Conflict(NoSlots) else Ok(slots[i])
  }


  /** An accepted booking keeps the slot times of the queue pairwise distinct. */
  lemma AdmitKeepsDistinct(queue: seq<Entry>, settings: map<string, Value>, req: Booking, id: string, createdAt: int)
    requires Trim(StringOrEmpty(req.name)) != "" ==> SettingsHalt(settings)
    requires DistinctTimes(queue)
    requires Admit(queue, settings, req, id, createdAt).Ok?
    ensures DistinctTimes(queue + [Admit(queue, settings, req, id, createdAt).value])
  {
    var e := Admit(queue, settings, req, id, createdAt).value;
    var q := queue + [e];
    forall i, j | 0 <= i < j < |q|
      ensures q[i].slot.time != q[j].slot.time
    {
      if j == |queue| {
        assert q[i] == queue[i];
        if queue[i].slot.time != "" {
          assert queue[i].slot.time in TakenTimes(queue);
        }
      } else {
        assert q[i] == queue[i] && q[j] == queue[j];
      }
    }
  }

  /**
   * A manual booking with a name succeeds exactly when the trimmed time is
   * non-empty, one of the generated slots and not taken; it then holds that
   * time. Otherwise it fails with the first of these checks that fails.
   */
  lemma ManualBooking(queue: seq<Entry>, settings: map<string, Value>, req: Booking, id: string, createdAt: int)
    requires Trim(StringOrEmpty(req.name)) != "" && SettingsHalt(settings) && SlotsOf(settings).Some?
    requires req.mode == Some(Str("manual"))
    ensures var requested := Trim(StringOrEmpty(req.time));
      var slots := SlotsOf(settings).value;
      var r := Admit(queue, settings, req, id, createdAt);
      && (r.Ok? <==> requested != "" && requested in slots && requested !in TakenTimes(queue))
      && (r.Ok? ==> r.value.slot == Slot(Manual, requested))
      && (requested == "" ==> r == Validation(TimeRequired))
      && (requested != "" && requested !in slots ==> r == Validation(InvalidSlot))
      && (requested != "" && requested in slots && requested in TakenTimes(queue) ==> r == Conflict(SlotTaken))
  {
    var requested := Trim(StringOrEmpty(req.time));
    var slots := SlotsOf(settings).value;
    var choice := ChooseTime(Manual, requested, slots, TakenTimes(queue));
    AdmitByChoice(queue, settings, req, id, createdAt);
    if requested == "" {
      assert choice == Validation(TimeRequired);
    } else if requested !in slots {
      assert choice == Validation(InvalidSlot);
    } else if requested in TakenTimes(queue) {
      assert choice == Conflict(SlotTaken);
    } else {
      assert choice == Ok(requested);
    }
  }

  /** `Admit` for a named booking once the slots are known: the entry for the chosen slot, or the refusal. */
  lemma AdmitByChoice(queue: seq<Entry>, settings: map<string, Value>, req: Booking, id: string, createdAt: int)
    requires Trim(StringOrEmpty(req.name)) != "" && SettingsHalt(settings) && SlotsOf(settings).Some?
    ensures var choice := ChooseTime(ModeOf(req.mode), Trim(StringOrEmpty(req.time)), SlotsOf(settings).value, TakenTimes(queue));
      Admit(queue, settings, req, id, createdAt)
      == if choice.Ok? then Ok(NewEntry(id, Trim(StringOrEmpty(req.name)), createdAt, ModeOf(req.mode), choice.value))
         else Refusal(choice)
  {
  }

  /** Only a manual booking with a blank time is told that the time is required. */
  lemma TimeRequiredOnlyManual(queue: seq<Entry>, settings: map<string, Value>, req: Booking, id: string, createdAt: int)
    requires Trim(StringOrEmpty(req.name)) != "" ==> SettingsHalt(settings)
    requires Admit(queue, settings, req, id, createdAt) == Validation(TimeRequired)
    ensures ModeOf(req.mode) == Manual && Trim(StringOrEmpty(req.time)) == ""
  {
    assert |TimeRequired| != |NameRequired|;
    var slots := SlotsOf(settings).value;
    var choice := ChooseTime(ModeOf(req.mode), Trim(StringOrEmpty(req.time)), slots, TakenTimes(queue));
    assert choice == Validation(TimeRequired);
  }

  /**
   * An auto booking (any mode but exactly "manual") with a name takes the
   * first generated slot that is not taken, and is refused with a conflict
   * when every slot is taken or there are none.
   */
  lemma AutoBooking(queue: seq<Entry>, settings: map<string, Value>, req: Booking, id: string, createdAt: int)
    requires Trim(StringOrEmpty(req.name)) != "" && SettingsHalt(settings) && SlotsOf(settings).Some?
    requires req.mode != Some(Str("manual"))
    ensures var slots := SlotsOf(settings).value;
      var taken := TakenTimes(queue);
      var r := Admit(queue, settings, req, id, createdAt);
      && (r.Ok? <==> exists k :: 0 <= k < |slots| && slots[k] !in taken)
      && (r.Ok? ==> exists k :: 0 <= k < |slots| && r.value.slot == Slot(Auto, slots[k])
                      && slots[k] !in taken && forall j :: 0 <= j < k ==> slots[j] in taken)
      && (!r.Ok? ==> r == Conflict(NoSlots))
  {
    var slots := SlotsOf(settings).value;
    var taken := TakenTimes(queue);
    var f := FindFree(slots, taken);
    AutoAdmit(queue, settings, req, id, createdAt);
    if f.Some? {
      var k := f.value;
      assert 0 <= k < |slots| && slots[k] !in taken && forall j :: 0 <= j < k ==> slots[j] in taken;
    }
  }

  /** The auto branch of `Admit`, in terms of the first free slot. */
  lemma AutoAdmit(queue: seq<Entry>, settings: map<string, Value>, req: Booking, id: string, createdAt: int)
    requires Trim(StringOrEmpty(req.name)) != "" && SettingsHalt(settings) && SlotsOf(settings).Some?
    requires req.mode != Some(Str("manual"))
    ensures var slots := SlotsOf(settings).value;
      var f := FindFree(slots, TakenTimes(queue));
      var r := Admit(queue, settings, req, id, createdAt);
      && (f.None? ==> r == Conflict(NoSlots))
      && (f.Some? ==> r.Ok? && r.value.slot == Slot(Auto, slots[f.value]))
  {
    var slots := SlotsOf(settings).value;
    SlotsNonEmpty(settings);
    var f := FindFree(slots, TakenTimes(queue));
    if f.Some? {
      assert slots[f.value] in slots;
    }
  }

  // ---------------------------------------------------------------------------
  // Settings
  // ---------------------------------------------------------------------------

  /** `{ ...settings, ...update }`: keys of the update win, every other key keeps its value. */
  function Merge(settings: map<string, Value>, update: map<string, Value>): (r: map<string, Value>)
    ensures r.Keys == settings.Keys + update.Keys
    ensures forall k :: k in update ==> r[k] == update[k]
    ensures forall k :: k in settings && k !in update ==> r[k] == settings[k]
  {
    settings + update
  }

  // ---------------------------------------------------------------------------
  // The server's state
  // ---------------------------------------------------------------------------

  /** The module-level `queue` and `settings` of server.js. */
  class QueueService {
    var queue: seq<Entry>
    var settings: map<string, Value>

    /** No two queued entries share a slot time. */
    ghost predicate Valid()
      reads this
    {
      DistinctTimes(queue)
    }

    /** Process start: an empty queue and the default settings. */
    constructor ()
      ensures Valid()
      ensures queue == [] && settings == DefaultSettings
    {
      queue := [];
      settings := DefaultSettings;
    }

    /** GET /api/queue: the sorted view; the queue itself keeps insertion order. */
    method List() returns (view: seq<Entry>)
      ensures view == SortedQueue(queue)
    {
      view := SortedQueue(queue);
    }

    /** GET /api/slots: the generated slots and the taken times. */
    method ListSlots() returns (r: Outcome<(seq<string>, set<string>)>)
      requires SettingsHalt(settings)
      ensures SlotsOf(settings).None? ==> r == ServerError
      ensures SlotsOf(settings).Some? ==> r == Ok((SlotsOf(settings).value, TakenTimes(queue)))
    {
      var slots := GenerateSlots(settings);
      if slots.None? {
        return ServerError;
      }
      return Ok((slots.value, TakenTimes(queue)));
    }

    /**
     * POST /api/queue with body `req`; `freshId` and `now` stand for `id()` and
     * `new Date()`. A rejection leaves the queue as it was; a success appends
     * exactly the new item and changes no earlier entry.
     */
    method Book(req: Booking, freshId: string, now: int) returns (outcome: Outcome<Entry>)
      requires Valid()
      requires Trim(StringOrEmpty(req.name)) != "" ==> SettingsHalt(settings)
      modifies this
      ensures Valid()
      ensures settings == old(settings)
      ensures outcome == Admit(old(queue), settings, req, freshId, now)
      ensures outcome.Ok? ==> queue == old(queue) + [outcome.value]
      ensures !outcome.Ok? ==> queue == old(queue)
    {
      var name := Trim(StringOrEmpty(req.name));
      if name == "" {
        return Validation(NameRequired);
      }
      var mode := ModeOf(req.mode);
      var requested := Trim(StringOrEmpty(req.time));
      var slots := GenerateSlots(settings);
      if slots.None? {
        return ServerError;
      }
      var taken := TakenTimes(queue);
      // the manual checks or the `find` of the first free slot
      var choice := ChooseTime(mode, requested, slots.value, taken);
      AdmitByChoice(queue, settings, req, freshId, now);
      if !choice.Ok? {
        return Refusal(choice);
      }
      var item := NewEntry(freshId, name, now, mode, choice.value);
      AdmitKeepsDistinct(queue, settings, req, freshId, now);
      queue := queue + [item];
      return Ok(item);
    }

    /**
     * DELETE /api/queue/:id: every entry with that id goes; when none had it
     * the answer is 404 and the queue is unchanged.
     */
    method Delete(id: string) returns (outcome: Outcome<seq<Entry>>)
      requires Valid()
      modifies this
      ensures Valid()
      ensures settings == old(settings)
      ensures queue == RemoveId(old(queue), id)
      ensures outcome.NotFound? <==> forall i :: 0 <= i < |old(queue)| ==> old(queue)[i].id != id
      ensures outcome.NotFound? ==> outcome.error == EntryNotFound && queue == old(queue)
      ensures !outcome.NotFound? ==> outcome == Ok(SortedQueue(queue)) && |queue| < |old(queue)|
    {
      var before := |queue|;
      RemoveKeepsDistinct(queue, id);
      if forall i :: 0 <= i < |queue| ==> queue[i].id != id {
        RemoveAbsentId(queue, id);
      }
      queue := RemoveId(queue, id);
      if |queue| == before {
        return NotFound(EntryNotFound);
      }
      return Ok(SortedQueue(queue));
    }

    /**
     * PUT /api/settings: a non-object body is refused with 400 and changes
     * nothing; an object is merged over the settings and the result returned.
     */
    method PutSettings(body: SettingsBody) returns (outcome: Outcome<map<string, Value>>)
      modifies this
      ensures queue == old(queue)
      ensures body.NotObject? ==> outcome == Validation(BodyNotObject) && settings == old(settings)
      ensures body.Object? ==> settings == Merge(old(settings), body.fields) && outcome == Ok(settings)
    {
      if body.NotObject? {
        return Validation(BodyNotObject);
      }
      settings := Merge(settings, body.fields);
      return Ok(settings);
    }

    /** The settings effect of a stored background upload: `viewBgImageUrl` becomes its URL. */
    method SetBackground(url: string) returns (outcome: Outcome<map<string, Value>>)
      modifies this
      ensures queue == old(queue)
      ensures settings == Merge(old(settings), map[ViewBgImageUrlKey := Str(url)])
      ensures outcome == Ok(settings)
    {
      settings := Merge(settings, map[ViewBgImageUrlKey := Str(url)]);
      return Ok(settings);
    }
  }
}
