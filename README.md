# Queue, display and Colorlight switcher — a verified model

The repository is a small LAN system for a booking queue at an event:

- **server.js** keeps a queue of people and a settings object in memory.
  - It cuts the day into time slots of `slotMinutes` between `dayStart` and `dayEnd`.
  - It books people into free slots, either a chosen slot ("manual") or the first free one ("auto").
  - It deletes entries by id and merges settings updates.
- **src/App.jsx** is the admin form and the public "view" screen.
  - The view screen shows who is next and a table of upcoming bookings, with "Available" rows for the free slots.
- **Switcher.py** turns OSC messages from one allowed client into UDP command frames for a Colorlight Z8 video processor: preset, blackout and brightness.

This project models those three cores in Dafny and proves what they promise.

| file | module | what it holds |
|---|---|---|
| `wrappers.dfy` | `Wrappers` | `Option` |
| `arith.dfy` | `Arith` | two facts about integer division used by the slot and brightness proofs |
| `js.dfy` | `Js` | the JavaScript built-ins the core relies on: `trim`, `split(":")`, `Number(...)` on strings and JSON scalars, truthiness, `String(v \|\| "")`, integer printing, `padStart(2, "0")` |
| `clock.dfy` | `Clock` | `toMinutes` and `toHHMM` of the server, and their round trip |
| `slots.dfy` | `Slots` | `generateSlots` as a loop, proved against the sequence of slot starts, and the shape of that sequence |
| `queue.dfy` | `Queue` | queue entries, `getTakenTimes`, `sortedQueue` (a stable sort) and deletion by id |
| `server.dfy` | `Server` | the POST/DELETE/PUT handlers; the `QueueService` class holds the `queue` and `settings` state the handlers change |
| `colorlight.dfy` | `Colorlight` | the three frame builders, a reference decoder, and the three OSC handlers |
| `display.dfy` | `Display` | the client's helpers and the whole view-screen derivation, including the `bookedByTime` and `allRows` loops |

Inputs the program draws from outside become parameters:

- the fresh id and the creation time of a booking;
- the current minute of the day on the view screen;
- the last client address seen by the OSC server;
- the URL of a stored background upload.

A booking's `createdAt` is an integer number of milliseconds. The source stores it as an ISO string and compares it through `new Date`.

The central invariant of the server is that no two queued entries share a slot time (`Queue.DistinctTimes`, kept by `Server.QueueService.Valid`).

Numbers are JavaScript numbers restricted to integers and NaN (`Js.JsNumber`). `Number(s)` accepts an optional sign and decimal digits surrounded by white space, and reads the empty string as 0. Everything else is NaN. A JavaScript `%` with a negative left operand keeps its sign (`Clock.TruncRem`).

Deletion by id (server.js:144) filters out every entry with the id, so `Queue.RemoveId` drops all of them. Ids are random, so in practice at most one matches.

The admin screen's brightness slider sends a percentage, but the switcher reads the arguments 0 and 1 as fractions of full brightness (Switcher.py:172-173). A slider value of 1 therefore reaches the processor as 100 % (`Display.SliderOneIsFullBrightness`).

## Model

| member | source | states |
|---|---|---|
| Clock.RoundTrip | server.js:41-50 | reading a printed time gives back the minutes: `toMinutes(toHHMM(m)) == m` for every `m >= 0` |
| Clock.ToHHMMShape | server.js:46-50 | below 100 hours `toHHMM(m)` is exactly five characters `HH:MM`, both fields zero-padded digits holding `m / 60` and `m % 60` |
| Clock.ToHHMMInjective | server.js:46-50 | distinct non-negative minute counts print as distinct strings |
| Clock.ToHHMMNonEmpty | server.js:46-50 | a printed time always contains the `:` and is never empty |
| Clock.TruncRem | server.js:48 | JavaScript's `%` by a positive divisor: equal to the mathematical remainder for `a >= 0`, never positive for `a < 0`, always differing from `a` by a multiple of `n`, and strictly between `-n` and `n` |
| Slots.StepOf | server.js:55 | the step is `Number(slotMinutes)` when that is a nonzero number, and 10 when it is 0 or NaN; it is never 0 |
| Slots.GenerateSlots | server.js:52-62 | returns the labels of the loop's successive starts, nothing when a bound is NaN, and fails (TypeError) when `dayStart` or `dayEnd` is not a string |
| Slots.Tile | server.js:57-61 | the counting loop pushes `toHHMM(t)` for every start `t` from `start` while `t <= end - step`, in order |
| Slots.SlotStartsShape | server.js:58-60 | slot starts are strictly increasing, exactly `step` apart, each `[t, t + step)` lies inside `[start, end]`, there are `floor((end - start) / step)` of them when `end >= start`, and none when `end - start < step` |
| Slots.SlotStartsLength | server.js:58 | the loop runs `floor((end - t) / step)` times when `end >= t`, otherwise not at all |
| Slots.SlotStartsAt | server.js:58 | the k-th start is `start + k * step` |
| Slots.NonPositiveStepIsEmpty | server.js:58 | with a step that is not positive the loop either never ends or never runs; when it ends it produced nothing |
| Slots.SlotsDistinct | server.js:58-59 | from a non-negative start, the generated slot strings are pairwise distinct |
| Slots.SlotsReadBack | server.js:58-59 | every generated slot string reads back through `toMinutes` as its start minute |
| Slots.SlotsNonEmpty | server.js:59 | no generated slot is the empty string |
| Queue.TakenTimes | server.js:64-66 | the taken times are exactly the non-empty slot times held by some entry of the list |
| Queue.PrecedesTotal | server.js:69-74 | the comparator orders every pair one way or the other |
| Queue.PrecedesTransitive | server.js:69-74 | the comparator's order is transitive |
| Queue.Insert | server.js:69-74 | inserting into a sorted list keeps it sorted and adds exactly that entry |
| Queue.SortedQueue | server.js:68-75 | the result is sorted by slot minute (non-finite last), ties by `createdAt`, and is a permutation of the input; the input is a value and stays as it was |
| Queue.SortedIsFixed | server.js:68-75 | a list already in order comes back from the sort unchanged |
| Queue.SortedQueueIdempotent | server.js:68-75 | sorting the sorted view changes nothing |
| Queue.RemoveId | server.js:144 | the survivors are exactly the entries whose id differs; the length is unchanged exactly when no entry had the id |
| Queue.RemoveIdAppend | server.js:144 | deletion commutes with concatenation, so survivors keep their order |
| Queue.RemoveAbsentId | server.js:144-147 | deleting an id no entry has leaves the queue as it was |
| Queue.RemoveKeepsDistinct | server.js:144 | deletion keeps slot times pairwise distinct |
| Server.ModeOf | server.js:109 | the mode is manual exactly when the body's mode is the string `"manual"`; anything else is auto |
| Server.FindFree | server.js:123 | finds the first slot not in `taken`, and finds none only when every slot is taken |
| Server.Admit | server.js:105-133 | a blank name is answered "Name is required." and nothing else is; an accepted item carries the given id, the trimmed name, the creation time, the mode, a generated slot that is non-empty and not taken, and `slotMinutes = toMinutes(time)` |
| Server.ChooseTime | server.js:115-125 | a chosen slot is a generated, non-empty, untaken slot; only manual mode gets a 400, "Time is required for manual mode" exactly when the time is blank, else "Invalid time slot"; every other refusal is a 409 |
| Server.AdmitKeepsDistinct | server.js:113-135 | appending an accepted item keeps slot times pairwise distinct |
| Server.ManualBooking | server.js:117-121 | a manual booking succeeds exactly when the trimmed time is non-empty, a generated slot and not taken, and then holds that time; otherwise it fails with 400 "Time is required for manual mode", 400 "Invalid time slot" or 409 "Slot already taken", checked in that order |
| Server.TimeRequiredOnlyManual | server.js:118 | only a manual booking with a blank time is told that the time is required |
| Server.AutoAdmit | server.js:122-125 | an auto booking takes the slot `find` returns, or is refused with 409 "No slots available" when it returns none |
| Server.AutoBooking | server.js:122-125 | an auto booking succeeds exactly when some slot is untaken, and then takes the first untaken slot in generation order; otherwise it gets 409 "No slots available" |
| Server.Merge | server.js:169 | `{ ...settings, ...update }`: keys of the update win, every other key keeps its value, and no other key appears |
| Server.QueueService.constructor | server.js:15-32 | the service starts with an empty queue and the default settings |
| Server.QueueService.List | server.js:101-103 | GET /api/queue answers the sorted view of the queue |
| Server.QueueService.ListSlots | server.js:154-158 | GET /api/slots answers the generated slots and the taken times |
| Server.QueueService.Book | server.js:105-138 | POST /api/queue answers `Admit`; a success appends exactly the new item at the end, a rejection leaves the queue unchanged, settings never change, and slot times stay pairwise distinct |
| Server.QueueService.Delete | server.js:140-151 | DELETE removes every entry with the id; 404 "not found" with the queue unchanged exactly when none had it; otherwise the sorted survivors |
| Server.QueueService.PutSettings | server.js:165-171 | a body that is not an object gets 400 "body must be an object" and changes nothing; an object is merged over the settings, and the queue is untouched |
| Server.QueueService.SetBackground | server.js:187-190 | a stored upload sets `viewBgImageUrl` to its URL and keeps every other setting |
| Colorlight.SenderPair | Switcher.py:38-39 | the sender pair is `FF FF` exactly when every sender is addressed and `00 00` otherwise |
| Colorlight.PresetFrame | Switcher.py:34-46 | `ValueError` "Preset number must be between 1 and 16" exactly outside 1..16; otherwise 19 bytes with `preset - 1` in byte 17 and `00` last |
| Colorlight.BlackoutFrame | Switcher.py:59-68 | 18 bytes whose last byte is 1 when blacking out and 0 otherwise |
| Colorlight.LittleEndian16 | Switcher.py:91-93 | the two bytes hold the value little-endian: `lo + 256 * hi == value` below 65536 |
| Colorlight.BrightnessFrame | Switcher.py:82-100 | `ValueError` "Brightness must be between 0 and 100" exactly outside 0..100; otherwise 19 bytes whose last two hold `percent * 100` little-endian |
| Colorlight.DecodePreset | Switcher.py:34-46 | a valid preset's frame decodes to that preset and sender choice |
| Colorlight.DecodeBlackout | Switcher.py:59-68 | a blackout frame decodes to its on/off state and sender choice |
| Colorlight.DecodeBrightness | Switcher.py:82-100 | a valid brightness frame decodes to that percentage and sender choice |
| Colorlight.DecodeEncode | Switcher.py:26-100 | every frame a builder produces decodes to the command it was built from: header, sender pair, padding and payload are all as laid out |
| Colorlight.EncodeDecode | Switcher.py:26-100 | every well-formed frame is exactly the frame its decoded command builds |
| Colorlight.EncodeInjective | Switcher.py:26-100 | distinct commands never share a frame |
| Colorlight.OnPreset | Switcher.py:126-142 | a frame is sent exactly when the client passes the allowed-IP gate, an argument is present and it lies in 1..16; it selects that preset for all senders; a rejected client or no argument sends nothing |
| Colorlight.OnBlackout | Switcher.py:144-159 | a frame is sent exactly when the client passes the gate and an argument is present; any non-zero argument blacks out, for all senders |
| Colorlight.NormalisedBrightness | Switcher.py:170-173 | an argument of 0 or 1 is a fraction of full brightness (0 % or 100 %); any other value is already a percentage |
| Colorlight.OnBrightness | Switcher.py:161-180 | a frame is sent exactly when the client passes the gate, an argument is present and it lies in 0..100; it sets the normalised percentage for all senders |
| Display.AppToMinutes | src/App.jsx:52-56 | the client's `toMinutes` is `null` exactly where the server's is NaN, and otherwise agrees with it |
| Display.AppReadsServerTimes | src/App.jsx:52-56 | the client reads every time the server prints back as its minute count |
| Display.EmptyTimeUnread | src/App.jsx:52-56 | the empty string reads as `null` |
| Display.CanSubmit | src/App.jsx:163-167 | false for a blank name; in manual mode true exactly when a time is chosen; in any other mode true |
| Display.SubmittedFormHasNameAndTime | src/App.jsx:163-177 | a form `canSubmit` lets through is never answered "Name is required.", nor "Time is required for manual mode" when the chosen time is not blank |
| Display.MergeViewDraft | src/App.jsx:109-115 | the key-by-key loop builds the draft in which each default key takes the server's value when it is defined |
| Display.ViewDraftShape | src/App.jsx:109-115 | the draft has exactly the keys of `defaultView`; each holds the server's value when there is one and the default otherwise; extra server keys are ignored; no settings give the defaults |
| Display.ViewDraftIdempotent | src/App.jsx:109-115 | merging a draft back in changes nothing |
| Display.Prefill | src/App.jsx:142-145 | a chosen manual time is kept; an empty one becomes the first slot not in `taken` when that slot is non-empty; any change is to that first untaken slot |
| Display.ClampBrightness | src/App.jsx:278 | a finite brightness is clamped into 0..100 and unchanged inside it; NaN stays NaN |
| Display.ClampedBrightnessIsSent | src/App.jsx:278 | every clamped value is one the switcher's brightness handler turns into a frame for an admitted client |
| Display.SliderOneIsFullBrightness | src/App.jsx:278-280 | the slider value 1 passes the clamp unchanged, yet the switcher's handler turns it into a frame for 100 % brightness |
| Display.IsHexPadded | src/App.jsx:1069-1071 | white space around a colour does not change whether `isHex` accepts it |
| Display.IsHexExactly | src/App.jsx:1069-1071 | `#` followed by six hexadecimal digits is accepted |
| Display.NextUpIndex | src/App.jsx:413-416 | the first entry, in queue order, whose slot minute is non-finite or at least now; none only when no entry is |
| Display.RemainingQueue | src/App.jsx:418-421 | the queue without exactly the next-up index, order kept: putting the next-up entry back at its index restores the queue |
| Display.Upcoming | src/App.jsx:427-430 | the filter keeps exactly the entries with a non-finite slot minute or one at least now |
| Display.NextUpThenFuture | src/App.jsx:413-430 | the next-up entry followed by the future bookings are exactly the upcoming entries of the queue, in order; with no next-up entry there are no future bookings |
| Display.AvailableTimes | src/App.jsx:422-426 | the available times are exactly the slots that are not taken and read as a minute at least now |
| Display.BookedAt | src/App.jsx:431-437 | the entries grouped under a time are exactly those booked at it |
| Display.GroupByTime | src/App.jsx:431-437 | the loop builds the map from each non-empty time held to its entries, in order |
| Display.GroupedContents | src/App.jsx:431-437 | an entry is grouped under `t` exactly when it has that non-empty time |
| Display.BuildRows | src/App.jsx:439-461 | the nested loops produce the rows of each slot in slot order |
| Display.RowsElement | src/App.jsx:439-461 | a row appears exactly when some slot contributes it |
| Display.BookedRowsSound | src/App.jsx:441-452 | every booked row shows the id, name and time of an upcoming entry of the remaining queue, booked at a slot at or after now |
| Display.BookedRowsComplete | src/App.jsx:443-452 | every upcoming entry of the remaining queue booked at a slot at or after now has its row |
| Display.AvailableRowsSound | src/App.jsx:453-460 | an "Available" row appears only with `showAvailable`, for a slot that is untaken, at or after now and held by no future booking |
| Display.AvailableRowsComplete | src/App.jsx:453-460 | with `showAvailable`, every open slot held by no future booking gets its "Available" row |
| Display.SliceEnd | src/App.jsx:462 | `slice(0, n)` stops at `min(n, len)` for `n >= 0`, at `max(len + n, 0)` for negative `n`, and at 0 for NaN |
| Display.ShowCount | src/App.jsx:377 | a missing or falsy count means 3; a nonzero integer is taken as it is; a non-empty string is read by `Number(...)` (NaN when it is not a number); `true` means 1 |
| Display.ShowAvailable | src/App.jsx:380 | available rows are hidden only by an explicit `false` |
| Display.ViewScreen | src/App.jsx:412-464 | the screen shows the next-up entry, the prefix of the rows that `slice(0, showCount)` selects, and a "+N more" count that together with the shown rows accounts for every row |
| Display.TableSplit | src/App.jsx:462-463 | with a non-negative count the table shows `min(count, rows)` rows and the rest count covers the others |

## Left out

- The slot loop, when it would not end: with a negative `slotMinutes` and a window it enters, the loop at server.js:58 never terminates. `Slots.GenerateSlots`, `Server.Admit`, `Server.QueueService.Book` and `Server.QueueService.ListSlots` therefore require `SettingsHalt`. Its exact condition is `step > 0`, or a first test that fails.
- Server.QueueService.Book: the HTTP body is modelled as three optional JSON scalars (`name`, `mode`, `time`). Nested objects and arrays in those fields are not modelled.
- Server.QueueService.PutSettings: updates are maps of JSON scalars. Nested values are not modelled. An array body, which JavaScript treats as an object, is not modelled either.
- Server.DefaultSettings: `viewBgOverlay: 0.35` is not an integer and is not part of the model.
- Numbers: fractions, exponents, hexadecimal literals and `Infinity` in `Number(...)` are not modelled. They read as NaN here. Floating-point arithmetic is not modelled anywhere.
- Js.IsSpace covers the ASCII white space, the Unicode line terminators, NBSP, BOM and the space characters U+1680, U+2000–U+200A, U+202F, U+205F and U+3000. No other character is white space here.
- Express routing, JSON serialisation, status-code plumbing, static files and the upload itself are left out. They are I/O. Only the settings merge of a stored upload is modelled (`Server.QueueService.SetBackground`).
- The `id()` randomness and `new Date()` are left out. They are parameters of `Book`.
- Colorlight.OnPreset: arguments are integers. `int(...)` of a float or a string is not modelled.
- Colorlight.OnBlackout: arguments are integers. A non-numeric argument, passed through as it is, is not modelled.
- Colorlight.OnBrightness: arguments are integers. A float argument, or a fraction in 0..1, is not modelled, so only 0 and 1 are normalised.
- `ColorlightZ8.send_command`, `close`, the socket, the OSC server, its thread and the `__main__` loop are left out. They are network and concurrency code. Each handler returns the frame it would send instead.
- React rendering, `fetch`, polling, history routing, fonts and the style fields of `viewStyle` other than `showCount` and `showAvailable` are left out. They are UI.
- Display.SubmittedFormHasNameAndTime requires a chosen manual time that is not blank after trimming. `canSubmit` checks only that the time is non-empty, so a time of spaces would get past it and be refused by the server.
- Display.BookedRowsComplete and Display.AvailableRowsSound are stated for any minute reader that reads nothing from the empty string. The client's `toMinutes` is such a reader (`Display.EmptyTimeUnread`).
- Server.QueueService.Book: a success answers only the new item. The sorted view of the new queue that server.js:137 sends beside it is `Server.QueueService.List` of the new state.
- Server.QueueService.ListSlots: the taken times are answered as a set. server.js:156 answers an array in the order the times were first held; the client only tests membership in it (src/App.jsx:135, src/App.jsx:143).
- Display.ClampedBrightnessIsSent: the client posts to `/api/osc/send` (src/App.jsx:106), a route server.js does not define. The lemma assumes that relay passes the clamped value to the switcher's brightness handler unchanged.
- Concurrency between requests is not modelled. Node runs each handler to completion, so a booking's check and append are atomic.
