# midiDesmos polyphonic reducer, modelled in Dafny

The converter turns a MIDI file into `num_voices` parallel arrays for the
Desmos graphing calculator: one note array and one volume array per voice,
one entry per time slot of `ticks_per_beat * minimal_fraction` ticks. This
project models the part of `midiToDes.py` that decides those arrays:

- **Tempo selection** (`calculate_ms_per_slot`): the first `set_tempo` of a
  track, default 500000 µs per beat. A track whose first `set_tempo` is exactly
  500000 does not end the search, so a later track's tempo can still win.
- **Event collection**: each track's delta times summed into absolute times,
  only `note_on` / `note_off` messages kept, then a stable sort by time.
- **The reducer**: for each event, `round(delta / ticks_per_slot)` slots are
  emitted. In each slot the active notes are sorted highest first, the top
  `num_voices` go to the voices and lose one slot each, and exhausted notes are
  retired. Then the event is applied: a sounding `note_on` appends a note whose
  length is its own message's delta time in slots (at least one), and a
  `note_off` removes every entry of that note. At the end every voice is padded
  to the longest length.

Layout: `rounding.dfy` (Python's `round`, half to even), `seqs.dfy` (list
comprehension filters and the stable sort), `midi.dfy` (decoded messages,
slot size), `tempo.dfy`, `collect.dfy`, `reducer_spec.dfy` (the reducer as a
state machine on values), `reducer_props.dfy` (its properties),
`reducer.dfy` (the loops as the source runs them, proved equal to the state
machine) and `convert.dfy` (the whole conversion).

Representation choices:
- A note's frequency `round(440 * 2 ** ((n - 69) / 12), 2)` is represented by
  the note number n. Over 0..127 that map is strictly increasing, including
  after rounding to two decimals, so the descending sort (line 56) and the
  equality test of a `note_off` (line 78) give the same results on note
  numbers. A voice's silence is note -1.
- A gain `round(v / 127, 2)` is represented by the velocity v. Gains are only
  copied into the volume arrays and never compared. Silence has volume 0.
- `ticks_per_slot` is the exact rational `ticks_per_beat * fracNum / fracDen`,
  and `round(t / ticks_per_slot)` is computed exactly, with ties to even. The
  product and the floor division inside it are written as repeated addition
  and subtraction; lemmas tie them to `*`, `//` and `%`.
- The source keeps the reducer's state in local lists of one function, so the
  imperative model uses methods with sequence parameters and results, not a
  class.

Points where the code's behaviour is easy to misread, and which the model
follows exactly:
- Python's `round` rounds half to even, so a delta of exactly half a slot
  gives no slot, and a note of exactly half a slot lasts `max(1, 0) = 1` slot.
- A new note's length comes from its own message's delta time `msg.time`
  (line 73), not from the gap to the note's `note_off`.
- A first `set_tempo` of exactly 500000 does not stop the tempo search
  (line 19), so a later track's tempo can still be chosen.
- The code has no error path. The model states the two conditions it cannot
  run without, `num_voices >= 1` and a positive slot size, as preconditions
  (see Left out).

## Model

| member | source | states |
|---|---|---|
| PyRound.Round | midiToDes.py:51 | `round(n / d)` of a non-negative ratio is non-negative |
| PyRound.RoundNearest | midiToDes.py:51 | `round(n / d)` is within half a unit of n / d, and a tie goes to the even neighbour |
| PyRound.DivModSpec | midiToDes.py:51 | the quotient and remainder of floor division (`//`, `%`, remainder in 0..d-1) recombine to the dividend |
| PyRound.RoundUnique | midiToDes.py:51 | any integer within half a unit of n / d, even on a tie, equals `round(n / d)`: the two properties of RoundNearest fix its value |
| Midi.TicksPerSlot | midiToDes.py:47 | `ticks_per_beat * minimal_fraction` is a positive slot size |
| Midi.SlotsIn | midiToDes.py:51 | the number of slots for a non-negative time is never negative |
| Midi.SlotsInNearest | midiToDes.py:51 | the number of slots is the nearest integer to ticks / ticks_per_slot, even on a tie, and no other integer is |
| Tempo.FirstTempo | midiToDes.py:15-18 | a track yields no tempo exactly when it has no `set_tempo`, and otherwise the value of its first `set_tempo` |
| Tempo.SelectTempo | midiToDes.py:13-20 | the nested search loop with its breaks returns the tempo TempoOf defines |
| Tempo.NoTempoMeansDefault | midiToDes.py:13-20 | without any `set_tempo` the tempo is 500000 |
| Tempo.TempoIsDefaultOrDeclared | midiToDes.py:13-20 | the tempo is 500000 or some track's first `set_tempo` value |
| Tempo.FirstNonDefaultTempoWins | midiToDes.py:14-20 | the first track whose first `set_tempo` is not 500000 decides the tempo, whatever later tracks or later messages of that track say |
| Collect.CollectEvents | midiToDes.py:34-41 | the two accumulate-and-append loops produce each track's events one track after another, and the result is their stable sort by time |
| Collect.TrackEventsSpec | midiToDes.py:35-40 | a track's events are exactly its `note_on` / `note_off` messages, as many as it has, each stamped with the running sum of the deltas up to that message; its events are in non-decreasing time |
| Collect.TrackEventsFiltered | midiToDes.py:35-40 | a track's events are its messages stamped with their absolute times, the non-note ones dropped: exactly one event per note message, repeated identical messages included, in message order |
| Collect.CollectedOrder | midiToDes.py:41 | the collected events are sorted by time, are a permutation of the unsorted ones, and events of equal time keep their track-then-message order |
| Seqs.SortBy | midiToDes.py:41 | `list.sort(key=...)` returns its input reordered: the same elements, each as often |
| Seqs.SortBySorted | midiToDes.py:41 | the sorted list is in non-decreasing key order |
| Seqs.SortByStable | midiToDes.py:56 | the sort is stable: for every key, the elements with that key keep their relative order |
| Seqs.FilterConcat | midiToDes.py:67 | a list comprehension with a condition keeps its survivors in their original relative order |
| Seqs.FilterCount | midiToDes.py:78 | a comprehension keeps each element that passes its condition as often as it occurs, and drops every other |
| ReducerSpec.OnsetSlots | midiToDes.py:73-74 | a new note lasts `max(1, round(d / ticks_per_slot))` slots for its delta d (1 when d is 0): the rounded count when that is at least 1, and exactly 1 otherwise |
| ReducerSpec.MaxLen | midiToDes.py:81 | `max(len(v) for v in voices)` is at least every voice's length and equal to one of them |
| ReducerProps.PrioritizeOrder | midiToDes.py:56 | each slot's sort keeps every active note, puts the highest first, and keeps entries of the same note in insertion order |
| ReducerProps.SlotVoices | midiToDes.py:56-65 | in a slot voice i appends the note and velocity of the i-th entry of the priority order, an active note, or silence (-1, volume 0) when fewer than i + 1 notes are active; no note left out of the voices is higher than a played one |
| ReducerProps.DecrementedTotal | midiToDes.py:57-62 | each of the first num_voices entries of the priority order loses exactly one slot and every other entry none, notes and velocities unchanged; so the total of remaining slots drops by min(num_voices, active) |
| ReducerProps.SlotKeepsUnplayed | midiToDes.py:56-67 | with all notes live, the notes beyond the voices come out of a slot unchanged, in priority order, after the survivors of the played ones |
| ReducerProps.RetireCount | midiToDes.py:67 | retirement keeps exactly the entries with slots left, each as often as it occurs, and leaves only live entries |
| ReducerProps.ReleaseCount | midiToDes.py:76-78 | a `note_off` removes every entry of its note, however many, and keeps every other entry as often as it occurs |
| ReducerProps.ReleaseAbsent | midiToDes.py:76-78 | a `note_off` for a note that is not sounding leaves the active notes unchanged |
| ReducerProps.OnsetAppends | midiToDes.py:69-75 | a sounding `note_on` appends exactly one entry after the existing ones, with its note, its velocity and OnsetSlots of its own delta time as its length; a velocity-0 `note_on` and other non-`note_off` messages change nothing |
| ReducerProps.ShortOnsetLastsOneSlot | midiToDes.py:73-74 | a note whose delta (1 when 0) is at most half a slot, as in a chord, lasts exactly one slot |
| ReducerProps.LongOnsetRounds | midiToDes.py:73-74 | a note longer than half a slot lasts its delta rounded to the nearest number of slots, half to even |
| ReducerProps.SlotLeavesLive | midiToDes.py:66-67 | after any slot every active note has at least one slot left |
| ReducerProps.FillSlotsLive | midiToDes.py:55-67 | any number of slots keeps all active notes live |
| ReducerProps.ApplyMsgLive | midiToDes.py:69-78 | applying an event keeps all active notes live |
| ReducerProps.EventStepLive | midiToDes.py:49-78 | one event keeps all active notes live |
| ReducerProps.RunLive | midiToDes.py:49-78 | whenever an event is about to be processed, every active note has at least one slot left |
| ReducerProps.SlotShape | midiToDes.py:57-65 | one slot appends exactly one entry to every note list and every volume list and changes no entry already there |
| ReducerProps.FillSlotsShape | midiToDes.py:55-65 | k slots append exactly max(k, 0) entries to every list, keep every entry already there as a prefix, and keep `last_time` |
| ReducerProps.EventStepShape | midiToDes.py:49-65 | each event appends exactly `round((time - last_time) / ticks_per_slot)` entries (none if not positive) to every list, keeps every entry already there as a prefix, and sets `last_time` to its time |
| ReducerProps.RunShape | midiToDes.py:49-78 | after every prefix of the events all voices, notes and volumes alike, have one length, the number of slots so far, and `last_time` is the last event's time |
| ReducerProps.PaddingChangesNothing | midiToDes.py:81-87 | padding voices that already share the target length changes nothing |
| ReducerProps.PaddingEqualizes | midiToDes.py:81-87 | padding to the longest length gives every voice that length and keeps its old entries as a prefix |
| Reducer.FillSlot | midiToDes.py:56-67 | the sort, the per-voice loop that appends and counts down in place, and the retirement compute one slot of the state machine |
| Reducer.FillElapsed | midiToDes.py:55-67 | `for _ in range(slots_to_fill)` runs that many slots, none when the count is not positive |
| Reducer.ProcessEvent | midiToDes.py:49-78 | one pass of the event loop computes one event step of the state machine |
| Reducer.PadVoices | midiToDes.py:82-87 | the `while` padding loops append the filler up to the target length and no further |
| Reducer.Reduce | midiToDes.py:43-87 | the event loop and padding produce `num_voices` note and volume lists of one common length (the total slot count), equal to the state machine's, so the padding changes nothing |
| Convert.MidiToVoices | midiToDes.py:24-47 | the conversion uses the selected tempo, the stably sorted note events and the slot size `ticks_per_beat * minimal_fraction`, and returns the reducer's voices |
| ReducerSpec.Prioritize | midiToDes.py:56 | the descending sort by note; its properties are stated by ReducerProps.PrioritizeOrder |
| ReducerSpec.Decremented | midiToDes.py:57-62 | the in-place countdown of the played entries keeps the list's length; per entry by ReducerProps.DecrementedTotal |
| ReducerSpec.Retire | midiToDes.py:67 | the retirement comprehension; its properties are stated by ReducerProps.RetireCount |
| ReducerSpec.SlotStep | midiToDes.py:56-67 | one slot; what it appends is stated by ReducerProps.SlotVoices and ReducerProps.SlotShape, what it keeps active by ReducerProps.SlotKeepsUnplayed and ReducerProps.SlotLeavesLive |
| ReducerSpec.FillSlots | midiToDes.py:55 | `for _ in range(k)`; stated by ReducerProps.FillSlotsShape and ReducerProps.FillSlotsLive |
| ReducerSpec.Release | midiToDes.py:76-78 | the `note_off` comprehension; stated by ReducerProps.ReleaseCount and ReducerProps.ReleaseAbsent |
| ReducerSpec.ApplyMsg | midiToDes.py:69-78 | the event itself; stated by ReducerProps.OnsetAppends, ReducerProps.ReleaseCount and ReducerProps.ApplyMsgLive |
| ReducerSpec.EventStep | midiToDes.py:49-78 | one pass of the event loop; stated by ReducerProps.EventStepShape and ReducerProps.EventStepLive |
| ReducerSpec.Run | midiToDes.py:43-78 | the event loop from empty voices; stated by ReducerProps.RunShape and ReducerProps.RunLive |
| ReducerSpec.TotalSlots | midiToDes.py:49-55 | the sum of the slots each event fills; ReducerProps.RunShape states that it is every voice's length |
| ReducerSpec.Padded | midiToDes.py:82-87 | the padding loops; stated by ReducerProps.PaddingEqualizes and ReducerProps.PaddingChangesNothing |
| Tempo.TempoOf | midiToDes.py:13-20 | the tempo search as a recursion over the tracks; stated by Tempo.NoTempoMeansDefault, Tempo.TempoIsDefaultOrDeclared and Tempo.FirstNonDefaultTempoWins |
| Collect.TrackEvents | midiToDes.py:36-40 | one track's events; stated by Collect.TrackEventsSpec and Collect.TrackEventsFiltered |
| Collect.AllTrackEvents | midiToDes.py:35-40 | the tracks' events one track after another, before the sort; stated by Collect.CollectEvents and Collect.CollectedOrder |

## Left out

- The default arguments `num_voices=4` and `minimal_fraction=0.25` (line 24) are not modelled; Convert.MidiToVoices takes both explicitly, the fraction as fracNum / fracDen.
- Decoding the MIDI file with `mido.MidiFile` (lines 1, 29-30) is a foreign library. Tracks are given already decoded, as sequences of messages with their delta times.
- Floating point. Frequencies and gains are represented by note numbers and velocities (lines 3-7). The float error of `delta_time / ticks_per_slot` (lines 51, 74) is not modelled; the division is exact.
- The milliseconds per slot `round((tempo / 1000) * minimal_fraction, 2)` (lines 21-22) is float arithmetic. The model returns the selected integer tempo instead.
- Rendering the arrays as Desmos strings (lines 90-93) is float-to-string formatting.
- The example usage and printing at module level (lines 97-104) is I/O.
- Reducer.Reduce: requires at least one voice. With `num_voices <= 0`, `max()` over an empty list raises at line 81; the model has no exception.
- Reducer.Reduce: requires a positive slot size. A zero `ticks_per_slot` raises `ZeroDivisionError` at line 51 once there is an event. A negative `minimal_fraction` runs in Python but is not modelled.
- Note numbers and velocities are not restricted to 0..127. The frequency map is only known to be injective and increasing on that range, which is all MIDI data bytes can hold.
