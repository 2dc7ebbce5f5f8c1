/** The polyphonic reducer of `midi_to_desmos_variable_slots_gain`
    (midiToDes.py:43-87) as a state machine on values: what one slot, one
    event and a whole event list do to the active notes and the voices. */
module ReducerSpec {
  import opened Midi
  import opened Seqs

  /** Note value of a voice that has nothing to play in a slot (its volume
      is 0). */
  const Silence: int := -1

  /** An entry of `active_notes`: the note (standing for its frequency),
      the slots it has left, and its velocity (standing for its gain). */
  datatype ActiveNote = ActiveNote(note: int, remaining: int, velocity: int)

  /** `active_notes`, the per-voice note and volume lists, and `last_time`. */
  datatype State = State(active: seq<ActiveNote>, notes: seq<seq<int>>, volumes: seq<seq<int>>, lastTime: int)

  function NegNote(n: ActiveNote): int
  {
    -n.note
  }

  /** `active_notes.sort(key=lambda x: x[0], reverse=True)`: highest note first,
      equal notes in their current order. */
  function Prioritize(active: seq<ActiveNote>): seq<ActiveNote>
  {
    SortBy(active, NegNote)
  }

  /** What voice i plays from the prioritized notes. */
  function VoiceNote(sorted: seq<ActiveNote>, i: int): int
  {
    if 0 <= i < |sorted| then sorted[i].note else Silence
  }

  function VoiceVolume(sorted: seq<ActiveNote>, i: int): int
  {
    if 0 <= i < |sorted| then sorted[i].velocity else 0
  }

  /** The first numVoices entries, the ones that were played, lose one slot. */
  function Decremented(sorted: seq<ActiveNote>, numVoices: int): (r: seq<ActiveNote>)
    ensures |r| == |sorted|
  {
    seq(|sorted|, j requires 0 <= j < |sorted| =>
      if j < numVoices then sorted[j].(remaining := sorted[j].remaining - 1) else sorted[j])
  }

  predicate IsLive(n: ActiveNote)
  {
    n.remaining > 0
  }

  ghost predicate AllLive(active: seq<ActiveNote>)
  {
    forall n :: n in active ==> IsLive(n)
  }

  /** `[n for n in active_notes if n[1] > 0]`. */
  function Retire(active: seq<ActiveNote>): seq<ActiveNote>
  {
    Filter(active, IsLive)
  }

  function EmitNotes(voices: seq<seq<int>>, sorted: seq<ActiveNote>): seq<seq<int>>
  {
    seq(|voices|, i requires 0 <= i < |voices| => voices[i] + [VoiceNote(sorted, i)])
  }

  function EmitVolumes(voices: seq<seq<int>>, sorted: seq<ActiveNote>): seq<seq<int>>
  {
    seq(|voices|, i requires 0 <= i < |voices| => voices[i] + [VoiceVolume(sorted, i)])
  }

  /** The active notes after a slot: sorted, the first numVoices counted
      down, the exhausted ones retired. */
  function AfterSlot(active: seq<ActiveNote>, numVoices: int): seq<ActiveNote>
  {
    Retire(Decremented(Prioritize(active), numVoices))
  }

  /** One slot: the top notes go to the voices and are counted down. */
  function SlotStep(st: State, numVoices: int): State
  {
    var sorted := Prioritize(st.active);
    State(AfterSlot(st.active, numVoices), EmitNotes(st.notes, sorted),
          EmitVolumes(st.volumes, sorted), st.lastTime)
  }

  /** `for _ in range(k)`: k slots one after another (none when k <= 0). */
  function FillSlots(st: State, k: int, numVoices: int): State
    decreases k
  {
    if k <= 0 then st else SlotStep(FillSlots(st, k - 1, numVoices), numVoices)
  }

  /** The length in slots of a new note: its message's own delta time (1 when
      that is 0), rounded to slots, and at least one slot. */
  function OnsetSlots(delta: nat, tps: SlotSize): (r: int)
    requires ValidSlotSize(tps)
    ensures r >= 1
    ensures SlotsIn(if delta > 0 then delta else 1, tps) >= 1 ==> r == SlotsIn(if delta > 0 then delta else 1, tps)
    ensures SlotsIn(if delta > 0 then delta else 1, tps) < 1 ==> r == 1
  {
    var d := if delta > 0 then delta else 1;
    var s := SlotsIn(d, tps);
    if s < 1 then 1 else s
  }

  function NoteIsNot(note: int): ActiveNote -> bool
  {
    (n: ActiveNote) => n.note != note
  }

  /** `[n for n in active_notes if n[0] != freq]`. */
  function Release(active: seq<ActiveNote>, note: int): seq<ActiveNote>
  {
    Filter(active, NoteIsNot(note))
  }

  /** The event itself: a sounding `note_on` adds a note, a `note_off` removes
      every entry of its note, anything else changes nothing. */
  function ApplyMsg(active: seq<ActiveNote>, msg: Msg, tps: SlotSize): seq<ActiveNote>
    requires ValidSlotSize(tps)
  {
    if msg.NoteOn? && msg.velocity > 0 then
      active + [ActiveNote(msg.note, OnsetSlots(msg.time, tps), msg.velocity)]
    else if msg.NoteOff? then Release(active, msg.note)
    else active
  }

  /** One event: the slots elapsed since the previous one, then the event. */
  function EventStep(st: State, ev: Event, numVoices: int, tps: SlotSize): State
    requires ValidSlotSize(tps)
  {
    var filled := FillSlots(st, SlotsIn(ev.time - st.lastTime, tps), numVoices);
    State(ApplyMsg(filled.active, ev.msg, tps), filled.notes, filled.volumes, ev.time)
  }

  function Initial(numVoices: nat): State
  {
    State([], seq(numVoices, _ => []), seq(numVoices, _ => []), 0)
  }

  /** The state after the given events, from the initial one. */
  function Run(events: seq<Event>, numVoices: nat, tps: SlotSize): State
    requires ValidSlotSize(tps)
  {
    if events == [] then Initial(numVoices)
    else EventStep(Run(events[..|events| - 1], numVoices, tps), events[|events| - 1], numVoices, tps)
  }

  /** The time of the last event, or 0 before any. */
  function LastTime(events: seq<Event>): int
  {
    if events == [] then 0 else events[|events| - 1].time
  }

  /** The number of slots emitted over the given events. */
  function TotalSlots(events: seq<Event>, tps: SlotSize): nat
    requires ValidSlotSize(tps)
  {
    if events == [] then 0
    else
      var init := events[..|events| - 1];
      var k := SlotsIn(events[|events| - 1].time - LastTime(init), tps);
      TotalSlots(init, tps) + (if k > 0 then k else 0)
  }

  /** Every voice, for notes and for volumes, holds len entries. */
  ghost predicate WellShaped(st: State, numVoices: nat, len: nat)
  {
    |st.notes| == numVoices && |st.volumes| == numVoices &&
    forall i :: 0 <= i < numVoices ==> |st.notes[i]| == len && |st.volumes[i]| == len
  }

  function Max(a: int, b: int): int
  {
    if a < b then b else a
  }

  /** `max(len(v) for v in voices)`. */
  function MaxLen(voices: seq<seq<int>>): (r: nat)
    requires |voices| >= 1
    ensures forall i :: 0 <= i < |voices| ==> |voices[i]| <= r
    ensures exists i :: 0 <= i < |voices| && |voices[i]| == r
  {
    if |voices| == 1 then |voices[0]|
    else
      var m := MaxLen(voices[..|voices| - 1]);
      assert forall i :: 0 <= i < |voices| - 1 ==> voices[i] == voices[..|voices| - 1][i];
      Max(m, |voices[|voices| - 1]|)
  }

  /** n copies of x (none when n <= 0). */
  function Repeat(x: int, n: int): (r: seq<int>)
    ensures |r| == Max(n, 0)
    ensures forall y :: y in r ==> y == x
  {
    seq(Max(n, 0), _ => x)
  }

  /** `while len(v) < len: v.append(filler)` for every voice v. */
  function Padded(voices: seq<seq<int>>, len: int, filler: int): seq<seq<int>>
  {
    seq(|voices|, i requires 0 <= i < |voices| => voices[i] + Repeat(filler, len - |voices[i]|))
  }
}
