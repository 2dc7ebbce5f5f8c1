/** The reducer as the source runs it (midiToDes.py:43-87): local lists that
    loops append to and update in place, proved step by step equal to the
    state machine of ReducerSpec. */
module Reducer {
  import opened Midi
  import opened Seqs
  import opened ReducerSpec
  import ReducerProps

  /** The body of `for _ in range(slots_to_fill)`: sort the active notes,
      hand the first numVoices to the voices while counting them down in
      place, then retire the exhausted ones. */
  method FillSlot(active: seq<ActiveNote>, notes: seq<seq<int>>, volumes: seq<seq<int>>, numVoices: nat)
    returns (active': seq<ActiveNote>, notes': seq<seq<int>>, volumes': seq<seq<int>>)
    requires |notes| == numVoices && |volumes| == numVoices
    ensures active' == AfterSlot(active, numVoices)
    ensures notes' == EmitNotes(notes, Prioritize(active))
    ensures volumes' == EmitVolumes(volumes, Prioritize(active))
    ensures |notes'| == numVoices && |volumes'| == numVoices
  {
    var sorted := SortBy(active, NegNote);
    var cur := sorted;
    notes', volumes' := notes, volumes;
    var i := 0;
    while i < numVoices
      invariant 0 <= i <= numVoices
      invariant |cur| == |sorted| && |notes'| == numVoices && |volumes'| == numVoices
      invariant forall j :: 0 <= j < |cur| ==>
        cur[j] == if j < i then sorted[j].(remaining := sorted[j].remaining - 1) else sorted[j]
      invariant forall j :: 0 <= j < numVoices ==>
        notes'[j] == if j < i then notes[j] + [VoiceNote(sorted, j)] else notes[j]
      invariant forall j :: 0 <= j < numVoices ==>
        volumes'[j] == if j < i then volumes[j] + [VoiceVolume(sorted, j)] else volumes[j]
    {
      if i < |cur| {
        var n := cur[i];
        notes' := notes'[i := notes'[i] + [n.note]];
        volumes' := volumes'[i := volumes'[i] + [n.velocity]];
        cur := cur[i := n.(remaining := n.remaining - 1)];
      } else {
        notes' := notes'[i := notes'[i] + [Silence]];
        volumes' := volumes'[i := volumes'[i] + [0]];
      }
      i := i + 1;
    }
    assert cur == Decremented(sorted, numVoices);
    active' := Retire(cur);
  }

  /** The padding loops: `while len(v) < len: v.append(filler)` for each v. */
  method PadVoices(voices: seq<seq<int>>, len: int, filler: int) returns (padded: seq<seq<int>>)
    ensures padded == Padded(voices, len, filler)
    ensures forall i :: 0 <= i < |voices| ==> |padded[i]| == Max(len, |voices[i]|)
  {
    padded := voices;
    var i := 0;
    while i < |padded|
      invariant 0 <= i <= |padded| == |voices|
      invariant forall j :: 0 <= j < |voices| ==>
        padded[j] == if j < i then voices[j] + Repeat(filler, len - |voices[j]|) else voices[j]
    {
      var v := padded[i];
      while |v| < len
        invariant |voices[i]| <= |v| <= Max(len, |voices[i]|)
        invariant v == voices[i] + Repeat(filler, |v| - |voices[i]|)
      {
        v := v + [filler];
      }
      assert |v| == Max(len, |voices[i]|);
      padded := padded[i := v];
      i := i + 1;
    }
  }

  /** `for _ in range(slotsToFill)`: nothing when slotsToFill <= 0. The
      ghost lastTime only carries `last_time` through unchanged. */
  method FillElapsed(active: seq<ActiveNote>, notes: seq<seq<int>>, volumes: seq<seq<int>>,
                     slotsToFill: int, numVoices: nat, ghost lastTime: int)
    returns (active': seq<ActiveNote>, notes': seq<seq<int>>, volumes': seq<seq<int>>)
    requires |notes| == numVoices && |volumes| == numVoices
    ensures State(active', notes', volumes', lastTime)
         == FillSlots(State(active, notes, volumes, lastTime), slotsToFill, numVoices)
    ensures |notes'| == numVoices && |volumes'| == numVoices
  {
    ghost var before := State(active, notes, volumes, lastTime);
    active', notes', volumes' := active, notes, volumes;
    var k := 0;
    while k < slotsToFill
      invariant 0 <= k <= Max(slotsToFill, 0)
      invariant State(active', notes', volumes', lastTime) == FillSlots(before, k, numVoices)
      invariant |notes'| == numVoices && |volumes'| == numVoices
    {
      ghost var prev := State(active', notes', volumes', lastTime);
      active', notes', volumes' := FillSlot(active', notes', volumes', numVoices);
      assert State(active', notes', volumes', lastTime) == SlotStep(prev, numVoices);
      k := k + 1;
    }
  }

  /** One pass of the event loop: `slots_to_fill` slots for the time elapsed
      since `last_time`, then the event itself. */
  method ProcessEvent(active: seq<ActiveNote>, notes: seq<seq<int>>, volumes: seq<seq<int>>,
                      lastTime: int, ev: Event, numVoices: nat, tps: SlotSize)
    returns (active': seq<ActiveNote>, notes': seq<seq<int>>, volumes': seq<seq<int>>, lastTime': int)
    requires ValidSlotSize(tps) && |notes| == numVoices && |volumes| == numVoices
    ensures State(active', notes', volumes', lastTime')
         == EventStep(State(active, notes, volumes, lastTime), ev, numVoices, tps)
    ensures |notes'| == numVoices && |volumes'| == numVoices
  {
    var slotsToFill := SlotsIn(ev.time - lastTime, tps);
    lastTime' := ev.time;
    active', notes', volumes' := FillElapsed(active, notes, volumes, slotsToFill, numVoices, lastTime);
    ghost var filled := active';
    if ev.msg.NoteOn? && ev.msg.velocity > 0 {
      active' := active' + [ActiveNote(ev.msg.note, OnsetSlots(ev.msg.time, tps), ev.msg.velocity)];
    } else if ev.msg.NoteOff? {
      active' := Release(active', ev.msg.note);
    }
    assert active' == ApplyMsg(filled, ev.msg, tps);
  }

  /** The event loop and the final padding. The voices come out all of one
      length, the number of slots the events span, and the padding changes
      nothing. */
  method Reduce(events: seq<Event>, numVoices: nat, tps: SlotSize)
    returns (notes: seq<seq<int>>, volumes: seq<seq<int>>)
    requires numVoices >= 1 && ValidSlotSize(tps)
    ensures |notes| == numVoices && |volumes| == numVoices
    ensures forall i :: 0 <= i < numVoices ==>
      |notes[i]| == TotalSlots(events, tps) && |volumes[i]| == TotalSlots(events, tps)
    ensures notes == Run(events, numVoices, tps).notes
    ensures volumes == Run(events, numVoices, tps).volumes
  {
    notes := seq(numVoices, _ => []);
    volumes := seq(numVoices, _ => []);
    var active: seq<ActiveNote> := [];
    var lastTime := 0;
    var e := 0;
    while e < |events|
      invariant 0 <= e <= |events|
      invariant State(active, notes, volumes, lastTime) == Run(events[..e], numVoices, tps)
      invariant |notes| == numVoices && |volumes| == numVoices
    {
      active, notes, volumes, lastTime := ProcessEvent(active, notes, volumes, lastTime, events[e], numVoices, tps);
      assert events[..e + 1][..e] == events[..e];
      e := e + 1;
    }
    assert events[..e] == events;
    ReducerProps.RunShape(events, numVoices, tps);
    var maxLen := MaxLen(notes);
    ReducerProps.PaddingChangesNothing(notes, maxLen, Silence);
    ReducerProps.PaddingChangesNothing(volumes, maxLen, 0);
    notes := PadVoices(notes, maxLen, Silence);
    volumes := PadVoices(volumes, maxLen, 0);
  }
}
