/** What the reducer promises: priority order, which notes are decremented,
    retirement, release, and voices of equal length at every step. */
module ReducerProps {
  import opened Midi
  import opened Seqs
  import opened ReducerSpec

  /** The sort of each slot keeps every active note, puts them highest first,
      and keeps entries of the same note (same key -note) in their order. */
  lemma {:induction false} PrioritizeOrder(active: seq<ActiveNote>, k: int)
    ensures |Prioritize(active)| == |active|
    ensures multiset(Prioritize(active)) == multiset(active)
    ensures forall i, j :: 0 <= i < j < |active| ==> Prioritize(active)[i].note >= Prioritize(active)[j].note
    ensures Filter(Prioritize(active), KeyIs(NegNote, k)) == Filter(active, KeyIs(NegNote, k))
  {
    var p := Prioritize(active);
    SortBySorted(active, NegNote);
    forall i, j | 0 <= i < j < |active| ensures p[i].note >= p[j].note {
      assert NegNote(p[i]) <= NegNote(p[j]);
    }
    SortByStable(active, NegNote, k);
  }

  /** In a slot, voice i is given the i-th note of the priority order with
      its velocity, or silence (-1, volume 0) when fewer than i + 1 notes are
      active; every note played is an active one, and no note left out of the
      voices is higher than one that is played. */
  lemma SlotVoices(st: State, numVoices: nat)
    requires |st.notes| == numVoices && |st.volumes| == numVoices
    ensures var p, next := Prioritize(st.active), SlotStep(st, numVoices);
            forall i :: 0 <= i < numVoices && i < |st.active| ==>
              p[i] in st.active &&
              next.notes[i] == st.notes[i] + [p[i].note] &&
              next.volumes[i] == st.volumes[i] + [p[i].velocity]
    ensures var next := SlotStep(st, numVoices);
            forall i :: |st.active| <= i < numVoices ==>
              next.notes[i] == st.notes[i] + [Silence] &&
              next.volumes[i] == st.volumes[i] + [0]
    ensures var p := Prioritize(st.active);
            forall i, j :: 0 <= i < numVoices && i < |p| && numVoices <= j < |p| ==>
              p[j].note <= p[i].note
  {
    var p := Prioritize(st.active);
    PrioritizeOrder(st.active, 0);
    forall i | 0 <= i < numVoices && i < |st.active| ensures p[i] in st.active {
      assert p[i] in multiset(p);
    }
  }

  /** The sum of the remaining slots of a list of notes. */
  function TotalRemaining(s: seq<ActiveNote>): int
  {
    if s == [] then 0 else TotalRemaining(s[..|s| - 1]) + s[|s| - 1].remaining
  }

  /** A slot takes exactly one slot off each of the min(numVoices, |s|) played
      notes and nothing off the rest, and changes no note or velocity. */
  lemma {:induction false} DecrementedTotal(s: seq<ActiveNote>, numVoices: nat)
    ensures TotalRemaining(Decremented(s, numVoices))
         == TotalRemaining(s) - (if numVoices < |s| then numVoices else |s|)
    ensures forall j :: 0 <= j < |s| ==>
      Decremented(s, numVoices)[j].note == s[j].note && Decremented(s, numVoices)[j].velocity == s[j].velocity &&
      Decremented(s, numVoices)[j].remaining == s[j].remaining - (if j < numVoices then 1 else 0)
  {
    if s != [] {
      var init := s[..|s| - 1];
      DecrementedTotal(init, numVoices);
      assert Decremented(s, numVoices)[..|s| - 1] == Decremented(init, numVoices);
    }
  }

  /** Counting down the first numVoices entries touches none beyond them. */
  lemma DecrementedSplit(s: seq<ActiveNote>, numVoices: nat, m: nat)
    requires m == if numVoices < |s| then numVoices else |s|
    ensures Decremented(s, numVoices) == Decremented(s[..m], numVoices) + s[m..]
  {
  }

  /** With every active note live, a slot leaves the notes beyond the voices
      untouched and in priority order after the survivors of the played ones. */
  lemma SlotKeepsUnplayed(active: seq<ActiveNote>, numVoices: nat)
    requires AllLive(active)
    ensures var p := Prioritize(active);
            var m := if numVoices < |p| then numVoices else |p|;
            AfterSlot(active, numVoices) == Retire(Decremented(p[..m], numVoices)) + p[m..]
  {
    var p := Prioritize(active);
    var m := if numVoices < |p| then numVoices else |p|;
    PrioritizeOrder(active, 0);
    DecrementedSplit(p, numVoices, m);
    FilterConcat(Decremented(p[..m], numVoices), p[m..], IsLive);
    forall i | 0 <= i < |p[m..]| ensures IsLive(p[m..][i]) {
      assert p[m..][i] in multiset(p);
    }
    FilterKeepsAll(p[m..], IsLive);
  }

  /** Retirement keeps exactly the entries with slots left, each as often as
      it occurs (and, by FilterConcat, in order). */
  lemma RetireCount(s: seq<ActiveNote>, x: ActiveNote)
    ensures multiset(Retire(s))[x] == if x.remaining > 0 then multiset(s)[x] else 0
    ensures AllLive(Retire(s))
  {
    FilterCount(s, IsLive, x);
    forall n | n in Retire(s) ensures IsLive(n) {
      FilterCount(s, IsLive, n);
    }
  }

  /** A `note_off` drops every entry of its note, however many there are, and
      keeps every other entry as often as it occurs. */
  lemma ReleaseCount(active: seq<ActiveNote>, note: int, x: ActiveNote)
    ensures multiset(Release(active, note))[x] == if x.note == note then 0 else multiset(active)[x]
    ensures forall n :: n in Release(active, note) ==> n.note != note
  {
    FilterCount(active, NoteIsNot(note), x);
    forall n | n in Release(active, note) ensures n.note != note {
      FilterCount(active, NoteIsNot(note), n);
    }
  }

  /** A `note_off` for a note that is not sounding changes nothing. */
  lemma ReleaseAbsent(active: seq<ActiveNote>, note: int)
    requires forall n :: n in active ==> n.note != note
    ensures Release(active, note) == active
  {
    FilterKeepsAll(active, NoteIsNot(note));
  }

  /** A sounding `note_on` appends one entry whose length is OnsetSlots of its
      own delta time, so at least one slot; a silent one (velocity 0) and every
      message other than `note_off` change nothing. */
  lemma OnsetAppends(active: seq<ActiveNote>, msg: Msg, tps: SlotSize)
    requires ValidSlotSize(tps) && !msg.NoteOff?
    ensures msg.NoteOn? && msg.velocity > 0 ==>
      |ApplyMsg(active, msg, tps)| == |active| + 1 &&
      ApplyMsg(active, msg, tps)[..|active|] == active &&
      ApplyMsg(active, msg, tps)[|active|].note == msg.note &&
      ApplyMsg(active, msg, tps)[|active|].velocity == msg.velocity &&
      ApplyMsg(active, msg, tps)[|active|].remaining == OnsetSlots(msg.time, tps) &&
      ApplyMsg(active, msg, tps)[|active|].remaining >= 1
    ensures !(msg.NoteOn? && msg.velocity > 0) ==> ApplyMsg(active, msg, tps) == active
  {
    if msg.NoteOn? && msg.velocity > 0 {
      assert (active + [ActiveNote(msg.note, OnsetSlots(msg.time, tps), msg.velocity)])[..|active|] == active;
    }
  }

  /** A note whose delta time (1 when it is 0) is at most half a slot, such
      as every note of a chord after the first, lasts exactly one slot: `round`
      gives 0 (half a slot is a tie, and 0 is even) and `max(1, 0)` is 1. */
  lemma ShortOnsetLastsOneSlot(delta: nat, tps: SlotSize)
    requires ValidSlotSize(tps)
    requires 2 * (if delta > 0 then delta else 1) * tps.den <= tps.num
    ensures OnsetSlots(delta, tps) == 1
  {
    var d := if delta > 0 then delta else 1;
    var n := d * tps.den;
    assert n >= 0 by {
      assert d * tps.den == (d - 1) * tps.den + tps.den;
      assert (d - 1) * tps.den >= 0;
    }
    assert 2 * n <= tps.num by {
      assert 2 * d * tps.den == 2 * n;
    }
    assert 0 * tps.num == 0;
    assert 2 * PyRound.Abs(n - 0 * tps.num) <= tps.num;
    SlotsInNearest(d, tps, 0);
  }

  /** A note longer than half a slot lasts its delta time rounded to the
      nearest number of slots, half to even. */
  lemma LongOnsetRounds(delta: nat, tps: SlotSize)
    requires ValidSlotSize(tps)
    requires 2 * delta * tps.den > tps.num
    ensures var r := OnsetSlots(delta, tps);
            2 * PyRound.Abs(delta * tps.den - r * tps.num) <= tps.num &&
            (2 * PyRound.Abs(delta * tps.den - r * tps.num) == tps.num ==> r % 2 == 0)
  {
    assert 2 * 0 * tps.den == 0;
    var s := SlotsIn(delta, tps);
    SlotsInNearest(delta, tps, 0);
    assert s * tps.num == 0 ==> 2 * PyRound.Abs(delta * tps.den - s * tps.num) == 2 * delta * tps.den;
  }

  /** After any slot every active note has a slot left. */
  lemma SlotLeavesLive(st: State, numVoices: int)
    ensures AllLive(SlotStep(st, numVoices).active)
  {
    RetireCount(Decremented(Prioritize(st.active), numVoices), ActiveNote(0, 0, 0));
    assert SlotStep(st, numVoices).active == Retire(Decremented(Prioritize(st.active), numVoices));
  }

  /** k slots leave only live notes behind, given live notes before. */
  lemma {:induction false} FillSlotsLive(st: State, k: int, numVoices: int)
    requires AllLive(st.active)
    ensures AllLive(FillSlots(st, k, numVoices).active)
  {
    if k > 0 {
      SlotLeavesLive(FillSlots(st, k - 1, numVoices), numVoices);
    }
  }

  /** Applying a message keeps every active note live. */
  lemma ApplyMsgLive(active: seq<ActiveNote>, msg: Msg, tps: SlotSize)
    requires ValidSlotSize(tps) && AllLive(active)
    ensures AllLive(ApplyMsg(active, msg, tps))
  {
    if msg.NoteOff? {
      forall n | n in Release(active, msg.note) ensures IsLive(n) {
        FilterCount(active, NoteIsNot(msg.note), n);
      }
    }
  }

  /** One event keeps every active note live. */
  lemma EventStepLive(st: State, ev: Event, numVoices: int, tps: SlotSize)
    requires ValidSlotSize(tps) && AllLive(st.active)
    ensures AllLive(EventStep(st, ev, numVoices, tps).active)
  {
    var filled := FillSlots(st, SlotsIn(ev.time - st.lastTime, tps), numVoices);
    FillSlotsLive(st, SlotsIn(ev.time - st.lastTime, tps), numVoices);
    ApplyMsgLive(filled.active, ev.msg, tps);
    assert EventStep(st, ev, numVoices, tps).active == ApplyMsg(filled.active, ev.msg, tps);
  }

  /** Whenever an event is about to be processed, every active note has at
      least one slot left. */
  lemma {:induction false} RunLive(events: seq<Event>, numVoices: nat, tps: SlotSize)
    requires ValidSlotSize(tps)
    ensures AllLive(Run(events, numVoices, tps).active)
  {
    if events != [] {
      var init := events[..|events| - 1];
      RunLive(init, numVoices, tps);
      EventStepLive(Run(init, numVoices, tps), events[|events| - 1], numVoices, tps);
    }
  }

  /** One slot adds one entry to every voice's note list and volume list and
      changes none of the entries already there. */
  lemma SlotShape(st: State, numVoices: nat, len: nat)
    requires WellShaped(st, numVoices, len)
    ensures WellShaped(SlotStep(st, numVoices), numVoices, len + 1)
    ensures forall i :: 0 <= i < numVoices ==>
      SlotStep(st, numVoices).notes[i][..len] == st.notes[i] &&
      SlotStep(st, numVoices).volumes[i][..len] == st.volumes[i]
  {
  }

  /** k slots (none when k <= 0) append exactly k entries to every list and
      keep the entries already there. */
  lemma {:induction false} FillSlotsShape(st: State, k: int, numVoices: nat, len: nat)
    requires WellShaped(st, numVoices, len)
    ensures WellShaped(FillSlots(st, k, numVoices), numVoices, len + Max(k, 0))
    ensures forall i :: 0 <= i < numVoices ==>
      FillSlots(st, k, numVoices).notes[i][..len] == st.notes[i] &&
      FillSlots(st, k, numVoices).volumes[i][..len] == st.volumes[i]
    ensures FillSlots(st, k, numVoices).lastTime == st.lastTime
  {
    if k > 0 {
      var prev, next := FillSlots(st, k - 1, numVoices), FillSlots(st, k, numVoices);
      var m := len + Max(k - 1, 0);
      FillSlotsShape(st, k - 1, numVoices, len);
      FillSlotsStepShape(st, k, numVoices, m);
      PrefixChain(st, prev, next, numVoices, len, m);
    }
  }

  /** The k-th slot of FillSlots is one SlotStep, so SlotShape applies. */
  lemma FillSlotsStepShape(st: State, k: int, numVoices: nat, m: nat)
    requires k > 0 && WellShaped(FillSlots(st, k - 1, numVoices), numVoices, m)
    ensures WellShaped(FillSlots(st, k, numVoices), numVoices, m + 1)
    ensures forall i :: 0 <= i < numVoices ==>
      FillSlots(st, k, numVoices).notes[i][..m] == FillSlots(st, k - 1, numVoices).notes[i] &&
      FillSlots(st, k, numVoices).volumes[i][..m] == FillSlots(st, k - 1, numVoices).volumes[i]
    ensures FillSlots(st, k, numVoices).lastTime == FillSlots(st, k - 1, numVoices).lastTime
  {
    SlotShape(FillSlots(st, k - 1, numVoices), numVoices, m);
  }

  /** If every voice of prev starts with that voice of st, and every voice
      of next with that voice of prev, then every voice of next starts with
      that voice of st. */
  lemma PrefixChain(st: State, prev: State, next: State, numVoices: nat, len: nat, m: nat)
    requires len <= m && WellShaped(st, numVoices, len)
    requires WellShaped(prev, numVoices, m) && WellShaped(next, numVoices, m + 1)
    requires forall i :: 0 <= i < numVoices ==>
      prev.notes[i][..len] == st.notes[i] && prev.volumes[i][..len] == st.volumes[i]
    requires forall i :: 0 <= i < numVoices ==>
      next.notes[i][..m] == prev.notes[i] && next.volumes[i][..m] == prev.volumes[i]
    ensures forall i :: 0 <= i < numVoices ==>
      next.notes[i][..len] == st.notes[i] && next.volumes[i][..len] == st.volumes[i]
  {
    forall i | 0 <= i < numVoices
      ensures next.notes[i][..len] == st.notes[i] && next.volumes[i][..len] == st.volumes[i]
    {
      assert next.notes[i][..len] == next.notes[i][..m][..len];
      assert next.volumes[i][..len] == next.volumes[i][..m][..len];
    }
  }

  /** Each event appends exactly round((time - last_time) / ticks_per_slot)
      entries (none if that is not positive) to every list, keeps the entries
      already there, and moves `last_time` to the event's time. */
  lemma EventStepShape(st: State, ev: Event, numVoices: nat, tps: SlotSize, len: nat)
    requires ValidSlotSize(tps) && WellShaped(st, numVoices, len)
    ensures var k := SlotsIn(ev.time - st.lastTime, tps);
            WellShaped(EventStep(st, ev, numVoices, tps), numVoices, len + Max(k, 0))
    ensures forall i :: 0 <= i < numVoices ==>
      EventStep(st, ev, numVoices, tps).notes[i][..len] == st.notes[i] &&
      EventStep(st, ev, numVoices, tps).volumes[i][..len] == st.volumes[i]
    ensures EventStep(st, ev, numVoices, tps).lastTime == ev.time
  {
    FillSlotsShape(st, SlotsIn(ev.time - st.lastTime, tps), numVoices, len);
  }

  /** So after every event all voices, notes and volumes alike, have the same
      length: the total number of slots so far. */
  lemma {:induction false} RunShape(events: seq<Event>, numVoices: nat, tps: SlotSize)
    requires ValidSlotSize(tps)
    ensures WellShaped(Run(events, numVoices, tps), numVoices, TotalSlots(events, tps))
    ensures Run(events, numVoices, tps).lastTime == LastTime(events)
  {
    if events != [] {
      var init := events[..|events| - 1];
      RunShape(init, numVoices, tps);
      RunShapeStep(events, numVoices, tps);
    }
  }

  /** The inductive step of RunShape: the last event extends the shape of the
      state before it by the slots TotalSlots counts for it. */
  lemma RunShapeStep(events: seq<Event>, numVoices: nat, tps: SlotSize)
    requires ValidSlotSize(tps) && events != []
    requires var init := events[..|events| - 1];
             WellShaped(Run(init, numVoices, tps), numVoices, TotalSlots(init, tps)) &&
             Run(init, numVoices, tps).lastTime == LastTime(init)
    ensures WellShaped(Run(events, numVoices, tps), numVoices, TotalSlots(events, tps))
    ensures Run(events, numVoices, tps).lastTime == LastTime(events)
  {
    var init, ev := events[..|events| - 1], events[|events| - 1];
    var st := Run(init, numVoices, tps);
    var len := TotalSlots(init, tps) + Max(SlotsIn(ev.time - st.lastTime, tps), 0);
    var next := EventStep(st, ev, numVoices, tps);
    assert Run(events, numVoices, tps) == next && TotalSlots(events, tps) == len by {
      RunUnfold(events, numVoices, tps);
    }
    assert WellShaped(next, numVoices, len) && next.lastTime == ev.time by {
      EventStepShape(st, ev, numVoices, tps, TotalSlots(init, tps));
    }
  }

  /** One step of Run and of TotalSlots, unfolded. */
  lemma RunUnfold(events: seq<Event>, numVoices: nat, tps: SlotSize)
    requires ValidSlotSize(tps) && events != []
    ensures var init, ev := events[..|events| - 1], events[|events| - 1];
            Run(events, numVoices, tps) == EventStep(Run(init, numVoices, tps), ev, numVoices, tps)
    ensures var init, ev := events[..|events| - 1], events[|events| - 1];
            TotalSlots(events, tps) == TotalSlots(init, tps) + Max(SlotsIn(ev.time - LastTime(init), tps), 0)
  {
  }

  /** Padding every voice to a length it already has changes nothing. */
  lemma PaddingChangesNothing(voices: seq<seq<int>>, len: int, filler: int)
    requires forall i :: 0 <= i < |voices| ==> |voices[i]| == len
    ensures Padded(voices, len, filler) == voices
  {
    forall i | 0 <= i < |voices| ensures Padded(voices, len, filler)[i] == voices[i] {
      assert Repeat(filler, len - |voices[i]|) == [];
    }
  }

  /** The final padding brings every voice to the longest voice's length. */
  lemma PaddingEqualizes(voices: seq<seq<int>>, filler: int)
    requires |voices| >= 1
    ensures forall i :: 0 <= i < |voices| ==> |Padded(voices, MaxLen(voices), filler)[i]| == MaxLen(voices)
    ensures forall i :: 0 <= i < |voices| ==> Padded(voices, MaxLen(voices), filler)[i][..|voices[i]|] == voices[i]
  {
  }
}
