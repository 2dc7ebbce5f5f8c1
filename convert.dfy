/** `midi_to_desmos_variable_slots_gain` (midiToDes.py:24-87) up to the string
    rendering: tempo, events, slot size, then the reducer. */
module Convert {
  import opened Midi
  import opened Seqs
  import opened ReducerSpec
  import Tempo
  import Collect
  import Reducer

  /** The voices for a decoded file with the given ticks per beat, a
      `minimal_fraction` of fracNum / fracDen beats per slot and numVoices
      voices, together with the tempo the slot duration is derived from. */
  method MidiToVoices(tracks: seq<Track>, ticksPerBeat: int, fracNum: int, fracDen: int, numVoices: nat)
    returns (notes: seq<seq<int>>, volumes: seq<seq<int>>, tempo: int)
    requires numVoices >= 1 && ticksPerBeat > 0 && fracNum > 0 && fracDen > 0
    ensures tempo == Tempo.TempoOf(tracks)
    ensures var tps := TicksPerSlot(ticksPerBeat, fracNum, fracDen);
            var events := SortBy(Collect.AllTrackEvents(tracks), EventTime);
            notes == Run(events, numVoices, tps).notes &&
            volumes == Run(events, numVoices, tps).volumes &&
            |notes| == numVoices && |volumes| == numVoices &&
            forall i :: 0 <= i < numVoices ==>
              |notes[i]| == TotalSlots(events, tps) && |volumes[i]| == TotalSlots(events, tps)
  {
    tempo := Tempo.SelectTempo(tracks);
    var events := Collect.CollectEvents(tracks);
    var tps := TicksPerSlot(ticksPerBeat, fracNum, fracDen);
    notes, volumes := Reducer.Reduce(events, numVoices, tps);
  }
}
