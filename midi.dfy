/** The already-decoded MIDI input the reducer works on: a file is a sequence of
    tracks, a track a sequence of messages, each carrying the delta time (in
    ticks) since the previous message of its own track. */
module Midi {
  import PyRound

  /** The message kinds the converter looks at; `Other` stands for every
      other message type, which it skips. Note numbers and velocities are the
      raw 0..127 data bytes. */
  datatype Msg =
    | NoteOn(time: nat, note: int, velocity: int)
    | NoteOff(time: nat, note: int, velocity: int)
    | SetTempo(time: nat, tempo: int)
    | Other(time: nat)

  type Track = seq<Msg>

  /** A note message stamped with its absolute time in ticks. */
  datatype Event = Event(time: int, msg: Msg)

  predicate IsNote(m: Msg)
  {
    m.NoteOn? || m.NoteOff?
  }

  function EventTime(e: Event): int
  {
    e.time
  }

  /** The number of ticks in one slot, `ticks_per_beat * minimal_fraction`,
      as the exact rational num / den. */
  datatype SlotSize = SlotSize(num: int, den: int)

  predicate ValidSlotSize(tps: SlotSize)
  {
    tps.num > 0 && tps.den > 0
  }

  /** `ticks_per_beat * minimal_fraction` for a fraction fracNum / fracDen. */
  function TicksPerSlot(ticksPerBeat: int, fracNum: int, fracDen: int): (r: SlotSize)
    requires ticksPerBeat > 0 && fracNum > 0 && fracDen > 0
    ensures ValidSlotSize(r)
    ensures r.num == ticksPerBeat * fracNum && r.den == fracDen
  {
    assert ticksPerBeat * fracNum >= fracNum by {
      assert ticksPerBeat * fracNum == (ticksPerBeat - 1) * fracNum + fracNum;
      assert (ticksPerBeat - 1) * fracNum >= 0;
    }
    SlotSize(ticksPerBeat * fracNum, fracDen)
  }

  /** `round(ticks / ticks_per_slot)`: how many whole slots the given number
      of ticks is nearest to. */
  function SlotsIn(ticks: int, tps: SlotSize): (r: int)
    requires ValidSlotSize(tps)
    ensures ticks >= 0 ==> r >= 0
  {
    PyRound.Round(PyRound.Times(ticks, tps.den), tps.num)
  }

  /** The slot count is the nearest integer to ticks / ticks_per_slot, the
      even one on a tie, and no other integer is. */
  lemma SlotsInNearest(ticks: int, tps: SlotSize, k: int)
    requires ValidSlotSize(tps)
    ensures var r := SlotsIn(ticks, tps);
            2 * PyRound.Abs(ticks * tps.den - r * tps.num) <= tps.num &&
            (2 * PyRound.Abs(ticks * tps.den - r * tps.num) == tps.num ==> r % 2 == 0)
    ensures 2 * PyRound.Abs(ticks * tps.den - k * tps.num) <= tps.num &&
            (2 * PyRound.Abs(ticks * tps.den - k * tps.num) == tps.num ==> k % 2 == 0)
            ==> k == SlotsIn(ticks, tps)
  {
    PyRound.TimesIsProduct(ticks, tps.den);
    PyRound.RoundNearest(ticks * tps.den, tps.num);
    if 2 * PyRound.Abs(ticks * tps.den - k * tps.num) <= tps.num &&
       (2 * PyRound.Abs(ticks * tps.den - k * tps.num) == tps.num ==> k % 2 == 0) {
      PyRound.RoundUnique(ticks * tps.den, tps.num, k);
    }
  }
}
