/** Event collection (midiToDes.py:34-41): every note message of every track,
    stamped with its absolute time, then stably sorted by that time. */
module Collect {
  import opened Midi
  import opened Seqs

  /** The running sum of the delta times of msgs. */
  function SumDeltas(msgs: seq<Msg>): nat
  {
    if msgs == [] then 0 else SumDeltas(msgs[..|msgs| - 1]) + msgs[|msgs| - 1].time
  }

  /** The note messages of one track, each with the running sum of the deltas
      up to and including it. */
  function TrackEvents(track: Track): seq<Event>
  {
    if track == [] then []
    else
      var last := track[|track| - 1];
      TrackEvents(track[..|track| - 1])
        + (if IsNote(last) then [Event(SumDeltas(track), last)] else [])
  }

  /** The unsorted event list: the tracks' events one track after another. */
  function AllTrackEvents(tracks: seq<Track>): seq<Event>
  {
    if tracks == [] then []
    else AllTrackEvents(tracks[..|tracks| - 1]) + TrackEvents(tracks[|tracks| - 1])
  }

  /** The two nested accumulate-and-append loops, then the sort by time. */
  method CollectEvents(tracks: seq<Track>) returns (events: seq<Event>)
    ensures events == SortBy(AllTrackEvents(tracks), EventTime)
  {
    events := [];
    var t := 0;
    while t < |tracks|
      invariant 0 <= t <= |tracks|
      invariant events == AllTrackEvents(tracks[..t])
    {
      var track := tracks[t];
      var absTime := 0;
      var j := 0;
      ghost var before := events;
      while j < |track|
        invariant 0 <= j <= |track|
        invariant absTime == SumDeltas(track[..j])
        invariant events == before + TrackEvents(track[..j])
      {
        var msg := track[j];
        absTime := absTime + msg.time;
        assert track[..j + 1][..j] == track[..j];
        if msg.NoteOn? || msg.NoteOff? {
          events := events + [Event(absTime, msg)];
        }
        j := j + 1;
      }
      assert track[..j] == track;
      assert tracks[..t + 1][..t] == tracks[..t];
      t := t + 1;
    }
    assert tracks[..t] == tracks;
    events := SortBy(events, EventTime);
  }

  /** The absolute time of the j-th message of a track. */
  function AbsTime(track: Track, j: nat): nat
    requires j < |track|
  {
    SumDeltas(track[..j + 1])
  }

  /** A track's events are exactly its note messages, each stamped with the
      running sum of the deltas up to it, one event per note message; they
      come out in non-decreasing time. TrackEventsFiltered gives their exact
      multiplicities and order. */
  lemma {:induction false} TrackEventsSpec(track: Track)
    ensures forall e :: e in TrackEvents(track) <==>
      exists j :: 0 <= j < |track| && IsNote(track[j]) && e == Event(AbsTime(track, j), track[j])
    ensures |TrackEvents(track)| == NoteCount(track)
    ensures SortedBy(TrackEvents(track), EventTime)
    ensures forall e :: e in TrackEvents(track) ==> 0 <= e.time <= SumDeltas(track)
  {
    if track != [] {
      var init, last := track[..|track| - 1], track[|track| - 1];
      TrackEventsSpec(init);
      forall j | 0 <= j < |init| ensures AbsTime(init, j) == AbsTime(track, j) {
        assert init[..j + 1] == track[..j + 1];
      }
      assert track[..|track|] == track;
    }
  }

  /** A track's events are its messages, each stamped with its absolute time,
      with every message that is not a note dropped: one event per note message,
      in message order. */
  lemma {:induction false} TrackEventsFiltered(track: Track)
    ensures TrackEvents(track) == Filter(Stamped(track), EventIsNote)
  {
    if track != [] {
      TrackEventsFiltered(track[..|track| - 1]);
      StampedSnoc(track);
    }
  }

  /** Every message of a track, each stamped with its absolute time. */
  function Stamped(track: Track): (r: seq<Event>)
    ensures |r| == |track|
  {
    seq(|track|, j requires 0 <= j < |track| => Event(AbsTime(track, j), track[j]))
  }

  predicate EventIsNote(e: Event)
  {
    IsNote(e.msg)
  }

  /** Filtering the stamped messages of a track peels off its last message
      like TrackEvents does. */
  lemma StampedSnoc(track: Track)
    requires track != []
    ensures Filter(Stamped(track), EventIsNote)
         == Filter(Stamped(track[..|track| - 1]), EventIsNote)
          + (if IsNote(track[|track| - 1]) then [Event(SumDeltas(track), track[|track| - 1])] else [])
  {
    var s := Stamped(track);
    StampedInit(track);
    assert track[..|track|] == track;
    assert s[|s| - 1] == Event(SumDeltas(track), track[|track| - 1]);
    FilterSnoc(s, EventIsNote);
    FilterSingle(s[|s| - 1], EventIsNote);
  }

  /** Stamping a track's messages but the last gives the same stamps. */
  lemma StampedInit(track: Track)
    requires track != []
    ensures Stamped(track)[..|track| - 1] == Stamped(track[..|track| - 1])
  {
    var init := track[..|track| - 1];
    forall j | 0 <= j < |init| ensures Stamped(track)[j] == Stamped(init)[j] {
      assert init[..j + 1] == track[..j + 1];
    }
  }

  /** How many note messages a track holds. */
  function NoteCount(track: Track): nat
  {
    if track == [] then 0
    else NoteCount(track[..|track| - 1]) + (if IsNote(track[|track| - 1]) then 1 else 0)
  }

  /** The collected events are in non-decreasing time order; they are the
      events of all tracks, with nothing lost or added; and events at the same
      time keep their track-then-message order. */
  lemma CollectedOrder(tracks: seq<Track>, t: int)
    ensures SortedBy(SortBy(AllTrackEvents(tracks), EventTime), EventTime)
    ensures multiset(SortBy(AllTrackEvents(tracks), EventTime)) == multiset(AllTrackEvents(tracks))
    ensures Filter(SortBy(AllTrackEvents(tracks), EventTime), KeyIs(EventTime, t))
         == Filter(AllTrackEvents(tracks), KeyIs(EventTime, t))
  {
    SortBySorted(AllTrackEvents(tracks), EventTime);
    SortByStable(AllTrackEvents(tracks), EventTime, t);
  }
}
