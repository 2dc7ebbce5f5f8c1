/** Tempo selection in `calculate_ms_per_slot` (midiToDes.py:13-20): the first
    `set_tempo` of the first track that declares a non-default one. */
module Tempo {
  import opened Midi

  /** 500000 microseconds per beat, i.e. 120 beats per minute. */
  const DefaultTempo: int := 500000

  datatype Option<T> = None | Some(value: T)

  /** The value of the first `set_tempo` message of a track, if any. */
  function FirstTempo(track: Track): (r: Option<int>)
    ensures r.None? <==> forall j :: 0 <= j < |track| ==> !track[j].SetTempo?
    ensures r.Some? ==> exists j :: 0 <= j < |track| && track[j].SetTempo? && track[j].tempo == r.value
                                  && forall i :: 0 <= i < j ==> !track[i].SetTempo?
  {
    if track == [] then None
    else if track[0].SetTempo? then Some(track[0].tempo)
    else
      var r := FirstTempo(track[1..]);
      assert forall j :: 1 <= j < |track| ==> track[j] == track[1..][j - 1];
      if r.Some? then
        var j :| 0 <= j < |track[1..]| && track[1..][j].SetTempo? && track[1..][j].tempo == r.value
                 && forall i :: 0 <= i < j ==> !track[1..][i].SetTempo?;
        assert track[j + 1].SetTempo? && track[j + 1].tempo == r.value;
        r
      else r
  }

  /** The tempo the converter settles on: tracks are searched in order, and
      one whose first `set_tempo` is the default does not end the search. */
  function TempoOf(tracks: seq<Track>): int
  {
    if tracks == [] then DefaultTempo
    else match FirstTempo(tracks[0])
      case Some(t) => if t != DefaultTempo then t else TempoOf(tracks[1..])
      case None => TempoOf(tracks[1..])
  }

  /** The nested search loop, with its two `break`s. */
  method SelectTempo(tracks: seq<Track>) returns (tempo: int)
    ensures tempo == TempoOf(tracks)
  {
    tempo := DefaultTempo;
    var t := 0;
    while t < |tracks|
      invariant 0 <= t <= |tracks|
      invariant tempo == DefaultTempo
      invariant TempoOf(tracks) == TempoOf(tracks[t..])
    {
      var track := tracks[t];
      var j := 0;
      while j < |track|
        invariant 0 <= j <= |track|
        invariant tempo == DefaultTempo
        invariant FirstTempo(track) == FirstTempo(track[j..])
      {
        if track[j].SetTempo? {
          tempo := track[j].tempo;
          break;
        }
        assert track[j..][1..] == track[j + 1..];
        j := j + 1;
      }
      assert tracks[t..][1..] == tracks[t + 1..];
      if tempo != DefaultTempo {
        break;
      }
      t := t + 1;
    }
  }

  /** Without any `set_tempo` message the default tempo is used. */
  lemma {:induction false} NoTempoMeansDefault(tracks: seq<Track>)
    requires forall t, j :: 0 <= t < |tracks| && 0 <= j < |tracks[t]| ==> !tracks[t][j].SetTempo?
    ensures TempoOf(tracks) == DefaultTempo
  {
    if tracks != [] {
      assert FirstTempo(tracks[0]).None?;
      NoTempoMeansDefault(tracks[1..]);
    }
  }

  /** The result is the default or the first `set_tempo` value of some track. */
  lemma {:induction false} TempoIsDefaultOrDeclared(tracks: seq<Track>)
    ensures TempoOf(tracks) == DefaultTempo
         || exists t :: 0 <= t < |tracks| && FirstTempo(tracks[t]) == Some(TempoOf(tracks))
  {
    if tracks != [] {
      TempoIsDefaultOrDeclared(tracks[1..]);
      if TempoOf(tracks) != DefaultTempo && FirstTempo(tracks[0]) != Some(TempoOf(tracks)) {
        var t :| 0 <= t < |tracks[1..]| && FirstTempo(tracks[1..][t]) == Some(TempoOf(tracks));
        assert tracks[t + 1] == tracks[1..][t];
      }
    }
  }

  /** The first track whose first `set_tempo` differs from the default decides
      the tempo, whatever later tracks declare; only the first `set_tempo` of a
      track is looked at. */
  lemma {:induction false} FirstNonDefaultTempoWins(tracks: seq<Track>, t: nat, value: int)
    requires t < |tracks| && FirstTempo(tracks[t]) == Some(value) && value != DefaultTempo
    requires forall u :: 0 <= u < t ==> FirstTempo(tracks[u]) in {None, Some(DefaultTempo)}
    ensures TempoOf(tracks) == value
  {
    if t > 0 {
      assert FirstTempo(tracks[0]) in {None, Some(DefaultTempo)};
      forall u | 0 <= u < t - 1 ensures FirstTempo(tracks[1..][u]) in {None, Some(DefaultTempo)} {
        assert tracks[1..][u] == tracks[u + 1];
      }
      FirstNonDefaultTempoWins(tracks[1..], t - 1, value);
    }
  }
}
