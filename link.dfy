// How the receiver's thresholds read the sender's timing: the two files are
// tuned to different unit lengths.

module Link {
  import opened PyBuiltins
  import Decoder
  import opened Encoder

  /** Played at DOT_DURATION = 0.2 s, each tone of a schedule lasts 0.2 s for
      a dot and 0.6 s for a dash. The receiver classifies these durations as
      a dot and as nothing: 0.6 s is at least its 0.5 s dash threshold, so
      every dash the sender plays is dropped as a long signal. */
  lemma SenderDashesAreDropped(message: string, table: CodeTable)
    ensures var tones := ToneLengths(Schedule(message, table));
            var marks := Marks(CodeOf(Upper(message), table));
            && |tones| == |marks|
            && forall k :: 0 <= k < |tones| ==>
                 Decoder.SymbolFor(tones[k] as real * UnitSeconds) == (if marks[k] == '.' then "." else "")
  {
    ScheduleTones(message, table);
    var tones := ToneLengths(Schedule(message, table));
    var marks := Marks(CodeOf(Upper(message), table));
    forall k | 0 <= k < |tones|
      ensures Decoder.SymbolFor(tones[k] as real * UnitSeconds) == (if marks[k] == '.' then "." else "")
    {
      if marks[k] == '.' {
        assert tones[k] as real * UnitSeconds == 0.2;
      } else {
        assert tones[k] as real * UnitSeconds == 0.6;
      }
    }
  }
}
