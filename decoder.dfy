// The receiving side of the Morse tool (decoder.py): the text parser
// `decode_morse` and the per-frame timing state machine `callback`, with the
// audio analysis reduced to a three-way classification of each frame.

module Decoder {
  import opened PyBuiltins

  /** REVERSE_MORSE_CODE_DICT: code string to character. Its contents are not
      part of this model, so it is a parameter with no assumed properties. */
  type ReverseTable = map<string, char>

  /** The separator `decode_morse` splits words on. */
  const WordSeparator: string := " / "

  /** `REVERSE_MORSE_CODE_DICT.get(code, '?')`. */
  function Lookup(table: ReverseTable, code: string): char {
    if code in table then table[code] else '?'
  }

  // =====================================================================
  // decode_morse (decoder.py:29-35)
  // =====================================================================

  /** `''.join(table.get(c, '?') for c in codes)`: one character per code,
      in order, each the code's table value or '?'. */
  function DecodeCodes(codes: seq<string>, table: ReverseTable): (r: string)
    ensures |r| == |codes|
    ensures forall j :: 0 <= j < |codes| ==> r[j] == Lookup(table, codes[j])
  {
    if codes == [] then "" else [Lookup(table, codes[0])] + DecodeCodes(codes[1..], table)
  }

  /** One word of the input: its whitespace-separated codes, decoded. */
  function DecodeWord(word: string, table: ReverseTable): string {
    DecodeCodes(Fields(word), table)
  }

  /** The word groups `decode_morse` works on. */
  function Groups(morseCode: string): seq<string> {
    SplitOn(Strip(morseCode), WordSeparator)
  }

  /** Each word group decoded on its own, in order. */
  function DecodeGroups(words: seq<string>, table: ReverseTable): (r: seq<string>)
    ensures |r| == |words|
    ensures forall i :: 0 <= i < |words| ==> r[i] == DecodeWord(words[i], table)
  {
    if words == [] then [] else [DecodeWord(words[0], table)] + DecodeGroups(words[1..], table)
  }

  /** The text `decode_morse(morseCode)` returns. */
  function Decode(morseCode: string, table: ReverseTable): string {
    Join(DecodeGroups(Groups(morseCode), table), " ")
  }

  /** `decode_morse`: strip, split into word groups on " / ", decode each
      group into `decoded`, join the results with single spaces. */
  method DecodeMorse(morseCode: string, table: ReverseTable) returns (r: string)
    ensures r == Decode(morseCode, table)
  {
    var words := SplitOn(Strip(morseCode), WordSeparator);
    var decoded: seq<string> := [];
    for i := 0 to |words|
      invariant |decoded| == i
      invariant forall k :: 0 <= k < i ==> decoded[k] == DecodeWord(words[k], table)
    {
      var decodedWord := DecodeCodes(Fields(words[i]), table);
      decoded := decoded + [decodedWord];
    }
    DecodedGroups(words, decoded, table);
    r := Join(decoded, " ");
  }

  lemma DecodedGroups(words: seq<string>, decoded: seq<string>, table: ReverseTable)
    requires |decoded| == |words|
    requires forall k :: 0 <= k < |words| ==> decoded[k] == DecodeWord(words[k], table)
    ensures decoded == DecodeGroups(words, table)
  {
  }

  /** No code of the table decodes to a space. */
  ghost predicate SpaceFreeValues(table: ReverseTable) {
    forall code :: code in table ==> table[code] != ' '
  }

  /** What `decode_morse` produces, read back: splitting its output on single
      spaces gives one word per " / "-separated group of the stripped input,
      and the j-th character of word i is the table value of the j-th code of
      group i, or '?' when that code is not in the table. This needs only that
      no table value is itself a space, so that spaces in the output are the
      joining spaces. */
  lemma DecodeSplitsIntoGroups(morseCode: string, table: ReverseTable)
    requires SpaceFreeValues(table)
    ensures var groups := Groups(morseCode);
            var words := SplitOn(Decode(morseCode, table), " ");
            && |words| == |groups|
            && forall i :: 0 <= i < |groups| ==>
                 && |words[i]| == |Fields(groups[i])|
                 && forall j :: 0 <= j < |words[i]| ==>
                      words[i][j] == (if Fields(groups[i])[j] in table then table[Fields(groups[i])[j]] else '?')
  {
    var groups := Groups(morseCode);
    var ws := DecodeGroups(groups, table);
    forall i | 0 <= i < |ws| ensures ' ' !in ws[i] {
      forall j | 0 <= j < |ws[i]| ensures ws[i][j] != ' ' {
        assert ws[i][j] == Lookup(table, Fields(groups[i])[j]);
      }
    }
    SplitJoinOneChar(ws, ' ');
  }

  /** A code the table does not know decodes to '?' without disturbing its
      neighbours: in any word, a code missing from the table yields '?' at its
      own position while every other code yields its own lookup. */
  lemma UnknownCodeIsQuestionMark(pre: seq<string>, code: string, post: seq<string>, table: ReverseTable)
    requires code !in table
    ensures var r := DecodeCodes(pre + [code] + post, table);
            && |r| == |pre| + 1 + |post|
            && r[|pre|] == '?'
            && r[..|pre|] == DecodeCodes(pre, table)
            && r[|pre| + 1..] == DecodeCodes(post, table)
  {
    var codes := pre + [code] + post;
    var r := DecodeCodes(codes, table);
    assert r[|pre|] == Lookup(table, codes[|pre|]);
    assert r[..|pre|] == DecodeCodes(pre, table) by {
      forall j | 0 <= j < |pre| ensures r[..|pre|][j] == DecodeCodes(pre, table)[j] {
        assert codes[j] == pre[j];
      }
    }
    assert r[|pre| + 1..] == DecodeCodes(post, table) by {
      forall j | 0 <= j < |post| ensures r[|pre| + 1..][j] == DecodeCodes(post, table)[j] {
        assert codes[|pre| + 1 + j] == post[j];
      }
    }
  }

  /** Whatever the input, every character of every decoded group is a value
      of the table or the sentinel '?'; nothing else enters the output but
      the joining spaces. */
  lemma DecodeCharactersFromTable(morseCode: string, table: ReverseTable)
    ensures var ws := DecodeGroups(Groups(morseCode), table);
            forall i, j :: 0 <= i < |ws| && 0 <= j < |ws[i]| ==>
                 ws[i][j] == '?' || ws[i][j] in table.Values
  {
    var ws := DecodeGroups(Groups(morseCode), table);
    forall i, j | 0 <= i < |ws| && 0 <= j < |ws[i]| ensures ws[i][j] == '?' || ws[i][j] in table.Values {
      var code := Fields(Groups(morseCode)[i])[j];
      if code in table {
        assert ws[i][j] == table[code];
      }
    }
  }

  // Two inputs worked through -------------------------------------------

  /** Two known codes separated by " / " decode to two letters and a space. */
  lemma DecodeTwoLetters()
    ensures Decode(".- / -...", map[".-" := 'A', "-..." := 'B']) == "A B"
  {
    var t := map[".-" := 'A', "-..." := 'B'];
    assert Groups(".- / -...") == [".-", "-..."] by {
      TwoLettersStrip();
      TwoLettersSplit();
    }
    TwoLettersGroups();
    TwoLettersJoin();
    assert Decode(".- / -...", t) == Join(DecodeGroups([".-", "-..."], t), " ");
  }

  lemma TwoLettersJoin()
    ensures Join(["A", "B"], " ") == "A B"
  {
    assert ["A", "B"][1..] == ["B"];
  }

  lemma TwoLettersStrip()
    ensures Strip(".- / -...") == ".- / -..."
  {
    var s := ".- / -...";
    assert LeadingSpaces(s) == 0 && s[0..] == s;
    assert TrailingSpaces(s) == 0 && s[..|s|] == s;
  }

  lemma TwoLettersSplit()
    ensures SplitOn(".- / -...", WordSeparator) == [".-", "-..."]
  {
    var s := ".- / -...";
    TwoLettersFirstSeparator();
    TwoLettersNoSecondSeparator();
    assert s[..2] == ".-" && s[5..] == "-...";
  }

  lemma TwoLettersFirstSeparator()
    ensures Find(".- / -...", WordSeparator) == Some(2)
  {
    var s := ".- / -...";
    assert s[..3] != WordSeparator by { assert s[..3][0] == '.'; }
    assert s[1..][..3] != WordSeparator by { assert s[1..][..3][0] == '-'; }
    assert s[1..][1..][..3] == WordSeparator;
  }

  lemma TwoLettersNoSecondSeparator()
    ensures Find("-...", WordSeparator) == None
  {
    var u := "-...";
    assert u[..3] != WordSeparator by { assert u[..3][0] == '-'; }
    assert u[1..][..3] != WordSeparator by { assert u[1..][..3][0] == '.'; }
  }

  lemma TwoLettersGroups()
    ensures DecodeGroups([".-", "-..."], map[".-" := 'A', "-..." := 'B']) == ["A", "B"]
  {
    assert WordLength(".-") == 2 && ".-"[..2] == ".-" && ".-"[2..] == "";
    assert WordLength("-...") == 4 && "-..."[..4] == "-..." && "-..."[4..] == "";
    assert Fields(".-") == [".-"] && Fields("-...") == ["-..."];
    var t := map[".-" := 'A', "-..." := 'B'];
    assert DecodeWord(".-", t) == "A" && DecodeWord("-...", t) == "B";
  }

  /** Splitting on " / " does not undo joining with it when a word ends in
      part of the separator: `" /"` and `""` join to `" / / "`, which
      `split(" / ")` cuts at its leftmost occurrence, at index 0. */
  lemma SeparatorJoinNotUndone()
    ensures Join([" /", ""], WordSeparator) == " / / "
    ensures SplitOn(" / / ", WordSeparator) == ["", "/ "]
  {
    var s := " / / ";
    assert [" /", ""][1..] == [""];
    assert s[..3] == WordSeparator;
    assert s[..0] == "" && s[3..] == "/ ";
  }

  /** A trailing " / " does not start an empty word: stripping removes its
      final space, so its slash is read as one more code, unknown here. */
  lemma DecodeTrailingSeparator()
    ensures Decode(".- / ", map[".-" := 'A']) == "A?"
  {
    TrailingSeparatorStrip();
    TrailingSeparatorSplit();
    TrailingSeparatorFields();
    var t := map[".-" := 'A'];
    assert Groups(".- / ") == [".- /"];
    assert DecodeWord(".- /", t) == "A?";
    assert DecodeGroups([".- /"], t) == ["A?"];
  }

  lemma TrailingSeparatorStrip()
    ensures Strip(".- / ") == ".- /"
  {
    var s := ".- / ";
    assert LeadingSpaces(s) == 0 && s[0..] == s;
    assert s[..4] == ".- /";
    assert TrailingSpaces(".- /") == 0;
    assert TrailingSpaces(s) == 1;
  }

  lemma TrailingSeparatorSplit()
    ensures Find(".- /", WordSeparator) == None
  {
    var u := ".- /";
    assert u[..3] != WordSeparator by { assert u[..3][0] == '.'; }
    assert u[1..][..3] != WordSeparator by { assert u[1..][..3][0] == '-'; }
    assert |u[1..][1..]| < 3;
  }

  lemma TrailingSeparatorFields()
    ensures Fields(".- /") == [".-", "/"]
  {
    assert WordLength("/") == 1;
    assert "/"[..1] == "/" && "/"[1..] == "";
    assert Fields("/") == ["/"];
    assert " /"[1..] == "/";
    assert Fields(" /") == ["/"];
    assert WordLength(".- /") == 2;
    assert ".- /"[..2] == ".-";
    assert ".- /"[2..] == " /";
  }

  // =====================================================================
  // callback (decoder.py:37-71): the timing state machine
  // =====================================================================

  // Decision thresholds in seconds (decoder.py:13-16).
  const DotThreshold: real := 0.25
  const DashThreshold: real := 0.5
  const LetterSpaceThreshold: real := 0.75
  const WordSpaceThreshold: real := 1.5

  /** How a captured frame falls through the branches of `callback`: above the
      amplitude threshold with its dominant frequency inside 400-450 Hz, above
      the threshold but outside the band, or at or below the threshold. */
  datatype Frame = InBandTone | OffBandNoise | Quiet

  /** The three session variables `callback` rewrites. */
  datatype State = State(currentSymbol: string, decodedMessage: string, lastSignalTime: Option<real>)

  /** The values at import time (decoder.py:18-20). */
  const Initial: State := State("", "", None)

  /** `current_symbol` holds only dots and dashes. */
  ghost predicate DotsAndDashes(s: string) {
    forall k :: 0 <= k < |s| ==> s[k] == '.' || s[k] == '-'
  }

  /** What a finished tone of `duration` seconds adds to `current_symbol`:
      a dot below the dot threshold, a dash from there up to (not including)
      the dash threshold, and nothing for a longer tone, which decoder.py:59
      only prints as ignored. */
  function SymbolFor(duration: real): (sym: string)
    ensures sym == "." <==> duration < DotThreshold
    ensures sym == "-" <==> DotThreshold <= duration < DashThreshold
    ensures sym == "" <==> DashThreshold <= duration
  {
    if duration < DotThreshold then "." else if duration < DashThreshold then "-" else ""
  }

  /** `silence_duration` at decoder.py:63. Python's `if last_signal_time`
      is false both for None and for a timestamp of 0.0. */
  function SilenceDuration(last: Option<real>, now: real): real {
    if last.Some? && last.value != 0.0 then now - last.value else 0.0
  }

  /** Lines 51-60: a quiet frame ends a pending tone, classifies it and forgets
      its start time. */
  function EndTone(st: State, now: real): State {
    if st.lastSignalTime.Some? then
      st.(currentSymbol := st.currentSymbol + SymbolFor(now - st.lastSignalTime.value),
          lastSignalTime := None)
    else st
  }

  /** Lines 62-71: the letter and word flush, for whatever `last_signal_time`
      holds when it runs. */
  function Flush(st: State, now: real, table: ReverseTable): State {
    if st.currentSymbol == "" then st
    else
      var silence := SilenceDuration(st.lastSignalTime, now);
      var afterLetter :=
        if silence > LetterSpaceThreshold then
          st.(decodedMessage := st.decodedMessage + [Lookup(table, st.currentSymbol)], currentSymbol := "")
        else st;
      if silence > WordSpaceThreshold then afterLetter.(decodedMessage := afterLetter.decodedMessage + " ")
      else afterLetter
  }

  /** One call of `callback` on a frame classified as `frame`, at time `now`. */
  function Callback(st: State, frame: Frame, now: real, table: ReverseTable): State {
    match frame
    case InBandTone => if st.lastSignalTime.None? then st.(lastSignalTime := Some(now)) else st
    case OffBandNoise => st
    case Quiet => Flush(EndTone(st, now), now, table)
  }

  /** The flush as designed, for a `last_signal_time` that is still set: at
      most the letter threshold of silence changes nothing; beyond it the
      pending code is resolved in the table (or to '?') and appended; beyond
      the word threshold a space follows it. Gap comparisons are strict. */
  lemma FlushByDesign(st: State, now: real, table: ReverseTable)
    requires st.currentSymbol != ""
    requires st.lastSignalTime.Some? && st.lastSignalTime.value != 0.0
    ensures var silence := now - st.lastSignalTime.value;
            var r := Flush(st, now, table);
            && r.lastSignalTime == st.lastSignalTime
            && (silence <= LetterSpaceThreshold ==> r == st)
            && (LetterSpaceThreshold < silence <= WordSpaceThreshold ==>
                  r.currentSymbol == "" && r.decodedMessage == st.decodedMessage + [Lookup(table, st.currentSymbol)])
            && (WordSpaceThreshold < silence ==>
                  r.currentSymbol == "" && r.decodedMessage == st.decodedMessage + [Lookup(table, st.currentSymbol), ' '])
  {
  }

  /** The flush, as the code runs it: once `last_signal_time` is None its
      silence duration is 0 and neither threshold is crossed. */
  lemma FlushAfterResetDoesNothing(st: State, now: real, table: ReverseTable)
    requires st.lastSignalTime.None?
    ensures SilenceDuration(st.lastSignalTime, now) == 0.0
    ensures Flush(st, now, table) == st
  {
  }

  /** A quiet frame always leaves `last_signal_time` as None before the flush
      reads it (line 60, or no pending tone at all), so the flush is dead. */
  lemma QuietFrameResetsBeforeFlush(st: State, now: real)
    ensures EndTone(st, now).lastSignalTime.None?
  {
  }

  /** An in-band tone frame records `now` only when no tone is pending, so the
      first tone frame's time is kept; nothing else changes. */
  lemma ToneFrameKeepsFirstTime(st: State, now: real, table: ReverseTable)
    ensures var r := Callback(st, InBandTone, now, table);
            && r.currentSymbol == st.currentSymbol
            && r.decodedMessage == st.decodedMessage
            && r.lastSignalTime == (if st.lastSignalTime.Some? then st.lastSignalTime else Some(now))
  {
  }

  /** A loud frame outside the band changes no state at all. */
  lemma OffBandFrameChangesNothing(st: State, now: real, table: ReverseTable)
    ensures Callback(st, OffBandNoise, now, table) == st
  {
  }

  /** A quiet frame that ends a tone appends that tone's symbol (a dot, a dash
      or nothing) and forgets the start time; the message does not change. */
  lemma QuietFrameEndsTone(st: State, now: real, table: ReverseTable)
    requires st.lastSignalTime.Some?
    ensures var r := Callback(st, Quiet, now, table);
            var duration := now - st.lastSignalTime.value;
            && r.lastSignalTime.None?
            && r.decodedMessage == st.decodedMessage
            && (duration < DotThreshold ==> r.currentSymbol == st.currentSymbol + ".")
            && (DotThreshold <= duration < DashThreshold ==> r.currentSymbol == st.currentSymbol + "-")
            && (DashThreshold <= duration ==> r.currentSymbol == st.currentSymbol)
  {
    FlushAfterResetDoesNothing(EndTone(st, now), now, table);
  }

  /** A quiet frame with no pending tone changes nothing: the flush it reaches
      never fires. */
  lemma QuietFrameWithoutToneChangesNothing(st: State, now: real, table: ReverseTable)
    requires st.lastSignalTime.None?
    ensures Callback(st, Quiet, now, table) == st
  {
    FlushAfterResetDoesNothing(st, now, table);
  }

  /** Every call keeps `current_symbol` made of dots and dashes, only ever
      extends it, by at most one character, and leaves `decoded_message`
      as it was. */
  lemma CallbackStep(st: State, frame: Frame, now: real, table: ReverseTable)
    requires DotsAndDashes(st.currentSymbol)
    ensures var r := Callback(st, frame, now, table);
            && DotsAndDashes(r.currentSymbol)
            && |st.currentSymbol| <= |r.currentSymbol| <= |st.currentSymbol| + 1
            && r.currentSymbol[..|st.currentSymbol|] == st.currentSymbol
            && r.decodedMessage == st.decodedMessage
  {
    if frame == Quiet {
      FlushAfterResetDoesNothing(EndTone(st, now), now, table);
    }
  }

  /** A frame as the audio stream delivers it, with the time it is seen. */
  datatype Input = Input(frame: Frame, now: real)

  /** The state after `callback` has run on each input in turn. */
  function Run(st: State, inputs: seq<Input>, table: ReverseTable): State
    decreases |inputs|
  {
    if inputs == [] then st
    else Run(Callback(st, inputs[0].frame, inputs[0].now, table), inputs[1..], table)
  }

  /** Over any run of frames, `decoded_message` never changes, and
      `current_symbol` only grows, by at most one dot or dash per frame: the
      letter and word flushes never execute. */
  lemma {:induction false} RunNeverDecodes(st: State, inputs: seq<Input>, table: ReverseTable)
    requires DotsAndDashes(st.currentSymbol)
    ensures var r := Run(st, inputs, table);
            && r.decodedMessage == st.decodedMessage
            && DotsAndDashes(r.currentSymbol)
            && |st.currentSymbol| <= |r.currentSymbol| <= |st.currentSymbol| + |inputs|
            && r.currentSymbol[..|st.currentSymbol|] == st.currentSymbol
    decreases |inputs|
  {
    if inputs != [] {
      var next := Callback(st, inputs[0].frame, inputs[0].now, table);
      CallbackStep(st, inputs[0].frame, inputs[0].now, table);
      RunNeverDecodes(next, inputs[1..], table);
      var r := Run(next, inputs[1..], table);
      assert r.currentSymbol[..|st.currentSymbol|] == r.currentSymbol[..|next.currentSymbol|][..|st.currentSymbol|];
    }
  }

  /** From the start of a session, the message stays empty forever. */
  lemma SessionMessageStaysEmpty(inputs: seq<Input>, table: ReverseTable)
    ensures Run(Initial, inputs, table).decodedMessage == ""
  {
    RunNeverDecodes(Initial, inputs, table);
  }

  /** The letter A with a dash short enough to classify (a 0.2 s tone, a
      0.2 s pause, a 0.4 s tone), then 1.6 s of silence, long past both gap
      thresholds: the code ".-" is collected but never turned into a letter,
      and no space is written. */
  lemma LetterAIsNeverFlushed(table: ReverseTable)
    ensures Run(Initial, [Input(InBandTone, 0.0), Input(Quiet, 0.2), Input(InBandTone, 0.4),
                          Input(Quiet, 0.8), Input(Quiet, 1.7), Input(Quiet, 2.4)], table)
            == State(".-", "", None)
  {
    var s1 := Callback(Initial, InBandTone, 0.0, table);
    assert s1 == State("", "", Some(0.0));
    var s2 := Callback(s1, Quiet, 0.2, table);
    assert s2 == State(".", "", None);
    var s3 := Callback(s2, InBandTone, 0.4, table);
    assert s3 == State(".", "", Some(0.4));
    var s4 := Callback(s3, Quiet, 0.8, table);
    assert s4 == State(".-", "", None);
  }

  /** The letter A at the sender's own timing (a 0.2 s dot, a 0.2 s pause,
      a 0.6 s dash), then 1.6 s of silence: the dash is at least the dash
      threshold and is dropped as a long signal, leaving only ".". */
  lemma LetterAAtSenderTiming(table: ReverseTable)
    ensures Run(Initial, [Input(InBandTone, 0.0), Input(Quiet, 0.2), Input(InBandTone, 0.4),
                          Input(Quiet, 1.0), Input(Quiet, 1.6), Input(Quiet, 2.6)], table)
            == State(".", "", None)
  {
    var s2 := Callback(Callback(Initial, InBandTone, 0.0, table), Quiet, 0.2, table);
    assert s2 == State(".", "", None);
    var s4 := Callback(Callback(s2, InBandTone, 0.4, table), Quiet, 1.0, table);
    assert s4 == State(".", "", None);
  }

  /** The session state of decoder.py: the three module globals, rewritten in
      place by each `callback`. */
  class Listener {
    var currentSymbol: string
    var decodedMessage: string
    var lastSignalTime: Option<real>

    function Snapshot(): State
      reads this
    {
      State(currentSymbol, decodedMessage, lastSignalTime)
    }

    ghost predicate Valid()
      reads this
    {
      DotsAndDashes(currentSymbol)
    }

    constructor ()
      ensures Valid()
      ensures Snapshot() == Initial
    {
      currentSymbol := "";
      decodedMessage := "";
      lastSignalTime := None;
    }

    /** decoder.py:62-71, the letter and word flush. */
    method FlushPending(now: real, table: ReverseTable)
      requires Valid()
      modifies this
      ensures Valid()
      ensures Snapshot() == Flush(old(Snapshot()), now, table)
    {
      if currentSymbol != "" {
        var silenceDuration := if lastSignalTime.Some? && lastSignalTime.value != 0.0
                               then now - lastSignalTime.value else 0.0;
        if silenceDuration > LetterSpaceThreshold {
          decodedMessage := decodedMessage + [Lookup(table, currentSymbol)];
          currentSymbol := "";
        }
        if silenceDuration > WordSpaceThreshold {
          decodedMessage := decodedMessage + " ";
        }
      }
    }

    /** `callback` on one frame, classified as `frame`, seen at time `now`. */
    method Step(frame: Frame, now: real, table: ReverseTable)
      requires Valid()
      modifies this
      ensures Valid()
      ensures Snapshot() == Callback(old(Snapshot()), frame, now, table)
      ensures decodedMessage == old(decodedMessage)
      ensures |old(currentSymbol)| <= |currentSymbol| <= |old(currentSymbol)| + 1
    {
      ghost var before := Snapshot();
      if frame != Quiet {
        if frame == InBandTone {
          if lastSignalTime == None {
            lastSignalTime := Some(now);
          }
          return;
        }
      } else {
        if lastSignalTime.Some? {
          var duration := now - lastSignalTime.value;
          if duration < DotThreshold {
            currentSymbol := currentSymbol + ".";
          } else if duration < DashThreshold {
            currentSymbol := currentSymbol + "-";
          }
          lastSignalTime := None;
        }
        assert Snapshot() == EndTone(before, now);
        FlushPending(now, table);
      }
      CallbackStep(before, frame, now, table);
    }
  }
}
