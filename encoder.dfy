// The sending side of the Morse tool (encoder.py): `send_morse` turns a
// message into a timed schedule of tone bursts and pauses. Here the schedule
// is a sequence of events instead of calls to `beep` and `time.sleep`.

module Encoder {
  import opened PyBuiltins

  /** A tone burst or a pause, lasting a whole number of dot units. */
  datatype Event = Tone(units: nat) | Silence(units: nat)

  // Durations in dot units (encoder.py:11-15, DOT_DURATION being one unit).
  const DotUnits: nat := 1
  const DashUnits: nat := DotUnits * 3
  const SymbolSpace: nat := DotUnits
  const LetterSpace: nat := DotUnits * 3
  const WordSpace: nat := DotUnits * 7

  /** DOT_DURATION: one unit lasts 0.2 seconds. */
  const UnitSeconds: real := 0.2

  /** MORSE_CODE_DICT: character to code string. Its contents are not part of
      this model, so it is a parameter with no assumed properties. */
  type CodeTable = map<char, string>

  /** Lines 30-34: one symbol of a code, then the symbol space. A symbol
      other than '.' and '-' sounds no tone but still pauses. */
  function SymbolEvents(symbol: char): seq<Event> {
    (if symbol == '.' then [Tone(DotUnits)] else if symbol == '-' then [Tone(DashUnits)] else [])
    + [Silence(SymbolSpace)]
  }

  /** Lines 29-34: the symbols of one code, in order. */
  function CodeEvents(code: string): seq<Event>
    decreases |code|
  {
    if code == [] then [] else CodeEvents(code[..|code| - 1]) + SymbolEvents(code[|code| - 1])
  }

  /** Lines 26-35: one character of the upper-cased message, nothing at all
      when the table has no code for it. */
  function CharEvents(ch: char, table: CodeTable): seq<Event> {
    if ch !in table then []
    else CodeEvents(table[ch]) + [Silence(LetterSpace - SymbolSpace)]
  }

  /** Lines 25-35: every character of `msg`, in order. */
  function MessageEvents(msg: string, table: CodeTable): seq<Event>
    decreases |msg|
  {
    if msg == [] then [] else MessageEvents(msg[..|msg| - 1], table) + CharEvents(msg[|msg| - 1], table)
  }

  /** The whole schedule of `send_morse(message)`. */
  function Schedule(message: string, table: CodeTable): seq<Event> {
    MessageEvents(Upper(message), table) + [Silence(WordSpace)]
  }

  /** `send_morse`: upper-case the message, then for each character the table
      knows, each symbol of its code as a tone (dot or dash) and a symbol
      space, then the rest of the letter space; finally the word space. */
  method SendMorse(message: string, table: CodeTable) returns (events: seq<Event>)
    ensures events == Schedule(message, table)
  {
    var msg := Upper(message);
    events := [];
    for i := 0 to |msg|
      invariant events == MessageEvents(msg[..i], table)
    {
      MessageEventsStep(msg, i, table);
      var ch := msg[i];
      if ch !in table {
        continue;
      }
      var letter := SendSymbols(table[ch]);
      events := events + letter + [Silence(LetterSpace - SymbolSpace)];
    }
    assert msg[..|msg|] == msg;
    events := events + [Silence(WordSpace)];
  }

  /** The inner loop of `send_morse` (lines 29-34) over the symbols of one
      code: a tone per dot or dash, each followed by a symbol space. */
  method SendSymbols(morse: string) returns (events: seq<Event>)
    ensures events == CodeEvents(morse)
  {
    events := [];
    for j := 0 to |morse|
      invariant events == CodeEvents(morse[..j])
    {
      CodeEventsStep(morse, j);
      var symbol := morse[j];
      if symbol == '.' {
        events := events + [Tone(DotUnits)];
      } else if symbol == '-' {
        events := events + [Tone(DashUnits)];
      }
      events := events + [Silence(SymbolSpace)];
    }
    assert morse[..|morse|] == morse;
  }

  lemma MessageEventsStep(msg: string, i: nat, table: CodeTable)
    requires i < |msg|
    ensures MessageEvents(msg[..i + 1], table) == MessageEvents(msg[..i], table) + CharEvents(msg[i], table)
  {
    assert msg[..i + 1][..i] == msg[..i];
  }

  lemma CodeEventsStep(code: string, j: nat)
    requires j < |code|
    ensures CodeEvents(code[..j + 1]) == CodeEvents(code[..j]) + SymbolEvents(code[j])
  {
    assert code[..j + 1][..j] == code[..j];
  }


  // ---------------------------------------------------------------------
  // Properties of the schedule
  // ---------------------------------------------------------------------

  /** The schedule of a message is the schedules of its parts, back to back. */
  lemma {:induction false} MessageEventsAppend(a: string, b: string, table: CodeTable)
    ensures MessageEvents(a + b, table) == MessageEvents(a, table) + MessageEvents(b, table)
    decreases |b|
  {
    if b == [] {
      assert a + b == a;
    } else {
      var b' := b[..|b| - 1];
      assert (a + b)[..|a + b| - 1] == a + b';
      MessageEventsAppend(a, b', table);
    }
  }

  /** Case does not matter: the schedule of a message is the schedule of its
      upper-cased form, so a lower-case letter sends exactly what its capital
      sends. */
  lemma ScheduleIgnoresCase(message: string, table: CodeTable)
    ensures Schedule(message, table) == Schedule(Upper(message), table)
  {
    UpperIdempotent(message);
  }

  /** A lower-case ASCII letter anywhere in a message can be replaced by its
      capital without changing the schedule. */
  lemma LowerCaseLetterSendsAsCapital(pre: string, c: char, post: string, table: CodeTable)
    requires 'a' <= c <= 'z'
    ensures Schedule(pre + [c] + post, table) == Schedule(pre + [ToUpper(c)] + post, table)
  {
    var m1 := pre + [c] + post;
    var m2 := pre + [ToUpper(c)] + post;
    assert Upper(m1) == Upper(m2) by {
      forall i | 0 <= i < |m1| ensures Upper(m1)[i] == Upper(m2)[i] {
        if i == |pre| {
          assert ToUpper(ToUpper(c)) == ToUpper(c);
        } else {
          assert m1[i] == m2[i];
        }
      }
    }
  }

  /** The characters of `msg` the table has a code for, in order. */
  function Supported(msg: string, table: CodeTable): string
    decreases |msg|
  {
    if msg == [] then []
    else Supported(msg[..|msg| - 1], table) + (if msg[|msg| - 1] in table then [msg[|msg| - 1]] else [])
  }

  /** Characters the table does not know emit no events: the schedule of a
      message equals that of its supported characters alone. */
  lemma {:induction false} UnsupportedCharactersEmitNothing(msg: string, table: CodeTable)
    ensures MessageEvents(msg, table) == MessageEvents(Supported(msg, table), table)
    decreases |msg|
  {
    if msg != [] {
      var init := msg[..|msg| - 1];
      var last := msg[|msg| - 1];
      UnsupportedCharactersEmitNothing(init, table);
      var kept := if last in table then [last] else [];
      MessageEventsAppend(Supported(init, table), kept, table);
      if last in table {
        assert [last][..0] == [];
      }
    }
  }

  /** Whatever the message, the schedule ends with the word space, and a
      message with no supported character (the empty one included) sends only
      that. */
  lemma ScheduleEndsWithWordSpace(message: string, table: CodeTable)
    ensures var s := Schedule(message, table);
            |s| >= 1 && s[|s| - 1] == Silence(WordSpace)
    ensures (forall i :: 0 <= i < |message| ==> ToUpper(message[i]) !in table) ==>
              Schedule(message, table) == [Silence(WordSpace)]
  {
    if forall i :: 0 <= i < |message| ==> ToUpper(message[i]) !in table {
      NothingSupportedSendsNothing(Upper(message), table);
    }
  }

  lemma {:induction false} NothingSupportedSendsNothing(msg: string, table: CodeTable)
    requires forall i :: 0 <= i < |msg| ==> msg[i] !in table
    ensures MessageEvents(msg, table) == []
    decreases |msg|
  {
    if msg != [] {
      NothingSupportedSendsNothing(msg[..|msg| - 1], table);
    }
  }

  // Tones and their lengths ---------------------------------------------

  /** The dots and dashes of a code, in order; other symbols dropped. */
  function Marks(code: string): string
    decreases |code|
  {
    if code == [] then []
    else Marks(code[..|code| - 1]) + (if code[|code| - 1] in "-." then [code[|code| - 1]] else [])
  }

  /** The codes of the characters of `msg` the table knows, one after
      another. */
  function CodeOf(msg: string, table: CodeTable): string
    decreases |msg|
  {
    if msg == [] then []
    else CodeOf(msg[..|msg| - 1], table) + (if msg[|msg| - 1] in table then table[msg[|msg| - 1]] else [])
  }

  /** The lengths of the tones of a schedule, in order. */
  function ToneLengths(events: seq<Event>): seq<nat>
    decreases |events|
  {
    if events == [] then []
    else ToneLengths(events[..|events| - 1]) + (if events[|events| - 1].Tone? then [events[|events| - 1].units] else [])
  }

  /** Tone lengths of the dots and dashes of a code. */
  function MarkLengths(marks: string): seq<nat>
    decreases |marks|
  {
    if marks == [] then []
    else MarkLengths(marks[..|marks| - 1]) + [if marks[|marks| - 1] == '.' then DotUnits else DashUnits]
  }

  lemma {:induction false} ToneLengthsAppend(a: seq<Event>, b: seq<Event>)
    ensures ToneLengths(a + b) == ToneLengths(a) + ToneLengths(b)
    decreases |b|
  {
    if b == [] {
      assert a + b == a;
    } else {
      assert (a + b)[..|a + b| - 1] == a + b[..|b| - 1];
      ToneLengthsAppend(a, b[..|b| - 1]);
    }
  }

  lemma {:induction false} MarksAppend(a: string, b: string)
    ensures Marks(a + b) == Marks(a) + Marks(b)
    decreases |b|
  {
    if b == [] {
      assert a + b == a;
    } else {
      assert (a + b)[..|a + b| - 1] == a + b[..|b| - 1];
      MarksAppend(a, b[..|b| - 1]);
    }
  }

  lemma {:induction false} MarkLengthsAppend(a: string, b: string)
    ensures MarkLengths(a + b) == MarkLengths(a) + MarkLengths(b)
    decreases |b|
  {
    if b == [] {
      assert a + b == a;
    } else {
      assert (a + b)[..|a + b| - 1] == a + b[..|b| - 1];
      MarkLengthsAppend(a, b[..|b| - 1]);
    }
  }

  /** The tones of one code: a 1-unit tone per dot and a 3-unit tone per
      dash, in the code's order. */
  lemma {:induction false} CodeTones(code: string)
    ensures ToneLengths(CodeEvents(code)) == MarkLengths(Marks(code))
    decreases |code|
  {
    if code != [] {
      var init := code[..|code| - 1];
      var sym := code[|code| - 1];
      CodeTones(init);
      ToneLengthsAppend(CodeEvents(init), SymbolEvents(sym));
      var m := if sym in "-." then [sym] else [];
      MarkLengthsAppend(Marks(init), m);
      var tone := if sym == '.' then [Tone(DotUnits)] else if sym == '-' then [Tone(DashUnits)] else [];
      ToneLengthsAppend(tone, [Silence(SymbolSpace)]);
      assert ToneLengths([Silence(SymbolSpace)]) == [];
      if sym == '.' || sym == '-' {
        assert ToneLengths(tone) == [if sym == '.' then DotUnits else DashUnits];
        assert MarkLengths(m) == [if sym == '.' then DotUnits else DashUnits];
      }
    }
  }

  /** The tones of a message are, in message order, one per dot or dash of the
      codes of its supported characters: 1 unit for a dot, 3 for a dash. */
  lemma {:induction false} MessageTones(msg: string, table: CodeTable)
    ensures ToneLengths(MessageEvents(msg, table)) == MarkLengths(Marks(CodeOf(msg, table)))
    decreases |msg|
  {
    if msg != [] {
      var init := msg[..|msg| - 1];
      var ch := msg[|msg| - 1];
      MessageTones(init, table);
      ToneLengthsAppend(MessageEvents(init, table), CharEvents(ch, table));
      var code := if ch in table then table[ch] else [];
      MarksAppend(CodeOf(init, table), code);
      MarkLengthsAppend(Marks(CodeOf(init, table)), Marks(code));
      if ch in table {
        ToneLengthsAppend(CodeEvents(code), [Silence(LetterSpace - SymbolSpace)]);
        assert ToneLengths([Silence(LetterSpace - SymbolSpace)]) == [];
        CodeTones(code);
      }
    }
  }

  /** The tones `send_morse` plays, in order: as many as there are dots and
      dashes in the codes of the message's supported characters, each dot
      1 unit and each dash 3. */
  lemma ScheduleTones(message: string, table: CodeTable)
    ensures var tones := ToneLengths(Schedule(message, table));
            var marks := Marks(CodeOf(Upper(message), table));
            && |tones| == |marks|
            && forall k :: 0 <= k < |marks| ==> tones[k] == (if marks[k] == '.' then DotUnits else DashUnits)
  {
    var m := MessageEvents(Upper(message), table);
    ToneLengthsAppend(m, [Silence(WordSpace)]);
    assert ToneLengths([Silence(WordSpace)]) == [];
    MessageTones(Upper(message), table);
    MarkLengthsPointwise(Marks(CodeOf(Upper(message), table)));
  }

  lemma {:induction false} MarkLengthsPointwise(marks: string)
    ensures |MarkLengths(marks)| == |marks|
    ensures forall k :: 0 <= k < |marks| ==>
              MarkLengths(marks)[k] == (if marks[k] == '.' then DotUnits else DashUnits)
    decreases |marks|
  {
    if marks != [] {
      MarkLengthsPointwise(marks[..|marks| - 1]);
    }
  }

  // Spacing ---------------------------------------------------------------

  /** Every tone is followed at once by a symbol space. */
  ghost predicate TonesSpaced(events: seq<Event>) {
    forall i :: 0 <= i < |events| && events[i].Tone? ==>
      i + 1 < |events| && events[i + 1] == Silence(SymbolSpace)
  }

  lemma TonesSpacedAppend(a: seq<Event>, b: seq<Event>)
    requires TonesSpaced(a) && TonesSpaced(b)
    ensures TonesSpaced(a + b)
  {
    forall i | 0 <= i < |a + b| && (a + b)[i].Tone?
      ensures i + 1 < |a + b| && (a + b)[i + 1] == Silence(SymbolSpace)
    {
      if i < |a| {
        assert a[i].Tone?;
      } else {
        assert b[i - |a|].Tone?;
      }
    }
  }

  lemma {:induction false} CodeTonesSpaced(code: string)
    ensures TonesSpaced(CodeEvents(code))
    decreases |code|
  {
    if code != [] {
      CodeTonesSpaced(code[..|code| - 1]);
      TonesSpacedAppend(CodeEvents(code[..|code| - 1]), SymbolEvents(code[|code| - 1]));
    }
  }

  lemma {:induction false} MessageTonesSpaced(msg: string, table: CodeTable)
    ensures TonesSpaced(MessageEvents(msg, table))
    decreases |msg|
  {
    if msg != [] {
      var ch := msg[|msg| - 1];
      MessageTonesSpaced(msg[..|msg| - 1], table);
      if ch in table {
        CodeTonesSpaced(table[ch]);
        TonesSpacedAppend(CodeEvents(table[ch]), [Silence(LetterSpace - SymbolSpace)]);
      }
      TonesSpacedAppend(MessageEvents(msg[..|msg| - 1], table), CharEvents(ch, table));
    }
  }

  /** In the whole schedule every tone is followed by a 1-unit symbol space,
      so two tones are never adjacent. */
  lemma ScheduleTonesSpaced(message: string, table: CodeTable)
    ensures var s := Schedule(message, table);
            && TonesSpaced(s)
            && forall i :: 0 <= i < |s| - 1 ==> !(s[i].Tone? && s[i + 1].Tone?)
  {
    MessageTonesSpaced(Upper(message), table);
    TonesSpacedAppend(MessageEvents(Upper(message), table), [Silence(WordSpace)]);
  }

  /** Total length of the pauses at the end of a schedule, after its last
      tone. */
  function TrailingSilence(events: seq<Event>): nat
    decreases |events|
  {
    if events == [] || events[|events| - 1].Tone? then 0
    else events[|events| - 1].units + TrailingSilence(events[..|events| - 1])
  }

  /** After every letter with a non-empty code, the last symbol's 1-unit
      symbol space is followed by the 2 units that make up the letter space.
      When that last symbol is a dot or a dash, the whole pause after its tone
      is thus exactly one letter space of 3 units. */
  lemma LetterGap(ch: char, table: CodeTable)
    requires ch in table && table[ch] != []
    ensures var e := CharEvents(ch, table);
            var last := table[ch][|table[ch]| - 1];
            && |e| >= 2
            && e[|e| - 2..] == [Silence(SymbolSpace), Silence(LetterSpace - SymbolSpace)]
            && (last == '.' || last == '-' ==>
                  |e| >= 3 && e[|e| - 3].Tone? && TrailingSilence(e) == LetterSpace)
  {
    CodeGap(table[ch]);
  }

  lemma CodeGap(code: string)
    requires code != []
    ensures var e := CodeEvents(code) + [Silence(LetterSpace - SymbolSpace)];
            var last := code[|code| - 1];
            && |e| >= 2
            && e[|e| - 2..] == [Silence(SymbolSpace), Silence(LetterSpace - SymbolSpace)]
            && (last == '.' || last == '-' ==>
                  |e| >= 3 && e[|e| - 3].Tone? && TrailingSilence(e) == LetterSpace)
  {
    var init := CodeEvents(code[..|code| - 1]);
    assert CodeEvents(code) == init + SymbolEvents(code[|code| - 1]);
    SymbolGap(init, code[|code| - 1]);
  }

  lemma SymbolGap(init: seq<Event>, sym: char)
    ensures var e := init + SymbolEvents(sym) + [Silence(LetterSpace - SymbolSpace)];
            && |e| >= 2
            && e[|e| - 2..] == [Silence(SymbolSpace), Silence(LetterSpace - SymbolSpace)]
            && (sym == '.' || sym == '-' ==>
                  |e| >= 3 && e[|e| - 3].Tone? && TrailingSilence(e) == LetterSpace)
  {
    var gap := Silence(LetterSpace - SymbolSpace);
    if sym == '.' || sym == '-' {
      var tone := Tone(if sym == '.' then DotUnits else DashUnits);
      assert init + SymbolEvents(sym) + [gap] == init + [tone, Silence(SymbolSpace), gap];
      ClosingPause(init, tone);
    } else {
      var e := init + [Silence(SymbolSpace), gap];
      assert init + SymbolEvents(sym) + [gap] == e;
      assert e[|e| - 2..] == [Silence(SymbolSpace), gap];
    }
  }

  lemma ClosingPause(init: seq<Event>, tone: Event)
    requires tone.Tone?
    ensures var e := init + [tone, Silence(SymbolSpace), Silence(LetterSpace - SymbolSpace)];
            && e[|e| - 3].Tone?
            && e[|e| - 2..] == [Silence(SymbolSpace), Silence(LetterSpace - SymbolSpace)]
            && TrailingSilence(e) == LetterSpace
  {
    var e := init + [tone, Silence(SymbolSpace), Silence(LetterSpace - SymbolSpace)];
    var p1 := init + [tone, Silence(SymbolSpace)];
    var p2 := init + [tone];
    assert e[..|e| - 1] == p1;
    assert p1[..|p1| - 1] == p2;
    assert TrailingSilence(p2) == 0;
  }



}
