# Morse tone decoder and sender, modelled in Dafny

This project models the two pieces of logic in a small Morse-code tool that
listens for and sends audio tones:

- **the receiver** (`decoder.py`).
  - `decode_morse` turns a text of dot/dash codes into plain text. Words are
    separated by `" / "`, codes by whitespace, and a code missing from the
    reverse table becomes `'?'`.
  - `callback` is the per-audio-frame timing state machine. It rewrites three
    session variables:
    - `current_symbol`, the dots and dashes of the letter in progress;
    - `decoded_message`, the text so far;
    - `last_signal_time`, when the tone now sounding began, or `None`.
- **the sender** (`encoder.py`). `send_morse` upper-cases a message, drops
  characters the code table lacks, and plays each code's tones and pauses.
  Timings count in dot units:
  - dot 1, dash 3;
  - 1 unit after every symbol;
  - 2 more after each letter, making a 3-unit letter gap;
  - a final 7.

Modules:

- `PyBuiltins` (`pybuiltins.dfy`) gives the Dafny meaning of the Python
  built-ins the code relies on:
  - `None`;
  - `str.strip()` and the arg-less `str.split()`, using Python's `isspace`
    whitespace set;
  - `str.split(sep)` and `sep.join(words)`;
  - ASCII `str.upper()`.

  Each comes with the properties that make it usable:
  - `strip` returns an exact slice;
  - `split(sep)` cuts at the leftmost occurrences, and joining its pieces
    with `sep` gives the input back, for any separator;
  - splitting on a single character gives back words joined with it when no
    word contains it. For a longer separator such as `" / "` this fails:
    `SeparatorJoinNotUndone` shows `[" /", ""]` joined and split again
    becoming `["", "/ "]`;
  - `split()` yields exactly the maximal non-whitespace runs, keeps every
    non-blank character in order, and undoes a join with single spaces.
- `Decoder` (`decoder.dfy`) models `decode_morse` in two forms:
  - the pure function `Decode`;
  - the loop method `DecodeMorse`, proved equal to it.

  It models `callback` in two forms too:
  - the pure transition function `Callback` on a `State` value;
  - the class `Listener`, whose fields are the three session variables and
    whose `Step` method updates them in place. `Step` is proved to take the
    state to `Callback` of the old state.

  The audio analysis is reduced to a `Frame` value with three cases:
  - `InBandTone`: loud, with the dominant frequency in 400-450 Hz;
  - `OffBandNoise`: loud but outside that band;
  - `Quiet`.

  The clock becomes a `now: real` parameter.
- `Encoder` (`encoder.dfy`) models `send_morse` as the loop method
  `SendMorse`, whose inner loop over the symbols of one code is the method
  `SendSymbols`. It builds a sequence of `Tone(units)` / `Silence(units)`
  events instead of calling `beep` and `time.sleep`. It is proved equal to
  the recursive schedule `Schedule`, and the timing rules are proved about
  `Schedule`.
- `Link` (`link.dfy`) relates the two sides: how the receiver's thresholds
  classify the tones the sender plays.

**The flush in `callback` never runs.** Line 60 sets `last_signal_time` to
`None` just before line 63 reads it, so `silence_duration` is always 0.
Neither the letter flush (line 64) nor the word flush (line 69) can run, and
`decoded_message` never changes. The model keeps the code as written and
proves this:

- `Flush` models lines 62-71 for any `last_signal_time`, and `FlushByDesign`
  shows what it would do with a real timestamp.
- `FlushAfterResetDoesNothing` and `QuietFrameResetsBeforeFlush` show why it
  is dead.
- `RunNeverDecodes` and `SessionMessageStaysEmpty` show its effect over any
  run of frames.
- `LetterAIsNeverFlushed` shows a concrete run: the letter A with a 0.4 s
  dash, then 1.6 s of silence, leaves `".-"` pending and the message empty.

**The receiver drops the sender's dashes.** The sender plays a dash for
`DOT_DURATION * 3` = 0.6 s (encoder.py:11-12). The receiver's dash threshold
is 0.5 s (decoder.py:14), and a tone at least that long adds no symbol
(decoder.py:58-59). `SenderDashesAreDropped` proves that every dash of every
schedule, timed exactly, classifies as nothing, and every dot as a dot.
`LetterAAtSenderTiming` shows the letter A arriving as `"."`. The model keeps
both constants as written.

In `Listener`, lines 62-71 are a method of their own, `FlushPending`,
which `Step` calls. Written inline, its branches would be unreachable
statements inside `Step`.

## Model

| member | source | states |
|---|---|---|
| PyBuiltins.Strip | decoder.py:30 | `strip()` returns the slice starting right after the leading whitespace, followed only by whitespace, with non-whitespace at both ends when non-empty |
| PyBuiltins.LeadingSpaces | decoder.py:30 | the whitespace `strip()` removes at the start: all of it whitespace, followed by a non-whitespace character or the end |
| PyBuiltins.TrailingSpaces | decoder.py:30 | the whitespace `strip()` removes at the end: all of it whitespace, preceded by a non-whitespace character or the start |
| PyBuiltins.Find | decoder.py:30 | the search `split(" / ")` makes: the index of the first occurrence of the separator, or None exactly when it does not occur |
| PyBuiltins.SplitOn | decoder.py:30 | `split(" / ")` returns at least one piece; no piece contains the separator, and no occurrence starts inside a piece and runs into the separator after it (the cuts are leftmost); joining the pieces with the separator gives back the input |
| PyBuiltins.Join | decoder.py:35 | reference definition of `sep.join(words)`; its properties are `SplitOn`'s last clause, `SplitJoinOneChar` and `FieldsOfJoin` |
| PyBuiltins.SplitJoinOneChar | decoder.py:35 | splitting on one character undoes `join` with that character when no word contains it |
| PyBuiltins.Fields | decoder.py:33 | every field of `split()` is non-empty and whitespace-free |
| PyBuiltins.FieldsAtSpace | decoder.py:33 | at a whitespace boundary no field spans the cut: the fields of `a + b` are those of `a` then those of `b` |
| PyBuiltins.FieldsOfSpaces | decoder.py:33 | a string of whitespace only has no fields |
| PyBuiltins.FieldsOfWord | decoder.py:33 | a non-empty run of non-whitespace is exactly one field; with the two rows above, the fields are the maximal non-whitespace runs |
| PyBuiltins.FieldsKeepCharacters | decoder.py:33 | the fields of `split()`, concatenated, are the input's non-whitespace characters in order |
| PyBuiltins.FieldsOfJoin | decoder.py:33 | `split()` gives back non-empty whitespace-free words joined with single spaces |
| PyBuiltins.Upper | encoder.py:24 | `upper()` keeps the length and maps each character through the ASCII case mapping |
| PyBuiltins.UpperIdempotent | encoder.py:24 | upper-casing twice equals upper-casing once |
| Decoder.Lookup | decoder.py:33 | reference definition of `REVERSE_MORSE_CODE_DICT.get(code, '?')`; `UnknownCodeIsQuestionMark` and `DecodeCharactersFromTable` state its effect on decoding |
| Decoder.DecodeWord | decoder.py:33 | reference definition of one group's decoded word: its `split()` fields looked up in order; `DecodeCodes` and `DecodeSplitsIntoGroups` state what it holds |
| Decoder.Groups | decoder.py:30 | reference definition of `morse_code.strip().split(" / ")`; `DecodeSplitsIntoGroups` and `DecodeTrailingSeparator` state what it yields |
| Decoder.Decode | decoder.py:29-35 | reference definition of the text `decode_morse` returns; `DecodeMorse` is proved equal to it, and `DecodeSplitsIntoGroups`, `UnknownCodeIsQuestionMark` and `DecodeCharactersFromTable` state its properties |
| Decoder.SeparatorJoinNotUndone | decoder.py:30-35 | `[" /", ""]` joined with `" / "` is `" / / "`, which `split(" / ")` cuts at index 0 into `["", "/ "]`: splitting does not undo the join |
| Decoder.DecodeCodes | decoder.py:33 | one output character per code, in order, each the code's table value or `'?'` |
| Decoder.DecodeGroups | decoder.py:32-34 | `decoded` holds one decoded word per group, in group order |
| Decoder.DecodeMorse | decoder.py:29-35 | the loop building `decoded` and joining it computes `Decode` |
| Decoder.DecodeSplitsIntoGroups | decoder.py:30-35 | with no table value a space, splitting the output on `' '` gives one word per `" / "` group of the stripped input; character j of word i is the lookup of code j of group i, or `'?'` when missing |
| Decoder.UnknownCodeIsQuestionMark | decoder.py:33 | a code missing from the table decodes to `'?'` at its own position, and the codes around it decode as they would alone |
| Decoder.DecodeCharactersFromTable | decoder.py:33 | every character of every decoded word is `'?'` or a table value, for any input |
| Decoder.DecodeTwoLetters | decoder.py:29-35 | `".- / -..."` with `.-`→A and `-...`→B decodes to `"A B"` |
| Decoder.DecodeTrailingSeparator | decoder.py:30 | in `".- / "` the strip removes the separator's final space, so the slash is read as an extra code: the result is `"A?"`, not `"A "` |
| Decoder.SymbolFor | decoder.py:53-59 | a finished tone is a dot exactly when under 0.25 s, a dash exactly in [0.25, 0.5), and adds nothing exactly when at least 0.5 s |
| Decoder.SilenceDuration | decoder.py:63 | reference definition of `silence_duration`: `now - last_signal_time` when that value is truthy, that is set and not `0.0` (a timestamp of `0.0` counts as false, as in Python), else 0; `FlushAfterResetDoesNothing` and `FlushByDesign` use it |
| Decoder.EndTone | decoder.py:51-60 | reference definition of the quiet branch before the flush; `QuietFrameEndsTone`, `QuietFrameResetsBeforeFlush` and `QuietFrameWithoutToneChangesNothing` state its effect |
| Decoder.Flush | decoder.py:62-71 | reference definition of the flush for any `last_signal_time`; `FlushByDesign` and `FlushAfterResetDoesNothing` state its effect, and `Listener.FlushPending` is proved equal to it |
| Decoder.Callback | decoder.py:37-71 | reference definition of one `callback` call on a classified frame; `CallbackStep` and the frame lemmas state its effect, and `Listener.Step` is proved equal to it |
| Decoder.Run | decoder.py:74-77 | reference definition of the stream calling `callback` on each frame in turn; `RunNeverDecodes` and `SessionMessageStaysEmpty` state its effect |
| Decoder.FlushByDesign | decoder.py:62-71 | with a pending code and a real timestamp: silence ≤ 0.75 s changes nothing; (0.75, 1.5] appends the code's letter (or `'?'`) and clears the code; > 1.5 s also appends a space |
| Decoder.FlushAfterResetDoesNothing | decoder.py:60-71 | once `last_signal_time` is None, `silence_duration` is 0 and the flush leaves the state unchanged |
| Decoder.QuietFrameResetsBeforeFlush | decoder.py:51-60 | on a quiet frame, `last_signal_time` is None before the flush reads it |
| Decoder.ToneFrameKeepsFirstTime | decoder.py:43-49 | an in-band tone frame sets `last_signal_time` to `now` only if it was None and changes nothing else |
| Decoder.OffBandFrameChangesNothing | decoder.py:43-45 | a loud frame outside 400-450 Hz leaves the whole state unchanged |
| Decoder.QuietFrameEndsTone | decoder.py:50-60 | a quiet frame after a tone appends `.`, `-` or nothing by the tone's duration, resets `last_signal_time` to None and keeps the message |
| Decoder.QuietFrameWithoutToneChangesNothing | decoder.py:50-71 | a quiet frame with no pending tone changes nothing |
| Decoder.CallbackStep | decoder.py:37-71 | each callback keeps `current_symbol` made of dots and dashes and extends it by at most one character. `decoded_message` stays the same |
| Decoder.RunNeverDecodes | decoder.py:37-71 | over any sequence of frames, `decoded_message` never changes. `current_symbol` stays dots and dashes and only grows, by at most one character per frame |
| Decoder.SessionMessageStaysEmpty | decoder.py:18-20 | from the initial globals, `decoded_message` is `""` after any run of frames |
| Decoder.LetterAIsNeverFlushed | decoder.py:37-71 | the letter A with a 0.4 s dash, then 1.6 s of silence, leaves `current_symbol == ".-"` and `decoded_message == ""` |
| Decoder.LetterAAtSenderTiming | decoder.py:53-60 | the letter A at the sender's timing (0.6 s dash) leaves only `"."`: the dash is dropped as a long signal |
| Link.SenderDashesAreDropped | encoder.py:11-12 | the sender's tones, at 0.2 s per unit, classify at the receiver as `.` for every dot and as nothing for every dash, in schedule order |
| Decoder.Listener.constructor | decoder.py:18-20 | a session starts with empty symbol and message and no pending tone |
| Decoder.Listener.FlushPending | decoder.py:62-71 | the in-place flush updates the fields as `Flush` says, keeping `current_symbol` dots and dashes |
| Decoder.Listener.Step | decoder.py:37-71 | one callback updates the three fields as `Callback` says. `decoded_message` is unchanged and `current_symbol` grows by at most one character |
| Encoder.SymbolEvents | encoder.py:30-34 | reference definition of one symbol: a 1- or 3-unit tone for `.` or `-`, nothing for any other character, then a 1-unit pause; `CodeTones` and `ScheduleTonesSpaced` state its effect |
| Encoder.CodeEvents | encoder.py:29-34 | reference definition of one code's symbols in order; `SendSymbols` is proved equal to it, and `CodeTones` and `LetterGap` state its properties |
| Encoder.CharEvents | encoder.py:26-35 | reference definition of one character: nothing when the table lacks it, else its code then the 2 more units of the letter space; `UnsupportedCharactersEmitNothing` and `LetterGap` state its properties |
| Encoder.MessageEvents | encoder.py:25-35 | reference definition of the characters' events in message order; `MessageEventsAppend` and `MessageTones` state its properties |
| Encoder.Schedule | encoder.py:23-36 | reference definition of everything `send_morse` plays; `SendMorse` is proved equal to it, and `ScheduleTones`, `ScheduleTonesSpaced`, `ScheduleEndsWithWordSpace` and `ScheduleIgnoresCase` state its properties |
| Encoder.SendMorse | encoder.py:23-36 | the outer loop, with unknown characters skipped, emits exactly `Schedule(message)` |
| Encoder.SendSymbols | encoder.py:29-34 | the inner loop over one code emits exactly `CodeEvents(code)`: a tone per dot or dash, each followed by a symbol space |
| Encoder.MessageEventsAppend | encoder.py:25-35 | the schedule of a concatenation is the two schedules back to back |
| Encoder.ScheduleIgnoresCase | encoder.py:24 | a message and its upper-cased form have the same schedule |
| Encoder.LowerCaseLetterSendsAsCapital | encoder.py:24 | replacing a lower-case letter by its capital anywhere in a message leaves the schedule unchanged |
| Encoder.UnsupportedCharactersEmitNothing | encoder.py:26-27 | the events of a message equal those of its table-supported characters alone |
| Encoder.ScheduleEndsWithWordSpace | encoder.py:36 | every schedule ends with a 7-unit silence; with no supported character (including the empty message) that is the whole schedule |
| Encoder.CodeTones | encoder.py:29-33 | the tones of one code are 1 unit per dot and 3 per dash, in code order |
| Encoder.MessageTones | encoder.py:25-33 | the tones of a message follow the dots and dashes of its supported characters' codes, in message order |
| Encoder.ScheduleTones | encoder.py:28-33 | there are as many tones as dots and dashes in the supported codes; tone k lasts 1 unit for a dot and 3 for a dash |
| Encoder.ScheduleTonesSpaced | encoder.py:29-34 | every tone is immediately followed by a 1-unit silence, so no two tones are adjacent |
| Encoder.LetterGap | encoder.py:34-35 | a non-empty code ends with the 1-unit symbol space then 2 more units; after a final dot or dash the pause totals the 3-unit letter space |

## Left out

- Frequency detection (`detect_dominant_frequency`, decoder.py:22-27) and the
  amplitude norm (decoder.py:41) are numeric FFT and floating-point code. They
  only decide which branch of `callback` runs, so they become the three-way
  `Frame` value.
- Timestamps and durations are exact `real` numbers instead of Python floats.
  The thresholds 0.25, 0.5, 0.75 and 1.5 are compared exactly. Float rounding
  near a threshold is not modelled.
- `time.time()` becomes the `now` parameter. The encoder's `time.sleep` calls
  become `Silence` events and `beep` becomes `Tone` events, counted in dot
  units (DOT_DURATION = 1). The 430 Hz waveform, the sample rate and
  `sd.play`/`sd.wait` are audio output and are not modelled.
- `sd.InputStream`, the 0.1 s main loop and the Ctrl+C handler
  (decoder.py:73-79) are device I/O and process control. So is the final
  print of `decoded_message.strip()`.
- The `print` diagnostics at decoder.py:59, 65 and 71, including the
  long-signal warning, are console output.
- `monitor.py` is not part of this model. It is a capture-and-log loop with
  file appends.
- The `morse_code` module is not part of this model. `MORSE_CODE_DICT` and
  `REVERSE_MORSE_CODE_DICT` are parameters, `map<char, string>` and
  `map<string, char>`, with no assumed contents and no assumed bijection.
- `callback` keeps no per-silence-run flags, has no step that flushes a
  pending letter at the end, does not check that timestamps increase, and
  has no guard against appending a second space. The model has none of
  these either.
- The encoder's `input()` prompt (encoder.py:38-40) is console I/O.
- PyBuiltins.Upper: covers the ASCII letters only. Python's `str.upper()`
  also maps other Unicode letters and can lengthen a string (`'ß'` becomes
  `"SS"`). Non-ASCII case mapping is not modelled.
- Decoder.DecodeSplitsIntoGroups: assumes that no table value is a space.
  Otherwise a decoded space could not be told apart from a joining space.
  `Decode` itself makes no such assumption, and
  Decoder.DecodeCharactersFromTable holds for every table.
