# Morse code simulator: a Dafny model

The simulator is a single-page React component. It converts the text typed
into a box into International Morse code, shows the code and plays it as
600 Hz tones, highlighting each symbol as it sounds. A play/stop button and a
mute button control playback. This project models the component's logic:

- `morse_table.dfy` (module `MorseTable`) is the character-to-code table, as a
  function over characters. It also has an inverse lookup that shows that the
  codes are pairwise distinct.
- `encoder.dfy` (module `Encoder`) is the converter: ASCII upper-casing, a table
  lookup per character (a character with no entry gives the empty code) and
  joining with single spaces. Beside it are a reference `Split` and a decoder,
  which are used to state the round trip and injectivity.
- `schedule.dfy` (module `Schedule`) is the timing of playback as a trace of
  events. Each event is a `Highlight(i)`, a `Tone(frequency, ms)` or a
  `Sleep(ms)`. The module defines the trace of one symbol, the trace of a run
  and the time a trace takes.
- `player.dfy` (module `Player`) is the component's state as a class
  `MorseCodeSimulator`, with fields `inputText`, `morseCode`, `isPlaying`,
  `isMuted` and `currentIndex`:
  - `HandleInputChange`, `ToggleMute`, `StopPlaying` and `TogglePlay` are the
    event handlers;
  - `PlayMorseCode` is the playback loop, a `while` loop that checks the live
    flag before every step.

### How user actions during playback are modelled

User actions during playback are a parameter `ui`. `ui[i]` is what the user
does while step `i` waits on its tone or silence:

- nothing;
- a click on stop;
- a start request;
- an edit of the text;
- a click on mute.

Each action is handled before the loop checks the flag for step `i + 1`. This
is the only point at which an action can change what the run does next.

The function `Processed(ui, n)` counts the steps a run takes: up to and
including the step in whose wait the first stop arrives, or all `n`.

`PlayMorseCode`'s postcondition states the result of the whole run:

- the trace is `RunTrace(code, muted, Processed(ui, |code|))`;
- the flag is down;
- the highlight is -1;
- the text and the mute switch are as the handled actions left them.

Everything about timing, order and cancellation is then proved about
`RunTrace` and `Processed`.

## Model

| member | source | states |
|---|---|---|
| MorseTable.CharOfCode | src/App.jsx:15-27 | the inverse lookup: when it finds a character, the table maps that character to the given code |
| MorseTable.TableShape | src/App.jsx:15-27 | the space maps to "/" and every other entry is a non-empty string of dots and dashes |
| MorseTable.CharOfCodeInverts | src/App.jsx:15-27 | the inverse lookup gives back every key of the table from its code |
| MorseTable.CodesDistinct | src/App.jsx:15-27 | two characters with the same code are the same character (the 55 codes are pairwise distinct) |
| Encoder.Upper | src/App.jsx:32 | the result is never a lower-case letter; it is a capital exactly when the character is a letter of either case; only a lower-case letter is changed, and it becomes the capital 32 code points below |
| Encoder.UpperCase | src/App.jsx:32 | upper-casing keeps the length of the text |
| Encoder.UpperCaseAt | src/App.jsx:32-33 | the i-th character of the upper-cased text is the i-th character upper-cased |
| Encoder.Codes | src/App.jsx:31-34 | there is one code per character of the text |
| Encoder.CodesAt | src/App.jsx:31-34 | the i-th code is the table code of the i-th character upper-cased, or "" |
| Encoder.CodesAppend | src/App.jsx:31-34 | the codes of a concatenation are the concatenated codes |
| Encoder.CodesOfUpperCase | src/App.jsx:32-34 | upper-casing the text first changes none of the codes |
| Encoder.CodeForShape | src/App.jsx:15-34 | a character's code is "" exactly when the table has no entry for it, and "/" exactly when it is the space; otherwise it is a non-empty dot/dash string; no code holds a space, and every code uses only '.', '-' and '/' |
| Encoder.CodesUseMorseSymbols | src/App.jsx:31-34 | every code of a text is over the output alphabet and free of spaces |
| Encoder.Split | src/App.jsx:35 | the reference inverse of the join: at least one piece, and no piece holds the separator |
| Encoder.JoinSeparatorCount | src/App.jsx:35 | joining n >= 1 separator-free parts inserts exactly n - 1 separators |
| Encoder.SplitJoin | src/App.jsx:35 | splitting at the separator undoes the join of one or more parts when no part holds the separator |
| Encoder.JoinAlphabet | src/App.jsx:35 | joining parts over the output alphabet with a space stays in that alphabet |
| Encoder.DecodeCodesInverts | src/App.jsx:31-34 | when every character has an entry, decoding the codes gives back the upper-cased text |
| Encoder.OutputAlphabet | src/App.jsx:30-36 | the conversion contains only '.', '-', ' ' and '/' |
| Encoder.SeparatorCount | src/App.jsx:30-36 | "" converts to ""; a text of n >= 1 characters converts with exactly n - 1 separating spaces, whatever its characters |
| Encoder.SplitsIntoCodes | src/App.jsx:30-36 | splitting a non-empty text's conversion at its spaces gives exactly the per-character codes, with "" for an unknown character |
| Encoder.ConvertAppend | src/App.jsx:30-36 | converting non-empty a and b one after the other gives the two conversions joined by one space |
| Encoder.ConvertWords | src/App.jsx:26 | a space between two non-empty words becomes " / " between their conversions |
| Encoder.ConvertIgnoresCase | src/App.jsx:32 | converting the upper-cased text gives the same result as converting the text |
| Encoder.LetterCase | src/App.jsx:16-20 | each lower-case letter converts like its capital, to a non-empty dot/dash code |
| Encoder.DecodeConverted | src/App.jsx:30-36 | for a non-empty text whose characters all have entries, decoding the conversion gives the upper-cased text |
| Encoder.ConvertInjective | src/App.jsx:30-36 | for such texts, two conversions are equal if and only if the texts are equal up to case |
| Encoder.Examples | src/App.jsx:30-36 | "" converts to "" and " " to "/" |
| Encoder.SosExample | src/App.jsx:30-36 | "SOS" and "sos" both convert to "... --- ..." |
| Encoder.UnknownCharacterExample | src/App.jsx:34-35 | "a#b" converts to ".-  -...", with an empty code between two separators |
| Schedule.SymbolSchedule | src/App.jsx:83-106 | unmuted, a dot is Tone(600,100) then Sleep(100) and a dash is Tone(600,300) then Sleep(100); muted, each is only Sleep(100); ' ' is Sleep(300), '/' is Sleep(700) and any other symbol emits nothing |
| Schedule.SymbolTiming | src/App.jsx:94-106 | a symbol reports no position, lasts its dot count times 100 ms, and sounds its tone length only when not muted |
| Schedule.StepTiming | src/App.jsx:92-106 | a loop step reports exactly its own index and lasts its symbol's dot count times 100 ms; a muted step sounds no tone |
| Schedule.DurationAppend | src/App.jsx:92-107 | duration, tone time and reported positions all add up over consecutive traces |
| Schedule.RunDuration | src/App.jsx:92-107 | the first k steps of a run take the sum of their symbols' dot counts times 100 ms |
| Schedule.MutedRun | src/App.jsx:47 | a muted run sounds nothing, and an unmuted run lasts exactly the muted run plus its tone time |
| Schedule.HighlightsCountUp | src/App.jsx:92-93 | the positions a run of k steps reports are 0, 1, ..., k - 1, in order |
| Schedule.StoppedRunIsPrefix | src/App.jsx:92 | a run stopped after j steps emitted a prefix of what any longer run emits |
| Schedule.LetterBoundaryTrace | src/App.jsx:96-104 | the exact event trace of two elements separated by a letter boundary |
| Schedule.LetterGapIsFourDots | src/App.jsx:85-86 | the silence between two letters' tones lasts 4 dots (400 ms) |
| Schedule.WordBoundaryTrace | src/App.jsx:96-105 | the exact event trace of two elements separated by " / " |
| Schedule.WordGapIsFourteenDots | src/App.jsx:85-87 | the silence between two words' tones lasts 14 dots (1400 ms) |
| Player.TextAfter | src/App.jsx:38-43 | with no edit the text is unchanged; when the last event is an edit, the text is that edit's |
| Player.TextAfterLastEdit | src/App.jsx:38-43 | the text is that of the last edit, whatever non-edit events follow it |
| Player.Processed | src/App.jsx:92 | a run of n > 0 symbols takes between 1 and n steps; no stop arrives before the last step taken; when fewer than n steps are taken, the last one's wait held a stop |
| Player.ProcessedIsFirstStop | src/App.jsx:92 | the step count is the unique k fixed by the first stop |
| Player.UninterruptedRunPlaysAll | src/App.jsx:92 | with no stop, every symbol is played |
| Player.UninterruptedRunDuration | src/App.jsx:92-107 | a run with no stop reports every position 0..n-1 in order and lasts the sum of its symbols' dot counts times 100 ms |
| Player.StopEndsRunAfterStep | src/App.jsx:92 | a stop in the wait of step k - 1, with nothing before it, ends the run after exactly k steps |
| Player.DeliveredNext | src/App.jsx:38-43 | handling one more step's action moves the text and the mute switch on by that action |
| Player.CalmNext | src/App.jsx:92 | after a step whose action is not a stop, no stop has arrived yet; otherwise that step's action is the stop |
| Player.ProgressStep | src/App.jsx:92-107 | one more pass of the playback loop keeps the loop invariant |
| Player.LoopExit | src/App.jsx:92-111 | when the loop ends, by running out of symbols or by a stop, the run's trace is that of the steps counted by Processed, and the text and switch are as those steps left them |
| Player.MorseCodeSimulator.constructor | src/App.jsx:6-10 | the initial state is an empty text and code, not playing, not muted, no highlight |
| Player.MorseCodeSimulator.HandleInputChange | src/App.jsx:38-43 | the text is replaced and its conversion becomes the code; the highlight is cleared; the flag and the mute switch are kept |
| Player.MorseCodeSimulator.ToggleMute | src/App.jsx:185 | the mute switch flips; nothing else changes |
| Player.MorseCodeSimulator.StopPlaying | src/App.jsx:114-118 | the flag goes down and the highlight is cleared; the text and switch are kept; when idle this changes nothing |
| Player.MorseCodeSimulator.TogglePlay | src/App.jsx:120-126 | when playing: stop, with an empty trace; otherwise the same outcome as PlayMorseCode |
| Player.MorseCodeSimulator.Deliver | src/App.jsx:114-126 | an action during a wait, dispatched to the handlers of lines 114-126, 38-43 and 185: a stop lowers the flag and clears the highlight; a start while playing is ignored; an edit replaces the text and clears the highlight; a mute click flips the switch; the flag stays up and the highlight is kept otherwise |
| Player.MorseCodeSimulator.PlaySymbol | src/App.jsx:94-106 | the events of one symbol are the ones SymbolEvents specifies |
| Player.MorseCodeSimulator.PlayStep | src/App.jsx:92-106 | one loop step highlights position i, emits Highlight(i) then its symbol's events, and then applies the action of its wait; afterwards the highlight is i, or -1 when that action was a stop or an edit |
| Player.MorseCodeSimulator.PlayMorseCode | src/App.jsx:77-112 | already playing, or an empty code: nothing happens. Otherwise the trace is that of the first Processed(ui, \|code\|) symbols of the code as it was at the start, played with the mute switch as it was at the start; afterwards the flag is down, the highlight is -1 and `morseCode` is still the conversion of the text |

## Left out

- Audio: the AudioContext, the oscillator, the gain envelope and the sine wave
  are not modelled. A sounded tone is just a `Tone(600, ms)` event.
- Floating point: the durations are in seconds in the code (0.1, 0.3, 0.7). The
  model uses whole milliseconds.
- Real time: timers and awaits become `Sleep` events. The model has no clock.
- The React state `isPlaying` and the ref `isPlayingRef` are one field. Both
  are always set together. The loop's check and the start guard read the ref,
  and `togglePlay` reads the state.
- Stale closures are not modelled:
  - `togglePlay` reads the rendered `isPlaying`, and `playMorseCode` reads the
    rendered `morseCode`. The model reads the live field.
  - The run uses the mute switch as it was when the run started, because
    `playSound` sees the `isMuted` of the render that started the run. This
    means a mute click during a run takes effect from the next run, not from
    the next tone.
- The restart race is not modelled: a stop followed by a new start while the
  old loop is still waiting. Actions during a run are limited to one per step,
  handled between steps.
- PlayStep: a stop that arrives between a tone and its following gap is
  handled after the gap. The loop only checks the flag before a step, so this
  gives the same trace.
- The highlighted index during a run refers to the code the run started with,
  even after an edit has replaced `morseCode`. The model keeps that index but
  does not relate it to the new code.
- Encoder.Upper: upper-casing is ASCII only. JavaScript's `toUpperCase` also
  maps non-ASCII characters, and some of them map into the table ('ß' to "SS",
  'ı' to 'I', 'ſ' to 'S'). Strings are sequences of characters, not UTF-16
  code units.
- A failing tone is not modelled. When not muted, `playSound` creates an
  AudioContext and an oscillator (src/App.jsx:50-68), and that can throw, for
  example where Web Audio is missing. The `await` at line 97 or 100 then throws
  out of `playMorseCode`, so lines 109-111 never run: the flag and the ref stay
  up, the highlight stays on, and the guard at line 78 refuses every restart
  until stop is pressed. PlayMorseCode's contract (the flag down and the
  highlight -1 after every run) holds only for runs in which every tone plays.
- The play/stop button is disabled while `morseCode` is empty
  (src/App.jsx:168). The model's `ui` can still put a stop after an edit to the
  empty text, which the page cannot produce. The model then stops the run as
  it would for any other stop.
- Presentation: the JSX layout, the icons, the code display with its
  highlight, and the reference grid showing the first 36 table entries are not
  modelled.
- The timing follows the code, not International Morse. A letter gap is 4 dots
  (the symbol gap plus the 3-dot space) and a word gap is 14 dots
  (1 + 3 + 7 + 3). A muted dot or dash costs only its 100 ms gap, because the
  muted `playSound` returns at once, so muting shortens playback.
