/** The timing of playback: what one symbol of a converted text emits, and the
    trace of a run over the first k symbols. Time is in whole milliseconds. */
module Schedule {

  /** One observable effect of playback: the highlighted position is set, a
      tone sounds for `ms` milliseconds, or the player waits `ms` milliseconds. */
  datatype Event = Highlight(index: nat) | Tone(frequency: nat, ms: nat) | Sleep(ms: nat)

  const DotMs: nat := 100
  const DashMs: nat := 3 * DotMs
  const SymbolGapMs: nat := DotMs
  const LetterGapMs: nat := 3 * DotMs
  const WordGapMs: nat := 7 * DotMs
  const Frequency: nat := 600

  /** A tone request: one Tone event, or nothing at all when muted (a muted
      request returns at once and takes no time). */
  function PlaySound(frequency: nat, ms: nat, muted: bool): seq<Event>
  {
    if muted then [] else [Tone(frequency, ms)]
  }

  /** Length of the tone a symbol asks for (0: no tone). */
  function ToneMs(symbol: char): nat {
    if symbol == '.' then DotMs else if symbol == '-' then DashMs else 0
  }

  /** Length of the silence a symbol asks for (0: no silence). */
  function GapMs(symbol: char): nat {
    if symbol == '.' || symbol == '-' then SymbolGapMs
    else if symbol == ' ' then LetterGapMs
    else if symbol == '/' then WordGapMs
    else 0
  }

  /** What playing one symbol emits: its tone, if any, then its silence, if any. */
  function SymbolEvents(symbol: char, muted: bool): seq<Event> {
    (if ToneMs(symbol) > 0 then PlaySound(Frequency, ToneMs(symbol), muted) else [])
    + (if GapMs(symbol) > 0 then [Sleep(GapMs(symbol))] else [])
  }

  /** One step of a run: the position is reported, then the symbol is played. */
  function StepEvents(i: nat, symbol: char, muted: bool): seq<Event> {
    [Highlight(i)] + SymbolEvents(symbol, muted)
  }

  /** The trace of a run that processed the first k symbols. */
  function RunTrace(symbols: string, muted: bool, k: nat): seq<Event>
    requires k <= |symbols|
  {
    if k == 0 then [] else RunTrace(symbols, muted, k - 1) + StepEvents(k - 1, symbols[k - 1], muted)
  }

  /** Total time a trace takes: the tones plus the silences. */
  function Duration(trace: seq<Event>): nat {
    if trace == [] then 0
    else
      (match trace[0]
       case Highlight(_) => 0
       case Tone(_, ms) => ms
       case Sleep(ms) => ms)
      + Duration(trace[1..])
  }

  /** Time spent sounding tones. */
  function ToneTime(trace: seq<Event>): nat {
    if trace == [] then 0 else (if trace[0].Tone? then trace[0].ms else 0) + ToneTime(trace[1..])
  }

  /** The positions reported, in order. */
  function Highlights(trace: seq<Event>): seq<nat> {
    if trace == [] then []
    else (if trace[0].Highlight? then [trace[0].index] else []) + Highlights(trace[1..])
  }

  /** Time of one symbol in dot units, as the code schedules it. */
  function SymbolDots(symbol: char, muted: bool): nat {
    if symbol == '.' then (if muted then 1 else 2)
    else if symbol == '-' then (if muted then 1 else 4)
    else if symbol == ' ' then 3
    else if symbol == '/' then 7
    else 0
  }

  /** Time of a symbol string in dot units. */
  function Dots(symbols: string, muted: bool): nat {
    if symbols == [] then 0 else Dots(symbols[..|symbols| - 1], muted) + SymbolDots(symbols[|symbols| - 1], muted)
  }

  // ---------------------------------------------------------------------------
  // One symbol

  /** The schedule of every symbol, unmuted and muted: a dot and a dash are a
      600 Hz tone then one dot of silence, a space is three dots of silence, a
      slash seven, anything else emits nothing. Muting removes only the tone. */
  lemma SymbolSchedule(symbol: char, muted: bool)
    ensures symbol == '.' ==> SymbolEvents(symbol, false) == [Tone(600, 100), Sleep(100)]
    ensures symbol == '-' ==> SymbolEvents(symbol, false) == [Tone(600, 300), Sleep(100)]
    ensures symbol == '.' || symbol == '-' ==> SymbolEvents(symbol, true) == [Sleep(100)]
    ensures symbol == ' ' ==> SymbolEvents(symbol, muted) == [Sleep(300)]
    ensures symbol == '/' ==> SymbolEvents(symbol, muted) == [Sleep(700)]
    ensures symbol !in ".- /" ==> SymbolEvents(symbol, muted) == []
  {
  }

  // ---------------------------------------------------------------------------
  // Traces

  lemma {:induction false} DurationAppend(a: seq<Event>, b: seq<Event>)
    ensures Duration(a + b) == Duration(a) + Duration(b)
    ensures ToneTime(a + b) == ToneTime(a) + ToneTime(b)
    ensures Highlights(a + b) == Highlights(a) + Highlights(b)
  {
    if a == [] {
      assert a + b == b;
    } else {
      assert (a + b)[0] == a[0] && (a + b)[1..] == a[1..] + b;
      DurationAppend(a[1..], b);
    }
  }

  lemma EventTiming(e: Event)
    ensures Duration([e]) == (if e.Highlight? then 0 else e.ms)
    ensures ToneTime([e]) == (if e.Tone? then e.ms else 0)
    ensures Highlights([e]) == (if e.Highlight? then [e.index] else [])
  {
    assert [e][1..] == [];
  }

  /** A step reports exactly its own position and lasts exactly its symbol's
      dot count; muted, it sounds no tone. */
  lemma StepTiming(i: nat, symbol: char, muted: bool)
    ensures Highlights(StepEvents(i, symbol, muted)) == [i]
    ensures Duration(StepEvents(i, symbol, muted)) == SymbolDots(symbol, muted) * DotMs
    ensures muted ==> ToneTime(StepEvents(i, symbol, muted)) == 0
    ensures Duration(StepEvents(i, symbol, false)) == Duration(StepEvents(i, symbol, true)) + ToneTime(StepEvents(i, symbol, false))
  {
    SymbolTiming(symbol, muted);
    SymbolTiming(symbol, true);
    SymbolTiming(symbol, false);
    EventTiming(Highlight(i));
    DurationAppend([Highlight(i)], SymbolEvents(symbol, muted));
    DurationAppend([Highlight(i)], SymbolEvents(symbol, true));
    DurationAppend([Highlight(i)], SymbolEvents(symbol, false));
  }

  lemma SymbolTiming(symbol: char, muted: bool)
    ensures Highlights(SymbolEvents(symbol, muted)) == []
    ensures Duration(SymbolEvents(symbol, muted)) == SymbolDots(symbol, muted) * DotMs
    ensures ToneTime(SymbolEvents(symbol, muted)) == (if muted then 0 else ToneMs(symbol))
  {
    SymbolSchedule(symbol, muted);
    var tone := if ToneMs(symbol) > 0 then PlaySound(Frequency, ToneMs(symbol), muted) else [];
    var gap := if GapMs(symbol) > 0 then [Sleep(GapMs(symbol))] else [];
    DurationAppend(tone, gap);
    if tone != [] { EventTiming(tone[0]); }
    if gap != [] { EventTiming(gap[0]); }
  }

  /** The run time of the first k symbols is the sum of their dot counts. */
  lemma {:induction false} RunDuration(symbols: string, muted: bool, k: nat)
    requires k <= |symbols|
    ensures Duration(RunTrace(symbols, muted, k)) == Dots(symbols[..k], muted) * DotMs
  {
    if k > 0 {
      RunDuration(symbols, muted, k - 1);
      DurationAppend(RunTrace(symbols, muted, k - 1), StepEvents(k - 1, symbols[k - 1], muted));
      StepTiming(k - 1, symbols[k - 1], muted);
      assert symbols[..k][..k - 1] == symbols[..k - 1];
    }
  }

  /** A muted run sounds nothing, and is shorter than the unmuted run of the
      same symbols by exactly the unmuted tone time. */
  lemma {:induction false} MutedRun(symbols: string, k: nat)
    requires k <= |symbols|
    ensures ToneTime(RunTrace(symbols, true, k)) == 0
    ensures Duration(RunTrace(symbols, false, k)) == Duration(RunTrace(symbols, true, k)) + ToneTime(RunTrace(symbols, false, k))
  {
    if k > 0 {
      MutedRun(symbols, k - 1);
      DurationAppend(RunTrace(symbols, true, k - 1), StepEvents(k - 1, symbols[k - 1], true));
      DurationAppend(RunTrace(symbols, false, k - 1), StepEvents(k - 1, symbols[k - 1], false));
      StepTiming(k - 1, symbols[k - 1], true);
    }
  }

  /** The positions reported by a run over k symbols are 0, 1, ..., k - 1. */
  lemma {:induction false} HighlightsCountUp(symbols: string, muted: bool, k: nat)
    requires k <= |symbols|
    ensures Highlights(RunTrace(symbols, muted, k)) == seq(k, i => i)
  {
    if k > 0 {
      HighlightsCountUp(symbols, muted, k - 1);
      DurationAppend(RunTrace(symbols, muted, k - 1), StepEvents(k - 1, symbols[k - 1], muted));
      StepTiming(k - 1, symbols[k - 1], muted);
      assert seq(k, i => i) == seq(k - 1, i => i) + [k - 1];
    }
  }

  /** A run stopped after j steps emitted a prefix of what a longer run emits. */
  lemma {:induction false} StoppedRunIsPrefix(symbols: string, muted: bool, j: nat, k: nat)
    requires j <= k <= |symbols|
    ensures RunTrace(symbols, muted, j) <= RunTrace(symbols, muted, k)
  {
    if j < k {
      StoppedRunIsPrefix(symbols, muted, j, k - 1);
    }
  }

  /** The trace of two elements separated by a letter boundary " ". */
  lemma LetterBoundaryTrace(a: char, b: char)
    requires a in ".-" && b in ".-"
    ensures RunTrace([a, ' ', b], false, 3)
         == [Highlight(0), Tone(600, ToneMs(a)), Sleep(100), Highlight(1), Sleep(300),
             Highlight(2), Tone(600, ToneMs(b)), Sleep(100)]
  {
    var s := [a, ' ', b];
    SymbolSchedule(a, false);
    SymbolSchedule(' ', false);
    SymbolSchedule(b, false);
    assert SymbolEvents(a, false) == [Tone(600, ToneMs(a)), Sleep(100)];
    assert SymbolEvents(b, false) == [Tone(600, ToneMs(b)), Sleep(100)];
    assert RunTrace(s, false, 0) == [];
    var t1 := RunTrace(s, false, 1);
    assert t1 == [Highlight(0), Tone(600, ToneMs(a)), Sleep(100)];
    var t2 := RunTrace(s, false, 2);
    assert t2 == t1 + [Highlight(1), Sleep(300)];
  }

  /** Between two letters the code leaves four dots of silence, not the three
      of International Morse: the symbol gap after the last element, then the
      three-dot gap of the separating space. */
  lemma LetterGapIsFourDots(a: char, b: char)
    requires a in ".-" && b in ".-"
    ensures var t := RunTrace([a, ' ', b], false, 3);
      |t| == 8 && t[1].Tone? && t[6].Tone? && Duration(t[2..6]) == 4 * DotMs
  {
    LetterBoundaryTrace(a, b);
    var t := RunTrace([a, ' ', b], false, 3);
    assert t[2..6] == [Sleep(100), Highlight(1), Sleep(300), Highlight(2)];
    assert Duration([Sleep(100), Highlight(1), Sleep(300), Highlight(2)]) == 400;
  }

  /** The trace of two elements separated by a word boundary " / ". */
  lemma WordBoundaryTrace(a: char, b: char)
    requires a in ".-" && b in ".-"
    ensures RunTrace([a, ' ', '/', ' ', b], false, 5)
         == [Highlight(0), Tone(600, ToneMs(a)), Sleep(100), Highlight(1), Sleep(300),
             Highlight(2), Sleep(700), Highlight(3), Sleep(300),
             Highlight(4), Tone(600, ToneMs(b)), Sleep(100)]
  {
    var s := [a, ' ', '/', ' ', b];
    SymbolSchedule(a, false);
    SymbolSchedule(' ', false);
    SymbolSchedule('/', false);
    SymbolSchedule(b, false);
    assert SymbolEvents(a, false) == [Tone(600, ToneMs(a)), Sleep(100)];
    assert SymbolEvents(b, false) == [Tone(600, ToneMs(b)), Sleep(100)];
    assert RunTrace(s, false, 0) == [];
    var t1 := RunTrace(s, false, 1);
    assert t1 == [Highlight(0), Tone(600, ToneMs(a)), Sleep(100)];
    var t2 := RunTrace(s, false, 2);
    assert t2 == t1 + [Highlight(1), Sleep(300)];
    var t3 := RunTrace(s, false, 3);
    assert t3 == t2 + [Highlight(2), Sleep(700)];
    var t4 := RunTrace(s, false, 4);
    assert t4 == t3 + [Highlight(3), Sleep(300)];
  }

  /** Between two words (" / " in the converted text) the code leaves fourteen
      dots of silence, not seven: 1 + 3 + 7 + 3. */
  lemma WordGapIsFourteenDots(a: char, b: char)
    requires a in ".-" && b in ".-"
    ensures var t := RunTrace([a, ' ', '/', ' ', b], false, 5);
      |t| == 12 && t[1].Tone? && t[10].Tone? && Duration(t[2..10]) == 14 * DotMs
  {
    WordBoundaryTrace(a, b);
    var t := RunTrace([a, ' ', '/', ' ', b], false, 5);
    var letterPart := [Sleep(100), Highlight(1), Sleep(300), Highlight(2)];
    var wordPart := [Sleep(700), Highlight(3), Sleep(300), Highlight(4)];
    assert t[2..10] == letterPart + wordPart;
    assert Duration(letterPart) == 400;
    assert Duration(wordPart) == 1000;
    DurationAppend(letterPart, wordPart);
  }
}
