/** The simulator's state and its playback loop: the text box, its conversion,
    the live "playing" flag, the mute switch and the highlighted position.

    Playback is one sequential run. While it waits on a tone or a silence the
    user may act; such an action is taken to arrive in the wait of step i and is
    handled before the loop checks the flag for step i + 1. The actions of one
    run are given as a sequence `ui`, one (possibly NoInput) per step. */
module Player {
  import opened Encoder
  import opened Schedule

  /** What the user does while a step of playback is waiting. */
  datatype UiEvent =
    | NoInput
      /** A click on the play/stop button: stops the run, since it is playing. */
    | Toggle
      /** A start request that reaches the player while it is playing (a second
          click handled before the button shows "stop"). */
    | Start
      /** New contents of the text box. */
    | Edit(text: string)
      /** A click on the mute button. */
    | ToggleMute

  /** The text after an event: an edit replaces it, nothing else touches it. */
  function ApplyText(e: UiEvent, text: string): string {
    if e.Edit? then e.text else text
  }

  /** The mute switch after an event. */
  function ApplyMute(e: UiEvent, muted: bool): bool {
    if e.ToggleMute? then !muted else muted
  }

  /** The text after a sequence of events: the last edit, if any. */
  function TextAfter(events: seq<UiEvent>, text: string): (r: string)
    ensures (forall t | 0 <= t < |events| :: !events[t].Edit?) ==> r == text
    ensures events != [] && events[|events| - 1].Edit? ==> r == events[|events| - 1].text
  {
    if events == [] then text
    else ApplyText(events[|events| - 1], TextAfter(events[..|events| - 1], text))
  }

  /** The text after a sequence of events is that of the last edit among
      them, whatever non-edit events follow it. */
  lemma {:induction false} TextAfterLastEdit(events: seq<UiEvent>, text: string, j: nat)
    requires j < |events| && events[j].Edit?
    requires forall t | j < t < |events| :: !events[t].Edit?
    ensures TextAfter(events, text) == events[j].text
  {
    if j < |events| - 1 {
      var init := events[..|events| - 1];
      assert forall t | j < t < |init| :: init[t] == events[t];
      TextAfterLastEdit(init, text, j);
    }
  }

  /** The mute switch after a sequence of events. */
  function MutedAfter(events: seq<UiEvent>, muted: bool): bool {
    if events == [] then muted
    else ApplyMute(events[|events| - 1], MutedAfter(events[..|events| - 1], muted))
  }

  /** The events handled during the waits of the first i steps. */
  function Delivered(ui: seq<UiEvent>, i: nat): seq<UiEvent> {
    if i <= |ui| then ui[..i] else ui
  }

  /** No stop among the events of the first j steps. */
  ghost predicate Calm(ui: seq<UiEvent>, j: int) {
    forall t | 0 <= t < j && t < |ui| :: !ui[t].Toggle?
  }

  /** How many of n symbols a run processes: up to and including the step in
      whose wait the first stop arrives, or all n. */
  function Processed(ui: seq<UiEvent>, n: nat): (k: nat)
    ensures k <= n && (n > 0 ==> k > 0)
    ensures Calm(ui, k - 1)
    ensures k < n ==> k - 1 < |ui| && ui[k - 1].Toggle?
  {
    if n == 0 then 0
    else if |ui| > 0 && ui[0].Toggle? then 1
    else
      var k := 1 + Processed(if ui == [] then [] else ui[1..], n - 1);
      assert forall t | 1 <= t < |ui| :: ui[t] == ui[1..][t - 1];
      k
  }

  /** The step count is fixed by the stops: it is the first k whose wait holds
      a stop, or n when no step's wait does. */
  lemma ProcessedIsFirstStop(ui: seq<UiEvent>, n: nat, k: nat)
    requires 0 < k <= n
    requires Calm(ui, k - 1)
    requires k < n ==> k - 1 < |ui| && ui[k - 1].Toggle?
    ensures Processed(ui, n) == k
  {
  }

  /** With no stop at all, every symbol is played. */
  lemma UninterruptedRunPlaysAll(ui: seq<UiEvent>, n: nat)
    requires forall t | 0 <= t < |ui| :: !ui[t].Toggle?
    ensures Processed(ui, n) == n
  {
  }

  /** A run that nobody stops plays every symbol of the code and lasts the sum
      of the symbols' dot counts. */
  lemma UninterruptedRunDuration(ui: seq<UiEvent>, code: string, muted: bool)
    requires forall t | 0 <= t < |ui| :: !ui[t].Toggle?
    ensures Duration(RunTrace(code, muted, Processed(ui, |code|))) == Dots(code, muted) * DotMs
    ensures Highlights(RunTrace(code, muted, Processed(ui, |code|))) == seq(|code|, i => i)
  {
    UninterruptedRunPlaysAll(ui, |code|);
    RunDuration(code, muted, |code|);
    HighlightsCountUp(code, muted, |code|);
    assert code[..|code|] == code;
  }

  /** A stop in the wait of step k - 1, and nothing before it, ends the run
      after exactly k steps. */
  lemma {:induction false} StopEndsRunAfterStep(k: nat, n: nat)
    requires 0 < k <= n
    ensures Processed(seq(k - 1, _ => NoInput) + [Toggle], n) == k
  {
    var ui := seq(k - 1, _ => NoInput) + [Toggle];
    assert forall t | 0 <= t < k - 1 :: ui[t] == NoInput;
    ProcessedIsFirstStop(ui, n, k);
  }

  /** Handling the event of step i's wait moves the text and the mute switch
      on by that one event. */
  lemma DeliveredNext(ui: seq<UiEvent>, i: nat, text: string, muted: bool)
    ensures var e := if i < |ui| then ui[i] else NoInput;
      TextAfter(Delivered(ui, i + 1), text) == ApplyText(e, TextAfter(Delivered(ui, i), text)) &&
      MutedAfter(Delivered(ui, i + 1), muted) == ApplyMute(e, MutedAfter(Delivered(ui, i), muted))
  {
    var d := Delivered(ui, i + 1);
    if i < |ui| {
      assert d == ui[..i + 1] && d[|d| - 1] == ui[i];
      assert d[..|d| - 1] == Delivered(ui, i);
    } else {
      assert ui[..|ui|] == ui;
      assert d == Delivered(ui, i);
    }
  }

  /** The stop check of the wait of step i. */
  lemma CalmNext(ui: seq<UiEvent>, i: nat)
    requires Calm(ui, i)
    ensures var e := if i < |ui| then ui[i] else NoInput;
      (!e.Toggle? ==> Calm(ui, i + 1)) && (e.Toggle? ==> i < |ui| && ui[i].Toggle?)
  {
  }

  /** The end of a run over `code` started with text text0 and mute switch
      muted0: the trace of the steps processed, the flag down, no highlight,
      and the text and switch as the events of those steps left them. */
  ghost predicate RunOutcome(ui: seq<UiEvent>, code: string, text0: string, muted0: bool, trace: seq<Event>,
                             playing: bool, text: string, muted: bool, index: int)
  {
    var k := Processed(ui, |code|);
    trace == RunTrace(code, muted0, k) &&
    !playing && index == -1 &&
    text == TextAfter(Delivered(ui, k), text0) &&
    muted == MutedAfter(Delivered(ui, k), muted0)
  }

  /** The invariant of the playback loop after i steps of a run over `code`
      started with text text0 and mute switch muted0: the trace is that of the
      first i steps; the text and the switch are as the events of those steps
      left them; and the flag is up exactly when none of those events was a
      stop, the last one being the stop otherwise. */
  ghost predicate Progress(ui: seq<UiEvent>, code: string, text0: string, muted0: bool, i: nat, trace: seq<Event>,
                           playing: bool, text: string, muted: bool)
  {
    i <= |code| &&
    trace == RunTrace(code, muted0, i) &&
    text == TextAfter(Delivered(ui, i), text0) &&
    muted == MutedAfter(Delivered(ui, i), muted0) &&
    (playing ==> Calm(ui, i)) &&
    (!playing ==> 0 < i && i - 1 < |ui| && ui[i - 1].Toggle? && Calm(ui, i - 1))
  }

  /** One more pass of the loop keeps the invariant. */
  lemma ProgressStep(ui: seq<UiEvent>, code: string, text0: string, muted0: bool, i: nat, trace: seq<Event>,
                     text: string, muted: bool, step: seq<Event>, playing': bool, text': string, muted': bool)
    requires Progress(ui, code, text0, muted0, i, trace, true, text, muted) && i < |code|
    requires step == StepEvents(i, code[i], muted0)
    requires var e := if i < |ui| then ui[i] else NoInput;
      playing' == !e.Toggle? && text' == ApplyText(e, text) && muted' == ApplyMute(e, muted)
    ensures Progress(ui, code, text0, muted0, i + 1, trace + step, playing', text', muted')
  {
    DeliveredNext(ui, i, text0, muted0);
    CalmNext(ui, i);
  }

  /** The playback loop, having left after i steps either because every symbol
      was played or because a stop arrived in the wait of step i - 1, has
      processed exactly the steps that RunOutcome counts. */
  lemma LoopExit(ui: seq<UiEvent>, code: string, text0: string, muted0: bool, trace: seq<Event>,
                 i: nat, playing: bool, text: string, muted: bool)
    requires 0 < |code|
    requires Progress(ui, code, text0, muted0, i, trace, playing, text, muted)
    requires playing ==> i == |code|
    ensures RunOutcome(ui, code, text0, muted0, trace, false, text, muted, -1)
  {
    ProcessedIsFirstStop(ui, |code|, i);
  }

  class MorseCodeSimulator {
    var inputText: string
    var morseCode: string
    /** The live flag the loop reads before every step; the button's state
        follows it. */
    var isPlaying: bool
    var isMuted: bool
    /** The highlighted position, -1 for none. */
    var currentIndex: int

    ghost predicate Valid()
      reads this
    {
      morseCode == ConvertToMorse(inputText) &&
      -1 <= currentIndex &&
      (!isPlaying ==> currentIndex == -1)
    }

    /** What a call of PlayMorseCode does, from the state (wasPlaying, code0,
        text0, muted0, index0) in which it was called. */
    ghost predicate Played(ui: seq<UiEvent>, wasPlaying: bool, code0: string, text0: string, muted0: bool, index0: int, trace: seq<Event>)
      reads this
    {
      if wasPlaying || code0 == "" then
        trace == [] && isPlaying == wasPlaying && inputText == text0 && isMuted == muted0 && currentIndex == index0
      else
        RunOutcome(ui, code0, text0, muted0, trace, isPlaying, inputText, isMuted, currentIndex)
    }

    constructor ()
      ensures Valid()
      ensures inputText == "" && morseCode == "" && !isPlaying && !isMuted && currentIndex == -1
    {
      inputText := "";
      morseCode := "";
      isPlaying := false;
      isMuted := false;
      currentIndex := -1;
      SeparatorCount("");
    }

    /** A new text: its conversion replaces the code and the highlight is
        cleared; a run in progress keeps the symbols it started with. */
    method HandleInputChange(text: string)
      requires Valid()
      modifies this
      ensures Valid()
      ensures inputText == text && morseCode == ConvertToMorse(text) && currentIndex == -1
      ensures isPlaying == old(isPlaying) && isMuted == old(isMuted)
    {
      inputText := text;
      morseCode := ConvertToMorse(text);
      currentIndex := -1;
    }

    method ToggleMute()
      requires Valid()
      modifies this
      ensures Valid()
      ensures isMuted == !old(isMuted)
      ensures inputText == old(inputText) && isPlaying == old(isPlaying) && currentIndex == old(currentIndex)
    {
      isMuted := !isMuted;
    }

    /** Clears the live flag and the highlight; when idle this changes nothing. */
    method StopPlaying()
      requires Valid()
      modifies this
      ensures Valid()
      ensures !isPlaying && currentIndex == -1
      ensures inputText == old(inputText) && isMuted == old(isMuted)
      ensures !old(isPlaying) ==> currentIndex == old(currentIndex)
    {
      isPlaying := false;
      currentIndex := -1;
    }

    /** The play/stop button: stops when playing, starts otherwise. */
    method TogglePlay(ui: seq<UiEvent>) returns (trace: seq<Event>)
      requires Valid()
      modifies this
      decreases if isPlaying then 0 else 1, 1
      ensures Valid()
      ensures old(isPlaying) ==> trace == [] && !isPlaying && currentIndex == -1 &&
                                 inputText == old(inputText) && isMuted == old(isMuted)
      ensures !old(isPlaying) ==> Played(ui, false, old(morseCode), old(inputText), old(isMuted), old(currentIndex), trace)
    {
      if isPlaying {
        StopPlaying();
        trace := [];
      } else {
        trace := PlayMorseCode(ui);
      }
    }

    /** Handles one user action during a wait of a run in progress. */
    method Deliver(e: UiEvent) returns (trace: seq<Event>)
      requires Valid() && isPlaying
      modifies this
      decreases 0, 2
      ensures Valid() && trace == []
      ensures isPlaying == !e.Toggle?
      ensures inputText == ApplyText(e, old(inputText)) && isMuted == ApplyMute(e, old(isMuted))
      ensures currentIndex == (if e.Edit? || e.Toggle? then -1 else old(currentIndex))
    {
      match e
      case NoInput =>
        trace := [];
      case Toggle =>
        trace := TogglePlay([]);
      case Start =>
        trace := PlayMorseCode([]);
      case Edit(text) =>
        HandleInputChange(text);
        trace := [];
      case ToggleMute =>
        ToggleMute();
        trace := [];
    }

    /** The sound of one symbol: a dot or a dash is a tone then the symbol gap,
        a space the letter gap, a slash the word gap; anything else is
        skipped. */
    static method PlaySymbol(symbol: char, muted: bool) returns (events: seq<Event>)
      ensures events == SymbolEvents(symbol, muted)
    {
      events := [];
      if symbol == '.' {
        events := events + PlaySound(Frequency, DotMs, muted);
        events := events + [Sleep(SymbolGapMs)];
      } else if symbol == '-' {
        events := events + PlaySound(Frequency, DashMs, muted);
        events := events + [Sleep(SymbolGapMs)];
      } else if symbol == ' ' {
        events := events + [Sleep(LetterGapMs)];
      } else if symbol == '/' {
        events := events + [Sleep(WordGapMs)];
      }
    }

    /** One pass of the playback loop: highlight position i, play its symbol,
        then handle what the user did while it sounded. */
    method PlayStep(symbol: char, muted: bool, i: nat, e: UiEvent) returns (events: seq<Event>)
      requires Valid() && isPlaying
      modifies this
      decreases 0, 3
      ensures Valid()
      ensures events == StepEvents(i, symbol, muted)
      ensures isPlaying == !e.Toggle?
      ensures inputText == ApplyText(e, old(inputText)) && isMuted == ApplyMute(e, old(isMuted))
      ensures currentIndex == (if e.Edit? || e.Toggle? then -1 else i)
    {
      currentIndex := i;
      var sound := PlaySymbol(symbol, muted);
      events := [Highlight(i)] + sound;
      var more := Deliver(e);
      events := events + more;
    }

    /** Plays the current code: a no-op when already playing or when there is
        no code; otherwise raises the flag, takes the code and the mute switch
        as they are now, and plays the symbols one by one while the flag is up,
        reporting each position before its sound. At the end, whether the run
        completed or was stopped, the flag is down and nothing is highlighted. */
    method PlayMorseCode(ui: seq<UiEvent>) returns (trace: seq<Event>)
      requires Valid()
      modifies this
      decreases if isPlaying then 0 else 1, 0
      ensures Valid()
      ensures Played(ui, old(isPlaying), old(morseCode), old(inputText), old(isMuted), old(currentIndex), trace)
    {
      trace := [];
      if isPlaying || morseCode == "" {
        return;
      }
      isPlaying := true;
      var symbols := morseCode;
      var muted := isMuted;
      ghost var text0 := inputText;
      var i := 0;
      while i < |symbols| && isPlaying
        invariant Valid()
        invariant Progress(ui, symbols, text0, muted, i, trace, isPlaying, inputText, isMuted)
      {
        var e := if i < |ui| then ui[i] else NoInput;
        ghost var text, mutedNow := inputText, isMuted;
        var step := PlayStep(symbols[i], muted, i, e);
        ProgressStep(ui, symbols, text0, muted, i, trace, text, mutedNow, step, isPlaying, inputText, isMuted);
        trace := trace + step;
        i := i + 1;
      }
      LoopExit(ui, symbols, text0, muted, trace, i, isPlaying, inputText, isMuted);
      isPlaying := false;
      currentIndex := -1;
    }
  }
}
