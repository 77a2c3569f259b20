/** The meditation session as a value: its phase, intention, duration, remaining seconds, chosen
    quote and completion flag, and the transitions the component applies to it. The `App` class
    in module `AppState` holds the same six fields and is proved against these functions. */
module Session {
  import opened Text

  datatype TimerState = Setup | Running | Complete

  datatype Quote = Quote(text: string, author: string)

  /** The fixed catalog a completed session's quote is drawn from. */
  const QUOTES: seq<Quote> := [
    Quote("The present moment is the only time over which we have dominion.", "Thích Nhất Hạnh"),
    Quote("Peace comes from within. Do not seek it without.", "Buddha"),
    Quote("Wherever you are, be there totally.", "Eckhart Tolle"),
    Quote("The quieter you become, the more you are able to hear.", "Rumi"),
    Quote("In the depth of winter, I finally learned that there was in me an invincible summer.", "Albert Camus"),
    Quote("The soul becomes dyed with the color of its thoughts.", "Marcus Aurelius"),
    Quote("What lies behind us and what lies before us are tiny matters compared to what lies within us.", "Ralph Waldo Emerson"),
    Quote("Your task is not to seek for love, but merely to seek and find all the barriers within yourself that you have built against it.", "Rumi"),
    Quote("The way out is through.", "Robert Frost"),
    Quote("Be yourself. Everyone else is already taken.", "Oscar Wilde")
  ]

  /** The durations, in minutes, that the setup view offers. */
  const DURATION_MENU: seq<int> := [1, 2, 3, 5, 10]
  const DEFAULT_DURATION: int := 5
  /** The `maxLength` of the intention input. */
  const MAX_INTENTION_LENGTH: nat := 50
  const SECONDS_PER_MINUTE: int := 60

  datatype State = State(
    timerState: TimerState,
    intention: string,
    duration: int,
    timeLeft: int,
    selectedQuote: Quote,
    showCompletion: bool)

  /** The state the component is mounted with. */
  function Initial(): State {
    State(Setup, "", DEFAULT_DURATION, 0, QUOTES[0], false)
  }

  /** What holds in every state the component can reach: the duration is a menu entry, the
      intention fits the input, the quote is a catalog entry, and time remains exactly while
      the session is running (none is left in setup or once complete). */
  predicate Valid(s: State) {
    && s.duration in DURATION_MENU
    && |s.intention| <= MAX_INTENTION_LENGTH
    && s.selectedQuote in QUOTES
    && s.timeLeft >= 0
    && (s.timerState == Running <==> s.timeLeft > 0)
  }

  /** `startTimer`: refused, leaving everything as it is, when the intention trims to nothing;
      otherwise the countdown is loaded with the duration in seconds, the session runs and the
      catalog entry at the drawn index `i` (`Math.floor(Math.random() * QUOTES.length)`, always
      below the catalog's length) is chosen. The phase is not consulted. */
  function Start(s: State, i: nat): State
    requires i < |QUOTES|
  {
    if Trim(s.intention) == [] then s
    else s.(timeLeft := s.duration * SECONDS_PER_MINUTE, timerState := Running,
            selectedQuote := QUOTES[i])
  }

  /** One firing of the one-second interval. The interval only exists while the session runs with
      time left, so otherwise nothing happens; the last second drives the time to 0 and completes. */
  function Tick(s: State): State {
    if s.timerState == Running && s.timeLeft > 0 then
      if s.timeLeft <= 1 then s.(timerState := Complete, timeLeft := 0)
      else s.(timeLeft := s.timeLeft - 1)
    else s
  }

  /** `n` firings of the interval in a row. */
  function Ticks(s: State, n: nat): State
    decreases n
  {
    if n == 0 then s else Ticks(Tick(s), n - 1)
  }

  /** `resetTimer`: back to setup with the default intention, duration, time and flag; the
      quote of the last session is kept. */
  function Reset(s: State): State {
    s.(timerState := Setup, intention := "", duration := DEFAULT_DURATION, timeLeft := 0,
       showCompletion := false)
  }

  /** The intention input's change handler; the input itself caps the text at its `maxLength`. */
  function SetIntention(s: State, text: string): State
    requires |text| <= MAX_INTENTION_LENGTH
  {
    s.(intention := text)
  }

  /** A duration button's click handler; the buttons only offer menu entries. */
  function SetDuration(s: State, minutes: int): State
    requires minutes in DURATION_MENU
  {
    s.(duration := minutes)
  }

  /** The delayed callback that reveals the completion content. */
  function Reveal(s: State): State {
    s.(showCompletion := true)
  }

  // ---- Properties of the transitions ----

  /** A start whose intention is empty or whitespace only changes nothing; any other start
      loads `duration * 60` seconds, runs, chooses the drawn catalog entry and keeps the
      intention, duration and completion flag. */
  lemma StartSpec(s: State, i: nat)
    requires i < |QUOTES|
    ensures IsBlank(s.intention) ==> Start(s, i) == s
    ensures !IsBlank(s.intention) ==>
      var t := Start(s, i);
      && t.timerState == Running
      && t.timeLeft == s.duration * 60
      && t.selectedQuote == QUOTES[i] && t.selectedQuote in QUOTES
      && t.intention == s.intention && t.duration == s.duration
      && t.showCompletion == s.showCompletion
  {
  }

  /** A tick with more than one second left takes exactly one second off and keeps running;
      a tick with one second (or less) left sets the time to 0 and completes; a tick outside
      a running session with time left changes nothing. Nothing else changes in any case. */
  lemma TickSpec(s: State)
    ensures s.timerState == Running && s.timeLeft > 1 ==>
      Tick(s) == s.(timeLeft := s.timeLeft - 1) && Tick(s).timerState == Running
    ensures s.timerState == Running && 0 < s.timeLeft <= 1 ==>
      Tick(s) == s.(timerState := Complete, timeLeft := 0)
    ensures !(s.timerState == Running && s.timeLeft > 0) ==> Tick(s) == s
  {
  }

  /** Reset yields the initial defaults from any state, except that the previous quote stays,
      and resetting twice is the same as resetting once. */
  lemma ResetSpec(s: State)
    ensures Reset(s) == Initial().(selectedQuote := s.selectedQuote)
    ensures Reset(Reset(s)) == Reset(s)
  {
  }

  /** Every transition keeps the state valid; in particular the duration stays a menu entry
      and the time left is never negative. */
  lemma TransitionsPreserveValid(s: State, i: nat, text: string, minutes: int)
    requires Valid(s)
    requires i < |QUOTES| && |text| <= MAX_INTENTION_LENGTH && minutes in DURATION_MENU
    ensures Valid(Initial())
    ensures Valid(Start(s, i)) && Valid(Tick(s)) && Valid(Reset(s))
    ensures Valid(SetIntention(s, text)) && Valid(SetDuration(s, minutes)) && Valid(Reveal(s))
  {
  }

  /** Any number of ticks keeps the state valid, so the time left never goes negative. */
  lemma {:induction false} TicksPreserveValid(s: State, n: nat)
    requires Valid(s)
    ensures Valid(Ticks(s, n))
    decreases n
  {
    if n > 0 {
      TransitionsPreserveValid(s, 0, "", DEFAULT_DURATION);
      TicksPreserveValid(Tick(s), n - 1);
    }
  }

  /** Fewer ticks than the seconds left leave the session running with exactly that many
      seconds fewer, and nothing else changed. */
  lemma {:induction false} CountdownRunning(s: State, k: nat)
    requires s.timerState == Running && k < s.timeLeft
    ensures Ticks(s, k) == s.(timeLeft := s.timeLeft - k)
    decreases k
  {
    if k > 0 {
      CountdownRunning(Tick(s), k - 1);
    }
  }

  /** As many ticks as seconds left complete the session with no time left; nothing else
      changes, and later ticks change nothing. */
  lemma CountdownCompletes(s: State, extra: nat)
    requires s.timerState == Running && s.timeLeft > 0
    ensures Ticks(s, s.timeLeft) == s.(timerState := Complete, timeLeft := 0)
    ensures Ticks(s, s.timeLeft + extra) == Ticks(s, s.timeLeft)
  {
    var n := s.timeLeft;
    CountdownRunning(s, n - 1);
    TicksSplit(s, n - 1, 1);
    TicksSplit(s, n, extra);
    TicksInert(Ticks(s, n), extra);
  }

  /** Ticking `a` times and then `b` times is ticking `a + b` times. */
  lemma {:induction false} TicksSplit(s: State, a: nat, b: nat)
    ensures Ticks(s, a + b) == Ticks(Ticks(s, a), b)
    decreases a
  {
    if a > 0 {
      TicksSplit(Tick(s), a - 1, b);
    }
  }

  /** Outside a running session the interval is inert: ticks change nothing. */
  lemma {:induction false} TicksInert(s: State, n: nat)
    requires s.timerState != Running
    ensures Ticks(s, n) == s
    decreases n
  {
    if n > 0 {
      TicksInert(Tick(s), n - 1);
    }
  }

  /** From an accepted start, exactly `duration * 60` ticks complete the session: every earlier
      tick leaves it running with time left, and the last one leaves it complete at 0. */
  lemma {:induction false} StartThenCountdown(s: State, i: nat, k: nat)
    requires Valid(s) && i < |QUOTES| && !IsBlank(s.intention)
    ensures var t := Start(s, i); var n := s.duration * 60;
      && Ticks(t, n) == t.(timerState := Complete, timeLeft := 0)
      && (k < n ==> Ticks(t, k).timerState == Running && Ticks(t, k).timeLeft == n - k > 0)
  {
    var t := Start(s, i);
    StartSpec(s, i);
    CountdownCompletes(t, 0);
    if k < s.duration * 60 {
      CountdownRunning(t, k);
    }
  }
}
