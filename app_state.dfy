/** The component's state as the component holds it: six fields that its handlers update in place.
    Each handler is one atomic update and is proved to act on the fields exactly as the matching
    transition of module `Session` acts on a `Session.State`. */
module AppState {
  import opened Text
  import opened Session

  class App {
    var timerState: TimerState
    var intention: string
    var duration: int
    var timeLeft: int
    var selectedQuote: Quote
    var showCompletion: bool
    /** How many gong cues have been played so far. */
    ghost var gongs: nat
    /** How many delayed reveals the host scheduler still holds. */
    ghost var pendingReveals: nat

    /** The six fields as a session value. */
    function Snapshot(): State
      reads this
    {
      State(timerState, intention, duration, timeLeft, selectedQuote, showCompletion)
    }

    ghost predicate Valid()
      reads this
    {
      Session.Valid(Snapshot())
    }

    /** Mounting the component: setup, no intention, five minutes, no time, the first quote. */
    constructor ()
      ensures Snapshot() == Initial() && Valid()
      ensures gongs == 0 && pendingReveals == 0
    {
      timerState := Setup;
      intention := "";
      duration := DEFAULT_DURATION;
      timeLeft := 0;
      selectedQuote := QUOTES[0];
      showCompletion := false;
      gongs := 0;
      pendingReveals := 0;
    }

    /** `startTimer` with `i` the catalog index drawn from `Math.random()`: refused when the
        intention trims to nothing; otherwise loads the countdown, runs, plays the gong and
        picks the quote at that index. */
    method Start(i: nat)
      requires Valid() && i < |QUOTES|
      modifies this
      ensures Valid()
      ensures Snapshot() == Session.Start(old(Snapshot()), i)
      ensures IsBlank(old(intention)) ==> Snapshot() == old(Snapshot()) && gongs == old(gongs)
      ensures !IsBlank(old(intention)) ==>
        && timerState == Running && timeLeft == old(duration) * 60
        && intention == old(intention) && duration == old(duration)
        && selectedQuote == QUOTES[i] && gongs == old(gongs) + 1
      ensures pendingReveals == old(pendingReveals)
    {
      StartSpec(Snapshot(), i);
      TransitionsPreserveValid(Snapshot(), i, "", DEFAULT_DURATION);
      if Trim(intention) == [] {
        return;
      }
      timeLeft := duration * SECONDS_PER_MINUTE;
      timerState := Running;
      gongs := gongs + 1;
      selectedQuote := QUOTES[i];
    }

    /** The interval callback: with one second or less left, completes, plays the gong and
        schedules the reveal; otherwise takes one second off. No interval exists unless the
        session runs with time left, so then nothing happens. */
    method Tick()
      requires Valid()
      modifies this
      ensures Valid()
      ensures Snapshot() == Session.Tick(old(Snapshot()))
      ensures old(timerState) == Running && old(timeLeft) > 1 ==>
        timerState == Running && timeLeft == old(timeLeft) - 1
        && gongs == old(gongs) && pendingReveals == old(pendingReveals)
      ensures old(timerState) == Running && 0 < old(timeLeft) <= 1 ==>
        timerState == Complete && timeLeft == 0
        && gongs == old(gongs) + 1 && pendingReveals == old(pendingReveals) + 1
      ensures old(timerState) != Running ==> unchanged(this)
    {
      TickSpec(Snapshot());
      TransitionsPreserveValid(Snapshot(), 0, "", DEFAULT_DURATION);
      if timerState == Running && timeLeft > 0 {
        if timeLeft <= 1 {
          timerState := Complete;
          gongs := gongs + 1;
          pendingReveals := pendingReveals + 1;
          timeLeft := 0;
        } else {
          timeLeft := timeLeft - 1;
        }
      }
    }

    /** `resetTimer`: setup, empty intention, five minutes, no time, completion hidden; the
        quote is kept and a reveal still pending is not cancelled. */
    method Reset()
      requires Valid()
      modifies this
      ensures Valid()
      ensures Snapshot() == Session.Reset(old(Snapshot()))
      ensures Snapshot() == Initial().(selectedQuote := old(selectedQuote))
      ensures gongs == old(gongs) && pendingReveals == old(pendingReveals)
    {
      ResetSpec(Snapshot());
      TransitionsPreserveValid(Snapshot(), 0, "", DEFAULT_DURATION);
      timerState := Setup;
      intention := "";
      duration := DEFAULT_DURATION;
      timeLeft := 0;
      showCompletion := false;
    }

    /** The intention input's change handler, given text within the input's `maxLength`. */
    method SetIntention(text: string)
      requires Valid() && |text| <= MAX_INTENTION_LENGTH
      modifies this`intention
      ensures Valid()
      ensures Snapshot() == Session.SetIntention(old(Snapshot()), text)
    {
      TransitionsPreserveValid(Snapshot(), 0, text, DEFAULT_DURATION);
      intention := text;
    }

    /** A duration button's click handler, given one of the menu's minutes. */
    method SetDuration(minutes: int)
      requires Valid() && minutes in DURATION_MENU
      modifies this`duration
      ensures Valid()
      ensures Snapshot() == Session.SetDuration(old(Snapshot()), minutes)
    {
      TransitionsPreserveValid(Snapshot(), 0, "", minutes);
      duration := minutes;
    }

    /** The host delivering one pending reveal, one second after a completion. */
    method Reveal()
      requires Valid() && pendingReveals > 0
      modifies this
      ensures Valid()
      ensures Snapshot() == Session.Reveal(old(Snapshot()))
      ensures pendingReveals == old(pendingReveals) - 1 && gongs == old(gongs)
    {
      TransitionsPreserveValid(Snapshot(), 0, "", DEFAULT_DURATION);
      showCompletion := true;
      pendingReveals := pendingReveals - 1;
    }

    /** The interval firing until it is cleared: a running session takes exactly as many ticks
        as it had seconds left, ends complete at 0 with one more gong and one reveal pending,
        and keeps its intention, duration and quote. */
    method RunCountdown() returns (ticks: nat)
      requires Valid() && timerState == Running
      modifies this
      ensures Valid()
      ensures ticks == old(timeLeft)
      ensures Snapshot() == Ticks(old(Snapshot()), ticks)
      ensures Snapshot() == old(Snapshot()).(timerState := Complete, timeLeft := 0)
      ensures gongs == old(gongs) + 1 && pendingReveals == old(pendingReveals) + 1
    {
      ghost var s0 := Snapshot();
      ticks := 0;
      while timerState == Running
        invariant Valid()
        invariant timerState != Setup
        invariant timerState == Running ==> ticks + timeLeft == s0.timeLeft
        invariant timerState == Running ==> gongs == old(gongs) && pendingReveals == old(pendingReveals)
        invariant timerState == Complete ==> ticks == s0.timeLeft
        invariant timerState == Complete ==> gongs == old(gongs) + 1 && pendingReveals == old(pendingReveals) + 1
        invariant Snapshot() == Ticks(s0, ticks)
        invariant Snapshot() == s0.(timerState := timerState, timeLeft := timeLeft)
        decreases timeLeft
      {
        TicksSplit(s0, ticks, 1);
        Tick();
        ticks := ticks + 1;
      }
    }
  }
}
