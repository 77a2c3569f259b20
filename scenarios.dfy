/** Sessions driven through the component's handlers, and what a caller can conclude about them
    from the handlers' contracts alone. */
module Scenarios {
  import opened Session
  import opened AppState
  import opened TimeFormat

  /** Intention "clarity" for one minute: sixty ticks complete the session with the time shown
      as 0:00, and the intention is still there to be displayed. */
  method ClarityForOneMinute(i: nat)
    requires i < |QUOTES|
  {
    var app := new App();
    app.SetIntention("clarity");
    app.SetDuration(1);
    assert "clarity"[0] == 'c';
    app.Start(i);
    assert app.timerState == Running && app.timeLeft == 60;
    assert FormatTime(app.timeLeft) == "1:00" by {
      assert Decimal(1) == "1" && Decimal(0) == "0";
    }
    var ticks := app.RunCountdown();
    assert ticks == 60;
    assert app.timerState == Complete && app.timeLeft == 0 && app.intention == "clarity";
    assert app.selectedQuote == QUOTES[i];
    FormatTimeExamples();
    assert FormatTime(app.timeLeft) == "0:00";
  }

  /** An intention of spaces only: starting is refused and the session stays in setup. */
  method WhitespaceIntentionIsRefused(i: nat)
    requires i < |QUOTES|
  {
    var app := new App();
    app.SetIntention("   ");
    app.Start(i);
    assert app.timerState == Setup && app.timeLeft == 0 && app.duration == 5;
    assert app.selectedQuote == QUOTES[0];
  }

  /** Resetting within the second after completion does not cancel the pending reveal: it still
      sets the completion flag, now in setup. The flag then stays set through the next session,
      which is already flagged while it runs and the moment it completes, instead of one
      second later. */
  method RevealAfterReset(i: nat)
    requires i < |QUOTES|
  {
    var app := new App();
    app.SetIntention("peace");
    assert "peace"[0] == 'p';
    app.Start(i);
    var _ := app.RunCountdown();
    app.Reset();
    assert app.pendingReveals == 1;
    app.Reveal();
    assert app.timerState == Setup && app.showCompletion;
    app.SetIntention("peace");
    app.Start(i);
    assert app.timerState == Running && app.showCompletion;
    var _ := app.RunCountdown();
    assert app.timerState == Complete && app.showCompletion;
  }
}
