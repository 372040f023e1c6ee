/** The PIN pad in front of the vault: a buffer of at most four digits, a
    two-step "enter, then confirm" setup flow followed by a security
    question, and the handling of what the PIN store answers. Widgets,
    popups and Clock delays are not modelled; what a screen would show is
    returned as a Feedback value. */
module PasswordUI {
  import opened Wrappers
  import opened Strings
  import PM = PasswordManager

  const PinLength: nat := 4

  /** The message or screen a step ends with. */
  datatype Feedback =
    | Quiet                       // nothing shown
    | AccessGranted               // "Access granted!", then the vault opens
    | LockoutScreen(seconds: int) // the lockout countdown
    | WrongPin(remaining: int)    // "Wrong PIN! <n> attempts remaining."
    | AccessDenied                // "Access denied!"
    | Raised                      // int() raised on a malformed status
    | PinsDiffer                  // "PINs don't match! Try again."
    | AnswerMissing               // "Please enter an answer!"
    | SetupDone                   // "Setup complete! Welcome to the game."
    | IncorrectAnswer             // "Incorrect answer!"

  /** One slot of the PIN display: a dot for an entered digit, else '_'. */
  function Slot(i: nat, entered: nat): string {
    if i < entered then "● " else "_ "
  }

  /** The first k slots, as update_pin_display's loop builds them. */
  function Slots(k: nat, entered: nat): (s: string)
    ensures |s| == 2 * k
    ensures forall i :: 0 <= i < k ==> s[2 * i] == (if i < entered then '●' else '_') && s[2 * i + 1] == ' '
  {
    if k == 0 then "" else Slots(k - 1, entered) + Slot(k - 1, entered)
  }

  /** What the display reads for a PIN of the given length: the four
      slots without the trailing space. */
  function PinDisplay(entered: nat): string {
    Slots(PinLength, entered)[..2 * PinLength - 1]
  }

  /** update_pin_display strips the slots it built, which removes exactly
      the trailing space. */
  lemma StripSlots(entered: nat)
    ensures Strip(Slots(PinLength, entered)) == PinDisplay(entered)
  {
    var s := Slots(PinLength, entered);
    var r := RStrip(s);
    assert !IsSpace(s[6]) && IsSpace(s[7]);
    assert |r| == 7;
    assert r == s[..7] && r[0] == s[2 * 0];
    assert !IsSpace(r[0]);
    assert LStripBy(r, IsSpace) == r;
  }

  /** The display always shows four slots separated by single spaces:
      '●' for each entered digit, then '_'. */
  lemma PinDisplayShape(entered: nat)
    ensures |PinDisplay(entered)| == 2 * PinLength - 1
    ensures forall i :: 0 <= i < PinLength ==> PinDisplay(entered)[2 * i] == (if i < entered then '●' else '_')
    ensures forall i :: 0 <= i < PinLength - 1 ==> PinDisplay(entered)[2 * i + 1] == ' '
  {
  }

  /** How verify_pin reacts to "failed_<n>", as written: 5 - n attempts are
      left; a positive number clears the PIN, otherwise the lockout screen. */
  function FailedFeedbackAsWritten(attempts: int, lockoutSeconds: int): Feedback {
    var remaining := PM.MaxFailedAttempts - attempts;
    if remaining > 0 then WrongPin(remaining) else LockoutScreen(lockoutSeconds)
  }

  /** The attempt that starts a lockout answers "failed_0" (the store resets
      its counter when it locks), so the screen says five attempts remain
      while the vault is locked for an hour. */
  lemma LockingAttemptShowsFiveLeft(c: PM.Config, pin: string, now: int)
    requires !PM.IsLocked(c, now) && !PM.CheckPw(pin, c.pinHash)
    requires c.failedAttempts == PM.MaxFailedAttempts - 1
    ensures var (s, c') := PM.AttemptPin(c, pin, now);
      && s == PM.Failed(0)
      && PM.LockoutRemaining(c', now) == PM.LockoutSeconds
      && FailedFeedbackAsWritten(s.attempts, PM.LockoutRemaining(c', now)) == WrongPin(5)
  {
  }

  /** The corrected reaction: the lockout screen whenever the failure left
      the store locked, else the attempts left. */
  function FailedFeedback(attempts: int, lockoutSeconds: int): (f: Feedback)
    ensures f.LockoutScreen? <==> lockoutSeconds > 0
    ensures lockoutSeconds <= 0 ==> f == WrongPin(PM.MaxFailedAttempts - attempts)
  {
    if lockoutSeconds > 0 then LockoutScreen(lockoutSeconds)
    else WrongPin(PM.MaxFailedAttempts - attempts)
  }

  /** With the correction, a failed attempt shows the lockout screen exactly
      when it locked the store, and otherwise a positive number of attempts
      left that counts down from four. */
  lemma FailedFeedbackMatchesLockout(c: PM.Config, pin: string, now: int)
    requires !PM.IsLocked(c, now) && !PM.CheckPw(pin, c.pinHash)
    requires 0 <= c.failedAttempts < PM.MaxFailedAttempts
    ensures var (s, c') := PM.AttemptPin(c, pin, now);
      var f := FailedFeedback(s.attempts, PM.LockoutRemaining(c', now));
      && (f.LockoutScreen? <==> c.failedAttempts == PM.MaxFailedAttempts - 1)
      && (f.WrongPin? ==> f.remaining == PM.MaxFailedAttempts - 1 - c.failedAttempts && f.remaining > 0)
  {
  }

  /** "failed_<n>".split("_")[1] is str(n). */
  lemma SplitFailedStatus(n: int)
    ensures Split("failed_" + IntToString(n), '_') == ["failed", IntToString(n)]
  {
    var d := IntToString(n);
    var s := "failed_" + d;
    assert s[6] == '_' && '_' !in s[..6];
    assert IndexOfChar(s, '_') == 6 by {
      var k := IndexOfChar(s, '_');
      assert forall j :: 0 <= j < 6 ==> s[j] != '_';
    }
    assert s[..6] == "failed" && s[7..] == d;
    assert '_' !in d by {
      var digits := NatToString(if n < 0 then -n else n);
      forall i | 0 <= i < |digits| ensures digits[i] != '_' { assert IsDigit(digits[i]); }
      assert d == digits || d == "-" + digits;
    }
  }

  /** The number in a "failed_<n>" status, as int(status.split("_")[1]) reads it. */
  function FailedCount(status: string): Option<int> {
    var parts := Split(status, '_');
    if |parts| < 2 then None else ParseInt(parts[1])
  }

  lemma FailedCountOfStatus(n: int)
    ensures FailedCount(PM.StatusText(PM.Failed(n))) == Some(n)
  {
    SplitFailedStatus(n);
    ParseIntToString(n);
  }

  lemma DropLast(pin: string)
    requires pin != []
    ensures pin[..|pin| - 1] + [pin[|pin| - 1]] == pin
  {
  }

  class GamePasswordUI {
    /** app.password_manager */
    const pm: PM.PasswordManager
    var currentPin: string
    var setupMode: bool
    var confirmPin: string
    var securityQuestion: string
    var setupStep: int
    /** pin_display.text */
    var pinDisplay: string

    ghost predicate Valid()
      reads this, pm
    {
      && pm.Valid()
      && |currentPin| <= PinLength && |confirmPin| <= PinLength
      && 1 <= setupStep <= 3
    }

    constructor (pm: PM.PasswordManager)
      requires pm.Valid()
      ensures Valid() && this.pm == pm
      ensures currentPin == "" && confirmPin == "" && securityQuestion == ""
      ensures !setupMode && setupStep == 1 && pinDisplay == PinDisplay(0)
    {
      this.pm := pm;
      currentPin := "";
      setupMode := false;
      confirmPin := "";
      securityQuestion := "";
      setupStep := 1;
      pinDisplay := PinDisplay(0);
    }

    /** show_first_setup */
    method ShowFirstSetup()
      requires Valid()
      modifies this
      ensures Valid() && setupMode && setupStep == 1
      ensures currentPin == old(currentPin) && confirmPin == old(confirmPin)
      ensures securityQuestion == old(securityQuestion) && pinDisplay == PinDisplay(0)
    {
      setupMode := true;
      setupStep := 1;
      pinDisplay := PinDisplay(0);
    }

    /** show_password_prompt */
    method ShowPasswordPrompt()
      requires Valid()
      modifies this
      ensures Valid() && !setupMode && currentPin == ""
      ensures confirmPin == old(confirmPin) && setupStep == old(setupStep)
      ensures securityQuestion == old(securityQuestion) && pinDisplay == PinDisplay(0)
    {
      setupMode := false;
      currentPin := "";
      pinDisplay := PinDisplay(0);
    }

    /** update_pin_display: four slots, then strip. */
    method UpdatePinDisplay()
      modifies this`pinDisplay
      ensures pinDisplay == PinDisplay(|currentPin|)
    {
      var display := "";
      for i := 0 to PinLength
        invariant display == Slots(i, |currentPin|)
      {
        display := display + (if i < |currentPin| then "● " else "_ ");
      }
      StripSlots(|currentPin|);
      pinDisplay := Strip(display);
    }

    /** add_digit: appends while fewer than four digits are entered; the
        PIN is handed on for processing exactly when the fourth arrives. */
    method AddDigit(digit: nat) returns (process: bool)
      requires Valid() && digit < 10
      modifies this`currentPin, this`pinDisplay
      ensures Valid()
      ensures |old(currentPin)| < PinLength ==> currentPin == old(currentPin) + [DigitChar(digit)]
      ensures |old(currentPin)| >= PinLength ==> currentPin == old(currentPin) && pinDisplay == old(pinDisplay)
      ensures |old(currentPin)| < PinLength ==> pinDisplay == PinDisplay(|currentPin|)
      ensures process <==> |old(currentPin)| < PinLength && |currentPin| == PinLength
    {
      process := false;
      if |currentPin| < PinLength {
        currentPin := currentPin + NatToString(digit);
        UpdatePinDisplay();
        process := |currentPin| == PinLength;
      }
    }

    /** delete_digit: drops the last digit; nothing to do on an empty PIN. */
    method DeleteDigit()
      requires Valid()
      modifies this`currentPin, this`pinDisplay
      ensures Valid()
      ensures old(currentPin) == [] ==> currentPin == [] && pinDisplay == old(pinDisplay)
      ensures old(currentPin) != [] ==>
        currentPin + [old(currentPin)[|old(currentPin)| - 1]] == old(currentPin)
        && pinDisplay == PinDisplay(|currentPin|)
    {
      var pin := currentPin;
      if pin != [] {
        DropLast(pin);
        currentPin := pin[..|pin| - 1];
        UpdatePinDisplay();
      }
    }

    /** clear_pin */
    method ClearPin()
      requires Valid()
      modifies this`currentPin, this`pinDisplay
      ensures Valid() && currentPin == [] && pinDisplay == PinDisplay(0)
    {
      currentPin := "";
      UpdatePinDisplay();
    }

    /** handle_setup_pin: step 1 keeps the PIN for confirmation; step 2
        accepts a matching PIN or starts over. */
    method HandleSetupPin() returns (f: Feedback)
      requires Valid()
      modifies this`currentPin, this`confirmPin, this`setupStep, this`setupMode, this`pinDisplay
      ensures Valid()
      ensures old(setupStep) == 1 ==>
        confirmPin == old(currentPin) && currentPin == "" && setupStep == 2 && f == Quiet
      ensures old(setupStep) == 2 && old(currentPin) == old(confirmPin) ==>
        setupStep == 3 && currentPin == old(currentPin) && confirmPin == old(confirmPin) && f == Quiet
      ensures old(setupStep) == 2 && old(currentPin) != old(confirmPin) ==>
        setupStep == 1 && currentPin == "" && confirmPin == "" && setupMode && f == PinsDiffer
      ensures old(setupStep) == 3 ==>
        setupStep == 3 && currentPin == old(currentPin) && confirmPin == old(confirmPin) && f == Quiet
    {
      f := Quiet;
      if setupStep == 1 {
        confirmPin := currentPin;
        currentPin := "";
        setupStep := 2;
        pinDisplay := PinDisplay(0);
      } else if setupStep == 2 {
        if currentPin == confirmPin {
          setupStep := 3;
        } else {
          f := PinsDiffer;
          setupStep := 1;
          currentPin := "";
          confirmPin := "";
          setupMode := true;
          pinDisplay := PinDisplay(0);
        }
      }
    }

    /** select_security_question */
    method SelectSecurityQuestion(question: string)
      modifies this`securityQuestion
      ensures securityQuestion == question
    {
      securityQuestion := question;
    }

    /** set_custom_question: a blank question is ignored. */
    method SetCustomQuestion(question: string) returns (accepted: bool)
      modifies this`securityQuestion
      ensures accepted <==> Strip(question) != ""
      ensures accepted ==> securityQuestion == Strip(question)
      ensures !accepted ==> securityQuestion == old(securityQuestion)
    {
      accepted := Strip(question) != "";
      if accepted {
        securityQuestion := Strip(question);
      }
    }

    /** complete_setup: a blank answer is refused; otherwise the confirmed
        PIN, the question and the stripped answer go to the store. */
    method CompleteSetup(answerInput: string, pinSalt: nat, answerSalt: nat, now: int) returns (f: Feedback)
      requires Valid()
      modifies pm
      ensures Valid()
      ensures Strip(answerInput) == "" ==> f == AnswerMissing && pm.file == old(pm.file)
      ensures Strip(answerInput) != "" ==>
        f == SetupDone
        && pm.file == PM.Stored(PM.NewConfig(confirmPin, securityQuestion, Strip(answerInput), pinSalt, answerSalt))
    {
      var answer := Strip(answerInput);
      if answer == "" {
        return AnswerMissing;
      }
      var ok := pm.SetupPassword(confirmPin, securityQuestion, answer, pinSalt, answerSalt, now);
      f := if ok then SetupDone else Quiet;
    }

    /** verify_pin (the UI side), with the lockout check corrected as in
        FailedFeedback. */
    method VerifyPin(now: int) returns (f: Feedback)
      requires Valid()
      modifies this`currentPin, pm
      ensures Valid()
      ensures PM.FileConfig(old(pm.file)).None? ==> f == AccessDenied && currentPin == ""
      ensures PM.FileConfig(old(pm.file)).Some? ==>
        var (s, c') := PM.AttemptPin(old(pm.file).config, old(currentPin), now);
        && (s == PM.Success <==> f == AccessGranted)
        && (s == PM.Locked ==> f == LockoutScreen(PM.LockoutRemaining(c', now)))
        && (s.Failed? ==> f == FailedFeedback(s.attempts, PM.LockoutRemaining(c', now)))
        && (f.WrongPin? ==> currentPin == "")
        && (f.AccessGranted? || f.LockoutScreen? ==> currentPin == old(currentPin))
    {
      ghost var loaded := PM.FileConfig(pm.file);
      if loaded.Some? {
        var s := PM.AttemptPin(loaded.value, currentPin, now).0;
        if s.Failed? {
          FailedCountOfStatus(s.attempts);
        }
      }
      var result, status := pm.VerifyPin(currentPin, now);
      if result {
        return AccessGranted;
      }
      if status == "locked" {
        var secs := pm.GetLockoutTimeRemaining(now);
        return LockoutScreen(secs);
      }
      if StartsWith(status, "failed") {
        var attempts := FailedCount(status);
        if attempts.None? {
          return Raised;
        }
        var secs := pm.GetLockoutTimeRemaining(now);
        f := FailedFeedback(attempts.value, secs);
        if f.WrongPin? {
          currentPin := "";
        }
        return f;
      }
      currentPin := "";
      f := AccessDenied;
    }

    /** verify_security_answer (the UI side): a right answer opens the PIN reset. */
    method VerifySecurityAnswer(answer: string, now: int) returns (f: Feedback)
      requires Valid()
      modifies this, pm`cache, pm`cacheTimestamp, pm`cacheDirty
      ensures Valid()
      ensures f == Quiet <==> old(pm.file).Stored? && PM.AnswerAccepted(old(pm.file).config, answer)
      ensures f == Quiet ==> setupMode && setupStep == 1 && currentPin == "" && confirmPin == ""
      ensures f != Quiet ==> f == IncorrectAnswer && currentPin == old(currentPin) && setupStep == old(setupStep)
    {
      var ok := pm.VerifySecurityAnswer(answer, now);
      if ok {
        ShowPinReset();
        f := Quiet;
      } else {
        f := IncorrectAnswer;
      }
    }

    /** show_pin_reset: back to step 1 of setup with both PINs cleared. */
    method ShowPinReset()
      requires Valid()
      modifies this
      ensures Valid() && setupMode && setupStep == 1 && currentPin == "" && confirmPin == ""
      ensures securityQuestion == old(securityQuestion) && pinDisplay == PinDisplay(0)
    {
      setupMode := true;
      setupStep := 1;
      currentPin := "";
      confirmPin := "";
      pinDisplay := PinDisplay(0);
    }
  }
}
