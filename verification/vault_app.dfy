/** The disguised entry point: the card game stays on screen until the last
    five volume-key presses spell up, down, up, down, up, which opens the
    vault. Arrow keys stand in for the volume keys on a desktop. */
module VaultApp {
  import opened Wrappers

  datatype Press = Up | Down

  function PressName(p: Press): string {
    match p
    case Up => "up"
    case Down => "down"
  }

  /** The key codes on_key_down consumes: 24/25 are the Android volume
      keys, 273/274 the desktop arrow keys. */
  function KeyPress(key: int): (p: Option<Press>)
    ensures p == Some(Up) <==> key == 24 || key == 273
    ensures p == Some(Down) <==> key == 25 || key == 274
  {
    if key == 24 || key == 273 then Some(Up)
    else if key == 25 || key == 274 then Some(Down)
    else None
  }

  const ReadyStatus: string := "Status: Ready | Secret: ↑↓↑↓↑ to open vault"
  const GameRunningStatus: string := "Status: Game Running | Secret: ↑↓↑↓↑ to open vault"
  const VaultOpenStatus: string := "Status: VAULT OPEN - Your files are secure"

  const PatternLength: nat := 5
  const TargetPattern: seq<Press> := [Up, Down, Up, Down, Up]

  /** The last (at most) five presses of a history. */
  function LastPresses(history: seq<Press>): (r: seq<Press>)
    ensures |r| <= PatternLength
    ensures |history| <= PatternLength ==> r == history
    ensures |history| > PatternLength ==> r == history[|history| - PatternLength..]
  {
    if |history| <= PatternLength then history else history[|history| - PatternLength..]
  }

  /** Appending a press and dropping the oldest one beyond five keeps the
      buffer equal to the last five presses of the whole history. */
  lemma PushKeepsLastPresses(history: seq<Press>, p: Press)
    ensures var buf := LastPresses(history) + [p];
      (if |buf| > PatternLength then buf[1..] else buf) == LastPresses(history + [p])
  {
    var h := history + [p];
    if |history| >= PatternLength {
      assert h[|h| - PatternLength..] == history[|history| - PatternLength + 1..] + [p];
    }
  }

  /** The buffer equals the target exactly when the last five presses are
      up, down, up, down, up (fewer than five presses never match). */
  lemma OpensExactlyOnPattern(history: seq<Press>)
    ensures LastPresses(history) == TargetPattern <==>
      |history| >= PatternLength && history[|history| - PatternLength..] == TargetPattern
  {
  }

  function PatternText(pattern: seq<Press>): string {
    if pattern == [] then "" else
    if |pattern| == 1 then PressName(pattern[0])
    else PressName(pattern[0]) + " " + PatternText(pattern[1..])
  }

  class VaultApp {
    var volumePattern: seq<Press>
    var vaultOpen: bool
    var currentScreen: string
    var statusText: string
    /** Every press since start-up or the last return to the game. */
    ghost var history: seq<Press>

    ghost predicate Valid()
      reads this
    {
      volumePattern == LastPresses(history)
    }

    constructor ()
      ensures Valid() && volumePattern == [] && !vaultOpen && currentScreen == "game"
      ensures statusText == ReadyStatus
    {
      volumePattern := [];
      vaultOpen := false;
      currentScreen := "game";
      statusText := ReadyStatus;
      history := [];
    }

    /** on_key_down: a volume or arrow key is recorded (at most the last
        five are kept) and opens the vault when the pattern matches; any
        other key is not consumed. */
    method OnKeyDown(key: int) returns (consumed: bool)
      requires Valid()
      modifies this
      ensures Valid()
      ensures consumed <==> KeyPress(key).Some?
      ensures !consumed ==>
        volumePattern == old(volumePattern) && vaultOpen == old(vaultOpen)
        && currentScreen == old(currentScreen) && statusText == old(statusText)
      ensures consumed ==>
        history == old(history) + [KeyPress(key).value]
        && volumePattern == LastPresses(history)
      ensures consumed && volumePattern == TargetPattern ==> vaultOpen && currentScreen == "vault_main"
      ensures consumed && volumePattern != TargetPattern ==>
        vaultOpen == old(vaultOpen) && currentScreen == old(currentScreen)
      ensures consumed && volumePattern != TargetPattern && old(currentScreen) == "game" ==>
        statusText == "Pattern: " + PatternText(volumePattern) + " | Target: ↑↓↑↓↑"
      ensures consumed && volumePattern != TargetPattern && old(currentScreen) != "game" ==>
        statusText == old(statusText)
      ensures consumed && volumePattern == TargetPattern ==> statusText == VaultOpenStatus
    {
      var press := KeyPress(key);
      if press.None? {
        return false;
      }
      PushKeepsLastPresses(history, press.value);
      volumePattern := volumePattern + [press.value];
      history := history + [press.value];
      if |volumePattern| > PatternLength {
        volumePattern := volumePattern[1..];
      }
      if currentScreen == "game" {
        statusText := "Pattern: " + PatternText(volumePattern) + " | Target: ↑↓↑↓↑";
      }
      if volumePattern == TargetPattern {
        OpenVault();
      }
      return true;
    }

    /** start_game: besides starting the card game, the game screen's
        status line says the game is running. */
    method StartGame()
      modifies this`statusText
      ensures old(currentScreen) == "game" ==> statusText == GameRunningStatus
      ensures old(currentScreen) != "game" ==> statusText == old(statusText)
    {
      if currentScreen == "game" {
        statusText := GameRunningStatus;
      }
    }

    /** open_vault: the vault screen replaces the game, with its own status
        line. */
    method OpenVault()
      modifies this`vaultOpen, this`currentScreen, this`statusText
      ensures vaultOpen && currentScreen == "vault_main"
      ensures statusText == VaultOpenStatus
    {
      vaultOpen := true;
      currentScreen := "vault_main";
      statusText := VaultOpenStatus;
    }

    /** back_to_game: the pattern starts over and the game screen is rebuilt. */
    method BackToGame()
      modifies this
      ensures Valid() && !vaultOpen && volumePattern == [] && currentScreen == "game"
      ensures statusText == ReadyStatus
    {
      statusText := ReadyStatus;
      vaultOpen := false;
      volumePattern := [];
      history := [];
      currentScreen := "game";
    }
  }
}
