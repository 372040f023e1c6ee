/** The three-card monte game (monte_game.py): three cards, one of them the
    red ace; they are shown, hidden and shuffled, then the player clicks
    one. A correct guess scores 10 and lengthens the streak, which speeds
    up and lengthens later shuffles; a wrong one resets both. Rendered text
    is kept in a small first-in first-out cache. Clock readings, the random
    choices and the animation's eased positions are parameters. */
module MonteGame {
  import opened Wrappers

  const CardWidth := 120
  const CardHeight := 160
  const CardSpacing := 50
  const ShowMillis := 2000
  const ResultMillis := 2000
  const TextCacheMax := 50
  const TextCacheEvict := 10
  /** The shuffle speed in hundredths: 0.3 at the start of a streak. */
  const BaseSpeed := 30

  datatype Phase = Showing | Shuffling | Guessing | Result

  /** The layout: three cards side by side, centred on the surface. */
  function CardY(height: int): int { height / 2 - CardHeight / 2 }
  function StartX(width: int): int { width / 2 - (3 * CardWidth + 2 * CardSpacing) / 2 }
  function CardX(width: int, i: int): int { StartX(width) + i * (CardWidth + CardSpacing) }

  /** max_shuffles after a correct guess: one more shuffle every three
      wins, six to twelve. */
  function MaxShufflesFor(streak: nat): (m: nat)
    ensures 6 <= m <= 12
    ensures streak < 18 ==> m == 6 + streak / 3
  {
    if 6 + streak / 3 < 12 then 6 + streak / 3 else 12
  }

  /** The pause between shuffles in milliseconds for a speed in hundredths:
      800 / speed, never under 200. */
  function ShuffleInterval(speed: nat): (ms: nat)
    requires speed > 0
    ensures ms >= 200
  {
    if 80000 / speed < 200 then 200 else 80000 / speed
  }

  class Card {
    var x: int
    var y: int
    var targetX: int
    var targetY: int
    const isWinner: bool
    var isFaceUp: bool
    var moving: bool

    /** A card at rest sits on its target. */
    predicate Settled()
      reads this
    {
      !moving ==> x == targetX && y == targetY
    }

    constructor (x: int, y: int, isWinner: bool)
      ensures this.x == x && this.y == y && targetX == x && targetY == y
      ensures this.isWinner == isWinner && !isFaceUp && !moving
    {
      this.x, this.y := x, y;
      targetX, targetY := x, y;
      this.isWinner := isWinner;
      isFaceUp, moving := false, false;
    }

    /** Where the card is drawn and whether it is still travelling. */
    function Drawn(): Pose
      reads this
    {
      Pose(x, y, moving)
    }

    /** pygame's Rect.collidepoint for the card's rectangle. */
    predicate Hit(px: int, py: int)
      reads this
    {
      x <= px < x + CardWidth && y <= py < y + CardHeight
    }

    /** move_to: a new target, and the card starts moving. */
    method MoveTo(tx: int, ty: int)
      modifies this
      ensures targetX == tx && targetY == ty && moving
      ensures x == old(x) && y == old(y) && isFaceUp == old(isFaceUp)
    {
      targetX, targetY := tx, ty;
      moving := true;
    }

    /** update_position: a moving card more than a pixel from its target
        steps to `eased` (the animation's next point); one within a pixel
        lands on the target and stops. The answer is whether it moved. */
    method UpdatePosition(eased: (int, int)) returns (changed: bool)
      requires Settled()
      modifies this
      ensures Settled()
      ensures changed == old(moving)
      ensures targetX == old(targetX) && targetY == old(targetY) && isFaceUp == old(isFaceUp)
      ensures !old(moving) ==> x == old(x) && y == old(y) && !moving
      ensures old(moving) && Far(old(x), old(y), targetX, targetY) ==> x == eased.0 && y == eased.1 && moving
      ensures old(moving) && !Far(old(x), old(y), targetX, targetY) ==> x == targetX && y == targetY && !moving
      ensures Drawn() == Glide(old(x), old(y), targetX, targetY, eased)
    {
      if !moving {
        return false;
      }
      if Far(x, y, targetX, targetY) {
        x, y := eased.0, eased.1;
      } else {
        x, y := targetX, targetY;
        moving := false;
      }
      changed := true;
    }
  }

  function Abs(n: int): nat { if n < 0 then -n else n }

  /** More than a pixel away on either axis. */
  predicate Far(x: int, y: int, tx: int, ty: int) {
    Abs(tx - x) > 1 || Abs(ty - y) > 1
  }

  datatype Pose = Pose(x: int, y: int, moving: bool)

  /** One animation frame for a card that was at `(x, y)` with target
      `(tx, ty)`: still far, it is drawn at `eased` and keeps moving;
      otherwise it sits on the target at rest. */
  function Glide(x: int, y: int, tx: int, ty: int, eased: (int, int)): Pose {
    if Far(x, y, tx, ty) then Pose(eased.0, eased.1, true) else Pose(tx, ty, false)
  }

  /** Exactly one of three cards is the ace. */
  predicate OneWinner(a: bool, b: bool, c: bool) {
    (a && !b && !c) || (!a && b && !c) || (!a && !b && c)
  }

  /** The three cards' target positions, in order. */
  function Targets(cards: seq<Card>): (t: seq<(int, int)>)
    requires |cards| == 3
    reads set c | c in cards
  {
    [(cards[0].targetX, cards[0].targetY), (cards[1].targetX, cards[1].targetY), (cards[2].targetX, cards[2].targetY)]
  }

  /** Which way up the three cards lie, in order. */
  function Faces(cards: seq<Card>): (t: seq<bool>)
    requires |cards| == 3
    reads set c | c in cards
  {
    [cards[0].isFaceUp, cards[1].isFaceUp, cards[2].isFaceUp]
  }

  /** Which of the three cards are gliding, in order. */
  function Motion(cards: seq<Card>): (t: seq<bool>)
    requires |cards| == 3
    reads set c | c in cards
  {
    [cards[0].moving, cards[1].moving, cards[2].moving]
  }

  /** Which of the three cards is the ace, in order. */
  function Aces(cards: seq<Card>): (t: seq<bool>)
    requires |cards| == 3
  {
    [cards[0].isWinner, cards[1].isWinner, cards[2].isWinner]
  }

  /** The three cards drawn after one animation frame from `before`, each
      gliding towards its target by its `eased` point. */
  ghost predicate Stepped(cards: seq<Card>, before: seq<(int, int)>, eased: seq<(int, int)>)
    requires |cards| == 3 && |before| == 3 && |eased| == 3
    reads set c | c in cards
  {
    SteppedBelow(cards, before, eased, 3)
  }

  /** The first n cards have taken their step from where they were drawn before. */
  ghost predicate SteppedBelow(cards: seq<Card>, before: seq<(int, int)>, eased: seq<(int, int)>, n: nat)
    requires |cards| == 3 && |before| == 3 && |eased| == 3 && n <= 3
    reads set c | c in cards
  {
    forall i :: 0 <= i < n ==>
      cards[i].Drawn() == Glide(before[i].0, before[i].1, cards[i].targetX, cards[i].targetY, eased[i])
  }

  /** Where the three cards are drawn, in order. */
  function Places(cards: seq<Card>): (t: seq<(int, int)>)
    requires |cards| == 3
    reads set c | c in cards
  {
    [(cards[0].x, cards[0].y), (cards[1].x, cards[1].y), (cards[2].x, cards[2].y)]
  }

  /** The first card under the point, scanning left to right. */
  function FirstHit(cards: seq<Card>, px: int, py: int): (r: Option<nat>)
    requires |cards| == 3
    reads set c | c in cards
    ensures r.Some? ==> r.value < |cards| && cards[r.value].Hit(px, py)
    ensures r.Some? ==> forall k :: 0 <= k < r.value ==> !cards[k].Hit(px, py)
    ensures r.None? ==> forall k :: 0 <= k < |cards| ==> !cards[k].Hit(px, py)
  {
    if cards[0].Hit(px, py) then Some(0)
    else if cards[1].Hit(px, py) then Some(1)
    else if cards[2].Hit(px, py) then Some(2)
    else None
  }

  /** Entries `i` and `j` exchanged. */
  function Swapped<T>(s: seq<T>, i: nat, j: nat): (t: seq<T>)
    requires i < |s| && j < |s|
    ensures |t| == |s| && t[i] == s[j] && t[j] == s[i]
    ensures forall k :: 0 <= k < |s| && k != i && k != j ==> t[k] == s[k]
  {
    s[i := s[j]][j := s[i]]
  }

  /** Shuffling moves the cards' places around but keeps the same three
      places. */
  lemma SwapPermutes<T>(s: seq<T>, i: nat, j: nat)
    requires i < |s| && j < |s|
    ensures multiset(Swapped(s, i, j)) == multiset(s)
  {
    if i != j {
      var t := s[i := s[j]];
      assert multiset(t) == multiset(s) - multiset{s[i]} + multiset{s[j]};
      assert multiset(t[j := s[i]]) == multiset(t) - multiset{t[j]} + multiset{s[i]};
    }
  }

  // ----- the text cache -----

  type Color = (int, int, int)
  type TextKey = (string, string, Color)

  /** What a render produces: the text, the font actually used, the colour. */
  datatype Rendered = Rendered(text: string, font: string, color: Color)

  /** The fonts made up front; any other name falls back to "small". */
  const FontSizes: map<string, nat> := map["small" := 36, "large" := 72, "card_ace" := 72, "card_number" := 48]

  function FontFor(name: string): string {
    if name in FontSizes then name else "small"
  }

  function Render(key: TextKey): Rendered {
    Rendered(key.0, FontFor(key.1), key.2)
  }

  predicate Distinct<T(==)>(s: seq<T>) {
    forall i, j :: 0 <= i < j < |s| ==> s[i] != s[j]
  }

  lemma {:induction false} DistinctCard<T>(s: seq<T>)
    requires Distinct(s)
    ensures |set x | x in s| == |s|
    decreases |s|
  {
    if s != [] {
      var rest := s[1..];
      assert Distinct(rest);
      DistinctCard(rest);
      assert (set x | x in s) == (set x | x in rest) + {s[0]};
      assert s[0] !in rest;
    }
  }

  /** What the cache keeps after a miss: at capacity the ten oldest keys go
      first, then the new key is added last. */
  function AfterMiss(order: seq<TextKey>, key: TextKey): seq<TextKey> {
    (if |order| >= TextCacheMax then order[TextCacheEvict..] else order) + [key]
  }

  // ----- the scoreboard -----

  /** Score, current streak of correct guesses and the best streak so far. */
  datatype Tally = Tally(score: nat, streak: nat, bestStreak: nat)

  /** One guess scored: an ace is worth 10 and extends the streak (and the
      record, once it passes it); a miss ends the streak. */
  function Scored(t: Tally, won: bool): (u: Tally)
    ensures t.streak <= t.bestStreak ==> u.streak <= u.bestStreak
    ensures u.bestStreak >= t.bestStreak
  {
    if won then
      var streak := t.streak + 1;
      Tally(t.score + 10, streak, if streak > t.bestStreak then streak else t.bestStreak)
    else
      Tally(t.score, 0, t.bestStreak)
  }

  /** The scoreboard after a whole game's guesses, oldest first. */
  function Tallied(guesses: seq<bool>): Tally {
    if guesses == [] then Tally(0, 0, 0)
    else Scored(Tallied(guesses[..|guesses| - 1]), guesses[|guesses| - 1])
  }

  function Wins(guesses: seq<bool>): nat {
    if guesses == [] then 0 else (if guesses[0] then 1 else 0) + Wins(guesses[1..])
  }

  function Max(a: nat, b: nat): nat { if a > b then a else b }

  predicate AllWins(guesses: seq<bool>) {
    forall k :: 0 <= k < |guesses| ==> guesses[k]
  }

  /** `n` is the number of correct guesses at the end of the game. */
  ghost predicate IsTrailingRun(guesses: seq<bool>, n: nat) {
    n <= |guesses| && AllWins(guesses[|guesses| - n..]) && (n < |guesses| ==> !guesses[|guesses| - n - 1])
  }

  /** Guesses `i` to `i + n` were all correct. */
  predicate RunAt(guesses: seq<bool>, i: nat, n: nat) {
    i + n <= |guesses| && AllWins(guesses[i..i + n])
  }

  /** `n` is the longest run of consecutive correct guesses. */
  ghost predicate IsLongestRun(guesses: seq<bool>, n: nat) {
    && (exists i: nat :: RunAt(guesses, i, n))
    && (forall i, j :: 0 <= i <= j <= |guesses| && AllWins(guesses[i..j]) ==> j - i <= n)
  }

  lemma WinsSnoc(guesses: seq<bool>, won: bool)
    ensures Wins(guesses + [won]) == Wins(guesses) + (if won then 1 else 0)
  {
    if guesses != [] {
      assert (guesses + [won])[1..] == guesses[1..] + [won];
      WinsSnoc(guesses[1..], won);
    }
  }

  /** A run ending at the last guess is at most the trailing run. */
  lemma RunAtEnd(guesses: seq<bool>, n: nat, i: nat)
    requires IsTrailingRun(guesses, n) && i <= |guesses| && AllWins(guesses[i..])
    ensures |guesses| - i <= n
  {
  }

  /** The trailing run after one more guess. */
  lemma TrailingNext(guesses: seq<bool>, n: nat, won: bool)
    requires IsTrailingRun(guesses, n)
    ensures IsTrailingRun(guesses + [won], if won then n + 1 else 0)
  {
    var g := guesses + [won];
    if won {
      assert g[|g| - (n + 1)..] == guesses[|guesses| - n..] + [won];
      if n + 1 < |g| {
        assert g[|g| - (n + 1) - 1] == guesses[|guesses| - n - 1];
      }
    }
  }

  /** No run after one more guess beats the old record or the new
      trailing run. */
  lemma LongestBound(guesses: seq<bool>, best: nat, trailing: nat, won: bool)
    requires IsLongestRun(guesses, best) && IsTrailingRun(guesses + [won], trailing)
    ensures forall i, j :: 0 <= i <= j <= |guesses + [won]| && AllWins((guesses + [won])[i..j]) ==>
      j - i <= Max(trailing, best)
  {
    var g := guesses + [won];
    forall i, j | 0 <= i <= j <= |g| && AllWins(g[i..j]) ensures j - i <= Max(trailing, best) {
      if j == |g| {
        assert g[i..j] == g[i..];
        RunAtEnd(g, trailing, i);
      } else {
        assert g[i..j] == guesses[i..j];
      }
    }
  }

  /** The record after one more guess is still achieved somewhere. */
  lemma LongestWitness(guesses: seq<bool>, best: nat, trailing: nat, won: bool)
    requires IsLongestRun(guesses, best) && IsTrailingRun(guesses + [won], trailing)
    ensures exists i: nat :: RunAt(guesses + [won], i, Max(trailing, best))
  {
    var g := guesses + [won];
    if trailing > best {
      assert g[|g| - trailing..|g| - trailing + trailing] == g[|g| - trailing..];
      assert RunAt(g, |g| - trailing, Max(trailing, best));
    } else {
      var i: nat :| RunAt(guesses, i, best);
      assert g[i..i + best] == guesses[i..i + best];
      assert RunAt(g, i, Max(trailing, best));
    }
  }

  /** The scoreboard is what its name says: the score is ten per correct
      guess, the streak is the run of correct guesses at the end, and the
      best streak is the longest run in the whole game. */
  lemma {:induction false} TalliedMeans(guesses: seq<bool>)
    ensures Tallied(guesses).score == 10 * Wins(guesses)
    ensures IsTrailingRun(guesses, Tallied(guesses).streak)
    ensures IsLongestRun(guesses, Tallied(guesses).bestStreak)
    decreases |guesses|
  {
    if guesses == [] {
      assert RunAt(guesses, 0, 0);
    } else {
      var prior := guesses[..|guesses| - 1];
      var won := guesses[|guesses| - 1];
      assert guesses == prior + [won];
      TalliedMeans(prior);
      ScoredMeans(prior, Tallied(prior), won);
    }
  }

  /** One more guess keeps the scoreboard's meaning. */
  lemma ScoredMeans(prior: seq<bool>, t: Tally, won: bool)
    requires t.score == 10 * Wins(prior) && IsTrailingRun(prior, t.streak) && IsLongestRun(prior, t.bestStreak)
    ensures var u := Scored(t, won); var g := prior + [won];
      u.score == 10 * Wins(g) && IsTrailingRun(g, u.streak) && IsLongestRun(g, u.bestStreak)
  {
    WinsSnoc(prior, won);
    TrailingNext(prior, t.streak, won);
    var trailing := if won then t.streak + 1 else 0;
    assert Scored(t, won).bestStreak == Max(trailing, t.bestStreak);
    LongestBound(prior, t.bestStreak, trailing, won);
    LongestWitness(prior, t.bestStreak, trailing, won);
  }

  // ----- the round state -----

  /** The round state of monte_game.py apart from the cards: the scoreboard,
      the round number, the phase, the shuffle speed (in hundredths), the
      shuffles done and allowed, the two timers and the last guess. */
  datatype Status = Status(
    tally: Tally, roundNum: nat, phase: Phase, speed: nat,
    shuffleCount: nat, maxShuffles: nat, showTimer: int, resultTimer: int,
    lastGuessCorrect: bool)

  /** The best streak is at least the current one, the shuffle budget stays
      within 6..12, the speed never drops below its start, nothing has been
      shuffled while showing, the budget is not overrun while shuffling,
      and guessing starts only once it is spent. */
  predicate StatusOk(s: Status) {
    && s.tally.streak <= s.tally.bestStreak
    && 6 <= s.maxShuffles <= 12
    && s.speed >= BaseSpeed
    && (s.phase == Showing ==> s.shuffleCount == 0)
    && (s.phase == Shuffling ==> s.shuffleCount <= s.maxShuffles)
    && (s.phase == Guessing ==> s.shuffleCount == s.maxShuffles)
  }

  /** One frame of the shuffling clock: a shuffle is due once the pause for
      the current speed has passed since the last one (the first frame only
      starts the clock). A due shuffle spends one of the budget, or, with
      the budget spent and every card still (`still`), starts the guessing;
      the clock restarts whenever a shuffle was due. */
  predicate ShuffleClock(before: Status, last: Option<int>, still: bool, now: int, after: Status, last': Option<int>)
    requires before.speed > 0
  {
    var due := last.Some? && now - last.value > ShuffleInterval(before.speed);
    && last' == (if last.None? || due then Some(now) else last)
    && after == (if !due then before
                 else if before.shuffleCount < before.maxShuffles then before.(shuffleCount := before.shuffleCount + 1)
                 else if still then before.(phase := Guessing)
                 else before)
  }

  /** reset_game: nothing scored, round 1, showing. */
  function Start(): (s: Status)
    ensures StatusOk(s) && s.tally == Tallied([])
  {
    Status(Tally(0, 0, 0), 1, Showing, BaseSpeed, 0, 6, 0, 0, true)
  }

  /** The guess resolved: the result is on show from `now`; a miss also
      puts the speed and the shuffle budget back to their start. */
  function Guessed(s: Status, won: bool, now: int): (t: Status)
    ensures StatusOk(s) ==> StatusOk(t)
    ensures t.phase == Result && t.roundNum == s.roundNum && t.lastGuessCorrect == won
    ensures t.tally == Scored(s.tally, won)
    ensures won ==> t.speed == s.speed && t.maxShuffles == s.maxShuffles
    ensures !won ==> t.speed == BaseSpeed && t.maxShuffles == 6
  {
    var after := s.(tally := Scored(s.tally, won), phase := Result, showTimer := now, resultTimer := now, lastGuessCorrect := won);
    if won then after else after.(speed := BaseSpeed, maxShuffles := 6)
  }

  /** next_round: after a correct guess the shuffles speed up (by 0.05 and
      0.01 per streak point) and the budget grows with the streak; the
      count starts again and the new deal is on show from `now`. */
  function NextRoundStatus(s: Status, now: int): (t: Status)
    ensures StatusOk(s) ==> StatusOk(t)
    ensures t.roundNum == s.roundNum + 1 && t.phase == Showing && t.tally == s.tally
    ensures s.lastGuessCorrect ==> t.maxShuffles == MaxShufflesFor(s.tally.streak) && t.speed > s.speed
    ensures !s.lastGuessCorrect ==> t.maxShuffles == s.maxShuffles && t.speed == s.speed
  {
    var faster := if s.lastGuessCorrect then s.(speed := s.speed + 5 + s.tally.streak, maxShuffles := MaxShufflesFor(s.tally.streak)) else s;
    faster.(roundNum := s.roundNum + 1, shuffleCount := 0, phase := Showing, showTimer := now)
  }

  /** One game's worth of rounds keeps the scoreboard of its guesses. */
  lemma {:induction false} RoundsKeepTally(s: Status, guesses: seq<bool>, now: int)
    requires s.tally == Tallied([])
    ensures Played(s, guesses, now).tally == Tallied(guesses)
    decreases |guesses|
  {
    if guesses != [] {
      RoundsKeepTally(s, guesses[..|guesses| - 1], now);
    }
  }

  /** The rounds played one guess at a time, each guess followed by the
      next round. */
  function Played(s: Status, guesses: seq<bool>, now: int): Status {
    if guesses == [] then s
    else NextRoundStatus(Guessed(Played(s, guesses[..|guesses| - 1], now), guesses[|guesses| - 1], now), now)
  }

  /** The round state after a click while guessing on the card `hit`
      (none, when the click missed every card). */
  function Clicked(s: Status, cards: seq<Card>, hit: Option<nat>, now: int): Status
    requires hit.Some? ==> hit.value < |cards|
  {
    if hit.None? then s else Guessed(s, cards[hit.value].isWinner, now)
  }

  // ----- the game -----

  /** The rendered-text cache: a dictionary in insertion order. */
  class TextCache {
    var entries: map<TextKey, Rendered>
    var order: seq<TextKey>

    /** The cache holds exactly the keys of `order` (oldest first), each
        with its own rendering, and never more than 50. */
    ghost predicate Valid()
      reads this
    {
      && Distinct(order)
      && |order| <= TextCacheMax
      && (forall k :: k in entries <==> k in order)
      && (forall k :: k in entries ==> entries[k] == Render(k))
    }

    constructor ()
      ensures Valid() && entries == map[] && order == []
    {
      entries, order := map[], [];
    }

    /** cleanup: the cache emptied. */
    method Clear()
      modifies this
      ensures Valid() && entries == map[] && order == []
    {
      entries, order := map[], [];
    }

    /** _get_cached_text: a cached rendering is returned as it is; a miss
        at capacity first drops the ten oldest entries, then renders and
        keeps the new one. Either way the answer is the rendering of the
        key, and the cache never holds more than 50. */
    method Get(text: string, fontName: string, color: Color) returns (r: Rendered)
      requires Valid()
      modifies this`entries, this`order
      ensures Valid()
      ensures r == Render((text, fontName, color))
      ensures (text, fontName, color) in old(entries) ==> entries == old(entries) && order == old(order)
      ensures (text, fontName, color) !in old(entries) ==> order == AfterMiss(old(order), (text, fontName, color))
    {
      var key := (text, fontName, color);
      if key in entries {
        return entries[key];
      }
      Size();
      if |entries| >= TextCacheMax {
        EvictOldest();
      }
      r := Render(key);
      entries := entries[key := r];
      order := order + [key];
    }

    /** The entries kept are those of the order. */
    lemma Size()
      requires Valid()
      ensures |entries| == |order|
    {
      assert entries.Keys == set k | k in order;
      DistinctCard(order);
    }

    /** The ten oldest keys deleted one by one. */
    method EvictOldest()
      requires Valid() && |order| == TextCacheMax
      modifies this`entries, this`order
      ensures Valid() && order == old(order)[TextCacheEvict..]
    {
      var oldKeys := order[..TextCacheEvict];
      var j := 0;
      while j < |oldKeys|
        invariant j <= |oldKeys| && order == old(order)
        invariant forall k :: k in entries <==> k in old(entries) && k !in oldKeys[..j]
        invariant forall k :: k in entries ==> entries[k] == Render(k)
      {
        entries := entries - {oldKeys[j]};
        j := j + 1;
        assert oldKeys[..j] == oldKeys[..j - 1] + [oldKeys[j - 1]];
      }
      order := order[TextCacheEvict..];
      forall k ensures k in entries <==> k in order {
        assert oldKeys[..j] == oldKeys;
        assert old(order) == oldKeys + order;
      }
      assert Distinct(order) by {
        forall a, b | 0 <= a < b < |order| ensures order[a] != order[b] {
          assert order[a] == old(order)[a + TextCacheEvict];
          assert order[b] == old(order)[b + TextCacheEvict];
        }
      }
    }
  }

  class Game {
    const width: int
    const height: int
    var status: Status
    var lastShuffleTime: Option<int>
    var running: bool
    var cards: seq<Card>
    const textCache: TextCache

    function CardSet(): set<Card>
      reads this
    {
      set c | c in cards
    }

    /** Three distinct cards, exactly one of them the ace, each at rest on
        its target unless moving. */
    ghost predicate CardsOk()
      reads this, CardSet()
    {
      && |cards| == 3
      && cards[0] != cards[1] && cards[0] != cards[2] && cards[1] != cards[2]
      && OneWinner(cards[0].isWinner, cards[1].isWinner, cards[2].isWinner)
      && cards[0].Settled() && cards[1].Settled() && cards[2].Settled()
    }

    /** Every card at rest. */
    ghost predicate AllStill()
      reads this, CardSet()
      requires |cards| == 3
    {
      !cards[0].moving && !cards[1].moving && !cards[2].moving
    }

    /** A guess is taken only once every card has come to rest. */
    ghost predicate Valid()
      reads this, CardSet()
    {
      CardsOk() && StatusOk(status) && (status.phase == Guessing ==> AllStill())
    }

    /** The game as __init__ leaves it. */
    constructor (width: int, height: int, winnerPos: nat)
      requires winnerPos < 3
      ensures Valid() && running && fresh(textCache) && textCache.Valid() && textCache.order == []
      ensures status == Start() && DealtAt(winnerPos, false)
    {
      this.width, this.height := width, height;
      textCache := new TextCache();
      running := true;
      lastShuffleTime := None;
      new;
      Reset(winnerPos);
    }

    /** The three cards of a new round, laid out left to right, the ace at
        `winnerPos`. */
    method Deal(winnerPos: nat) returns (dealt: seq<Card>)
      requires winnerPos < 3
      ensures |dealt| == 3 && dealt[0] != dealt[1] && dealt[0] != dealt[2] && dealt[1] != dealt[2]
      ensures forall i :: 0 <= i < 3 ==> fresh(dealt[i]) && !dealt[i].moving && !dealt[i].isFaceUp && dealt[i].Settled()
      ensures forall i :: 0 <= i < 3 ==>
        dealt[i].x == CardX(width, i) && dealt[i].y == CardY(height) && (dealt[i].isWinner <==> i == winnerPos)
    {
      dealt := [];
      var i := 0;
      while i < 3
        invariant i <= 3 && |dealt| == i
        invariant forall k :: 0 <= k < i ==> fresh(dealt[k]) && !dealt[k].moving && !dealt[k].isFaceUp && dealt[k].Settled()
        invariant forall k :: 0 <= k < i ==>
          dealt[k].x == CardX(width, k) && dealt[k].y == CardY(height) && (dealt[k].isWinner <==> k == winnerPos)
        invariant forall j, k :: 0 <= j < k < i ==> dealt[j] != dealt[k]
      {
        var card := new Card(CardX(width, i), CardY(height), i == winnerPos);
        dealt := dealt + [card];
        i := i + 1;
      }
    }

    /** cleanup: the text cache emptied and the cards dropped. */
    method Cleanup()
      modifies this`cards, textCache
      ensures cards == [] && textCache.Valid() && textCache.entries == map[] && textCache.order == []
    {
      textCache.Clear();
      cards := [];
    }

    /** reset_game: scores cleared, round 1, the cards dealt face down. */
    method Reset(winnerPos: nat)
      requires winnerPos < 3
      modifies this`status, this`cards
      ensures Valid() && status == Start()
      ensures fresh(cards[0]) && fresh(cards[1]) && fresh(cards[2]) && DealtAt(winnerPos, false)
    {
      status := Start();
      cards := Deal(winnerPos);
    }

    /** show_cards / hide_cards: every card turned one way; nothing else
        about the cards changes. */
    method TurnCards(faceUp: bool)
      requires CardsOk()
      modifies CardSet()
      ensures CardsOk() && AllFaced(faceUp)
      ensures Places(cards) == old(Places(cards)) && Targets(cards) == old(Targets(cards))
      ensures AllStill() == old(AllStill()) && Motion(cards) == old(Motion(cards))
    {
      var i := 0;
      while i < |cards|
        invariant i <= |cards| && CardsOk()
        invariant forall k :: 0 <= k < i ==> cards[k].isFaceUp == faceUp
        invariant Places(cards) == old(Places(cards)) && Targets(cards) == old(Targets(cards))
        invariant AllStill() == old(AllStill()) && Motion(cards) == old(Motion(cards))
      {
        cards[i].isFaceUp := faceUp;
        i := i + 1;
      }
    }

    /** Every card turned the given way. */
    ghost predicate AllFaced(faceUp: bool)
      reads this, CardSet()
      requires |cards| == 3
    {
      cards[0].isFaceUp == faceUp && cards[1].isFaceUp == faceUp && cards[2].isFaceUp == faceUp
    }

    /** A new deal: the cards at rest in their slots left to right, turned
        the given way, the ace at `winnerPos`. */
    ghost predicate DealtAt(winnerPos: nat, faceUp: bool)
      reads this, CardSet()
    {
      && |cards| == 3
      && Places(cards) == [(CardX(width, 0), CardY(height)), (CardX(width, 1), CardY(height)), (CardX(width, 2), CardY(height))]
      && AllStill() && Faces(cards) == [faceUp, faceUp, faceUp]
      && Aces(cards) == [winnerPos == 0, winnerPos == 1, winnerPos == 2]
    }

    /** shuffle_cards: while the budget lasts, two cards (`pick`, the random
        sample) exchange targets and the count goes up; once it is spent
        the game moves to guessing as soon as every card is still. */
    method ShuffleCards(pick: (nat, nat))
      requires pick.0 < 3 && pick.1 < 3 && pick.0 != pick.1
      requires Valid() && status.phase == Shuffling
      modifies this`status, CardSet()
      ensures Valid() && cards == old(cards)
      ensures Places(cards) == old(Places(cards)) && Faces(cards) == old(Faces(cards))
      ensures old(status.shuffleCount) < status.maxShuffles ==>
        && status == old(status).(shuffleCount := old(status.shuffleCount) + 1)
        && Targets(cards) == Swapped(old(Targets(cards)), pick.0, pick.1)
      ensures old(status.shuffleCount) >= status.maxShuffles ==>
        && Targets(cards) == old(Targets(cards))
        && status == (if old(AllStill()) then old(status).(phase := Guessing) else old(status))
    {
      if status.shuffleCount < status.maxShuffles {
        SwapTargets(pick.0, pick.1);
        status := status.(shuffleCount := status.shuffleCount + 1);
      } else {
        var allStill := !cards[0].moving && !cards[1].moving && !cards[2].moving;
        if allStill {
          status := status.(phase := Guessing);
        }
      }
    }

    /** Two cards set off towards each other's places. */
    method SwapTargets(i: nat, j: nat)
      requires i < 3 && j < 3 && i != j && CardsOk()
      modifies CardSet()
      ensures CardsOk() && Targets(cards) == Swapped(old(Targets(cards)), i, j)
      ensures cards[i].moving && cards[j].moving && cards[3 - i - j].moving == old(cards[3 - i - j].moving)
      ensures Places(cards) == old(Places(cards)) && Faces(cards) == old(Faces(cards))
    {
      Exchange(cards[i], cards[j]);
    }

    /** The two cards of a swap set off towards each other's targets. */
    static method Exchange(card1: Card, card2: Card)
      requires card1 != card2
      modifies card1, card2
      ensures card1.targetX == old(card2.targetX) && card1.targetY == old(card2.targetY)
      ensures card2.targetX == old(card1.targetX) && card2.targetY == old(card1.targetY)
      ensures card1.moving && card2.moving
      ensures card1.x == old(card1.x) && card1.y == old(card1.y) && card1.isFaceUp == old(card1.isFaceUp)
      ensures card2.x == old(card2.x) && card2.y == old(card2.y) && card2.isFaceUp == old(card2.isFaceUp)
    {
      var tx, ty := card1.targetX, card1.targetY;
      card1.MoveTo(card2.targetX, card2.targetY);
      card2.MoveTo(tx, ty);
    }

    /** handle_click: while guessing, the first card under the point is the
        guess; a click on a result starts the next round; any other click
        changes nothing. */
    method HandleClick(px: int, py: int, now: int, winnerPos: nat)
      requires winnerPos < 3 && Valid()
      modifies this`status, this`cards, CardSet()
      ensures Valid()
      ensures old(status.phase) == Guessing ==>
        && cards == old(cards)
        && status == Clicked(old(status), old(cards), FirstHit(old(cards), px, py), now)
        && Places(cards) == old(Places(cards)) && Targets(cards) == old(Targets(cards))
        && Motion(cards) == old(Motion(cards))
        && if FirstHit(old(cards), px, py).Some? then AllFaced(true) else Faces(cards) == old(Faces(cards))
      ensures old(status.phase) == Showing || old(status.phase) == Shuffling ==>
        && status == old(status) && cards == old(cards)
        && Places(cards) == old(Places(cards)) && Targets(cards) == old(Targets(cards))
        && Motion(cards) == old(Motion(cards)) && Faces(cards) == old(Faces(cards))
      ensures old(status.phase) == Result ==>
        && status == NextRoundStatus(old(status), now)
        && fresh(cards[0]) && fresh(cards[1]) && fresh(cards[2]) && DealtAt(winnerPos, true)
    {
      if status.phase == Guessing {
        Guess(px, py, now);
      } else if status.phase == Result {
        NextRound(winnerPos, now);
      }
    }

    /** The guess: every card is shown and the guess scored; a click that
        misses every card changes nothing. */
    method Guess(px: int, py: int, now: int)
      requires Valid() && status.phase == Guessing
      modifies this`status, CardSet()
      ensures Valid() && cards == old(cards)
      ensures status == Clicked(old(status), cards, FirstHit(old(cards), px, py), now)
      ensures Places(cards) == old(Places(cards)) && Targets(cards) == old(Targets(cards))
      ensures Motion(cards) == old(Motion(cards))
      ensures if FirstHit(old(cards), px, py).Some? then AllFaced(true) else Faces(cards) == old(Faces(cards))
    {
      var hit := FindHit(px, py);
      if hit.None? {
        return;
      }
      var won := cards[hit.value].isWinner;
      TurnCards(true);
      status := Guessed(status, won, now);
    }

    /** The click loop: the first card, left to right, under the point. */
    method FindHit(px: int, py: int) returns (hit: Option<nat>)
      requires |cards| == 3
      ensures hit == FirstHit(cards, px, py)
    {
      var i := 0;
      while i < |cards|
        invariant i <= |cards|
        invariant forall k :: 0 <= k < i ==> !cards[k].Hit(px, py)
      {
        if cards[i].Hit(px, py) {
          return Some(i);
        }
        i := i + 1;
      }
      return None;
    }

    /** next_round: the round state moves on and a new deal is shown. */
    method NextRound(winnerPos: nat, now: int)
      requires winnerPos < 3 && Valid()
      modifies this`status, this`cards
      ensures Valid() && status == NextRoundStatus(old(status), now)
      ensures fresh(cards[0]) && fresh(cards[1]) && fresh(cards[2]) && DealtAt(winnerPos, true)
    {
      status := NextRoundStatus(status, now);
      cards := Deal(winnerPos);
      TurnCards(true);
    }

    /** One frame of update: unless stopped, the phase moves on (see
        Advance), then every card takes its animation step (`eased`). */
    method Update(now: int, winnerPos: nat, pick: (nat, nat), eased: seq<(int, int)>)
      requires winnerPos < 3 && pick.0 < 3 && pick.1 < 3 && pick.0 != pick.1 && |eased| == 3
      requires Valid()
      modifies this`status, this`cards, this`lastShuffleTime, CardSet()
      ensures Valid() && status.tally == old(status.tally)
      ensures !old(running) ==>
        status == old(status) && cards == old(cards) && lastShuffleTime == old(lastShuffleTime)
        && Places(cards) == old(Places(cards)) && Targets(cards) == old(Targets(cards))
        && Faces(cards) == old(Faces(cards)) && Motion(cards) == old(Motion(cards)) && AllStill() == old(AllStill())
      ensures old(running) && old(status.phase) == Showing ==>
        if now - old(status.showTimer) > ShowMillis
        then status == old(status).(phase := Shuffling) && AllFaced(false)
        else status == old(status)
      ensures old(running) && old(status.phase) == Shuffling ==>
        && ShuffleClock(old(status), old(lastShuffleTime), old(AllStill()), now, status, lastShuffleTime)
        && Targets(cards) == if status.shuffleCount > old(status.shuffleCount)
                             then Swapped(old(Targets(cards)), pick.0, pick.1) else old(Targets(cards))
      ensures old(status.phase) == Guessing ==> status == old(status)
      ensures old(running) && old(status.phase) == Result ==>
        if now - old(status.resultTimer) > ResultMillis
        then status == NextRoundStatus(old(status), now)
             && fresh(cards[0]) && fresh(cards[1]) && fresh(cards[2]) && DealtAt(winnerPos, true)
        else status == old(status)
      ensures old(running) && cards == old(cards) ==> Stepped(cards, old(Places(cards)), eased)
    {
      if !running {
        return;
      }
      Advance(now, winnerPos, pick);
      StepCards(eased);
    }

    /** The phase clock: showing turns to shuffling once the cards have been
        seen for two seconds (they are hidden); shuffling shuffles whenever
        the pause for the current speed has passed since the last shuffle;
        a result turns into the next round after two seconds. */
    method Advance(now: int, winnerPos: nat, pick: (nat, nat))
      requires winnerPos < 3 && pick.0 < 3 && pick.1 < 3 && pick.0 != pick.1
      requires Valid()
      modifies this`status, this`cards, this`lastShuffleTime, CardSet()
      ensures Valid() && status.tally == old(status.tally)
      ensures cards == old(cards) ==> Places(cards) == old(Places(cards))
      ensures old(status.phase) == Showing ==>
        && cards == old(cards)
        && if now - old(status.showTimer) > ShowMillis
           then status == old(status).(phase := Shuffling) && AllFaced(false)
           else status == old(status)
      ensures old(status.phase) == Shuffling ==>
        && cards == old(cards)
        && ShuffleClock(old(status), old(lastShuffleTime), old(AllStill()), now, status, lastShuffleTime)
        && Targets(cards) == if status.shuffleCount > old(status.shuffleCount)
                             then Swapped(old(Targets(cards)), pick.0, pick.1) else old(Targets(cards))
      ensures old(status.phase) == Guessing ==> status == old(status) && cards == old(cards)
      ensures old(status.phase) == Result ==>
        if now - old(status.resultTimer) > ResultMillis
        then status == NextRoundStatus(old(status), now)
             && fresh(cards[0]) && fresh(cards[1]) && fresh(cards[2]) && DealtAt(winnerPos, true)
        else status == old(status) && cards == old(cards)
    {
      if status.phase == Showing {
        ShowTick(now);
      } else if status.phase == Shuffling {
        ShuffleTick(now, pick);
      } else if status.phase == Result {
        ResultTick(now, winnerPos);
      }
    }

    /** Showing: after two seconds the cards are hidden and the shuffling
        starts. */
    method ShowTick(now: int)
      requires Valid() && status.phase == Showing
      modifies this`status, CardSet()
      ensures Valid() && Places(cards) == old(Places(cards))
      ensures if now - old(status.showTimer) > ShowMillis
        then status == old(status).(phase := Shuffling) && AllFaced(false)
        else status == old(status)
    {
      if now - status.showTimer > ShowMillis {
        TurnCards(false);
        status := status.(phase := Shuffling);
      }
    }

    /** Shuffling: the clock starts on the first frame; once the pause for
        the current speed has passed, the cards are shuffled and the clock
        restarts. */
    method ShuffleTick(now: int, pick: (nat, nat))
      requires pick.0 < 3 && pick.1 < 3 && pick.0 != pick.1
      requires Valid() && status.phase == Shuffling
      modifies this`status, this`lastShuffleTime, CardSet()
      ensures Valid() && Places(cards) == old(Places(cards))
      ensures ShuffleClock(old(status), old(lastShuffleTime), old(AllStill()), now, status, lastShuffleTime)
      ensures Targets(cards) == if status.shuffleCount > old(status.shuffleCount)
                                then Swapped(old(Targets(cards)), pick.0, pick.1) else old(Targets(cards))
    {
      if lastShuffleTime.None? {
        lastShuffleTime := Some(now);
      }
      if now - lastShuffleTime.value > ShuffleInterval(status.speed) {
        ShuffleCards(pick);
        lastShuffleTime := Some(now);
      }
    }

    /** Result: after two seconds the next round is dealt. */
    method ResultTick(now: int, winnerPos: nat)
      requires winnerPos < 3 && Valid() && status.phase == Result
      modifies this`status, this`cards
      ensures Valid()
      ensures if now - old(status.resultTimer) > ResultMillis
        then status == NextRoundStatus(old(status), now)
             && fresh(cards[0]) && fresh(cards[1]) && fresh(cards[2]) && DealtAt(winnerPos, true)
        else status == old(status) && cards == old(cards)
    {
      if now - status.resultTimer > ResultMillis {
        NextRound(winnerPos, now);
      }
    }

    /** Every card takes its animation step. */
    method StepCards(eased: seq<(int, int)>)
      requires |eased| == 3 && Valid()
      modifies CardSet()
      ensures Valid()
      ensures Targets(cards) == old(Targets(cards)) && Faces(cards) == old(Faces(cards))
      ensures Stepped(cards, old(Places(cards)), eased)
      ensures old(AllStill()) ==> Places(cards) == old(Places(cards)) && AllStill()
    {
      ghost var before, still := Places(cards), AllStill();
      var i := 0;
      while i < 3
        invariant i <= 3 && Valid()
        invariant Targets(cards) == old(Targets(cards)) && Faces(cards) == old(Faces(cards))
        invariant SteppedBelow(cards, before, eased, i)
        invariant Places(cards)[i..] == before[i..]
        invariant still ==> AllStill() && Places(cards) == before
      {
        StepCard(i, eased, before, still);
        i := i + 1;
      }
    }

    /** One card's animation step. */
    method StepCard(i: nat, eased: seq<(int, int)>, ghost before: seq<(int, int)>, ghost still: bool)
      requires i < 3 && |eased| == 3 && |before| == 3 && Valid()
      requires SteppedBelow(cards, before, eased, i) && Places(cards)[i..] == before[i..]
      requires still ==> AllStill() && Places(cards) == before
      modifies cards[i]
      ensures Valid()
      ensures Targets(cards) == old(Targets(cards)) && Faces(cards) == old(Faces(cards))
      ensures SteppedBelow(cards, before, eased, i + 1) && Places(cards)[i + 1..] == before[i + 1..]
      ensures still ==> AllStill() && Places(cards) == before
    {
      assert Places(cards)[i] == before[i];
      var _ := cards[i].UpdatePosition(eased[i]);
    }
  }
}
