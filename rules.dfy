/**
  The game rules of the clicker page as pure state transitions: one function
  per event handler of the page component, each reading the current state and
  returning the next one. `Rules.State` holds one field per piece of component
  state that a handler reads or writes, plus the list of notifications shown
  so far. A handler that changes the score is followed, in the same step, by
  the unlock effect that reacts to that change (`SetClicks`).
*/
module Rules {
  import opened Wrappers
  import opened Skins

  /** The notifications the page shows, recorded in the order they fire. */
  datatype Notice =
    | SkinUnlocked(skin: SkinId)
    | UpgradeBought(power: int)
    | UpgradeRefused
    | SkinChanged(skin: SkinId)
    | SkinLocked(unlockAt: nat)
    | SpeedBonus(bonus: int, tally: int)
    | MemoryShown
    | MemoryWrong(earned: int)
    | MemoryRight(bonus: int, level: int)
    | LuckyPrize(prize: int)

  datatype State = State(
    clicks: int,
    clickPower: int,
    currentSkin: SkinId,
    skins: seq<Skin>,
    speedGameActive: bool,
    speedTimer: int,
    speedClicks: int,
    memorySequence: seq<int>,
    memoryInput: seq<int>,
    memoryLevel: int,
    showingSequence: bool,
    notices: seq<Notice>)

  const UpgradeCost: int := 500
  const SpeedRoundSeconds: int := 10
  /** Memory symbols are 0 .. Symbols - 1. */
  const Symbols: int := 4
  const PRIZES: seq<int> := [50, 100, 200, 500, 1000]

  /** The state the page starts in. */
  const Initial: State := State(0, 1, Default, SKINS, false, SpeedRoundSeconds, 0, [], [], 1, false, [])

  predicate IsPrefix(p: seq<int>, s: seq<int>)
  {
    |p| <= |s| && p == s[..|p|]
  }

  /** A valid deal for the memory round at `level`: `level + 2` symbols, each in 0..3. */
  predicate IsMemoryDeal(sequence: seq<int>, level: int)
  {
    |sequence| == level + 2 && forall j :: 0 <= j < |sequence| ==> 0 <= sequence[j] < Symbols
  }

  /** Every skin's flag says whether the score has reached its threshold. */
  predicate InSync(s: State)
  {
    s.skins == Recompute(SKINS, s.clicks)
  }

  /** The invariant every handler keeps. */
  predicate Valid(s: State)
  {
    && s.clicks >= 0
    && s.clickPower >= 1
    && InSync(s)
    && 0 <= s.speedTimer <= SpeedRoundSeconds
    && s.speedClicks >= 0
    && s.memoryLevel >= 1
    && (s.memorySequence == [] || IsMemoryDeal(s.memorySequence, s.memoryLevel))
    && IsPrefix(s.memoryInput, s.memorySequence)
    && (|s.memoryInput| < |s.memorySequence| || s.memoryInput == [])
    && (s.memorySequence != [] ==> s.showingSequence)
  }

  /** Every field except the score, the skin flags and the notifications is the same. */
  predicate SameGame(s: State, r: State)
  {
    r == s.(clicks := r.clicks, skins := r.skins, notices := r.notices)
  }

  // ---------------------------------------------------------------------------
  // The score and the unlock effect

  /**
    The unlock effect that runs after the score changes: recompute every
    flag from the score, and if some non-base skin went from locked to
    unlocked, notify about the first such skin.
  */
  function UnlockEffect(s: State): State
  {
    var updated := Recompute(s.skins, s.clicks);
    var found := FirstNewlyUnlocked(updated, s.skins);
    s.(skins := updated,
       notices := if found.Some? then s.notices + [SkinUnlocked(updated[found.value].id)] else s.notices)
  }

  /** `setClicks(c)` followed by the unlock effect it triggers. */
  function SetClicks(s: State, c: int): State
  {
    UnlockEffect(s.(clicks := c))
  }

  /**
    Setting the score from a state whose flags match its score: nothing but
    the score, the flags and the notifications changes, the flags match the
    new score, and at most one notification is added.
  */
  lemma SetClicksShape(s: State, c: int)
    requires s.skins == Recompute(SKINS, s.clicks)
    ensures SetClicks(s, c) == s.(clicks := c, skins := Recompute(SKINS, c), notices := SetClicks(s, c).notices)
    ensures |s.notices| <= |SetClicks(s, c).notices| <= |s.notices| + 1
    ensures SetClicks(s, c).notices[..|s.notices|] == s.notices
  {
    RecomputeTwice(SKINS, s.clicks, c);
  }

  /** Lowering the score (or keeping it) never fires an unlock notification. */
  lemma ScoreFallIsQuiet(s: State, c: int)
    requires s.skins == Recompute(SKINS, s.clicks) && c <= s.clicks
    ensures SetClicks(s, c).notices == s.notices
  {
    FirstUnlockedIsFirstCrossed(s.clicks, c);
  }

  /** Below the first non-base threshold no unlock notification can fire. */
  lemma NoNoticeBelowFirstThreshold(s: State, c: int)
    requires s.skins == Recompute(SKINS, s.clicks) && c < SKINS[1].unlockAt
    ensures SetClicks(s, c).notices == s.notices
  {
    SkinTable();
    FirstUnlockedIsFirstCrossed(s.clicks, c);
  }

  /**
    Setting the score to `c` from a valid state: one notification fires
    exactly when some non-base threshold lies in (old score, c], and it names
    the first such skin in the table; otherwise none fires.
  */
  lemma UnlockNotice(s: State, c: int)
    requires Valid(s)
    ensures SameGame(s, SetClicks(s, c)) && SetClicks(s, c).clicks == c
    ensures SetClicks(s, c).skins == Recompute(SKINS, c)
    ensures (forall i :: 0 < i < |SKINS| ==> !Crosses(s.clicks, c, i)) ==>
      SetClicks(s, c).notices == s.notices
    ensures forall i :: FirstCrossed(s.clicks, c, i) ==>
      SetClicks(s, c).notices == s.notices + [SkinUnlocked(SKINS[i].id)]
  {
    SetClicksShape(s, c);
    FirstUnlockedIsFirstCrossed(s.clicks, c);
    var f := FirstNewlyUnlocked(Recompute(s.skins, c), s.skins);
    forall i | FirstCrossed(s.clicks, c, i)
      ensures f == Some(i)
    {
      FirstCrossedUnique(s.clicks, c, i, f.value);
    }
  }

  /**
    When the score is set to the value it already has, the effect changes
    nothing; so running it where the page would skip it is harmless.
  */
  lemma UnchangedScoreIsQuiet(s: State)
    requires Valid(s)
    ensures SetClicks(s, s.clicks) == s
  {
    SetClicksShape(s, s.clicks);
    UnlockNotice(s, s.clicks);
  }

  /** Setting the score from a valid state to a non-negative value keeps the state valid. */
  lemma SetClicksValid(s: State, c: int)
    requires Valid(s) && c >= 0
    ensures Valid(SetClicks(s, c))
  {
    SetClicksShape(s, c);
  }

  // ---------------------------------------------------------------------------
  // Main button, upgrade, skin selection

  /** `handleClick`. */
  function Click(s: State): State
  {
    SetClicks(s, s.clicks + s.clickPower)
  }

  lemma ClickAddsPower(s: State)
    requires Valid(s)
    ensures Click(s).clicks == s.clicks + s.clickPower > s.clicks
    ensures SameGame(s, Click(s))
    ensures Valid(Click(s))
  {
    SetClicksValid(s, s.clicks + s.clickPower);
  }

  /** The upgrade button's handler. */
  function Upgrade(s: State): State
  {
    if s.clicks >= UpgradeCost then
      SetClicks(s.(clickPower := s.clickPower + 1,
                   notices := s.notices + [UpgradeBought(s.clickPower + 1)]),
                s.clicks - UpgradeCost)
    else
      s.(notices := s.notices + [UpgradeRefused])
  }

  /**
    With at least 500 clicks, 500 are spent for one more point of click power
    and no skin unlocks; with fewer, only a refusal is shown.
  */
  lemma UpgradeSpendsOrRefuses(s: State)
    requires Valid(s)
    ensures s.clicks >= UpgradeCost ==>
      Upgrade(s) == s.(clicks := s.clicks - UpgradeCost, clickPower := s.clickPower + 1,
                       skins := Recompute(SKINS, s.clicks - UpgradeCost),
                       notices := s.notices + [UpgradeBought(s.clickPower + 1)])
    ensures s.clicks < UpgradeCost ==> Upgrade(s) == s.(notices := s.notices + [UpgradeRefused])
    ensures Valid(Upgrade(s))
  {
    if s.clicks >= UpgradeCost {
      var t := s.(clickPower := s.clickPower + 1, notices := s.notices + [UpgradeBought(s.clickPower + 1)]);
      SetClicksShape(t, s.clicks - UpgradeCost);
      ScoreFallIsQuiet(t, s.clicks - UpgradeCost);
    }
  }

  /** The handler of skin card `i`. */
  function SelectSkin(s: State, i: int): State
    requires 0 <= i < |s.skins|
  {
    var skin := s.skins[i];
    if skin.unlocked then s.(currentSkin := skin.id, notices := s.notices + [SkinChanged(skin.id)])
    else s.(notices := s.notices + [SkinLocked(skin.unlockAt)])
  }

  /** Only an unlocked card changes the active skin; a locked one leaves it and reports its threshold. */
  lemma SelectOnlyUnlocked(s: State, i: int)
    requires Valid(s) && 0 <= i < |s.skins|
    ensures SelectSkin(s, i).currentSkin == if s.clicks >= SKINS[i].unlockAt then SKINS[i].id else s.currentSkin
    ensures s.clicks < SKINS[i].unlockAt ==>
      SelectSkin(s, i) == s.(notices := s.notices + [SkinLocked(SKINS[i].unlockAt)])
    ensures Valid(SelectSkin(s, i))
  {
  }

  /**
    The active skin is not always unlocked: with 1000 clicks the business
    skin can be selected, and buying an upgrade then locks it again while it
    stays selected.
  */
  lemma SelectedSkinCanRelock()
    ensures var s := Initial.(clicks := 1000, skins := Recompute(SKINS, 1000));
      var r := Upgrade(SelectSkin(s, 1));
      Valid(s) && r.currentSkin == Business && !CurrentSkinData(r.skins, r.currentSkin).unlocked
  {
    var s := Initial.(clicks := 1000, skins := Recompute(SKINS, 1000));
    var t := SelectSkin(s, 1);
    assert t.currentSkin == Business;
    UpgradeSpendsOrRefuses(t);
    var r := Upgrade(t);
    assert r.skins[1].id == Business && !r.skins[1].unlocked;
    assert FindByIdFrom(r.skins, Business, 0) == Some(1);
  }

  // ---------------------------------------------------------------------------
  // Speed round

  /** `startSpeedGame`. */
  function StartSpeed(s: State): State
  {
    s.(speedGameActive := true, speedTimer := SpeedRoundSeconds, speedClicks := 0)
  }

  /** `handleSpeedClick`. */
  function SpeedClick(s: State): State
  {
    s.(speedClicks := s.speedClicks + 1)
  }

  /** `endSpeedGame`. */
  function EndSpeed(s: State): State
  {
    SetClicks(s.(speedGameActive := false,
                 notices := s.notices + [SpeedBonus(s.speedClicks * 2, s.speedClicks)]),
              s.clicks + s.speedClicks * 2)
  }

  /** One firing of the countdown effect. */
  function Tick(s: State): State
  {
    if s.speedGameActive && s.speedTimer > 0 then s.(speedTimer := s.speedTimer - 1)
    else if s.speedGameActive && s.speedTimer == 0 then EndSpeed(s)
    else s
  }

  /**
    Start arms a fresh round of 10 seconds with an empty tally; a speed click
    adds one to the tally; a tick while running with time left takes one
    second off; a tick when the round is not running does nothing.
  */
  lemma SpeedRoundSteps(s: State)
    requires Valid(s)
    ensures StartSpeed(s).speedGameActive && StartSpeed(s).speedTimer == 10 && StartSpeed(s).speedClicks == 0
    ensures SpeedClick(s).speedClicks == s.speedClicks + 1 && SpeedClick(s).clicks == s.clicks
    ensures s.speedGameActive && s.speedTimer > 0 ==>
      Tick(s) == s.(speedTimer := s.speedTimer - 1) && Tick(s).speedTimer >= 0
    ensures !s.speedGameActive ==> Tick(s) == s
    ensures Valid(StartSpeed(s)) && Valid(SpeedClick(s)) && Valid(Tick(s))
  {
    if s.speedGameActive && s.speedTimer == 0 {
      SetClicksShape(s.(speedGameActive := false,
                      notices := s.notices + [SpeedBonus(s.speedClicks * 2, s.speedClicks)]),
                   s.clicks + s.speedClicks * 2);
    }
  }

  /**
    The tick that finds the clock at 0 ends the round, pays exactly twice the
    tally and reports it.
  */
  lemma EndSpeedPaysTwiceTally(s: State)
    requires Valid(s) && s.speedGameActive && s.speedTimer == 0
    ensures var r := Tick(s);
      && !r.speedGameActive && r.speedTimer == 0 && r.speedClicks == s.speedClicks
      && r.clicks == s.clicks + 2 * s.speedClicks
      && r.clickPower == s.clickPower && r.memoryLevel == s.memoryLevel
      && r.notices[..|s.notices| + 1] == s.notices + [SpeedBonus(2 * s.speedClicks, s.speedClicks)]
      && Valid(r)
  {
    var t := s.(speedGameActive := false, notices := s.notices + [SpeedBonus(s.speedClicks * 2, s.speedClicks)]);
    SetClicksShape(t, s.clicks + s.speedClicks * 2);
  }

  // ---------------------------------------------------------------------------
  // Memory round

  /** `startMemoryGame`, with the random symbols supplied as `sequence`. */
  function StartMemory(s: State, sequence: seq<int>): State
    requires IsMemoryDeal(sequence, s.memoryLevel)
  {
    s.(memorySequence := sequence, memoryInput := [], showingSequence := true,
       notices := s.notices + [MemoryShown])
  }

  lemma StartMemoryDeals(s: State, sequence: seq<int>)
    requires Valid(s) && IsMemoryDeal(sequence, s.memoryLevel)
    ensures var r := StartMemory(s, sequence);
      && |r.memorySequence| == s.memoryLevel + 2 >= 3
      && (forall j :: 0 <= j < |r.memorySequence| ==> 0 <= r.memorySequence[j] <= 3)
      && r.memoryInput == [] && r.showingSequence
      && r.clicks == s.clicks && r.memoryLevel == s.memoryLevel
      && Valid(r)
  {
  }

  /** `handleMemoryClick(num)`. A position past the end of the sequence never matches. */
  function MemoryClick(s: State, num: int): State
  {
    if s.showingSequence then s
    else
      var input := s.memoryInput + [num];
      var k := |input| - 1;
      if k >= |s.memorySequence| || num != s.memorySequence[k] then
        SetClicks(s.(memoryLevel := 1, memorySequence := [], memoryInput := [],
                     notices := s.notices + [MemoryWrong(s.memoryLevel * 50)]),
                  s.clicks + s.memoryLevel * 50)
      else if |input| == |s.memorySequence| then
        SetClicks(s.(memoryLevel := s.memoryLevel + 1, memorySequence := [], memoryInput := [],
                     notices := s.notices + [MemoryRight(s.memoryLevel * 100, s.memoryLevel + 1)]),
                  s.clicks + s.memoryLevel * 100)
      else
        s.(memoryInput := input)
  }

  /** While the sequence is being shown, a symbol is ignored. */
  lemma MemoryClickBlockedWhileShowing(s: State, num: int)
    requires s.showingSequence
    ensures MemoryClick(s, num) == s
  {
  }

  /**
    With input accepted, a wrong symbol pays level * 50, resets the level to 1
    and clears the round; the last right symbol pays level * 100, raises the
    level and clears the round; any other right symbol extends the input,
    which stays a proper prefix of the sequence.
  */
  lemma MemoryClickOutcomes(s: State, num: int)
    requires s.memoryLevel >= 1 && !s.showingSequence
    requires IsPrefix(s.memoryInput, s.memorySequence) && |s.memoryInput| < |s.memorySequence|
    ensures var r := MemoryClick(s, num); var k := |s.memoryInput|;
      && (num != s.memorySequence[k] ==>
            r.clicks == s.clicks + s.memoryLevel * 50 && r.memoryLevel == 1 &&
            r.memorySequence == [] && r.memoryInput == [])
      && (num == s.memorySequence[k] && k + 1 == |s.memorySequence| ==>
            r.clicks == s.clicks + s.memoryLevel * 100 && r.memoryLevel == s.memoryLevel + 1 &&
            r.memorySequence == [] && r.memoryInput == [])
      && (num == s.memorySequence[k] && k + 1 < |s.memorySequence| ==>
            r == s.(memoryInput := s.memoryInput + [num]) &&
            IsPrefix(r.memoryInput, r.memorySequence) && |r.memoryInput| < |r.memorySequence|)
      && r.memoryLevel >= 1
  {
  }

  /** Any symbol keeps a valid state valid. */
  lemma MemoryClickValid(s: State, num: int)
    requires Valid(s)
    ensures Valid(MemoryClick(s, num))
  {
    if !s.showingSequence {
      assert s.memorySequence == [];
      SetClicksShape(s.(memoryLevel := 1, memorySequence := [], memoryInput := [],
                      notices := s.notices + [MemoryWrong(s.memoryLevel * 50)]),
                   s.clicks + s.memoryLevel * 50);
    }
  }

  // ---------------------------------------------------------------------------
  // Lucky wheel

  /** `spinLuckyWheel`, with the random prize position supplied as `k`. */
  function SpinLuckyWheel(s: State, k: int): State
    requires 0 <= k < |PRIZES|
  {
    SetClicks(s.(notices := s.notices + [LuckyPrize(PRIZES[k])]), s.clicks + PRIZES[k])
  }

  /** A spin adds one of the five prizes and takes nothing: the score strictly grows. */
  lemma SpinAddsPrize(s: State, k: int)
    requires Valid(s) && 0 <= k < |PRIZES|
    ensures var r := SpinLuckyWheel(s, k);
      && r.clicks - s.clicks in {50, 100, 200, 500, 1000}
      && r.clicks > s.clicks
      && r.notices[..|s.notices| + 1] == s.notices + [LuckyPrize(r.clicks - s.clicks)]
      && r.clickPower == s.clickPower && r.currentSkin == s.currentSkin
      && Valid(r)
  {
    SetClicksShape(s.(notices := s.notices + [LuckyPrize(PRIZES[k])]), s.clicks + PRIZES[k]);
  }
}
