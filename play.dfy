/**
  Plays of the page: the actions a player (or the countdown timer) can
  trigger, which controls the page offers in a given state, and what a
  sequence of actions does. A control the page does not render, or renders
  disabled, does nothing.
*/
module Play {
  import opened Wrappers
  import opened Skins
  import opened Rules

  datatype Action =
    | MainClick
    | BuyUpgrade
    | ChooseSkin(index: int)
    | StartSpeedRound
    | SpeedRoundClick
    | TimerTick
    | StartMemoryRound(deal: seq<int>)
    | MemorySymbol(num: int)
    | SpinWheel(prize: int)

  /** The wheel's button is disabled below this score. */
  const WheelMinimum: int := 100

  /**
    Whether the page offers the control in state `s`: the speed round shows
    its start button only while idle and its click button only while running;
    the memory round shows its start button only with no sequence dealt, and
    its four symbol buttons only with one, disabled while it is shown; the
    wheel's button is disabled below 100 clicks. Random choices (the dealt
    symbols, the prize position) are arguments, and only values the page's
    random draw can produce are offered.
  */
  predicate Enabled(s: State, a: Action)
  {
    match a
    case MainClick => true
    case BuyUpgrade => true
    case ChooseSkin(i) => 0 <= i < |s.skins|
    case StartSpeedRound => !s.speedGameActive
    case SpeedRoundClick => s.speedGameActive
    case TimerTick => true
    case StartMemoryRound(deal) => s.memorySequence == [] && IsMemoryDeal(deal, s.memoryLevel)
    case MemorySymbol(num) => s.memorySequence != [] && !s.showingSequence && 0 <= num < Symbols
    case SpinWheel(k) => s.clicks >= WheelMinimum && 0 <= k < |PRIZES|
  }

  /** The handler behind each control. */
  function Apply(s: State, a: Action): State
    requires Enabled(s, a)
  {
    match a
    case MainClick => Click(s)
    case BuyUpgrade => Upgrade(s)
    case ChooseSkin(i) => SelectSkin(s, i)
    case StartSpeedRound => StartSpeed(s)
    case SpeedRoundClick => SpeedClick(s)
    case TimerTick => Tick(s)
    case StartMemoryRound(deal) => StartMemory(s, deal)
    case MemorySymbol(num) => MemoryClick(s, num)
    case SpinWheel(k) => SpinLuckyWheel(s, k)
  }

  function Step(s: State, a: Action): State
  {
    if Enabled(s, a) then Apply(s, a) else s
  }

  lemma StepIsHandler(s: State, a: Action)
    requires Enabled(s, a)
    ensures Step(s, a) == Apply(s, a)
  {
  }

  function Run(s: State, acts: seq<Action>): State
    decreases |acts|
  {
    if acts == [] then s else Run(Step(s, acts[0]), acts[1..])
  }

  /** `n` copies of the same action. */
  function Repeat(a: Action, n: nat): (r: seq<Action>)
    ensures |r| == n
    ensures forall i :: 0 <= i < n ==> r[i] == a
  {
    if n == 0 then [] else [a] + Repeat(a, n - 1)
  }

  lemma {:induction false} RunAppend(s: State, xs: seq<Action>, ys: seq<Action>)
    ensures Run(s, xs + ys) == Run(Run(s, xs), ys)
    decreases |xs|
  {
    if xs == [] {
      assert xs + ys == ys;
    } else {
      assert (xs + ys)[0] == xs[0];
      assert (xs + ys)[1..] == xs[1..] + ys;
      RunAppend(Step(s, xs[0]), xs[1..], ys);
    }
  }

  // ---------------------------------------------------------------------------
  // The invariant over every play

  /** The page starts in a valid state: with a score of 0 only the base skin is unlocked. */
  lemma InitialValid()
    ensures Valid(Initial)
  {
    assert Recompute(SKINS, 0) == SKINS;
  }

  lemma StepPreservesValid(s: State, a: Action)
    requires Valid(s)
    ensures Valid(Step(s, a))
  {
    if Enabled(s, a) {
      match a
      case MainClick => ClickAddsPower(s);
      case BuyUpgrade => UpgradeSpendsOrRefuses(s);
      case ChooseSkin(i) => SelectOnlyUnlocked(s, i);
      case StartSpeedRound => SpeedRoundSteps(s);
      case SpeedRoundClick => SpeedRoundSteps(s);
      case TimerTick => SpeedRoundSteps(s);
      case StartMemoryRound(deal) => StartMemoryDeals(s, deal);
      case MemorySymbol(num) => MemoryClickValid(s, num);
      case SpinWheel(k) => SpinAddsPrize(s, k);
    }
  }

  lemma {:induction false} RunPreservesValid(s: State, acts: seq<Action>)
    requires Valid(s)
    ensures Valid(Run(s, acts))
    decreases |acts|
  {
    if acts != [] {
      StepPreservesValid(s, acts[0]);
      RunPreservesValid(Step(s, acts[0]), acts[1..]);
    }
  }

  /**
    In every state a play can reach: the score is non-negative, the click
    power at least 1, the memory level at least 1, the countdown within
    0..10, every skin unlocked exactly when the score reaches its threshold,
    the selected skin one of the table's, and the memory input a proper
    prefix of the dealt sequence.
  */
  lemma ReachableValid(acts: seq<Action>)
    ensures Valid(Run(Initial, acts))
  {
    InitialValid();
    RunPreservesValid(Initial, acts);
  }

  /** In every reachable state the page shows the data of the selected skin, never the fallback. */
  lemma ReachableShowsSelectedSkin(acts: seq<Action>)
    ensures var s := Run(Initial, acts);
      CurrentSkinData(s.skins, s.currentSkin).id == s.currentSkin
  {
    ReachableValid(acts);
    var s := Run(Initial, acts);
    assert s.skins[Position(s.currentSkin)].id == s.currentSkin;
  }

  // ---------------------------------------------------------------------------
  // The memory round never accepts input

  /**
    Once the sequence is being shown it stays shown whatever happens next,
    so the memory level never moves again.
  */
  lemma {:induction false} ShowingSequenceIsPermanent(s: State, acts: seq<Action>)
    requires s.showingSequence
    ensures Run(s, acts).showingSequence
    ensures Run(s, acts).memoryLevel == s.memoryLevel
    decreases |acts|
  {
    if acts != [] {
      var t := Step(s, acts[0]);
      assert t.showingSequence && t.memoryLevel == s.memoryLevel;
      ShowingSequenceIsPermanent(t, acts[1..]);
    }
  }

  /**
    In no reachable state are the four symbol buttons enabled: a dealt
    sequence is always still being shown.
  */
  lemma MemoryButtonsNeverEnabled(acts: seq<Action>, num: int)
    ensures !Enabled(Run(Initial, acts), MemorySymbol(num))
  {
    ReachableValid(acts);
    NoMemoryInputWhenValid(Run(Initial, acts), num);
  }

  lemma NoMemoryInputWhenValid(s: State, num: int)
    requires Valid(s)
    ensures !Enabled(s, MemorySymbol(num))
  {
  }

  // ---------------------------------------------------------------------------
  // The speed round

  /** Each tick of a running round takes one second off, until the tick at 0 ends it and pays twice the tally. */
  lemma {:induction false} CountdownPays(s: State)
    requires Valid(s) && s.speedGameActive
    ensures var r := Run(s, Repeat(TimerTick, s.speedTimer + 1));
      && !r.speedGameActive && r.speedTimer == 0
      && r.clicks == s.clicks + 2 * s.speedClicks
      && r.clickPower == s.clickPower && r.memoryLevel == s.memoryLevel
      && Valid(r)
    decreases s.speedTimer
  {
    var ticks := Repeat(TimerTick, s.speedTimer + 1);
    assert ticks[0] == TimerTick;
    var t := Tick(s);
    if s.speedTimer == 0 {
      EndSpeedPaysTwiceTally(s);
      assert ticks[1..] == [];
    } else {
      SpeedRoundSteps(s);
      assert ticks[1..] == Repeat(TimerTick, t.speedTimer + 1);
      CountdownPays(t);
    }
  }

  /** Speed clicks during a running round only count. */
  lemma {:induction false} SpeedClicksCount(s: State, k: nat)
    requires s.speedGameActive
    ensures Run(s, Repeat(SpeedRoundClick, k)) == s.(speedClicks := s.speedClicks + k)
    decreases k
  {
    if k > 0 {
      var acts := Repeat(SpeedRoundClick, k);
      assert acts[0] == SpeedRoundClick && acts[1..] == Repeat(SpeedRoundClick, k - 1);
      SpeedClicksCount(SpeedClick(s), k - 1);
    }
  }

  /**
    A whole round from idle: start, `k` clicks, then the eleven ticks that run
    the clock from 10 down to 0 and end it; the score grows by exactly 2 * k.
  */
  lemma SpeedRoundPaysTwiceTally(s: State, k: nat)
    requires Valid(s) && !s.speedGameActive
    ensures var r := Run(s, [StartSpeedRound] + Repeat(SpeedRoundClick, k) + Repeat(TimerTick, SpeedRoundSeconds + 1));
      && r.clicks == s.clicks + 2 * k
      && !r.speedGameActive
      && r.clickPower == s.clickPower
  {
    var start := Run(s, [StartSpeedRound]);
    assert start == StartSpeed(s);
    SpeedRoundSteps(s);
    SpeedClicksCount(start, k);
    var running := Run(start, Repeat(SpeedRoundClick, k));
    assert Valid(running);
    CountdownPays(running);
    RunAppend(s, [StartSpeedRound], Repeat(SpeedRoundClick, k));
    RunAppend(s, [StartSpeedRound] + Repeat(SpeedRoundClick, k), Repeat(TimerTick, SpeedRoundSeconds + 1));
  }

  /** The speed-round controls: a speed click or a tick of the countdown. */
  predicate SpeedRoundOnly(acts: seq<Action>)
  {
    forall i :: 0 <= i < |acts| ==> acts[i] == SpeedRoundClick || acts[i] == TimerTick
  }

  function TickCount(acts: seq<Action>): nat
  {
    if acts == [] then 0 else (if acts[0] == TimerTick then 1 else 0) + TickCount(acts[1..])
  }

  /**
    The speed clicks among `acts` made while the round is still running: those
    before the tick that finds the clock at 0, the clock showing `timer` now.
  */
  function ActiveClicks(timer: int, acts: seq<Action>): nat
  {
    if acts == [] then 0
    else if acts[0] == TimerTick then (if timer <= 0 then 0 else ActiveClicks(timer - 1, acts[1..]))
    else 1 + ActiveClicks(timer, acts[1..])
  }

  /** Once the round is over, speed clicks are not offered and ticks do nothing. */
  lemma {:induction false} IdleRoundStays(s: State, acts: seq<Action>)
    requires !s.speedGameActive && SpeedRoundOnly(acts)
    ensures Run(s, acts) == s
    decreases |acts|
  {
    if acts != [] {
      assert Step(s, acts[0]) == s;
      IdleRoundStays(s, acts[1..]);
    }
  }

  /**
    A running round under any interleaving of speed clicks and ticks: the
    round is still running exactly while at most `timer` ticks have fired,
    and then its clock has dropped by one per tick; the tally counts exactly
    the clicks made while it ran; the score is untouched while it runs and,
    once it has ended, has grown by twice the final tally.
  */
  lemma {:induction false} SpeedRoundInterleaved(s: State, acts: seq<Action>)
    requires Valid(s) && s.speedGameActive && SpeedRoundOnly(acts)
    ensures var r := Run(s, acts);
      && (r.speedGameActive <==> TickCount(acts) <= s.speedTimer)
      && (r.speedGameActive ==> r.speedTimer == s.speedTimer - TickCount(acts))
      && r.speedClicks == s.speedClicks + ActiveClicks(s.speedTimer, acts)
      && r.clicks == s.clicks + (if r.speedGameActive then 0 else 2 * r.speedClicks)
      && r.clickPower == s.clickPower
      && Valid(r)
    decreases |acts|
  {
    if acts != [] {
      var t := Step(s, acts[0]);
      assert SpeedRoundOnly(acts[1..]);
      if acts[0] == SpeedRoundClick {
        assert t == SpeedClick(s) && Valid(t) by { SpeedRoundSteps(s); }
        SpeedRoundInterleaved(t, acts[1..]);
      } else if s.speedTimer > 0 {
        assert t == s.(speedTimer := s.speedTimer - 1) && Valid(t) by { SpeedRoundSteps(s); }
        SpeedRoundInterleaved(t, acts[1..]);
      } else {
        assert !t.speedGameActive && t.clicks == s.clicks + 2 * s.speedClicks && t.speedClicks == s.speedClicks
          && t.clickPower == s.clickPower && Valid(t) by {
          EndSpeedPaysTwiceTally(s);
        }
        IdleRoundStays(t, acts[1..]);
      }
    }
  }

  // ---------------------------------------------------------------------------
  // Score, upgrade and wheel

  /** The score falls only through a bought upgrade, and then by exactly 500. */
  lemma ScoreFallsOnlyOnUpgrade(s: State, a: Action)
    requires Valid(s)
    ensures Step(s, a).clicks < s.clicks ==> a == BuyUpgrade && Step(s, a).clicks == s.clicks - UpgradeCost
  {
    if Enabled(s, a) {
      match a
      case MainClick => ClickAddsPower(s);
      case BuyUpgrade => UpgradeSpendsOrRefuses(s);
      case ChooseSkin(i) =>
      case StartSpeedRound =>
      case SpeedRoundClick =>
      case TimerTick =>
        if s.speedGameActive && s.speedTimer == 0 { EndSpeedPaysTwiceTally(s); }
      case StartMemoryRound(deal) =>
      case MemorySymbol(num) =>
        assert false;
      case SpinWheel(k) => SpinAddsPrize(s, k);
    }
  }

  lemma RunClicksUnfold(s: State, n: nat)
    requires n > 0
    ensures Run(s, Repeat(MainClick, n)) == Run(Click(s), Repeat(MainClick, n - 1))
  {
    var acts := Repeat(MainClick, n);
    assert acts[0] == MainClick && acts[1..] == Repeat(MainClick, n - 1);
  }

  /** `n` presses of the main button add `n` times the click power. */
  lemma {:induction false} ClicksAccumulate(s: State, n: nat)
    requires Valid(s)
    ensures var r := Run(s, Repeat(MainClick, n));
      && r.clicks == s.clicks + n * s.clickPower
      && r.clickPower == s.clickPower
      && Valid(r)
    decreases n
  {
    if n > 0 {
      var t := Click(s);
      var p := s.clickPower;
      ClickAddsPower(s);
      assert t.clicks == s.clicks + p && t.clickPower == p;
      ClicksAccumulate(t, n - 1);
      RunClicksUnfold(s, n);
      MultipleStep(n, p);
    }
  }

  /** While the score stays below the first threshold, pressing the main button fires no notification. */
  lemma {:induction false} QuietClicks(s: State, n: nat)
    requires InSync(s) && s.clickPower >= 1 && s.clicks + n * s.clickPower < SKINS[1].unlockAt
    ensures Run(s, Repeat(MainClick, n)).notices == s.notices
    decreases n
  {
    if n > 0 {
      QuietClick(s, n);
      QuietClicks(Click(s), n - 1);
      RunClicksUnfold(s, n);
    }
  }

  /** One press below the first threshold: no notification, and the remaining presses stay below it. */
  lemma QuietClick(s: State, n: nat)
    requires InSync(s) && s.clickPower >= 1 && n > 0 && s.clicks + n * s.clickPower < SKINS[1].unlockAt
    ensures var t := Click(s);
      && InSync(t) && t.clickPower >= 1 && t.clicks + (n - 1) * t.clickPower < SKINS[1].unlockAt
      && t.notices == s.notices
  {
    var p := s.clickPower;
    MultipleStep(n, p);
    SetClicksShape(s, s.clicks + p);
    NoNoticeBelowFirstThreshold(s, s.clicks + p);
  }

  lemma MultipleStep(n: nat, p: int)
    requires n > 0 && p >= 1
    ensures (n - 1) * p + p == n * p && (n - 1) * p >= 0
  {
  }

  /**
    From the start, `n` presses with 500 <= n < 1000 give `n` clicks and no
    notification; buying the upgrade then leaves n - 500 clicks, a click
    power of 2 and the one purchase notice (with n == 500: 0 clicks left).
  */
  lemma UpgradeAfterClicks(n: nat)
    requires UpgradeCost <= n < SKINS[1].unlockAt
    ensures var s := Run(Initial, Repeat(MainClick, n));
      && s.clicks == n && s.notices == []
      && Step(s, BuyUpgrade).clicks == n - UpgradeCost && Step(s, BuyUpgrade).clickPower == 2
      && Step(s, BuyUpgrade).notices == [UpgradeBought(2)]
  {
    InitialValid();
    UpgradeAfterClicksFrom(Initial, n);
  }

  lemma UpgradeAfterClicksFrom(s0: State, n: nat)
    requires Valid(s0) && s0.clicks == 0 && s0.clickPower == 1 && s0.notices == []
    requires UpgradeCost <= n < SKINS[1].unlockAt
    ensures var s := Run(s0, Repeat(MainClick, n));
      && s.clicks == n && s.notices == []
      && Step(s, BuyUpgrade).clicks == n - UpgradeCost && Step(s, BuyUpgrade).clickPower == 2
      && Step(s, BuyUpgrade).notices == [UpgradeBought(2)]
  {
    var s := Run(s0, Repeat(MainClick, n));
    assert s.clicks == n && s.clickPower == 1 && Valid(s) by {
      ClicksAccumulate(s0, n);
    }
    assert s.notices == [] by {
      QuietClicks(s0, n);
    }
    UpgradeStep(s);
  }

  lemma UpgradeStep(s: State)
    requires Valid(s) && s.clicks >= UpgradeCost
    ensures Step(s, BuyUpgrade).clicks == s.clicks - UpgradeCost
    ensures Step(s, BuyUpgrade).clickPower == s.clickPower + 1
    ensures Step(s, BuyUpgrade).notices == s.notices + [UpgradeBought(s.clickPower + 1)]
  {
    StepIsHandler(s, BuyUpgrade);
    UpgradeSpendsOrRefuses(s);
  }

  /**
    The selected skin can be locked: from the start, 1000 presses unlock the
    business skin, which is then selected; buying an upgrade drops the score
    to 500, so the selected skin is locked again while it stays selected.
  */
  lemma SelectedSkinRelocksInPlay()
    ensures var r := Run(Initial, Repeat(MainClick, SKINS[1].unlockAt) + [ChooseSkin(1), BuyUpgrade]);
      r.currentSkin == Business && !CurrentSkinData(r.skins, r.currentSkin).unlocked
  {
    InitialValid();
    RelockFrom(Initial, SKINS[1].unlockAt);
  }

  lemma RelockFrom(s0: State, n: nat)
    requires Valid(s0) && s0.clicks == 0 && s0.clickPower == 1 && n == SKINS[1].unlockAt
    ensures var r := Run(s0, Repeat(MainClick, n) + [ChooseSkin(1), BuyUpgrade]);
      r.currentSkin == Business && !CurrentSkinData(r.skins, r.currentSkin).unlocked
  {
    var s := Run(s0, Repeat(MainClick, n));
    assert s.clicks == n && Valid(s) by {
      ClicksAccumulate(s0, n);
    }
    ChooseThenUpgrade(s);
    RunAppend(s0, Repeat(MainClick, n), [ChooseSkin(1), BuyUpgrade]);
  }

  /** At the business threshold, choosing the business card and then upgrading leaves it selected and locked. */
  lemma ChooseThenUpgrade(s: State)
    requires Valid(s) && s.clicks == SKINS[1].unlockAt
    ensures var r := Run(s, [ChooseSkin(1), BuyUpgrade]);
      r.currentSkin == Business && !CurrentSkinData(r.skins, r.currentSkin).unlocked
  {
    var t := Step(s, ChooseSkin(1));
    assert t.currentSkin == Business && Valid(t) && t.clicks == s.clicks by {
      SelectOnlyUnlocked(s, 1);
    }
    assert Run(s, [ChooseSkin(1), BuyUpgrade]) == Upgrade(t) by {
      RunTwo(s, ChooseSkin(1), BuyUpgrade);
      StepIsHandler(t, BuyUpgrade);
    }
    assert Upgrade(t).currentSkin == Business && !CurrentSkinData(Upgrade(t).skins, Business).unlocked by {
      UpgradeKeepsSkin(t);
      BusinessLockedBelow(Upgrade(t).skins, t.clicks - UpgradeCost);
    }
  }

  lemma RunTwo(s: State, x: Action, y: Action)
    ensures Run(s, [x, y]) == Step(Step(s, x), y)
  {
    assert [x, y][1..] == [y] && [y][1..] == [];
    assert Run(s, [x, y]) == Run(Step(s, x), [y]);
    assert Run(Step(s, x), [y]) == Run(Step(Step(s, x), y), []);
  }

  /** Below its threshold the business skin is the locked data `currentSkinData` finds for it. */
  lemma BusinessLockedBelow(skins: seq<Skin>, c: int)
    requires skins == Recompute(SKINS, c) && c < SKINS[1].unlockAt
    ensures !CurrentSkinData(skins, Business).unlocked
  {
    assert skins[0].id == Default && skins[1].id == Business && !skins[1].unlocked;
    assert FindByIdFrom(skins, Business, 0) == Some(1);
  }

  /** A bought upgrade keeps the selected skin and leaves the flags of the lowered score. */
  lemma UpgradeKeepsSkin(s: State)
    requires Valid(s) && s.clicks >= UpgradeCost
    ensures Upgrade(s).currentSkin == s.currentSkin
    ensures Upgrade(s).skins == Recompute(SKINS, s.clicks - UpgradeCost)
  {
    UpgradeSpendsOrRefuses(s);
  }

  /**
    The wheel's only gate is its disabled button: with 100 clicks or more a
    spin adds the prize and deducts nothing; below 100 nothing happens.
  */
  lemma WheelIsGatedButFree(s: State, k: int)
    requires Valid(s) && 0 <= k < |PRIZES|
    ensures s.clicks >= WheelMinimum ==> Step(s, SpinWheel(k)).clicks == s.clicks + PRIZES[k]
    ensures s.clicks < WheelMinimum ==> Step(s, SpinWheel(k)) == s
  {
    if s.clicks >= WheelMinimum {
      assert Step(s, SpinWheel(k)) == SpinLuckyWheel(s, k);
      SpinAddsPrize(s, k);
    } else {
      assert !Enabled(s, SpinWheel(k));
    }
  }
}
