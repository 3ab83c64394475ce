/**
  The page component: one field per piece of state it keeps and one method
  per event handler, plus one for a firing of the countdown effect. Each
  method updates the fields in place and is proved to perform exactly the
  transition `Rules` gives for that handler, and to keep the invariant.
*/
module IndexPage {
  import opened Wrappers
  import opened Skins
  import Rules
  import Play

  class Index {
    var clicks: int
    var clickPower: int
    var currentSkin: SkinId
    var skins: seq<Skin>
    var speedGameActive: bool
    var speedTimer: int
    var speedClicks: int
    var memorySequence: seq<int>
    var memoryInput: seq<int>
    var memoryLevel: int
    var showingSequence: bool
    /** The notifications shown so far. */
    var notices: seq<Rules.Notice>

    /** The component's state as a value. */
    function Snapshot(): Rules.State
      reads this
    {
      Rules.State(clicks, clickPower, currentSkin, skins, speedGameActive, speedTimer, speedClicks,
                  memorySequence, memoryInput, memoryLevel, showingSequence, notices)
    }

    ghost predicate Valid()
      reads this
    {
      Rules.Valid(Snapshot())
    }

    /** The initial values of the component's state. */
    constructor ()
      ensures Snapshot() == Rules.Initial
      ensures Valid()
    {
      clicks, clickPower, currentSkin, skins := 0, 1, Default, SKINS;
      speedGameActive, speedTimer, speedClicks := false, Rules.SpeedRoundSeconds, 0;
      memorySequence, memoryInput, memoryLevel, showingSequence := [], [], 1, false;
      notices := [];
      Play.InitialValid();
    }

    /** The effect that reacts to a change of the score. */
    method OnClicksChanged()
      modifies this
      ensures Snapshot() == Rules.UnlockEffect(old(Snapshot()))
    {
      var updated := Recompute(skins, clicks);
      var found := FirstNewlyUnlocked(updated, skins);
      if found.Some? {
        notices := notices + [Rules.SkinUnlocked(updated[found.value].id)];
      }
      skins := updated;
    }

    /** `setClicks(c)` and the effect it triggers. */
    method SetClicks(c: int)
      modifies this
      ensures Snapshot() == Rules.SetClicks(old(Snapshot()), c)
    {
      clicks := c;
      OnClicksChanged();
    }

    /** `handleClick`. */
    method HandleClick()
      requires Valid()
      modifies this
      ensures Snapshot() == Rules.Click(old(Snapshot()))
      ensures clicks == old(clicks) + old(clickPower) && clickPower == old(clickPower)
      ensures Valid()
    {
      ghost var s := Snapshot();
      SetClicks(clicks + clickPower);
      Rules.ClickAddsPower(s);
    }

    /** The upgrade button's handler. */
    method BuyUpgrade()
      requires Valid()
      modifies this
      ensures Snapshot() == Rules.Upgrade(old(Snapshot()))
      ensures old(clicks) >= Rules.UpgradeCost ==>
        clicks == old(clicks) - Rules.UpgradeCost && clickPower == old(clickPower) + 1
      ensures old(clicks) < Rules.UpgradeCost ==> clicks == old(clicks) && clickPower == old(clickPower)
      ensures Valid()
    {
      ghost var s := Snapshot();
      assert Rules.Valid(Rules.Upgrade(s))
        && (s.clicks >= Rules.UpgradeCost ==>
              Rules.Upgrade(s).clicks == s.clicks - Rules.UpgradeCost && Rules.Upgrade(s).clickPower == s.clickPower + 1)
        && (s.clicks < Rules.UpgradeCost ==> Rules.Upgrade(s).clicks == s.clicks && Rules.Upgrade(s).clickPower == s.clickPower)
      by {
        Rules.UpgradeSpendsOrRefuses(s);
      }
      if clicks >= Rules.UpgradeCost {
        BuyPower();
      } else {
        notices := notices + [Rules.UpgradeRefused];
      }
    }

    /** The purchase branch of the upgrade handler: one more point of power for 500 clicks. */
    method BuyPower()
      modifies this
      ensures Snapshot() == Rules.SetClicks(
        old(Snapshot()).(clickPower := old(clickPower) + 1,
                         notices := old(notices) + [Rules.UpgradeBought(old(clickPower) + 1)]),
        old(clicks) - Rules.UpgradeCost)
    {
      var cost := clicks - Rules.UpgradeCost;
      clickPower := clickPower + 1;
      notices := notices + [Rules.UpgradeBought(clickPower)];
      SetClicks(cost);
    }

    /** The handler of skin card `i`. */
    method SelectSkin(i: int)
      requires Valid() && 0 <= i < |skins|
      modifies this
      ensures Snapshot() == Rules.SelectSkin(old(Snapshot()), i)
      ensures currentSkin == if old(skins[i].unlocked) then old(skins[i].id) else old(currentSkin)
      ensures Valid()
    {
      ghost var s := Snapshot();
      var skin := skins[i];
      if skin.unlocked {
        currentSkin := skin.id;
        notices := notices + [Rules.SkinChanged(skin.id)];
      } else {
        notices := notices + [Rules.SkinLocked(skin.unlockAt)];
      }
      Rules.SelectOnlyUnlocked(s, i);
    }

    /** `startSpeedGame`. */
    method StartSpeedGame()
      requires Valid()
      modifies this
      ensures Snapshot() == Rules.StartSpeed(old(Snapshot()))
      ensures speedGameActive && speedTimer == Rules.SpeedRoundSeconds && speedClicks == 0
      ensures Valid()
    {
      ghost var s := Snapshot();
      speedGameActive := true;
      speedTimer := Rules.SpeedRoundSeconds;
      speedClicks := 0;
      Rules.SpeedRoundSteps(s);
    }

    /** `handleSpeedClick`. */
    method HandleSpeedClick()
      requires Valid()
      modifies this
      ensures Snapshot() == Rules.SpeedClick(old(Snapshot()))
      ensures speedClicks == old(speedClicks) + 1
      ensures Valid()
    {
      ghost var s := Snapshot();
      speedClicks := speedClicks + 1;
      Rules.SpeedRoundSteps(s);
    }

    /** `endSpeedGame`. */
    method EndSpeedGame()
      requires Valid()
      modifies this
      ensures Snapshot() == Rules.EndSpeed(old(Snapshot()))
      ensures !speedGameActive && clicks == old(clicks) + 2 * old(speedClicks)
      ensures Valid()
    {
      ghost var s := Snapshot();
      assert Rules.Valid(Rules.EndSpeed(s)) by {
        Rules.SetClicksShape(s.(speedGameActive := false,
                                notices := s.notices + [Rules.SpeedBonus(s.speedClicks * 2, s.speedClicks)]),
                             s.clicks + s.speedClicks * 2);
      }
      speedGameActive := false;
      var bonus := speedClicks * 2;
      notices := notices + [Rules.SpeedBonus(bonus, speedClicks)];
      SetClicks(clicks + bonus);
    }

    /** One firing of the countdown effect. */
    method TimerTick()
      requires Valid()
      modifies this
      ensures Snapshot() == Rules.Tick(old(Snapshot()))
      ensures old(speedGameActive) && old(speedTimer) > 0 ==> speedTimer == old(speedTimer) - 1 && speedGameActive
      ensures old(speedGameActive) && old(speedTimer) == 0 ==>
        !speedGameActive && clicks == old(clicks) + 2 * old(speedClicks)
      ensures Valid()
    {
      ghost var s := Snapshot();
      if speedGameActive && speedTimer > 0 {
        speedTimer := speedTimer - 1;
      } else if speedGameActive && speedTimer == 0 {
        EndSpeedGame();
      }
      Rules.SpeedRoundSteps(s);
    }

    /** `startMemoryGame`, with the random symbols supplied as `sequence`. */
    method StartMemoryGame(sequence: seq<int>)
      requires Valid() && Rules.IsMemoryDeal(sequence, memoryLevel)
      modifies this
      ensures Snapshot() == Rules.StartMemory(old(Snapshot()), sequence)
      ensures memorySequence == sequence && memoryInput == [] && showingSequence
      ensures Valid()
    {
      ghost var s := Snapshot();
      memorySequence := sequence;
      memoryInput := [];
      showingSequence := true;
      notices := notices + [Rules.MemoryShown];
      Rules.StartMemoryDeals(s, sequence);
    }

    /**
      `handleMemoryClick(num)`. It is stated for any state, not only valid
      ones, because in a valid state no symbol is ever accepted.
    */
    method HandleMemoryClick(num: int)
      modifies this
      ensures Snapshot() == Rules.MemoryClick(old(Snapshot()), num)
      ensures old(showingSequence) ==> Snapshot() == old(Snapshot())
      ensures old(Valid()) ==> Valid()
    {
      ghost var s := Snapshot();
      assert Rules.Valid(s) ==> Rules.Valid(Rules.MemoryClick(s, num)) by {
        if Rules.Valid(s) {
          Rules.MemoryClickValid(s, num);
        }
      }
      if showingSequence {
        return;
      }
      var input := memoryInput + [num];
      var k := |input| - 1;
      if k >= |memorySequence| || num != memorySequence[k] {
        MemoryMiss();
      } else if |input| == |memorySequence| {
        MemoryComplete();
      } else {
        memoryInput := input;
      }
    }

    /** The wrong-symbol branch of `handleMemoryClick`: pay level * 50, back to level 1, clear the round. */
    method MemoryMiss()
      modifies this
      ensures Snapshot() == Rules.SetClicks(
        old(Snapshot()).(memoryLevel := 1, memorySequence := [], memoryInput := [],
                         notices := old(notices) + [Rules.MemoryWrong(old(memoryLevel) * 50)]),
        old(clicks) + old(memoryLevel) * 50)
    {
      var earned := memoryLevel * 50;
      notices := notices + [Rules.MemoryWrong(earned)];
      memoryLevel := 1;
      memorySequence := [];
      memoryInput := [];
      SetClicks(clicks + earned);
    }

    /** The last-symbol branch of `handleMemoryClick`: pay level * 100, next level, clear the round. */
    method MemoryComplete()
      modifies this
      ensures Snapshot() == Rules.SetClicks(
        old(Snapshot()).(memoryLevel := old(memoryLevel) + 1, memorySequence := [], memoryInput := [],
                         notices := old(notices) + [Rules.MemoryRight(old(memoryLevel) * 100, old(memoryLevel) + 1)]),
        old(clicks) + old(memoryLevel) * 100)
    {
      var bonus := memoryLevel * 100;
      var score := clicks + bonus;
      memoryLevel := memoryLevel + 1;
      notices := notices + [Rules.MemoryRight(bonus, memoryLevel)];
      memorySequence := [];
      memoryInput := [];
      SetClicks(score);
    }

    /** `spinLuckyWheel`, with the random prize position supplied as `k`. */
    method SpinLuckyWheel(k: int)
      requires Valid() && 0 <= k < |Rules.PRIZES|
      modifies this
      ensures Snapshot() == Rules.SpinLuckyWheel(old(Snapshot()), k)
      ensures clicks == old(clicks) + Rules.PRIZES[k] && clickPower == old(clickPower)
      ensures Valid()
    {
      ghost var s := Snapshot();
      var prize := Rules.PRIZES[k];
      notices := notices + [Rules.LuckyPrize(prize)];
      SetClicks(clicks + prize);
      Rules.SpinAddsPrize(s, k);
    }
  }
}
