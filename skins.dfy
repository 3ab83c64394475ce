/** The usual optional-value wrapper, used for the results of `find`. */
module Wrappers {
  datatype Option<+T> = None | Some(value: T)
}

/**
  The skin collection: the fixed `SKINS` table, the unlock recomputation the
  score effect performs (`skins.map(...)` followed by `find(...)`), and the two
  values the page derives from it (the active skin's data and the next milestone).
*/
module Skins {
  import opened Wrappers

  /** The identities of the eight skins, in table order. */
  datatype SkinId = Default | Business | President | Superhero | Astronaut | King | Rockstar | Pirate

  /** One cosmetic skin. `unlocked` is the flag the unlock effect recomputes from the score. */
  datatype Skin = Skin(id: SkinId, unlockAt: nat, unlocked: bool)

  /** The fixed table of skins, in display order, with the flags the page starts from. */
  const SKINS: seq<Skin> := [
    Skin(Default, 0, true),
    Skin(Business, 1000, false),
    Skin(President, 2000, false),
    Skin(Superhero, 3000, false),
    Skin(Astronaut, 4000, false),
    Skin(King, 5000, false),
    Skin(Rockstar, 7000, false),
    Skin(Pirate, 10000, false)
  ]

  /** The position of each skin in the table. */
  function Position(id: SkinId): (i: nat)
    ensures i < |SKINS| && SKINS[i].id == id
  {
    match id
    case Default => 0
    case Business => 1
    case President => 2
    case Superhero => 3
    case Astronaut => 4
    case King => 5
    case Rockstar => 6
    case Pirate => 7
  }

  /** Facts about the table that the other proofs rely on. */
  lemma SkinTable()
    ensures |SKINS| == 8
    ensures SKINS[0].id == Default && SKINS[0].unlockAt == 0
    ensures forall i :: 0 < i < |SKINS| ==> SKINS[i].id != Default && SKINS[i].unlockAt >= 1000
    ensures forall i, j :: 0 <= i < j < |SKINS| ==> SKINS[i].unlockAt < SKINS[j].unlockAt
    ensures forall i, j :: 0 <= i < j < |SKINS| ==> SKINS[i].id != SKINS[j].id
  {
  }

  /**
    The list after the effect's `map`: every skin keeps its id and threshold, and is unlocked exactly when the score has reached its threshold.
  */
  function Recompute(skins: seq<Skin>, clicks: int): (r: seq<Skin>)
    ensures |r| == |skins|
    ensures forall i :: 0 <= i < |skins| ==> r[i].id == skins[i].id && r[i].unlockAt == skins[i].unlockAt
    ensures forall i :: 0 <= i < |skins| ==> (r[i].unlocked <==> clicks >= skins[i].unlockAt)
  {
    if skins == [] then []
    else [skins[0].(unlocked := clicks >= skins[0].unlockAt)] + Recompute(skins[1..], clicks)
  }

  /** Skin `i` went from locked (in `prev`) to unlocked (in `updated`) and is not the base skin. */
  predicate NewlyUnlocked(updated: seq<Skin>, prev: seq<Skin>, i: int)
  {
    0 <= i < |updated| && i < |prev| &&
    updated[i].unlocked && !prev[i].unlocked && updated[i].id != Default
  }

  /** The effect's `find`: the first index at or after `from` whose skin was newly unlocked. */
  function FindNewlyUnlockedFrom(updated: seq<Skin>, prev: seq<Skin>, from: nat): (r: Option<nat>)
    requires from <= |updated|
    ensures r.Some? ==> from <= r.value < |updated| && NewlyUnlocked(updated, prev, r.value)
    ensures r.Some? ==> forall j :: from <= j < r.value ==> !NewlyUnlocked(updated, prev, j)
    ensures r.None? ==> forall j :: from <= j < |updated| ==> !NewlyUnlocked(updated, prev, j)
    decreases |updated| - from
  {
    if from == |updated| then None
    else if NewlyUnlocked(updated, prev, from) then Some(from)
    else FindNewlyUnlockedFrom(updated, prev, from + 1)
  }

  function FirstNewlyUnlocked(updated: seq<Skin>, prev: seq<Skin>): Option<nat>
  {
    FindNewlyUnlockedFrom(updated, prev, 0)
  }

  /** `skins.find(s => s.id === id)`, as an index, searching from `from`. */
  function FindByIdFrom(skins: seq<Skin>, id: SkinId, from: nat): (r: Option<nat>)
    requires from <= |skins|
    ensures r.Some? ==> from <= r.value < |skins| && skins[r.value].id == id
    ensures r.Some? ==> forall j :: from <= j < r.value ==> skins[j].id != id
    ensures r.None? ==> forall j :: from <= j < |skins| ==> skins[j].id != id
    decreases |skins| - from
  {
    if from == |skins| then None
    else if skins[from].id == id then Some(from)
    else FindByIdFrom(skins, id, from + 1)
  }

  /**
    `currentSkinData`: the first skin in the list whose id is the selected one,
    falling back to the base entry of the table when there is none.
  */
  function CurrentSkinData(skins: seq<Skin>, currentSkin: SkinId): (r: Skin)
    ensures (exists i :: 0 <= i < |skins| && skins[i].id == currentSkin) ==>
      r.id == currentSkin && r in skins
    ensures (forall i :: 0 <= i < |skins| ==> skins[i].id != currentSkin) ==> r == SKINS[0]
  {
    match FindByIdFrom(skins, currentSkin, 0)
    case Some(i) => skins[i]
    case None => SKINS[0]
  }

  /** `find(s => !s.unlocked)`, as an index, searching from `from`. */
  function FindLockedFrom(skins: seq<Skin>, from: nat): (r: Option<nat>)
    requires from <= |skins|
    ensures r.Some? ==> from <= r.value < |skins| && !skins[r.value].unlocked
    ensures r.Some? ==> forall j :: from <= j < r.value ==> skins[j].unlocked
    ensures r.None? ==> forall j :: from <= j < |skins| ==> skins[j].unlocked
    decreases |skins| - from
  {
    if from == |skins| then None
    else if !skins[from].unlocked then Some(from)
    else FindLockedFrom(skins, from + 1)
  }

  /**
    `nextMilestone`: the threshold of the first locked skin, with the
    JavaScript `|| 10000` fallback for a missing skin or a threshold of 0.
    It searches the constant table, not the recomputed skin list.
  */
  function NextMilestone(): int
  {
    match FindLockedFrom(SKINS, 0)
    case Some(i) => if SKINS[i].unlockAt != 0 then SKINS[i].unlockAt else 10000
    case None => 10000
  }

  /**
    Because it reads the constant table, whose first locked entry is the
    business skin, the milestone is 1000 whatever the score and whatever has
    been unlocked since.
  */
  lemma NextMilestoneIsConstant()
    ensures NextMilestone() == SKINS[1].unlockAt == 1000
  {
    var r := FindLockedFrom(SKINS, 0);
    assert SKINS[0].unlocked && !SKINS[1].unlocked;
    assert r == Some(1);
  }

  /** Recomputing an already recomputed list depends only on the latest score. */
  lemma {:induction false} RecomputeTwice(skins: seq<Skin>, c1: int, c2: int)
    ensures Recompute(Recompute(skins, c1), c2) == Recompute(skins, c2)
  {
    if skins != [] {
      RecomputeTwice(skins[1..], c1, c2);
      assert Recompute(skins, c1)[1..] == Recompute(skins[1..], c1);
    }
  }

  /**
    Starting from the list the score `c0` produces, moving the score to `c1`
    newly unlocks skin `i` exactly when `i` is not the base skin and its
    threshold lies in (c0, c1].
  */
  lemma UnlockCrossing(c0: int, c1: int, i: int)
    requires 0 <= i < |SKINS|
    ensures NewlyUnlocked(Recompute(Recompute(SKINS, c0), c1), Recompute(SKINS, c0), i)
        <==> 0 < i && c0 < SKINS[i].unlockAt <= c1
  {
    SkinTable();
  }

  /** Moving the score from `c0` to `c1` passes the threshold of non-base skin `i`. */
  predicate Crosses(c0: int, c1: int, i: int)
  {
    0 < i < |SKINS| && c0 < SKINS[i].unlockAt <= c1
  }

  /** Skin `i` is the first skin in the table whose threshold the move passes. */
  predicate FirstCrossed(c0: int, c1: int, i: int)
  {
    Crosses(c0, c1, i) && forall j :: 0 < j < i ==> !Crosses(c0, c1, j)
  }

  /** Two skins that are both the first one crossed are the same skin. */
  lemma FirstCrossedUnique(c0: int, c1: int, i: int, j: int)
    requires FirstCrossed(c0, c1, i) && FirstCrossed(c0, c1, j)
    ensures i == j
  {
  }

  /**
    The effect's search, run on the list the score `c0` produced after the
    score moved to `c1`, finds nothing exactly when no non-base threshold
    lies in (c0, c1], and otherwise finds the first skin whose threshold does.
  */
  lemma FirstUnlockedIsFirstCrossed(c0: int, c1: int)
    ensures var f := FirstNewlyUnlocked(Recompute(Recompute(SKINS, c0), c1), Recompute(SKINS, c0));
      && (f.None? <==> forall i :: 0 < i < |SKINS| ==> !Crosses(c0, c1, i))
      && (f.Some? ==> FirstCrossed(c0, c1, f.value))
  {
    var prev := Recompute(SKINS, c0);
    var updated := Recompute(prev, c1);
    forall i | 0 <= i < |SKINS|
      ensures NewlyUnlocked(updated, prev, i) <==> Crosses(c0, c1, i)
    {
      UnlockCrossing(c0, c1, i);
    }
  }

  /** A score of zero or more keeps the base skin unlocked. */
  lemma DefaultStaysUnlocked(clicks: int)
    requires clicks >= 0
    ensures Recompute(SKINS, clicks)[0].id == Default && Recompute(SKINS, clicks)[0].unlocked
  {
  }

  /** The list the score `clicks` produces unlocks exactly the prefix of skins whose thresholds it has reached. */
  lemma UnlockedIsPrefix(clicks: int, i: int, j: int)
    requires 0 <= i < j < |SKINS|
    requires Recompute(SKINS, clicks)[j].unlocked
    ensures Recompute(SKINS, clicks)[i].unlocked
  {
    SkinTable();
  }
}
