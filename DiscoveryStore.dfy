/** The exploration store of src/store/questStore.js: discovered dApps, the
    open dApp, placements, the player's position and speed, two counters
    (DeFi collections and distance travelled) and unlocked cosmetics. */
module DiscoveryStore {
  import opened Common

  /** A point on the ground plane, `{ x, z }`. */
  datatype PlanarPoint = PlanarPoint(x: real, z: real)

  /** `quests.collectDeFi`: a count of collected DeFi dApps towards a target. */
  datatype CountGoal = CountGoal(target: int, progress: int, completed: bool)

  /** `quests.distance`: distance travelled towards a target. */
  datatype DistanceGoal = DistanceGoal(target: real, progress: real, completed: bool)

  const CollectDeFiTarget: int := 5
  const DistanceTarget: real := 500.0

  function InitialCollectDeFi(): CountGoal { CountGoal(CollectDeFiTarget, 0, false) }
  function InitialDistance(): DistanceGoal { DistanceGoal(DistanceTarget, 0.0, false) }

  /** The `collectDeFi` update of `collectDapp`: only the category `'DeFi'`
      (exact, case-sensitive) counts one more and re-derives `completed`. */
  function CollectStep(goal: CountGoal, category: string): (r: CountGoal)
    ensures category != "DeFi" ==> r == goal
    ensures category == "DeFi" ==>
      && r.target == goal.target && r.progress == goal.progress + 1
      && (r.completed <==> r.progress >= r.target)
  {
    if category == "DeFi" then
      var progress := goal.progress + 1;
      goal.(progress := progress, completed := progress >= goal.target)
    else goal
  }

  /** The `distance` update of `addDistance(d)`. */
  function DistanceStep(goal: DistanceGoal, d: real): (r: DistanceGoal)
    ensures r.target == goal.target && r.progress == goal.progress + d
    ensures r.completed <==> r.progress >= r.target
  {
    var progress := goal.progress + d;
    goal.(progress := progress, completed := progress >= goal.target)
  }

  /** Over exact reals, two `addDistance` calls equal one call with the
      summed distance. */
  lemma DistanceSteps(goal: DistanceGoal, d1: real, d2: real)
    ensures DistanceStep(DistanceStep(goal, d1), d2) == DistanceStep(goal, d1 + d2)
  {
  }

  /** A counter whose `completed` flag agrees with its progress. */
  predicate CountConsistent(g: CountGoal) { g.completed <==> g.progress >= g.target }
  predicate DistanceConsistent(g: DistanceGoal) { g.completed <==> g.progress >= g.target }

  /** Collecting `n` DeFi dApps from a fresh counter completes it exactly
      when `n` reaches 5. */
  lemma {:induction false} CollectStepsFromStart(n: nat)
    ensures CollectAll(InitialCollectDeFi(), n) == CountGoal(CollectDeFiTarget, n, n >= CollectDeFiTarget)
  {
    if n > 0 {
      CollectStepsFromStart(n - 1);
    }
  }

  /** `n` successive DeFi collections. */
  function CollectAll(goal: CountGoal, n: nat): CountGoal {
    if n == 0 then goal else CollectStep(CollectAll(goal, n - 1), "DeFi")
  }

  class Store {
    var discoveredDapps: seq<string>
    var activeDapp: Option<string>
    var dappPlacements: map<string, PlanarPoint>
    var playerPosition: PlanarPoint
    var playerSpeed: real
    var collectDeFi: CountGoal
    var distance: DistanceGoal
    var unlockedCosmetics: seq<string>

    /** What every action keeps: no dApp discovered twice, no cosmetic
        unlocked twice, the open dApp is a discovered one, the DeFi count is
        bounded by the discoveries, and both `completed` flags agree with
        their progress. */
    ghost predicate Valid()
      reads this
    {
      && NoDup(discoveredDapps) && NoDup(unlockedCosmetics)
      && (activeDapp.Some? ==> activeDapp.value in discoveredDapps)
      && collectDeFi.target == CollectDeFiTarget && 0 <= collectDeFi.progress <= |discoveredDapps|
      && CountConsistent(collectDeFi)
      && distance.target == DistanceTarget && DistanceConsistent(distance)
    }

    /** The initial field values. */
    ghost predicate IsInitial()
      reads this
    {
      && discoveredDapps == [] && activeDapp == None && dappPlacements == map[]
      && playerPosition == PlanarPoint(0.0, 0.0) && playerSpeed == 0.0
      && collectDeFi == InitialCollectDeFi() && distance == InitialDistance()
      && unlockedCosmetics == []
    }

    constructor ()
      ensures IsInitial() && Valid()
    {
      discoveredDapps, activeDapp, dappPlacements := [], None, map[];
      playerPosition, playerSpeed := PlanarPoint(0.0, 0.0), 0.0;
      collectDeFi, distance := InitialCollectDeFi(), InitialDistance();
      unlockedCosmetics := [];
    }

    /** `collectDapp(dappId, category)`: an already discovered id changes
        nothing; a new one is appended, opened, and counted when DeFi. */
    method CollectDapp(dappId: string, category: string)
      requires Valid()
      modifies this
      ensures Valid()
      ensures dappId in old(discoveredDapps) ==> unchanged(this)
      ensures dappId !in old(discoveredDapps) ==>
        && discoveredDapps == old(discoveredDapps) + [dappId]
        && activeDapp == Some(dappId)
        && collectDeFi == CollectStep(old(collectDeFi), category)
        && distance == old(distance) && unlockedCosmetics == old(unlockedCosmetics)
        && dappPlacements == old(dappPlacements) && playerPosition == old(playerPosition)
        && playerSpeed == old(playerSpeed)
    {
      if dappId in discoveredDapps { return; }
      NoDupAppend(discoveredDapps, dappId);
      discoveredDapps := discoveredDapps + [dappId];
      collectDeFi := CollectStep(collectDeFi, category);
      activeDapp := Some(dappId);
    }

    /** `closeActiveDapp()` */
    method CloseActiveDapp()
      requires Valid()
      modifies this`activeDapp
      ensures Valid() && activeDapp == None
    {
      activeDapp := None;
    }

    /** `setDappPlacements(placements)` */
    method SetDappPlacements(placements: map<string, PlanarPoint>)
      requires Valid()
      modifies this`dappPlacements
      ensures Valid()
      ensures dappPlacements == placements
    {
      dappPlacements := placements;
    }

    /** `setPlayerPosition(position)` */
    method SetPlayerPosition(position: PlanarPoint)
      requires Valid()
      modifies this`playerPosition
      ensures Valid()
      ensures playerPosition == position
    {
      playerPosition := position;
    }

    /** `setPlayerSpeed(speed)` */
    method SetPlayerSpeed(speed: real)
      requires Valid()
      modifies this`playerSpeed
      ensures Valid()
      ensures playerSpeed == speed
    {
      playerSpeed := speed;
    }

    /** `addDistance(d)` */
    method AddDistance(d: real)
      requires Valid()
      modifies this`distance
      ensures Valid()
      ensures distance == DistanceStep(old(distance), d)
    {
      distance := DistanceStep(distance, d);
    }

    /** `unlockCosmetic(cosmeticId)`: a cosmetic is unlocked at most once. */
    method UnlockCosmetic(cosmeticId: string)
      requires Valid()
      modifies this`unlockedCosmetics
      ensures Valid()
      ensures cosmeticId in unlockedCosmetics
      ensures unlockedCosmetics == if cosmeticId in old(unlockedCosmetics) then old(unlockedCosmetics)
                                   else old(unlockedCosmetics) + [cosmeticId]
    {
      if cosmeticId in unlockedCosmetics { return; }
      NoDupAppend(unlockedCosmetics, cosmeticId);
      unlockedCosmetics := unlockedCosmetics + [cosmeticId];
    }

    /** `resetProgress()`: every field back to its initial value. */
    method ResetProgress()
      modifies this
      ensures IsInitial() && Valid()
    {
      discoveredDapps, activeDapp, dappPlacements := [], None, map[];
      playerPosition, playerSpeed := PlanarPoint(0.0, 0.0), 0.0;
      collectDeFi, distance := InitialCollectDeFi(), InitialDistance();
      unlockedCosmetics := [];
    }
  }

  /** Unlocking the same cosmetic twice leaves the list as the first call did. */
  method UnlockTwice(store: Store, cosmeticId: string)
    requires store.Valid()
    modifies store
    ensures store.Valid()
    ensures store.unlockedCosmetics == if cosmeticId in old(store.unlockedCosmetics) then old(store.unlockedCosmetics)
                                       else old(store.unlockedCosmetics) + [cosmeticId]
  {
    store.UnlockCosmetic(cosmeticId);
    ghost var once := store.unlockedCosmetics;
    store.UnlockCosmetic(cosmeticId);
    assert store.unlockedCosmetics == once;
  }

  /** Collecting the same dApp twice: the second call changes nothing. */
  method CollectTwice(store: Store, dappId: string, category: string)
    requires store.Valid()
    modifies store
    ensures store.Valid()
    ensures store.discoveredDapps == if dappId in old(store.discoveredDapps) then old(store.discoveredDapps)
                                     else old(store.discoveredDapps) + [dappId]
    ensures store.collectDeFi == if dappId in old(store.discoveredDapps) then old(store.collectDeFi)
                                 else CollectStep(old(store.collectDeFi), category)
  {
    store.CollectDapp(dappId, category);
    store.CollectDapp(dappId, category);
  }
}
