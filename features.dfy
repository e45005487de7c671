/** The nine macro labels and the twelve-feature vector shared by the
    offline labeller and the live feature extractor. */
module Features {

  /** The nine macro-state labels (`"FARM"`, `"STACK"`, ... in the dataset). */
  datatype MacroLabel =
    | Farm | Stack | Gank | Push | Defend
    | Teamfight | TakeRoshan | ContestRoshan | Siege

  /** One feature row. The flags `roshanAlive` and `towersDireT3Down` are
      integers as the source writes them (0 or 1); any non-zero value is truthy. */
  datatype FeatureVector = FeatureVector(
    goldAdv: int, xpAdv: int,
    ourDeadTot: int, enemyDeadTot: int,
    ourAlive: int, enemyAlive: int,
    ourCoreAlive: int, enemyCoreAlive: int, enemyCoreDead: int,
    roshanAlive: int, recentDeaths: int, towersDireT3Down: int)

  /** The feature names in the order the model expects them. */
  const FeatureNames: seq<string> := [
    "gold_adv", "xp_adv",
    "our_dead_tot", "enemy_dead_tot",
    "our_alive", "enemy_alive",
    "our_core_alive", "enemy_core_alive", "enemy_core_dead",
    "roshan_alive", "recent_deaths", "towers_dire_t3_down"
  ]

  /** The value of feature number `i` of `FeatureNames`. */
  function Feature(v: FeatureVector, i: nat): int
    requires i < 12
  {
    match i
    case 0 => v.goldAdv
    case 1 => v.xpAdv
    case 2 => v.ourDeadTot
    case 3 => v.enemyDeadTot
    case 4 => v.ourAlive
    case 5 => v.enemyAlive
    case 6 => v.ourCoreAlive
    case 7 => v.enemyCoreAlive
    case 8 => v.enemyCoreDead
    case 9 => v.roshanAlive
    case 10 => v.recentDeaths
    case _ => v.towersDireT3Down
  }

  /** The vector as the flat key/value mapping that is posted to the model
      and written as a dataset row: every name of `FeatureNames`, nothing else. */
  function ToMap(v: FeatureVector): (m: map<string, int>)
    ensures forall i | 0 <= i < |FeatureNames| :: FeatureNames[i] in m && m[FeatureNames[i]] == Feature(v, i)
  {
    map[
      "gold_adv" := v.goldAdv, "xp_adv" := v.xpAdv,
      "our_dead_tot" := v.ourDeadTot, "enemy_dead_tot" := v.enemyDeadTot,
      "our_alive" := v.ourAlive, "enemy_alive" := v.enemyAlive,
      "our_core_alive" := v.ourCoreAlive, "enemy_core_alive" := v.enemyCoreAlive,
      "enemy_core_dead" := v.enemyCoreDead,
      "roshan_alive" := v.roshanAlive, "recent_deaths" := v.recentDeaths,
      "towers_dire_t3_down" := v.towersDireT3Down]
  }

  /** A sequence without repeated elements. */
  predicate Distinct<T(==)>(s: seq<T>) {
    forall i, j | 0 <= i < j < |s| :: s[i] != s[j]
  }

  lemma {:induction false} DistinctSetSize<T>(s: seq<T>)
    requires Distinct(s)
    ensures |set i | 0 <= i < |s| :: s[i]| == |s|
  {
    if s != [] {
      var init := s[..|s| - 1];
      assert Distinct(init);
      DistinctSetSize(init);
      var a := set i | 0 <= i < |init| :: init[i];
      var b := set i | 0 <= i < |s| :: s[i];
      assert b == a + {s[|s| - 1]};
      assert s[|s| - 1] !in a;
    }
  }

  /** The mapping has exactly the twelve keys of `FeatureNames`: the vector
      is always fully populated and carries no other key. */
  lemma TwelveKeys(v: FeatureVector)
    ensures ToMap(v).Keys == set i | 0 <= i < |FeatureNames| :: FeatureNames[i]
    ensures |ToMap(v)| == 12
  {
    var names := set i | 0 <= i < |FeatureNames| :: FeatureNames[i];
    forall k | k in ToMap(v).Keys ensures k in names {
      if k == "gold_adv" { assert FeatureNames[0] == k; }
      else if k == "xp_adv" { assert FeatureNames[1] == k; }
      else if k == "our_dead_tot" { assert FeatureNames[2] == k; }
      else if k == "enemy_dead_tot" { assert FeatureNames[3] == k; }
      else if k == "our_alive" { assert FeatureNames[4] == k; }
      else if k == "enemy_alive" { assert FeatureNames[5] == k; }
      else if k == "our_core_alive" { assert FeatureNames[6] == k; }
      else if k == "enemy_core_alive" { assert FeatureNames[7] == k; }
      else if k == "enemy_core_dead" { assert FeatureNames[8] == k; }
      else if k == "roshan_alive" { assert FeatureNames[9] == k; }
      else if k == "recent_deaths" { assert FeatureNames[10] == k; }
      else { assert FeatureNames[11] == k; }
    }
    assert Distinct(FeatureNames);
    DistinctSetSize(FeatureNames);
  }
}
