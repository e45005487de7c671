/** The fixed-priority rule cascade of the offline labeller: a feature row
    goes to the label of the first rule whose guard holds, FARM by default. */
module Cascade {
  import opened Features

  /** The cascade as the labeller writes it, rule after rule. The two Roshan
      rules are only consulted while Roshan is alive; when neither fires,
      evaluation carries on with SIEGE. */
  function Label(v: FeatureVector): MacroLabel {
    if v.recentDeaths >= 6 then Teamfight
    else if v.roshanAlive != 0 && v.enemyCoreDead >= 1 && v.ourCoreAlive >= 2 then TakeRoshan
    else if v.roshanAlive != 0 && v.ourCoreAlive >= 2 && v.enemyCoreAlive >= 2 && v.recentDeaths >= 2
    then ContestRoshan
    else if v.goldAdv > 10000 && v.towersDireT3Down != 0 then Siege
    else if v.goldAdv > 4000 && v.enemyDeadTot <= 1 then Push
    else if v.goldAdv < -4000 && v.ourDeadTot <= 1 then Defend
    else if v.ourAlive >= 3 && v.enemyCoreAlive == 1 && v.recentDeaths < 2 then Gank
    else if v.ourDeadTot == 0 && v.enemyDeadTot == 0 && -2000 <= v.goldAdv <= 2000 then Stack
    else Farm
  }

  // ---------------------------------------------------------------------
  // Reference definition: a priority list of rules, each with its own guard

  /** The rules in priority order; FARM is the default and is not a rule. */
  const Priority: seq<MacroLabel> :=
    [Teamfight, TakeRoshan, ContestRoshan, Siege, Push, Defend, Gank, Stack]

  /** The guard of each rule, read on its own, as the rule table states it. */
  predicate Fires(rule: MacroLabel, v: FeatureVector) {
    match rule
    case Teamfight => v.recentDeaths >= 6
    case TakeRoshan => v.roshanAlive != 0 && v.enemyCoreDead >= 1 && v.ourCoreAlive >= 2
    case ContestRoshan =>
      v.roshanAlive != 0 && v.ourCoreAlive >= 2 && v.enemyCoreAlive >= 2 && v.recentDeaths >= 2
    case Siege => v.goldAdv > 10000 && v.towersDireT3Down != 0
    case Push => v.goldAdv > 4000 && v.enemyDeadTot <= 1
    case Defend => v.goldAdv < -4000 && v.ourDeadTot <= 1
    case Gank => v.ourAlive >= 3 && v.enemyCoreAlive == 1 && v.recentDeaths < 2
    case Stack => v.ourDeadTot == 0 && v.enemyDeadTot == 0 && -2000 <= v.goldAdv <= 2000
    case Farm => true
  }

  /** First-match evaluation of a rule list, `Farm` when no rule fires. */
  function FirstFiring(rules: seq<MacroLabel>, v: FeatureVector): MacroLabel {
    if rules == [] then Farm
    else if Fires(rules[0], v) then rules[0]
    else FirstFiring(rules[1..], v)
  }

  /** The written cascade is first-match evaluation of `Priority`. */
  lemma LabelIsFirstFiring(v: FeatureVector)
    ensures Label(v) == FirstFiring(Priority, v)
  {
    var p7 := [Stack];
    var p6 := [Gank] + p7;
    var p5 := [Defend] + p6;
    var p4 := [Push] + p5;
    var p3 := [Siege] + p4;
    var p2 := [ContestRoshan] + p3;
    var p1 := [TakeRoshan] + p2;
    assert Priority == [Teamfight] + p1;
    FirstFiringCons(Stack, [], v);
    FirstFiringCons(Gank, p7, v);
    FirstFiringCons(Defend, p6, v);
    FirstFiringCons(Push, p5, v);
    FirstFiringCons(Siege, p4, v);
    FirstFiringCons(ContestRoshan, p3, v);
    FirstFiringCons(TakeRoshan, p2, v);
    FirstFiringCons(Teamfight, p1, v);
  }

  /** One step of first-match evaluation. */
  lemma FirstFiringCons(rule: MacroLabel, rest: seq<MacroLabel>, v: FeatureVector)
    ensures FirstFiring([rule] + rest, v) == if Fires(rule, v) then rule else FirstFiring(rest, v)
  {
    assert ([rule] + rest)[1..] == rest;
  }

  /** First-match over a list of distinct rules that does not contain
      `Farm`: the result is rule `i` exactly when rule `i` fires and no
      earlier one does, and `Farm` exactly when none fires. */
  lemma FirstFiringCharacterised(rules: seq<MacroLabel>, v: FeatureVector)
    requires Distinct(rules) && Farm !in rules
    ensures forall i | 0 <= i < |rules| ::
      FirstFiring(rules, v) == rules[i] <==>
        Fires(rules[i], v) && forall j | 0 <= j < i :: !Fires(rules[j], v)
    ensures FirstFiring(rules, v) == Farm <==> forall j | 0 <= j < |rules| :: !Fires(rules[j], v)
  {
    forall i | 0 <= i < |rules|
      ensures FirstFiring(rules, v) == rules[i] <==>
        Fires(rules[i], v) && forall j | 0 <= j < i :: !Fires(rules[j], v)
    {
      FirstFiringAt(rules, v, i);
    }
    FirstFiringDefault(rules, v);
  }

  /** Rule `i` is chosen exactly when it fires and no earlier one does. */
  lemma {:induction false} FirstFiringAt(rules: seq<MacroLabel>, v: FeatureVector, i: nat)
    requires Distinct(rules) && Farm !in rules && i < |rules|
    ensures FirstFiring(rules, v) == rules[i] <==>
      Fires(rules[i], v) && forall j | 0 <= j < i :: !Fires(rules[j], v)
  {
    var rest := rules[1..];
    if i == 0 {
      FirstFiringIn(rest, v);
      assert rules[0] !in rest by {
        forall j | 0 <= j < |rest| ensures rest[j] != rules[0] {
          assert rest[j] == rules[j + 1];
        }
      }
    } else {
      assert Distinct(rest);
      assert rules[i] == rest[i - 1];
      assert rules[i] != rules[0];
      FirstFiringAt(rest, v, i - 1);
      assert (forall j | 0 <= j < i :: !Fires(rules[j], v)) <==>
        !Fires(rules[0], v) && forall j | 0 <= j < i - 1 :: !Fires(rest[j], v)
      by {
        assert forall j | 0 <= j < i - 1 :: rest[j] == rules[j + 1];
        if !Fires(rules[0], v) && forall j | 0 <= j < i - 1 :: !Fires(rest[j], v) {
          forall j | 0 <= j < i ensures !Fires(rules[j], v) {
            if j > 0 {
              assert rules[j] == rest[j - 1];
            }
          }
        }
      }
    }
  }

  /** First-match evaluation chooses one of the rules or `Farm`. */
  lemma {:induction false} FirstFiringIn(rules: seq<MacroLabel>, v: FeatureVector)
    ensures FirstFiring(rules, v) == Farm || FirstFiring(rules, v) in rules
  {
    if rules != [] && !Fires(rules[0], v) {
      FirstFiringIn(rules[1..], v);
    }
  }

  /** `Farm` is the result exactly when no rule fires. */
  lemma {:induction false} FirstFiringDefault(rules: seq<MacroLabel>, v: FeatureVector)
    requires Farm !in rules
    ensures FirstFiring(rules, v) == Farm <==> forall j | 0 <= j < |rules| :: !Fires(rules[j], v)
  {
    if rules != [] {
      var rest := rules[1..];
      FirstFiringDefault(rest, v);
      assert forall j | 0 <= j < |rest| :: rest[j] == rules[j + 1];
      assert rules[0] in rules;
    }
  }

  /** Every row gets exactly one label: `Priority[i]` when that rule fires
      and no earlier rule does, FARM when no rule fires. */
  lemma LabelCharacterised(v: FeatureVector)
    ensures forall i | 0 <= i < |Priority| ::
      Label(v) == Priority[i] <==>
        Fires(Priority[i], v) && forall j | 0 <= j < i :: !Fires(Priority[j], v)
    ensures Label(v) == Farm <==> forall j | 0 <= j < |Priority| :: !Fires(Priority[j], v)
  {
    LabelIsFirstFiring(v);
    assert Distinct(Priority);
    FirstFiringCharacterised(Priority, v);
  }

  // ---------------------------------------------------------------------
  // Priority and threshold properties

  /** Six or more recent deaths give TEAMFIGHT whatever else holds. */
  lemma TeamfightDominates(v: FeatureVector)
    requires v.recentDeaths >= 6
    ensures Label(v) == Teamfight
  {
  }

  /** A row that satisfies both TEAMFIGHT and SIEGE is a TEAMFIGHT. */
  lemma TeamfightBeforeSiege()
    ensures Label(FeatureVector(20000, 0, 0, 0, 5, 5, 2, 2, 0, 0, 6, 1)) == Teamfight
    ensures Fires(Siege, FeatureVector(20000, 0, 0, 0, 5, 5, 2, 2, 0, 0, 6, 1))
  {
  }

  /** The Roshan rules are reached only while Roshan is alive. */
  lemma RoshanRulesNeedRoshan(v: FeatureVector)
    ensures Label(v) == TakeRoshan ==> v.roshanAlive != 0 && v.recentDeaths < 6
    ensures Label(v) == ContestRoshan ==> v.roshanAlive != 0 && v.recentDeaths < 6
  {
  }

  /** With Roshan alive but neither Roshan rule firing, the label is the one
      the same row would get with Roshan dead: evaluation falls through to
      SIEGE, PUSH, ... rather than to FARM. */
  lemma RoshanFallsThrough(v: FeatureVector)
    requires v.roshanAlive != 0
    requires !Fires(TakeRoshan, v) && !Fires(ContestRoshan, v)
    ensures Label(v) == Label(v.(roshanAlive := 0))
  {
  }

  /** PUSH boundary: once no earlier rule can fire, PUSH holds exactly when
      the gold lead is strictly above 4000 with at most one enemy dead. */
  lemma PushThreshold(v: FeatureVector)
    requires v.recentDeaths < 6 && v.roshanAlive == 0 && v.towersDireT3Down == 0
    ensures Label(v) == Push <==> v.goldAdv > 4000 && v.enemyDeadTot <= 1
  {
  }

  /** 4000 is not enough for PUSH, 4001 is. */
  lemma PushBoundaryExamples()
    ensures Label(FeatureVector(4000, 0, 0, 1, 5, 4, 2, 2, 0, 0, 0, 0)) != Push
    ensures Label(FeatureVector(4001, 0, 0, 1, 5, 4, 2, 2, 0, 0, 0, 0)) == Push
  {
  }

  /** DEFEND boundary: strictly below -4000 with at most one of ours dead. */
  lemma DefendThreshold(v: FeatureVector)
    requires v.recentDeaths < 6 && v.roshanAlive == 0
    ensures Label(v) == Defend <==> v.goldAdv < -4000 && v.ourDeadTot <= 1
  {
  }

  /** GANK needs exactly one enemy core alive. */
  lemma GankNeedsExactlyOneEnemyCore(v: FeatureVector)
    requires v.roshanAlive == 0 && v.recentDeaths < 2 && v.ourAlive >= 3
    requires -4000 <= v.goldAdv <= 4000
    ensures Label(v) == Gank <==> v.enemyCoreAlive == 1
  {
  }

  /** STACK boundary: |gold_adv| <= 2000 inclusive, nobody dead. */
  lemma StackThreshold(v: FeatureVector)
    requires v.recentDeaths < 6 && v.roshanAlive == 0
    requires !(v.ourAlive >= 3 && v.enemyCoreAlive == 1 && v.recentDeaths < 2)
    ensures Label(v) == Stack <==>
      v.ourDeadTot == 0 && v.enemyDeadTot == 0 && -2000 <= v.goldAdv <= 2000
  {
  }

  /** The STACK band is inclusive at both ends and stops just outside. */
  lemma StackBoundaryExamples()
    ensures Label(FeatureVector(2000, 0, 0, 0, 5, 5, 2, 2, 0, 0, 0, 0)) == Stack
    ensures Label(FeatureVector(-2000, 0, 0, 0, 5, 5, 2, 2, 0, 0, 0, 0)) == Stack
    ensures Label(FeatureVector(2001, 0, 0, 0, 5, 5, 2, 2, 0, 0, 0, 0)) == Farm
  {
  }

  /** FARM is the default: it is the label exactly when no rule fires. */
  lemma FarmIsDefault(v: FeatureVector)
    ensures Label(v) == Farm <==> forall r | r in Priority :: !Fires(r, v)
  {
    LabelCharacterised(v);
  }
}
