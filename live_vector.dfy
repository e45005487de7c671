/** The live feature vector: the twelve features the evaluation loop
    assembles from the latest snapshot, the team fixed as "ours", the death
    tracker and the clock reading `now`. */
module LiveVector {
  import opened Wrappers
  import opened Features
  import opened Gsi
  import opened Tracker

  /** The live recent-deaths window, in seconds. */
  const LiveWindow: int := 15

  datatype SideCounts = SideCounts(ourAlive: nat, enemyAlive: nat, ourDead: nat, enemyDead: nat)

  /** Alive and dead players of our team and of every other team, from
      each snapshot status. */
  function CountSides(r: seq<Entry>, myTeam: int): SideCounts {
    if r == [] then SideCounts(0, 0, 0, 0)
    else
      var c := CountSides(r[..|r| - 1], myTeam);
      var p := r[|r| - 1].1;
      var a := if AliveOf(p) then 1 else 0;
      if TeamOf(p) == myTeam then c.(ourAlive := c.ourAlive + a, ourDead := c.ourDead + (1 - a))
      else c.(enemyAlive := c.enemyAlive + a, enemyDead := c.enemyDead + (1 - a))
  }

  /** Players whose team is `myTeam`. */
  function OnTeam(r: seq<Entry>, myTeam: int): (n: nat)
    ensures n <= |r|
  {
    if r == [] then 0
    else OnTeam(r[..|r| - 1], myTeam) + (if TeamOf(r[|r| - 1].1) == myTeam then 1 else 0)
  }

  /** Every player is counted once: on our side alive plus dead is the size
      of our team, on the other side it is everybody else. */
  lemma {:induction false} CountSidesCover(r: seq<Entry>, myTeam: int)
    ensures CountSides(r, myTeam).ourAlive + CountSides(r, myTeam).ourDead == OnTeam(r, myTeam)
    ensures CountSides(r, myTeam).enemyAlive + CountSides(r, myTeam).enemyDead == |r| - OnTeam(r, myTeam)
  {
    if r != [] {
      CountSidesCover(r[..|r| - 1], myTeam);
    }
  }

  /** The counting loop of the evaluation loop. */
  method CountAlive(g: Snapshot, myTeam: int) returns (c: SideCounts)
    ensures c == CountSides(g.allplayers, myTeam)
  {
    var r := g.allplayers;
    var ourAlive, enemyAlive, ourDead, enemyDead := 0, 0, 0, 0;
    for k := 0 to |r|
      invariant CountSides(r[..k], myTeam) == SideCounts(ourAlive, enemyAlive, ourDead, enemyDead)
    {
      var p := r[k].1;
      var alive := AliveOf(p);
      if TeamOf(p) == myTeam {
        ourAlive := ourAlive + (if alive then 1 else 0);
        ourDead := ourDead + (if alive then 0 else 1);
      } else {
        enemyAlive := enemyAlive + (if alive then 1 else 0);
        enemyDead := enemyDead + (if alive then 0 else 1);
      }
      assert r[..k + 1][..k] == r[..k];
    }
    assert r[..|r|] == r;
    c := SideCounts(ourAlive, enemyAlive, ourDead, enemyDead);
  }

  /** `sum(last_alive.get(sid, True) for sid in ids)`. */
  function CoresAlive(seen: map<string, bool>, ids: seq<string>): (n: nat)
    ensures n <= |ids|
  {
    if ids == [] then 0
    else CoresAlive(seen, ids[..|ids| - 1]) + (if WasAlive(seen, ids[|ids| - 1]) then 1 else 0)
  }

  /** A core the tracker has not seen counts as alive. */
  lemma {:induction false} UnseenCoresAlive(seen: map<string, bool>, ids: seq<string>)
    requires forall i | 0 <= i < |ids| :: ids[i] !in seen
    ensures CoresAlive(seen, ids) == |ids|
  {
    if ids != [] {
      UnseenCoresAlive(seen, ids[..|ids| - 1]);
    }
  }

  /** The status of a key in the snapshot, alive when the key is absent. */
  function SnapshotAlive(r: seq<Entry>, sid: string): bool {
    if r == [] then true
    else if r[|r| - 1].0 == sid then AliveOf(r[|r| - 1].1)
    else SnapshotAlive(r[..|r| - 1], sid)
  }

  /** The snapshot's statuses as a map from key to status. */
  function SnapshotStatus(r: seq<Entry>): map<string, bool> {
    map k | k in Sids(r) :: SnapshotAlive(r, k)
  }

  lemma {:induction false} SnapshotAliveAt(r: seq<Entry>, i: nat)
    requires Distinct(Sids(r)) && i < |r|
    ensures SnapshotAlive(r, r[i].0) == AliveOf(r[i].1)
  {
    if i < |r| - 1 {
      assert Sids(r)[i] != Sids(r)[|r| - 1];
      assert Sids(r[..|r| - 1]) == Sids(r)[..|r| - 1];
      SnapshotAliveAt(r[..|r| - 1], i);
    }
  }

  /** Once the tracker has seen a snapshot, the core-alive count read from
      it is the number of those cores the snapshot reports alive. */
  lemma {:induction false} CoresAliveAfterUpdate(st: TrackerState, r: seq<Entry>, ts: int, ids: seq<string>)
    requires Distinct(Sids(r))
    requires forall i | 0 <= i < |ids| :: ids[i] in Sids(r)
    ensures CoresAlive(Observe(st, r, ts).lastAlive, ids) ==
      CoresAlive(SnapshotStatus(r), ids)
  {
    if ids != [] {
      CoresAliveAfterUpdate(st, r, ts, ids[..|ids| - 1]);
      var sid := ids[|ids| - 1];
      var j :| 0 <= j < |r| && Sids(r)[j] == sid;
      ObserveStatus(st, r, ts);
      SnapshotAliveAt(r, j);
      var once := Observe(st, r, ts).lastAlive;
      var snap := SnapshotStatus(r);
      assert r[j].0 == sid;
      assert sid in once && once[sid] == AliveOf(r[j].1);
      assert snap[sid] == AliveOf(r[j].1);
      assert WasAlive(once, sid) == WasAlive(snap, sid);
      assert CoresAlive(once, ids) == CoresAlive(once, ids[..|ids| - 1]) + (if WasAlive(once, sid) then 1 else 0);
      assert CoresAlive(snap, ids) == CoresAlive(snap, ids[..|ids| - 1]) + (if WasAlive(snap, sid) then 1 else 0);
    }
  }

  /** The cores of our side and of the enemy side: team 2 reads the
      Radiant cores, every other team the others. */
  function OurCores(c: LiveCores, myTeam: int): seq<string> {
    if myTeam == 2 then c.radiant else c.dire
  }

  function EnemyCores(c: LiveCores, myTeam: int): seq<string> {
    if myTeam == 2 then c.dire else c.radiant
  }

  /** The two core-alive features: how many of the two richest players of
      each side the tracker last saw alive. */
  method CoreAliveCounts(g: Snapshot, myTeam: int, seen: map<string, bool>)
    returns (ours: nat, enemies: nat)
    ensures ours == CoresAlive(seen, OurCores(TopCores(g.allplayers, 2), myTeam))
    ensures enemies == CoresAlive(seen, EnemyCores(TopCores(g.allplayers, 2), myTeam))
    ensures ours <= 2 && enemies <= 2
  {
    var cores := CoreIds(g, 2);
    TopCoresLength(g.allplayers, 2);
    ours := CoresAlive(seen, OurCores(cores, myTeam));
    enemies := CoresAlive(seen, EnemyCores(cores, myTeam));
  }

  /** The feature computation of the evaluation loop, lifted out of it. */
  method ComputeFeatures(g: Snapshot, myTeam: int, tracker: DeathTracker, now: int)
    returns (v: FeatureVector)
    ensures v.goldAdv == LiveGoldAdv(g.mapBlock, g.allplayers)
    ensures v.xpAdv == XpAdv(g.mapBlock)
    ensures var c := CountSides(g.allplayers, myTeam);
      v.ourAlive == c.ourAlive && v.enemyAlive == c.enemyAlive &&
      v.ourDeadTot == c.ourDead && v.enemyDeadTot == c.enemyDead
    ensures v.ourAlive + v.ourDeadTot == OnTeam(g.allplayers, myTeam)
    ensures v.ourAlive + v.ourDeadTot + v.enemyAlive + v.enemyDeadTot == |g.allplayers|
    ensures v.ourCoreAlive == CoresAlive(tracker.lastAlive, OurCores(TopCores(g.allplayers, 2), myTeam))
    ensures v.enemyCoreAlive == CoresAlive(tracker.lastAlive, EnemyCores(TopCores(g.allplayers, 2), myTeam))
    ensures 0 <= v.ourCoreAlive <= 2 && 0 <= v.enemyCoreAlive <= 2
    ensures v.enemyCoreDead == 2 - v.enemyCoreAlive && 0 <= v.enemyCoreDead <= 2
    ensures v.roshanAlive == RoshanAlive(g.mapBlock)
    ensures v.recentDeaths == CountFrom(tracker.deathBuffer, now - LiveWindow)
    ensures v.towersDireT3Down == TowersDireT3Down(g.mapBlock)
  {
    var gold := GoldAdv(g);
    var xp := XpAdv(g.mapBlock);
    var c := CountAlive(g, myTeam);
    CountSidesCover(g.allplayers, myTeam);
    var ourCoreAlive, enemyCoreAlive := CoreAliveCounts(g, myTeam, tracker.lastAlive);
    v := FeatureVector(
      gold, xp, c.ourDead, c.enemyDead, c.ourAlive, c.enemyAlive,
      ourCoreAlive, enemyCoreAlive, 2 - enemyCoreAlive,
      RoshanAlive(g.mapBlock), tracker.RecentDeathsWindow(now, LiveWindow),
      TowersDireT3Down(g.mapBlock));
  }
}
