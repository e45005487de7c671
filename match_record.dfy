/** A completed match record as the offline labeller reads it. Fields the
    labeller reads with a default are `Option`s; the getters apply the
    default the labeller uses. */
module MatchRecord {
  import opened Wrappers

  /** `account_id` is JSON null for anonymous players, hence `Option<int>`. */
  type AccountId = Option<int>

  datatype Player = Player(
    accountId: AccountId,
    isRadiant: bool,
    goldT: Option<seq<int>>,
    xpT: Option<seq<int>>,
    deathTimes: Option<seq<int>>,
    respawnTime: Option<int>,
    totalGold: Option<int>)

  /** An objective event; only its `type` and `time` are read. */
  datatype Objective = Objective(kind: Option<string>, time: Option<int>)

  datatype Match = Match(
    matchId: int,
    duration: int,
    players: seq<Player>,
    objectives: Option<seq<Objective>>,
    towerStatusDire: Option<int>)

  /** Why a match file yields no rows: the exception the labeller would
      raise. `Unreadable` stands for a file that cannot be read or parsed, or
      that lacks one of the fields read without a default. */
  datatype MatchError =
    | Unreadable | NoPlayers | RoshanKillWithoutTime | ZeroStep | BucketOutOfRange

  /** Respawn interval of a player, 40 s unless the record gives one. */
  function Respawn(p: Player): int {
    p.respawnTime.GetOr(40)
  }

  function DeathTimes(p: Player): seq<int> {
    p.deathTimes.GetOr([])
  }

  function TotalGold(p: Player): int {
    p.totalGold.GetOr(0)
  }

  /** The players of one side, in record order. */
  function Side(ps: seq<Player>, radiant: bool): (r: seq<Player>)
    ensures |r| <= |ps|
  {
    if ps == [] then []
    else (if ps[0].isRadiant == radiant then [ps[0]] else []) + Side(ps[1..], radiant)
  }

  /** A side holds exactly the players of the record on that side. */
  lemma {:induction false} SideMembers(ps: seq<Player>, radiant: bool, p: Player)
    ensures p in Side(ps, radiant) <==> p in ps && p.isRadiant == radiant
  {
    if ps != [] {
      SideMembers(ps[1..], radiant, p);
      assert ps == [ps[0]] + ps[1..];
    }
  }

  /** The two sides split the players: their sizes add up to the total. */
  lemma {:induction false} SidesPartition(ps: seq<Player>)
    ensures |Side(ps, true)| + |Side(ps, false)| == |ps|
  {
    if ps != [] {
      SidesPartition(ps[1..]);
    }
  }
}
