/** The offline sequencer: one labelled feature row per tick of a match,
    and the batch that labels every match file. */
module Sequencer {
  import opened Wrappers
  import opened Features
  import opened Cascade
  import opened MatchRecord
  import opened Series
  import opened Deaths
  import opened Richest

  datatype Row = Row(matchId: int, t: int, features: FeatureVector, macroLabel: MacroLabel)

  const RoshanKillType: string := "CHAT_MESSAGE_ROSHAN_KILL"
  /** Seconds Roshan stays down after a kill. */
  const RoshanRespawn: int := 600

  // ---------------------------------------------------------------------
  // Roshan

  /** Times of the Roshan-kill objectives, in order; a Roshan kill without a
      time raises, other objectives are never asked for theirs. */
  function RoshanKills(objs: seq<Objective>): (r: Result<seq<int>, MatchError>)
    ensures r.Err? <==>
      exists i | 0 <= i < |objs| :: objs[i].kind == Some(RoshanKillType) && objs[i].time.None?
    ensures r.Err? ==> r.error == RoshanKillWithoutTime
    ensures r.Ok? ==> forall k | k in r.value ::
      exists i | 0 <= i < |objs| :: objs[i].kind == Some(RoshanKillType) && objs[i].time == Some(k)
    ensures r.Ok? ==> forall i | 0 <= i < |objs| && objs[i].kind == Some(RoshanKillType) ::
      objs[i].time.Some? && objs[i].time.value in r.value
  {
    if objs == [] then Ok([])
    else
      var rest := RoshanKills(objs[1..]);
      assert forall i | 1 <= i < |objs| :: objs[i] == objs[1..][i - 1];
      if objs[0].kind != Some(RoshanKillType) then rest
      else if objs[0].time.None? then Err(RoshanKillWithoutTime)
      else if rest.Err? then rest
      else Ok([objs[0].time.value] + rest.value)
  }

  /** Roshan is down at `t` exactly when some kill `k` has `k <= t < k + 600`. */
  predicate RoshanDown(rosh: seq<int>, t: int) {
    exists i | 0 <= i < |rosh| :: rosh[i] <= t < rosh[i] + RoshanRespawn
  }

  /** The loop that starts from `roshan_alive = 1` and clears it for every
      kill whose respawn window contains `t`. */
  method RoshanAliveAt(rosh: seq<int>, t: int) returns (flag: int)
    ensures flag == 0 || flag == 1
    ensures flag == 0 <==> RoshanDown(rosh, t)
  {
    flag := 1;
    for k := 0 to |rosh|
      invariant flag == 0 || flag == 1
      invariant flag == 0 <==> exists i | 0 <= i < k :: rosh[i] <= t < rosh[i] + RoshanRespawn
    {
      if rosh[k] <= t < rosh[k] + RoshanRespawn {
        flag := 0;
      }
    }
  }

  /** A kill at 300 keeps Roshan down on [300, 900). */
  lemma RoshanWindowExample(t: int)
    ensures RoshanDown([300], t) <==> 300 <= t < 900
  {
    var kills := [300];
    assert kills[0] == 300;
    if 300 <= t < 900 {
      assert kills[0] <= t < kills[0] + RoshanRespawn;
    }
  }

  // ---------------------------------------------------------------------
  // Towers

  /** 1 when bits 3 to 5 of the Dire tower status (the tier-3 towers) are
      all clear. `x / 8 % 8` is Python's `(x >> 3) & 7`, also for negative x. */
  function T3Down(status: int): (r: int)
    ensures r == 0 || r == 1
  {
    if status / 8 % 8 == 0 then 1 else 0
  }

  /** Bit `k` of a non-negative status word, for the tier-3 bits 3, 4 and 5. */
  function Bit(status: nat, k: nat): nat
    requires 3 <= k <= 5
  {
    match k
    case 3 => status / 8 % 2
    case 4 => status / 16 % 2
    case _ => status / 32 % 2
  }

  /** The test `status & 0b111000 == 0`: all three tier-3 bits are clear. */
  lemma T3DownIsMaskTest(status: nat)
    ensures T3Down(status) == 1 <==> Bit(status, 3) == 0 && Bit(status, 4) == 0 && Bit(status, 5) == 0
  {
    var q := status / 8;
    assert status / 16 == q / 2;
    assert status / 32 == q / 4;
  }

  // ---------------------------------------------------------------------
  // Alive and dead counts

  datatype Counts = Counts(
    ourAlive: int, enemyAlive: int, ourDead: int, enemyDead: int,
    ourCoreDead: int, enemyCoreDead: int)

  /** What one player adds to the counts at `t` (Radiant is "our" side). */
  function Tally(c: Counts, p: Player, tab: DeathTable, cores: Cores, t: int): Counts {
    var d := if IsDead(p.accountId, t, tab, Respawn(p)) then 1 else 0;
    if p.isRadiant then
      c.(ourDead := c.ourDead + d, ourAlive := c.ourAlive + (1 - d),
         ourCoreDead := c.ourCoreDead + (if p.accountId in cores.radiant then d else 0))
    else
      c.(enemyDead := c.enemyDead + d, enemyAlive := c.enemyAlive + (1 - d),
         enemyCoreDead := c.enemyCoreDead + (if p.accountId in cores.dire then d else 0))
  }

  function CountsAt(ps: seq<Player>, tab: DeathTable, cores: Cores, t: int): Counts {
    if ps == [] then Counts(0, 0, 0, 0, 0, 0)
    else Tally(CountsAt(ps[..|ps| - 1], tab, cores, t), ps[|ps| - 1], tab, cores, t)
  }

  /** The per-player loop of one tick. */
  method CountPlayers(ps: seq<Player>, tab: DeathTable, cores: Cores, t: int) returns (c: Counts)
    ensures c == CountsAt(ps, tab, cores, t)
  {
    var ourAlive, enemyAlive, ourDead, enemyDead := 0, 0, 0, 0;
    var ourCoreDead, enemyCoreDead := 0, 0;
    for k := 0 to |ps|
      invariant CountsAt(ps[..k], tab, cores, t) ==
        Counts(ourAlive, enemyAlive, ourDead, enemyDead, ourCoreDead, enemyCoreDead)
    {
      var p := ps[k];
      var dead := if IsDead(p.accountId, t, tab, Respawn(p)) then 1 else 0;
      if p.isRadiant {
        ourDead := ourDead + dead;
        ourAlive := ourAlive + (1 - dead);
        if p.accountId in cores.radiant {
          ourCoreDead := ourCoreDead + dead;
        }
      } else {
        enemyDead := enemyDead + dead;
        enemyAlive := enemyAlive + (1 - dead);
        if p.accountId in cores.dire {
          enemyCoreDead := enemyCoreDead + dead;
        }
      }
      assert ps[..k + 1][..k] == ps[..k];
    }
    assert ps[..|ps|] == ps;
    c := Counts(ourAlive, enemyAlive, ourDead, enemyDead, ourCoreDead, enemyCoreDead);
  }

  /** Players of a side whose id is in `ids`. */
  function WithIdIn(ps: seq<Player>, radiant: bool, ids: set<AccountId>): nat {
    if ps == [] then 0
    else
      WithIdIn(ps[..|ps| - 1], radiant, ids) +
      (if ps[|ps| - 1].isRadiant == radiant && ps[|ps| - 1].accountId in ids then 1 else 0)
  }

  /** On each side alive plus dead is the number of players of that side. */
  lemma {:induction false} CountsCoverSides(ps: seq<Player>, tab: DeathTable, cores: Cores, t: int)
    ensures CountsAt(ps, tab, cores, t).ourAlive >= 0 && CountsAt(ps, tab, cores, t).ourDead >= 0
    ensures CountsAt(ps, tab, cores, t).enemyAlive >= 0 && CountsAt(ps, tab, cores, t).enemyDead >= 0
    ensures CountsAt(ps, tab, cores, t).ourAlive + CountsAt(ps, tab, cores, t).ourDead == |Side(ps, true)|
    ensures CountsAt(ps, tab, cores, t).enemyAlive + CountsAt(ps, tab, cores, t).enemyDead
            == |Side(ps, false)|
  {
    if ps != [] {
      var init := ps[..|ps| - 1];
      var p := ps[|ps| - 1];
      CountsCoverSides(init, tab, cores, t);
      assert init + [p] == ps;
      SideSnoc(init, p, true);
      SideSnoc(init, p, false);
      TallyCounts(CountsAt(init, tab, cores, t), p, tab, cores, t);
    }
  }

  /** One player adds one to the alive-plus-dead count of its side. */
  lemma TallyCounts(c: Counts, p: Player, tab: DeathTable, cores: Cores, t: int)
    ensures var c' := Tally(c, p, tab, cores, t);
      && c'.ourAlive + c'.ourDead == c.ourAlive + c.ourDead + (if p.isRadiant then 1 else 0)
      && c'.enemyAlive + c'.enemyDead == c.enemyAlive + c.enemyDead + (if p.isRadiant then 0 else 1)
      && c'.ourAlive >= c.ourAlive && c'.ourDead >= c.ourDead
      && c'.enemyAlive >= c.enemyAlive && c'.enemyDead >= c.enemyDead
  {
  }

  /** No more core deaths are counted on a side than there are players of
      that side carrying a core id. */
  lemma {:induction false} CoreDeadBounded(ps: seq<Player>, tab: DeathTable, cores: Cores, t: int)
    ensures 0 <= CountsAt(ps, tab, cores, t).ourCoreDead <= WithIdIn(ps, true, set id | id in cores.radiant)
    ensures 0 <= CountsAt(ps, tab, cores, t).enemyCoreDead <= WithIdIn(ps, false, set id | id in cores.dire)
  {
    if ps != [] {
      CoreDeadBounded(ps[..|ps| - 1], tab, cores, t);
    }
  }

  lemma {:induction false} SideSnoc(ps: seq<Player>, p: Player, radiant: bool)
    ensures |Side(ps + [p], radiant)| == |Side(ps, radiant)| + (if p.isRadiant == radiant then 1 else 0)
  {
    if ps != [] {
      SideSnoc(ps[1..], p, radiant);
      assert (ps + [p])[1..] == ps[1..] + [p];
    }
  }

  /** With distinct account ids, at most `|ids|` players carry an id of `ids`. */
  lemma {:induction false} WithIdInBounded(ps: seq<Player>, radiant: bool, ids: set<AccountId>)
    requires Distinct(AccountIds(ps))
    ensures WithIdIn(ps, radiant, ids) <= |ids|
  {
    if ps != [] {
      var init := ps[..|ps| - 1];
      var id := ps[|ps| - 1].accountId;
      assert AccountIds(init) == AccountIds(ps)[..|ps| - 1];
      if id in ids {
        assert forall i | 0 <= i < |init| :: init[i].accountId != id by {
          forall i | 0 <= i < |init| ensures init[i].accountId != id {
            assert AccountIds(ps)[i] != AccountIds(ps)[|ps| - 1];
          }
        }
        WithIdInIgnoresAbsent(init, radiant, ids, id);
        WithIdInBounded(init, radiant, ids - {id});
      } else {
        WithIdInBounded(init, radiant, ids);
      }
    }
  }

  lemma {:induction false} WithIdInIgnoresAbsent(ps: seq<Player>, radiant: bool, ids: set<AccountId>, id: AccountId)
    requires forall i | 0 <= i < |ps| :: ps[i].accountId != id
    ensures WithIdIn(ps, radiant, ids) == WithIdIn(ps, radiant, ids - {id})
  {
    if ps != [] {
      WithIdInIgnoresAbsent(ps[..|ps| - 1], radiant, ids, id);
    }
  }

  lemma SetOfSeqSize(s: seq<AccountId>)
    ensures |set id | id in s| <= |s|
  {
    if s != [] {
      SetOfSeqSize(s[1..]);
      assert (set id | id in s) == (set id | id in s[1..]) + {s[0]};
    }
  }

  /** When account ids are distinct, at most two cores per side are dead, so
      `2 - core_dead` stays between 0 and 2. */
  lemma CoreCountsInRange(ps: seq<Player>, t: int)
    requires Distinct(AccountIds(ps))
    ensures var c := CountsAt(ps, DeathsMap(ps), RichestIds(ps, 2), t);
      0 <= 2 - c.ourCoreDead <= 2 && 0 <= 2 - c.enemyCoreDead <= 2
  {
    var cores := RichestIds(ps, 2);
    CoreDeadBounded(ps, DeathsMap(ps), cores, t);
    WithIdInBounded(ps, true, set id | id in cores.radiant);
    WithIdInBounded(ps, false, set id | id in cores.dire);
    SetOfSeqSize(cores.radiant);
    SetOfSeqSize(cores.dire);
  }

  // ---------------------------------------------------------------------
  // Rows

  /** Everything computed once per match before the tick loop. */
  datatype Context = Context(
    m: Match, gAdv: seq<int>, xAdv: seq<int>,
    deaths: DeathTable, cores: Cores, rosh: seq<int>)

  /** The context `snapshots` builds from a record it can use. */
  function ContextOf(m: Match, rosh: seq<int>): Context {
    Context(m, AdvSeries(m.players, GoldT), AdvSeries(m.players, XpT),
            DeathsMap(m.players), RichestIds(m.players, 2), rosh)
  }

  /** Python list indexing: a negative index counts from the end, and
      an index outside `[-len, len)` raises. */
  function PyIndex(i: int, len: nat): (r: Option<nat>)
    ensures r.Some? ==> r.value < len
    ensures 0 <= i < len ==> r == Some(i)
  {
    if 0 <= i < len then Some(i)
    else if i < 0 && i + len >= 0 then Some(i + len)
    else None
  }

  /** The minute bucket `min(t // 60, len - 1)`. */
  function Bucket(t: int, len: nat): (idx: int)
    ensures idx <= len - 1
    ensures t >= 0 && len >= 1 ==> 0 <= idx
  {
    if t / 60 <= len - 1 then t / 60 else len - 1
  }

  function FeaturesAt(ctx: Context, t: int, gi: nat, xi: nat): FeatureVector
    requires gi < |ctx.gAdv| && xi < |ctx.xAdv|
  {
    var c := CountsAt(ctx.m.players, ctx.deaths, ctx.cores, t);
    FeatureVector(
      ctx.gAdv[gi], ctx.xAdv[xi],
      c.ourDead, c.enemyDead, c.ourAlive, c.enemyAlive,
      2 - c.ourCoreDead, 2 - c.enemyCoreDead, c.enemyCoreDead,
      if RoshanDown(ctx.rosh, t) then 0 else 1,
      RecentDeaths(ctx.deaths, t),
      T3Down(ctx.m.towerStatusDire.GetOr(0)))
  }

  /** The row of tick `t`, or the IndexError of reading its bucket. */
  function RowAt(ctx: Context, t: int): Result<Row, MatchError> {
    var idx := Bucket(t, |ctx.gAdv|);
    var gi := PyIndex(idx, |ctx.gAdv|);
    var xi := PyIndex(idx, |ctx.xAdv|);
    if gi.None? || xi.None? then Err(BucketOutOfRange)
    else
      var v := FeaturesAt(ctx, t, gi.value, xi.value);
      Ok(Row(ctx.m.matchId, t, v, Label(v)))
  }

  /** `t` is still inside `range(0, duration, step)`. */
  predicate InRange(t: int, duration: int, step: int) {
    if step > 0 then t < duration else t > duration
  }

  function Remaining(t: int, duration: int, step: int): int {
    if step > 0 then duration - t else t - duration
  }

  /** The rows of the ticks `t, t + step, ...` still inside the range; the
      first failing tick makes the whole match fail. */
  function TicksFrom(rowAt: int -> Result<Row, MatchError>, duration: int, step: int, t: int)
    : Result<seq<Row>, MatchError>
    requires step != 0
    decreases Remaining(t, duration, step)
  {
    if !InRange(t, duration, step) then Ok([])
    else
      match rowAt(t)
      case Err(e) => Err(e)
      case Ok(row) =>
        match TicksFrom(rowAt, duration, step, t + step)
        case Err(e) => Err(e)
        case Ok(rest) => Ok([row] + rest)
  }

  function RowsOf(ctx: Context): int -> Result<Row, MatchError> {
    t => RowAt(ctx, t)
  }

  /** `snapshots` as a value: the failures in the order the labeller meets
      them, then one row per tick. */
  function SnapshotsSpec(m: Match, step: int): Result<seq<Row>, MatchError> {
    if m.players == [] then Err(NoPlayers)
    else
      match RoshanKills(m.objectives.GetOr([]))
      case Err(e) => Err(e)
      case Ok(rosh) =>
        if step == 0 then Err(ZeroStep)
        else TicksFrom(RowsOf(ContextOf(m, rosh)), m.duration, step, 0)
  }

  function Prepend(rows: seq<Row>, r: Result<seq<Row>, MatchError>): Result<seq<Row>, MatchError> {
    match r
    case Ok(rest) => Ok(rows + rest)
    case Err(e) => Err(e)
  }

  lemma PrependTwice(a: seq<Row>, b: seq<Row>, r: Result<seq<Row>, MatchError>)
    ensures Prepend(a, Prepend(b, r)) == Prepend(a + b, r)
  {
    if r.Ok? {
      assert a + (b + r.value) == (a + b) + r.value;
    }
  }

  /** A tick in range contributes its row ahead of the later ticks. */
  lemma TicksFromStep(rowAt: int -> Result<Row, MatchError>, duration: int, step: int, t: int, row: Row)
    requires step != 0 && InRange(t, duration, step) && rowAt(t) == Ok(row)
    ensures TicksFrom(rowAt, duration, step, t) == Prepend([row], TicksFrom(rowAt, duration, step, t + step))
  {
  }

  /** One turn of the tick loop: the row of tick `t` moves from the
      remaining ticks to the rows already built. */
  lemma TicksAdvance(rowAt: int -> Result<Row, MatchError>, duration: int, step: int, t: int,
                     rows: seq<Row>, row: Row)
    requires step != 0 && InRange(t, duration, step) && rowAt(t) == Ok(row)
    ensures Prepend(rows, TicksFrom(rowAt, duration, step, t))
         == Prepend(rows + [row], TicksFrom(rowAt, duration, step, t + step))
  {
    TicksFromStep(rowAt, duration, step, t, row);
    PrependTwice(rows, [row], TicksFrom(rowAt, duration, step, t + step));
  }

  /** The first failing tick makes the rest fail with its error. */
  lemma TicksFromFails(rowAt: int -> Result<Row, MatchError>, duration: int, step: int, t: int)
    requires step != 0 && InRange(t, duration, step) && rowAt(t).Err?
    ensures TicksFrom(rowAt, duration, step, t) == Err(rowAt(t).error)
  {
  }

  lemma PrependNothing(r: Result<seq<Row>, MatchError>)
    ensures Prepend([], r) == r
  {
    if r.Ok? {
      assert [] + r.value == r.value;
    }
  }

  /** The feature vector of one tick, from the values the loop body computed. */
  lemma LoopRowIsRowAt(ctx: Context, t: int, gi: nat, xi: nat, c: Counts, roshanAlive: int, recent: nat)
    requires gi < |ctx.gAdv| && xi < |ctx.xAdv|
    requires PyIndex(Bucket(t, |ctx.gAdv|), |ctx.gAdv|) == Some(gi)
    requires PyIndex(Bucket(t, |ctx.gAdv|), |ctx.xAdv|) == Some(xi)
    requires c == CountsAt(ctx.m.players, ctx.deaths, ctx.cores, t)
    requires (roshanAlive == 0 || roshanAlive == 1) && (roshanAlive == 0 <==> RoshanDown(ctx.rosh, t))
    requires recent == RecentDeaths(ctx.deaths, t)
    ensures var v := FeatureVector(
        ctx.gAdv[gi], ctx.xAdv[xi], c.ourDead, c.enemyDead, c.ourAlive, c.enemyAlive,
        2 - c.ourCoreDead, 2 - c.enemyCoreDead, c.enemyCoreDead,
        roshanAlive, recent, T3Down(ctx.m.towerStatusDire.GetOr(0)));
      RowAt(ctx, t) == Ok(Row(ctx.m.matchId, t, v, Label(v)))
  {
  }

  /** The body of the tick loop: the features of tick `t` and its label. */
  method TickRow(m: Match, gAdv: seq<int>, xAdv: seq<int>, deaths: DeathTable, cores: Cores,
                 rosh: seq<int>, t: int)
    returns (res: Result<Row, MatchError>)
    ensures res == RowAt(Context(m, gAdv, xAdv, deaths, cores, rosh), t)
  {
    ghost var ctx := Context(m, gAdv, xAdv, deaths, cores, rosh);
    var idx := Bucket(t, |gAdv|);
    var gi, xi := PyIndex(idx, |gAdv|), PyIndex(idx, |xAdv|);
    if gi.None? || xi.None? {
      return Err(BucketOutOfRange);
    }
    var ga, xa := gAdv[gi.value], xAdv[xi.value];
    var c := CountPlayers(m.players, deaths, cores, t);
    var roshanAlive := RoshanAliveAt(rosh, t);
    var recent := CountRecent(deaths, t);
    var towersDown := T3Down(m.towerStatusDire.GetOr(0));
    var v := FeatureVector(
      ga, xa, c.ourDead, c.enemyDead, c.ourAlive, c.enemyAlive,
      2 - c.ourCoreDead, 2 - c.enemyCoreDead, c.enemyCoreDead,
      roshanAlive, recent, towersDown);
    LoopRowIsRowAt(ctx, t, gi.value, xi.value, c, roshanAlive, recent);
    res := Ok(Row(m.matchId, t, v, Label(v)));
  }

  /** `snapshots`: the tick loop with its per-player, Roshan and recent-death loops. */
  method Snapshots(m: Match, step: int) returns (r: Result<seq<Row>, MatchError>)
    ensures r == SnapshotsSpec(m, step)
  {
    var adv := GoldXpAdv(m.players);
    if adv.Err? {
      return Err(adv.error);
    }
    var (gAdv, xAdv) := adv.value;
    var deaths := DeathsMap(m.players);
    var cores := RichestIds(m.players, 2);
    var kills := RoshanKills(m.objectives.GetOr([]));
    if kills.Err? {
      return Err(kills.error);
    }
    var rosh := kills.value;
    if step == 0 {
      return Err(ZeroStep);
    }
    ghost var ctx := Context(m, gAdv, xAdv, deaths, cores, rosh);
    assert ctx == ContextOf(m, rosh);
    r := TickLoop(m, gAdv, xAdv, deaths, cores, rosh, step, RowsOf(ctx));
  }

  /** The loop over `range(0, duration, step)` of `snapshots`. */
  method TickLoop(m: Match, gAdv: seq<int>, xAdv: seq<int>, deaths: DeathTable, cores: Cores,
                  rosh: seq<int>, step: int, ghost rowAt: int -> Result<Row, MatchError>)
    returns (r: Result<seq<Row>, MatchError>)
    requires step != 0
    requires forall t {:trigger RowAt(Context(m, gAdv, xAdv, deaths, cores, rosh), t)} ::
      rowAt(t) == RowAt(Context(m, gAdv, xAdv, deaths, cores, rosh), t)
    ensures r == TicksFrom(rowAt, m.duration, step, 0)
  {
    var rows: seq<Row> := [];
    var t := 0;
    PrependNothing(TicksFrom(rowAt, m.duration, step, 0));
    while InRange(t, m.duration, step)
      invariant TicksFrom(rowAt, m.duration, step, 0) == Prepend(rows, TicksFrom(rowAt, m.duration, step, t))
      decreases Remaining(t, m.duration, step)
    {
      var res := TickRow(m, gAdv, xAdv, deaths, cores, rosh, t);
      assert res == rowAt(t);
      if res.Err? {
        TicksFromFails(rowAt, m.duration, step, t);
        return Err(res.error);
      }
      var row := res.value;
      TicksAdvance(rowAt, m.duration, step, t, rows, row);
      rows := rows + [row];
      t := t + step;
    }
    assert rows + [] == rows;
    r := Ok(rows);
  }

  // ---------------------------------------------------------------------
  // Properties of the sequence of rows

  /** `i * s`, by repeated addition. */
  function Times(i: nat, s: int): int {
    if i == 0 then 0 else Times(i - 1, s) + s
  }

  lemma {:induction false} TimesIsProduct(i: nat, s: int)
    ensures Times(i, s) == i * s
  {
    if i > 0 {
      TimesIsProduct(i - 1, s);
    }
  }

  /** The tick after the last row is outside the range. */
  lemma {:induction false} TicksFromEnd(
    rowAt: int -> Result<Row, MatchError>, duration: int, step: int, t0: int, rows: seq<Row>)
    requires step != 0
    requires TicksFrom(rowAt, duration, step, t0) == Ok(rows)
    ensures !InRange(t0 + Times(|rows|, step), duration, step)
    decreases Remaining(t0, duration, step)
  {
    if InRange(t0, duration, step) {
      var rest := TicksFrom(rowAt, duration, step, t0 + step).value;
      assert rows == [rowAt(t0).value] + rest;
      TicksFromEnd(rowAt, duration, step, t0 + step, rest);
      assert Times(|rows|, step) == Times(|rest|, step) + step;
    }
  }

  /** Row `i` of the ticks from `t0` is the row of tick `t0 + i * step`,
      and that tick is in range. */
  lemma {:induction false} TicksFromRow(
    rowAt: int -> Result<Row, MatchError>, duration: int, step: int, t0: int, rows: seq<Row>, i: nat)
    requires step != 0 && i < |rows|
    requires TicksFrom(rowAt, duration, step, t0) == Ok(rows)
    ensures InRange(t0 + Times(i, step), duration, step)
    ensures rowAt(t0 + Times(i, step)) == Ok(rows[i])
    decreases i
  {
    assert InRange(t0, duration, step);
    var rest := TicksFrom(rowAt, duration, step, t0 + step).value;
    assert rows == [rowAt(t0).value] + rest;
    if i > 0 {
      TicksFromRow(rowAt, duration, step, t0 + step, rest, i - 1);
      assert rows[i] == rest[i - 1];
      assert Times(i, step) == Times(i - 1, step) + step;
    }
  }

  /** The ticks from 0: row `i` is the row of tick `i * step`, in range,
      and tick `|rows| * step` is out of range. */
  lemma TicksShape(rowAt: int -> Result<Row, MatchError>, duration: int, step: int, rows: seq<Row>)
    requires step != 0 && TicksFrom(rowAt, duration, step, 0) == Ok(rows)
    ensures !InRange(|rows| * step, duration, step)
    ensures forall i | 0 <= i < |rows| :: InRange(i * step, duration, step) && rowAt(i * step) == Ok(rows[i])
  {
    TicksFromEnd(rowAt, duration, step, 0, rows);
    TimesIsProduct(|rows|, step);
    forall i | 0 <= i < |rows|
      ensures InRange(i * step, duration, step) && rowAt(i * step) == Ok(rows[i])
    {
      TicksFromRow(rowAt, duration, step, 0, rows, i);
      TimesIsProduct(i, step);
    }
  }

  /** A row built by `RowAt` records its tick and match and is labelled by the cascade. */
  lemma RowAtFacts(ctx: Context, t: int, row: Row)
    requires RowAt(ctx, t) == Ok(row)
    ensures row.t == t && row.matchId == ctx.m.matchId
    ensures row.macroLabel == Label(row.features)
    ensures exists gi: nat, xi: nat | gi < |ctx.gAdv| && xi < |ctx.xAdv| ::
      row.features == FeaturesAt(ctx, t, gi, xi)
  {
    var idx := Bucket(t, |ctx.gAdv|);
    var gi := PyIndex(idx, |ctx.gAdv|).value;
    var xi := PyIndex(idx, |ctx.xAdv|).value;
    assert row.features == FeaturesAt(ctx, t, gi, xi);
  }

  /** A labelled match got past every early failure and its rows are the ticks. */
  lemma SpecIsTicks(m: Match, step: int)
    requires SnapshotsSpec(m, step).Ok?
    ensures m.players != [] && step != 0 && RoshanKills(m.objectives.GetOr([])).Ok?
    ensures SnapshotsSpec(m, step) ==
      TicksFrom(RowsOf(ContextOf(m, RoshanKills(m.objectives.GetOr([])).value)), m.duration, step, 0)
  {
  }

  /** The features of a row built by `RowAt`, in terms of its context. */
  lemma RowFeatures(ctx: Context, t: int, row: Row)
    requires RowAt(ctx, t) == Ok(row)
    ensures row.t == t
    ensures var f := row.features;
      && f.ourAlive + f.ourDeadTot == |Side(ctx.m.players, true)|
      && f.enemyAlive + f.enemyDeadTot == |Side(ctx.m.players, false)|
      && f.ourCoreAlive == 2 - CountsAt(ctx.m.players, ctx.deaths, ctx.cores, t).ourCoreDead
      && f.enemyCoreAlive == 2 - f.enemyCoreDead
      && f.recentDeaths == RecentDeaths(ctx.deaths, t)
      && (f.roshanAlive == 0 <==> RoshanDown(ctx.rosh, t))
      && f.towersDireT3Down == T3Down(ctx.m.towerStatusDire.GetOr(0))
  {
    CountsCoverSides(ctx.m.players, ctx.deaths, ctx.cores, t);
  }

  /** The ticks of a labelled match: row `i` is tick `i * step` inside
      `range(0, duration, step)`, the tick after the last row is outside,
      every row carries the match id and the cascade's label of its features. */
  lemma SnapshotTicks(m: Match, step: int, rows: seq<Row>)
    requires SnapshotsSpec(m, step) == Ok(rows)
    ensures step != 0
    ensures !InRange(|rows| * step, m.duration, step)
    ensures forall i | 0 <= i < |rows| ::
      && rows[i].t == i * step && InRange(rows[i].t, m.duration, step)
      && rows[i].matchId == m.matchId
      && rows[i].macroLabel == Label(rows[i].features)
  {
    SpecIsTicks(m, step);
    var rosh := RoshanKills(m.objectives.GetOr([])).value;
    var ctx := ContextOf(m, rosh);
    TicksShape(RowsOf(ctx), m.duration, step, rows);
    forall i | 0 <= i < |rows|
      ensures rows[i].t == i * step
      ensures rows[i].matchId == m.matchId && rows[i].macroLabel == Label(rows[i].features)
    {
      assert RowsOf(ctx)(i * step) == Ok(rows[i]);
      RowAtFacts(ctx, i * step, rows[i]);
    }
  }

  /** The features of every row: both sides' alive and dead counts add up to
      the side sizes, the core counts read the cores chosen once for the
      whole match, and the Roshan, recent-death and tower features are those
      of the match at that tick. */
  lemma SnapshotFeatures(m: Match, step: int, rows: seq<Row>, i: nat)
    requires SnapshotsSpec(m, step) == Ok(rows) && i < |rows|
    ensures var f := rows[i].features;
      && f.ourAlive + f.ourDeadTot == |Side(m.players, true)|
      && f.enemyAlive + f.enemyDeadTot == |Side(m.players, false)|
      && f.ourCoreAlive ==
           2 - CountsAt(m.players, DeathsMap(m.players), RichestIds(m.players, 2), rows[i].t).ourCoreDead
      && f.enemyCoreAlive == 2 - f.enemyCoreDead
      && f.recentDeaths == RecentDeaths(DeathsMap(m.players), rows[i].t)
      && (f.roshanAlive == 0 <==> RoshanDown(RoshanKills(m.objectives.GetOr([])).value, rows[i].t))
      && f.towersDireT3Down == T3Down(m.towerStatusDire.GetOr(0))
  {
    SpecIsTicks(m, step);
    var rosh := RoshanKills(m.objectives.GetOr([])).value;
    TickFeatures(m, rosh, step, rows, i);
  }

  lemma TickFeatures(m: Match, rosh: seq<int>, step: int, rows: seq<Row>, i: nat)
    requires step != 0 && i < |rows|
    requires TicksFrom(RowsOf(ContextOf(m, rosh)), m.duration, step, 0) == Ok(rows)
    ensures var f := rows[i].features;
      && f.ourAlive + f.ourDeadTot == |Side(m.players, true)|
      && f.enemyAlive + f.enemyDeadTot == |Side(m.players, false)|
      && f.ourCoreAlive ==
           2 - CountsAt(m.players, DeathsMap(m.players), RichestIds(m.players, 2), rows[i].t).ourCoreDead
      && f.enemyCoreAlive == 2 - f.enemyCoreDead
      && f.recentDeaths == RecentDeaths(DeathsMap(m.players), rows[i].t)
      && (f.roshanAlive == 0 <==> RoshanDown(rosh, rows[i].t))
      && f.towersDireT3Down == T3Down(m.towerStatusDire.GetOr(0))
  {
    var ctx := ContextOf(m, rosh);
    TicksFromRow(RowsOf(ctx), m.duration, step, 0, rows, i);
    var t := 0 + Times(i, step);
    assert RowsOf(ctx)(t) == Ok(rows[i]);
    RowFeatures(ctx, t, rows[i]);
  }

  /** With a positive step and a usable bucket array no tick can fail. */
  lemma {:induction false} PositiveStepNeverFails(ctx: Context, step: int, t: int)
    requires step > 0 && t >= 0 && |ctx.gAdv| >= 1 && |ctx.xAdv| == |ctx.gAdv|
    ensures TicksFrom(RowsOf(ctx), ctx.m.duration, step, t).Ok?
    decreases Remaining(t, ctx.m.duration, step)
  {
    if InRange(t, ctx.m.duration, step) {
      PositiveStepNeverFails(ctx, step, t + step);
    }
  }

  /** A record with players and no broken Roshan kill, labelled with a
      positive step, always yields its rows. */
  lemma SnapshotsSucceed(m: Match, step: int)
    requires m.players != [] && step > 0
    requires RoshanKills(m.objectives.GetOr([])).Ok?
    ensures SnapshotsSpec(m, step).Ok?
  {
    PositiveStepNeverFails(ContextOf(m, RoshanKills(m.objectives.GetOr([])).value), step, 0);
  }

  // ---------------------------------------------------------------------
  // The batch

  /** The rows a match file contributes, or why it is skipped. */
  function FileResult(file: Option<Match>, step: int): Result<seq<Row>, MatchError> {
    match file
    case None => Err(Unreadable)
    case Some(m) => SnapshotsSpec(m, step)
  }

  function AllRows(files: seq<Option<Match>>, step: int): seq<Row> {
    if files == [] then []
    else
      var last := FileResult(files[|files| - 1], step);
      AllRows(files[..|files| - 1], step) + (if last.Ok? then last.value else [])
  }

  function SkippedCount(files: seq<Option<Match>>, step: int): (n: nat)
    ensures n <= |files|
  {
    if files == [] then 0
    else SkippedCount(files[..|files| - 1], step) + (if FileResult(files[|files| - 1], step).Err? then 1 else 0)
  }

  /** What the batch reports: failure (exit status 1) when no row at all
      was produced, otherwise the rows to save and the number of skipped files. */
  datatype BuildOutcome = NoRows(skipped: nat) | Saved(rows: seq<Row>, skipped: nat)

  /** `build`: labels every file, skipping (and counting) the unusable ones. */
  method Build(files: seq<Option<Match>>, step: int) returns (out: BuildOutcome)
    ensures AllRows(files, step) == [] ==> out == NoRows(SkippedCount(files, step))
    ensures AllRows(files, step) != [] ==> out == Saved(AllRows(files, step), SkippedCount(files, step))
  {
    var rows: seq<Row> := [];
    var skipped := 0;
    for k := 0 to |files|
      invariant rows == AllRows(files[..k], step)
      invariant skipped == SkippedCount(files[..k], step)
    {
      var result: Result<seq<Row>, MatchError>;
      if files[k].None? {
        result := Err(Unreadable);
      } else {
        result := Snapshots(files[k].value, step);
      }
      if result.Ok? {
        rows := rows + result.value;
      } else {
        skipped := skipped + 1;
      }
      assert files[..k + 1][..k] == files[..k];
    }
    assert files[..|files|] == files;
    if rows == [] {
      out := NoRows(skipped);
    } else {
      out := Saved(rows, skipped);
    }
  }

  /** When every file is skipped, the batch fails. */
  lemma {:induction false} AllSkippedMeansNoRows(files: seq<Option<Match>>, step: int)
    requires SkippedCount(files, step) == |files|
    ensures AllRows(files, step) == []
  {
    if files != [] {
      var init := files[..|files| - 1];
      assert SkippedCount(init, step) <= |init|;
      AllSkippedMeansNoRows(init, step);
    }
  }

  /** Every saved row carries the label the cascade gives its features. */
  lemma {:induction false} SavedRowsAreLabelled(files: seq<Option<Match>>, step: int)
    ensures forall r | r in AllRows(files, step) :: r.macroLabel == Label(r.features)
  {
    if files != [] {
      var init := files[..|files| - 1];
      SavedRowsAreLabelled(init, step);
      var last := FileResult(files[|files| - 1], step);
      if last.Ok? {
        var m := files[|files| - 1].value;
        SnapshotTicks(m, step, last.value);
        forall r | r in last.value ensures r.macroLabel == Label(r.features) {
          var i :| 0 <= i < |last.value| && last.value[i] == r;
        }
      }
    }
  }
}
