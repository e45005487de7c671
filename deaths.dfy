/** The offline death table: every player's recorded death times, keyed by
    account id, and the two views the labeller derives from it: whether a
    player is dead at a tick, and how many deaths fall near a tick. */
module Deaths {
  import opened Wrappers
  import opened Features
  import opened MatchRecord

  /** One key of the `{account_id: death_times}` dictionary. */
  datatype DeathEntry = DeathEntry(id: AccountId, times: seq<int>)

  /** The dictionary as its entries in insertion order. */
  type DeathTable = seq<DeathEntry>

  function Ids(tab: DeathTable): seq<AccountId> {
    seq(|tab|, i requires 0 <= i < |tab| => tab[i].id)
  }

  function Get(tab: DeathTable, id: AccountId): (r: Option<seq<int>>)
    ensures r.Some? <==> exists i | 0 <= i < |tab| :: tab[i].id == id
  {
    if tab == [] then None
    else if tab[0].id == id then Some(tab[0].times)
    else Get(tab[1..], id)
  }

  /** Dictionary assignment `d[id] = times`: an existing key keeps its
      place and takes the new value; a new key goes at the end. */
  function Put(tab: DeathTable, id: AccountId, times: seq<int>): (r: DeathTable)
    requires Distinct(Ids(tab))
    ensures Distinct(Ids(r))
    ensures Get(r, id) == Some(times)
    ensures forall k | k != id :: Get(r, k) == Get(tab, k)
  {
    if tab == [] then [DeathEntry(id, times)]
    else if tab[0].id == id then
      var r := [DeathEntry(id, times)] + tab[1..];
      assert Ids(r) == Ids(tab);
      r
    else
      assert Ids(tab)[1..] == Ids(tab[1..]);
      var rest := Put(tab[1..], id, times);
      var r := [tab[0]] + rest;
      assert Ids(r) == [tab[0].id] + Ids(rest);
      assert forall i | 0 <= i < |tab[1..]| ::
        tab[1..][i].id == Ids(tab)[i + 1] && Ids(tab)[0] != Ids(tab)[i + 1];
      assert Get(tab[1..], tab[0].id).None?;
      assert Get(rest, tab[0].id).None?;
      r
  }

  /** `deaths_map`: each player's death times (empty when absent) under its
      account id, later players overwriting earlier ones with the same id. */
  function DeathsMap(ps: seq<Player>): (tab: DeathTable)
    ensures Distinct(Ids(tab))
  {
    if ps == [] then []
    else Put(DeathsMap(ps[..|ps| - 1]), ps[|ps| - 1].accountId, DeathTimes(ps[|ps| - 1]))
  }

  /** The death list of the LAST player carrying `id`, if any player does. */
  function LastDeaths(ps: seq<Player>, id: AccountId): (r: Option<seq<int>>)
    ensures r.Some? <==> exists i | 0 <= i < |ps| :: ps[i].accountId == id
    ensures r.Some? ==> exists i | 0 <= i < |ps| ::
      ps[i].accountId == id && r.value == DeathTimes(ps[i]) &&
      forall j | i < j < |ps| :: ps[j].accountId != id
  {
    if ps == [] then None
    else if ps[|ps| - 1].accountId == id then Some(DeathTimes(ps[|ps| - 1]))
    else
      var r := LastDeaths(ps[..|ps| - 1], id);
      assert forall i | 0 <= i < |ps| - 1 :: ps[..|ps| - 1][i] == ps[i];
      r
  }

  /** The table holds an entry for exactly the ids of the players, and the
      entry of an id is the death list of the last player carrying it. */
  lemma {:induction false} DeathsMapLookup(ps: seq<Player>, id: AccountId)
    ensures Get(DeathsMap(ps), id) == LastDeaths(ps, id)
  {
    if ps != [] {
      DeathsMapLookup(ps[..|ps| - 1], id);
    }
  }

  /** Players without an account id share the one `null` key, so the table
      keeps only the last anonymous player's deaths. */
  lemma AnonymousPlayersShareOneEntry(a: Player, b: Player)
    requires a.accountId.None? && b.accountId.None?
    ensures Get(DeathsMap([a, b]), None) == Some(DeathTimes(b))
  {
    DeathsMapLookup([a, b], None);
  }

  // ---------------------------------------------------------------------
  // Dead or alive at a tick

  /** `any(d <= t < d + resp for d in ds)`. */
  function AnyCovers(ds: seq<int>, t: int, resp: int): (r: bool)
    ensures r <==> exists i | 0 <= i < |ds| :: ds[i] <= t < ds[i] + resp
  {
    if ds == [] then false
    else (ds[0] <= t < ds[0] + resp) || AnyCovers(ds[1..], t, resp)
  }

  /** `is_dead`: some recorded death `d` of the id has `d <= t < d + resp`. */
  function IsDead(pid: AccountId, t: int, tab: DeathTable, resp: int): (r: bool)
    ensures r <==> (Get(tab, pid).Some? &&
      exists i | 0 <= i < |Get(tab, pid).value| ::
        Get(tab, pid).value[i] <= t < Get(tab, pid).value[i] + resp)
  {
    AnyCovers(Get(tab, pid).GetOr([]), t, resp)
  }

  /** An id the table does not know is never dead. */
  lemma UnknownIdNeverDead(pid: AccountId, t: int, tab: DeathTable, resp: int)
    requires Get(tab, pid).None?
    ensures !IsDead(pid, t, tab, resp)
  {
  }

  /** The respawn interval is half-open: a death at 100 with respawn 40 is
      dead on [100, 140) and alive at 99 and at 140. */
  lemma RespawnInterval(t: int)
    ensures IsDead(Some(7), t, [DeathEntry(Some(7), [100])], 40) <==> 100 <= t < 140
  {
  }

  // ---------------------------------------------------------------------
  // Deaths near a tick (offline window, with hindsight)

  /** Deaths of one list within seven seconds either side of `t`, inclusive. */
  function NearCount(ds: seq<int>, t: int): (n: nat)
    ensures n <= |ds|
  {
    if ds == [] then 0
    else (if t - 7 <= ds[0] <= t + 7 then 1 else 0) + NearCount(ds[1..], t)
  }

  /** Deaths of all entries of the table within seven seconds of `t`. */
  function RecentDeaths(tab: DeathTable, t: int): nat {
    if tab == [] then 0
    else RecentDeaths(tab[..|tab| - 1], t) + NearCount(tab[|tab| - 1].times, t)
  }

  /** The offline count `sum(1 for arr in deaths.values() for d in arr if t-7 <= d <= t+7)`. */
  method CountRecent(tab: DeathTable, t: int) returns (n: nat)
    ensures n == RecentDeaths(tab, t)
  {
    n := 0;
    var k := 0;
    while k < |tab|
      invariant 0 <= k <= |tab|
      invariant n == RecentDeaths(tab[..k], t)
    {
      var ds := tab[k].times;
      var j := 0;
      var here := 0;
      while j < |ds|
        invariant 0 <= j <= |ds|
        invariant here + NearCount(ds[j..], t) == NearCount(ds, t)
      {
        assert ds[j..][1..] == ds[j + 1..];
        if t - 7 <= ds[j] <= t + 7 {
          here := here + 1;
        }
        j := j + 1;
      }
      assert tab[..k + 1][..k] == tab[..k];
      n := n + here;
      k := k + 1;
    }
    assert tab[..k] == tab;
  }

  /** The offline window looks ahead: a death five seconds after the tick
      counts, and so does one exactly seven seconds before or after. */
  lemma RecentWindowIsSymmetric(t: int)
    ensures RecentDeaths([DeathEntry(Some(1), [t + 5])], t) == 1
    ensures RecentDeaths([DeathEntry(Some(1), [t - 7, t + 7])], t) == 2
    ensures RecentDeaths([DeathEntry(Some(1), [t - 8, t + 8])], t) == 0
  {
    var a := [DeathEntry(Some(1), [t + 5])];
    assert a[..0] == [];
    var b := [DeathEntry(Some(1), [t - 7, t + 7])];
    assert b[..0] == [] && [t - 7, t + 7][1..] == [t + 7] && [t + 7][1..] == [];
    assert NearCount([t + 7], t) == 1;
    var c := [DeathEntry(Some(1), [t - 8, t + 8])];
    assert c[..0] == [] && [t - 8, t + 8][1..] == [t + 8] && [t + 8][1..] == [];
    assert NearCount([t + 8], t) == 0;
  }

  /** Deaths of the players, one list per player. */
  function AllNear(ps: seq<Player>, t: int): nat {
    if ps == [] then 0
    else AllNear(ps[..|ps| - 1], t) + NearCount(DeathTimes(ps[|ps| - 1]), t)
  }

  /** When account ids are distinct, the table counts every death of every
      player within the window. */
  lemma {:induction false} RecentDeathsCountsAllPlayers(ps: seq<Player>, t: int)
    requires Distinct(seq(|ps|, i requires 0 <= i < |ps| => ps[i].accountId))
    ensures RecentDeaths(DeathsMap(ps), t) == AllNear(ps, t)
  {
    if ps != [] {
      var init := ps[..|ps| - 1];
      var last := ps[|ps| - 1];
      assert seq(|init|, i requires 0 <= i < |init| => init[i].accountId)
          == seq(|ps|, i requires 0 <= i < |ps| => ps[i].accountId)[..|ps| - 1];
      RecentDeathsCountsAllPlayers(init, t);
      var tab := DeathsMap(init);
      assert Get(tab, last.accountId).None? by {
        DeathsMapLookup(init, last.accountId);
        var ids := seq(|ps|, i requires 0 <= i < |ps| => ps[i].accountId);
        assert forall i | 0 <= i < |init| :: init[i].accountId == ids[i] && ids[i] != ids[|ps| - 1];
      }
      PutNewKeyAppends(tab, last.accountId, DeathTimes(last));
      var tab' := tab + [DeathEntry(last.accountId, DeathTimes(last))];
      assert tab'[..|tab'| - 1] == tab;
    }
  }

  lemma {:induction false} PutNewKeyAppends(tab: DeathTable, id: AccountId, times: seq<int>)
    requires Distinct(Ids(tab)) && Get(tab, id).None?
    ensures Put(tab, id, times) == tab + [DeathEntry(id, times)]
  {
    if tab != [] {
      assert Ids(tab)[1..] == Ids(tab[1..]);
      PutNewKeyAppends(tab[1..], id, times);
      assert [tab[0]] + (tab[1..] + [DeathEntry(id, times)]) == tab + [DeathEntry(id, times)];
    }
  }
}
