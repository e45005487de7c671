/** The "core" players of each side offline: the two players with the most
    total gold, chosen once per match. */
module Richest {
  import opened MatchRecord
  import opened Seqs

  /** Stable insertion in descending gold order: `x` goes after every
      element at least as rich, before the first poorer one. */
  function InsertByGold(x: Player, s: seq<Player>): (r: seq<Player>)
    ensures multiset(r) == multiset(s) + multiset{x}
    ensures |r| == |s| + 1
  {
    if s == [] then [x]
    else if TotalGold(s[0]) >= TotalGold(x) then
      assert s == [s[0]] + s[1..];
      [s[0]] + InsertByGold(x, s[1..])
    else [x] + s
  }

  lemma InsertMembers(x: Player, s: seq<Player>, q: Player)
    requires q in InsertByGold(x, s)
    ensures q == x || q in s
  {
    assert q in multiset(InsertByGold(x, s));
  }

  ghost predicate GoldDescending(s: seq<Player>) {
    forall i, j | 0 <= i < j < |s| :: TotalGold(s[i]) >= TotalGold(s[j])
  }

  lemma {:induction false} InsertKeepsDescending(x: Player, s: seq<Player>)
    requires GoldDescending(s)
    ensures GoldDescending(InsertByGold(x, s))
  {
    if s != [] && TotalGold(s[0]) >= TotalGold(x) {
      var rest := InsertByGold(x, s[1..]);
      InsertKeepsDescending(x, s[1..]);
      forall j | 0 <= j < |rest| ensures TotalGold(s[0]) >= TotalGold(rest[j]) {
        InsertMembers(x, s[1..], rest[j]);
      }
      var r := [s[0]] + rest;
      assert forall j | 0 < j < |r| :: r[j] == rest[j - 1];
    }
  }

  /** `sorted(players, key=total_gold, reverse=True)`, as repeated stable insertion. */
  function SortByGold(ps: seq<Player>): (r: seq<Player>)
    ensures multiset(r) == multiset(ps)
    ensures GoldDescending(r)
  {
    if ps == [] then []
    else
      var init := ps[..|ps| - 1];
      assert ps == init + [ps[|ps| - 1]];
      var sorted := SortByGold(init);
      InsertKeepsDescending(ps[|ps| - 1], sorted);
      InsertByGold(ps[|ps| - 1], sorted)
  }

  /** The first `n` players of the gold-sorted list: `min(n, |ps|)` players
      of `ps`, each at least as rich as every player left out. */
  function TopByGold(ps: seq<Player>, n: nat): (r: seq<Player>)
    ensures |r| == Min(n, |ps|)
    ensures multiset(r) <= multiset(ps)
    ensures forall p, q | p in r && q in multiset(ps) - multiset(r) :: TotalGold(p) >= TotalGold(q)
  {
    var s := SortByGold(ps);
    assert |s| == |ps| by { assert |multiset(s)| == |multiset(ps)|; }
    var k := Min(n, |s|);
    SplitMultiset(s, k);
    PrefixOutranksSuffix(s, k);
    s[..k]
  }

  /** In a gold-descending list, every player of a prefix is at least as
      rich as every player after it. */
  lemma PrefixOutranksSuffix(s: seq<Player>, k: nat)
    requires GoldDescending(s) && k <= |s|
    ensures forall p, q | p in s[..k] && q in multiset(s[k..]) :: TotalGold(p) >= TotalGold(q)
  {
    forall p, q | p in s[..k] && q in multiset(s[k..])
      ensures TotalGold(p) >= TotalGold(q)
    {
      var j :| k <= j < |s| && s[j] == q by { assert q in s[k..]; }
      var i :| 0 <= i < k && s[i] == p;
    }
  }

  function AccountIds(ps: seq<Player>): (ids: seq<AccountId>)
    ensures |ids| == |ps|
    ensures forall i | 0 <= i < |ps| :: ids[i] == ps[i].accountId
  {
    seq(|ps|, i requires 0 <= i < |ps| => ps[i].accountId)
  }

  /** `richest_ids`: the ids of the `n` richest players per side. */
  datatype Cores = Cores(radiant: seq<AccountId>, dire: seq<AccountId>)

  function RichestIds(ps: seq<Player>, n: nat): (c: Cores)
    ensures |c.radiant| == Min(n, |Side(ps, true)|)
    ensures |c.dire| == Min(n, |Side(ps, false)|)
    ensures forall id | id in c.radiant :: id in AccountIds(Side(ps, true))
    ensures forall id | id in c.dire :: id in AccountIds(Side(ps, false))
  {
    var r := TopByGold(Side(ps, true), n);
    var d := TopByGold(Side(ps, false), n);
    TopIdsAmongSide(Side(ps, true), n);
    TopIdsAmongSide(Side(ps, false), n);
    Cores(AccountIds(r), AccountIds(d))
  }

  lemma TopIdsAmongSide(side: seq<Player>, n: nat)
    ensures forall id | id in AccountIds(TopByGold(side, n)) :: id in AccountIds(side)
  {
    var top := TopByGold(side, n);
    forall id | id in AccountIds(top) ensures id in AccountIds(side) {
      var i :| 0 <= i < |top| && AccountIds(top)[i] == id;
      assert top[i] in multiset(side);
      var j :| 0 <= j < |side| && side[j] == top[i];
      assert AccountIds(side)[j] == id;
    }
  }

  /** A core is at least as rich as every player of its side left out,
      on either side. */
  lemma CoresAreRichest(ps: seq<Player>, radiant: bool, n: nat, p: Player, q: Player)
    requires p in TopByGold(Side(ps, radiant), n)
    requires q in Side(ps, radiant) && q !in TopByGold(Side(ps, radiant), n)
    ensures TotalGold(p) >= TotalGold(q)
  {
    var top := TopByGold(Side(ps, radiant), n);
    assert q in multiset(Side(ps, radiant)) - multiset(top) by {
      assert multiset(top)[q] == 0;
    }
  }

  /** Every id `richest_ids` returns for a side is the id of a player `p`
      of that side who is at least as rich as every player of the side left
      out. */
  lemma RichestIdsAreRichest(ps: seq<Player>, radiant: bool, n: nat, id: AccountId) returns (p: Player)
    requires id in (if radiant then RichestIds(ps, n).radiant else RichestIds(ps, n).dire)
    ensures p in Side(ps, radiant) && p.accountId == id
    ensures forall q | q in Side(ps, radiant) && q !in TopByGold(Side(ps, radiant), n) ::
      TotalGold(p) >= TotalGold(q)
  {
    var side := Side(ps, radiant);
    var top := TopByGold(side, n);
    var ids := AccountIds(top);
    assert ids == (if radiant then RichestIds(ps, n).radiant else RichestIds(ps, n).dire);
    var i :| 0 <= i < |ids| && ids[i] == id;
    p := top[i];
    assert p in multiset(side) by {
      assert p in multiset(top);
    }
    forall q | q in side && q !in top
      ensures TotalGold(p) >= TotalGold(q)
    {
      CoresAreRichest(ps, radiant, n, p, q);
    }
  }
}
