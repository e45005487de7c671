/** Per-minute gold and experience differentials of a match record. */
module Series {
  import opened Wrappers
  import opened MatchRecord
  import opened Seqs

  datatype SeriesKey = GoldT | XpT

  function Samples(p: Player, key: SeriesKey): Option<seq<int>> {
    match key
    case GoldT => p.goldT
    case XpT => p.xpT
  }

  /** What player `p` adds to minute `i`: its sample `i`, when its list is
      present, non-empty and long enough. */
  function Contribution(p: Player, key: SeriesKey, i: nat): int {
    match Samples(p, key)
    case Some(s) => if |s| > 0 && i < |s| then s[i] else 0
    case None => 0
  }

  /** Entry `i` of the series: the sum of the contributions of all players. */
  function ColumnSum(ps: seq<Player>, key: SeriesKey, i: nat): int {
    if ps == [] then 0
    else ColumnSum(ps[..|ps| - 1], key, i) + Contribution(ps[|ps| - 1], key, i)
  }

  /** `series`: an array of `length` zeros, to which every player with a
      non-empty list adds its first `length` samples. */
  method Series(ps: seq<Player>, key: SeriesKey, length: nat) returns (arr: seq<int>)
    ensures |arr| == length
    ensures forall i | 0 <= i < length :: arr[i] == ColumnSum(ps, key, i)
  {
    var a := new int[length](_ => 0);
    var k := 0;
    while k < |ps|
      invariant 0 <= k <= |ps|
      invariant forall i | 0 <= i < length :: a[i] == ColumnSum(ps[..k], key, i)
    {
      var samples := Samples(ps[k], key);
      if samples.Some? && |samples.value| > 0 {
        var vals := samples.value[..Min(length, |samples.value|)];
        var j := 0;
        while j < |vals|
          invariant 0 <= j <= |vals|
          invariant forall i | 0 <= i < length ::
            a[i] == ColumnSum(ps[..k], key, i) + (if i < j then vals[i] else 0)
        {
          a[j] := a[j] + vals[j];
          j := j + 1;
        }
      }
      assert ps[..k + 1][..k] == ps[..k];
      k := k + 1;
    }
    assert ps[..k] == ps;
    arr := a[..];
  }

  /** The longest `gold_t` list of the players (a missing list counts as empty). */
  function LongestGoldT(ps: seq<Player>): (n: nat)
    ensures forall p | p in ps :: |p.goldT.GetOr([])| <= n
    ensures ps != [] ==> exists p | p in ps :: |p.goldT.GetOr([])| == n
  {
    if ps == [] then 0
    else
      var rest := LongestGoldT(ps[1..]);
      var here := |ps[0].goldT.GetOr([])|;
      if here >= rest then here else rest
  }

  /** Past the end of every list a minute has no samples at all. */
  lemma {:induction false} ColumnSumBeyondSamples(ps: seq<Player>, key: SeriesKey, i: nat)
    requires forall p | p in ps :: Samples(p, key).None? || i >= |Samples(p, key).value|
    ensures ColumnSum(ps, key, i) == 0
  {
    if ps != [] {
      ColumnSumBeyondSamples(ps[..|ps| - 1], key, i);
    }
  }

  /** The differential of minute `i`: Radiant's column sum minus Dire's. */
  function Differential(ps: seq<Player>, key: SeriesKey, i: nat): int {
    ColumnSum(Side(ps, true), key, i) - ColumnSum(Side(ps, false), key, i)
  }

  /** Length of both differential arrays: the longest gold list, at least 1. */
  function AdvLength(ps: seq<Player>): nat {
    if LongestGoldT(ps) >= 1 then LongestGoldT(ps) else 1
  }

  /** The differential arrays `gold_xp_adv` returns, as values. */
  function AdvSeries(ps: seq<Player>, key: SeriesKey): (r: seq<int>)
    ensures |r| == AdvLength(ps)
    ensures forall i | 0 <= i < |r| :: r[i] == Differential(ps, key, i)
  {
    seq(AdvLength(ps), i requires 0 <= i => Differential(ps, key, i))
  }

  /** `gold_xp_adv`: fails on a record without players (the maximum of an
      empty sequence); otherwise both arrays have the gold-derived length and
      entry `i` is the Radiant sum minus the Dire sum of minute `i`. */
  method GoldXpAdv(ps: seq<Player>) returns (r: Result<(seq<int>, seq<int>), MatchError>)
    ensures r.Err? <==> ps == []
    ensures r.Err? ==> r.error == NoPlayers
    ensures r.Ok? ==> r.value.0 == AdvSeries(ps, GoldT) && r.value.1 == AdvSeries(ps, XpT)
  {
    if ps == [] {
      return Err(NoPlayers);
    }
    var length := AdvLength(ps);
    var rg := Series(Side(ps, true), GoldT, length);
    var dg := Series(Side(ps, false), GoldT, length);
    var rx := Series(Side(ps, true), XpT, length);
    var dx := Series(Side(ps, false), XpT, length);
    var g := seq(length, i requires 0 <= i < length => rg[i] - dg[i]);
    var x := seq(length, i requires 0 <= i < length => rx[i] - dx[i]);
    r := Ok((g, x));
  }

  /** The experience array is cut or zero-padded to the gold-derived length:
      a minute past every experience list reads 0. */
  lemma XpPaddedWithZeros(ps: seq<Player>, i: nat)
    requires i < AdvLength(ps)
    requires forall p | p in ps :: p.xpT.None? || i >= |p.xpT.value|
    ensures AdvSeries(ps, XpT)[i] == 0
  {
    forall p | p in Side(ps, true) ensures p in ps {
      SideMembers(ps, true, p);
    }
    forall p | p in Side(ps, false) ensures p in ps {
      SideMembers(ps, false, p);
    }
    ColumnSumBeyondSamples(Side(ps, true), XpT, i);
    ColumnSumBeyondSamples(Side(ps, false), XpT, i);
  }
}
