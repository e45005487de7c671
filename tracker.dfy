/** The online death tracker: the last alive status seen per player key and
    the bounded buffer of death timestamps, updated from each snapshot. */
module Tracker {
  import opened Wrappers
  import opened Features
  import opened Gsi
  import opened Seqs

  /** The buffer is a `deque(maxlen=200)`. */
  const BufferCapacity: nat := 200

  /** The last `n` elements of `s`: what a bounded deque keeps. */
  function KeepLast(s: seq<int>, n: nat): (r: seq<int>)
    ensures |r| == Min(|s|, n)
    ensures r == s[|s| - |r|..]
  {
    if |s| <= n then s else s[|s| - n..]
  }

  /** Appending to a full deque drops its oldest element. */
  lemma KeepLastPush(s: seq<int>, x: int, n: nat)
    requires |s| == n && n > 0
    ensures KeepLast(s + [x], n) == s[1..] + [x]
  {
  }

  /** Trimming before an append and trimming after it keep the same
      suffix. */
  lemma KeepLastAppend(s: seq<int>, t: seq<int>, n: nat)
    ensures KeepLast(KeepLast(s, n) + t, n) == KeepLast(s + t, n)
  {
    var k := KeepLast(s, n);
    var u := s + t;
    var v := k + t;
    assert v == u[|s| - |k|..];
    if |v| > n {
      assert v[|v| - n..] == u[|u| - n..];
    }
  }

  /** `last_alive.get(sid, True)`. */
  function WasAlive(seen: map<string, bool>, sid: string): bool {
    if sid in seen then seen[sid] else true
  }

  datatype TrackerState = TrackerState(lastAlive: map<string, bool>, buffer: seq<int>)

  /** One iteration of `update_deaths`: a death is recorded when the stored
      status is alive and the snapshot's is dead; the stored status becomes
      the snapshot's. */
  function Step(st: TrackerState, e: Entry, ts: int): TrackerState {
    var alive := AliveOf(e.1);
    var buffer := if WasAlive(st.lastAlive, e.0) && !alive then KeepLast(st.buffer + [ts], BufferCapacity)
                  else st.buffer;
    TrackerState(st.lastAlive[e.0 := alive], buffer)
  }

  /** `update_deaths` over the entries `r`, in order. */
  function Observe(st: TrackerState, r: seq<Entry>, ts: int): TrackerState {
    if r == [] then st
    else Step(Observe(st, r[..|r| - 1], ts), r[|r| - 1], ts)
  }

  /** The entries of `r` whose stored status is alive and whose snapshot
      status is dead. */
  function Transitions(seen: map<string, bool>, r: seq<Entry>): (n: nat)
    ensures n <= |r|
  {
    if r == [] then 0
    else
      var e := r[|r| - 1];
      Transitions(seen, r[..|r| - 1]) + (if WasAlive(seen, e.0) && !AliveOf(e.1) then 1 else 0)
  }

  function Repeat(x: int, k: nat): (s: seq<int>)
    ensures |s| == k && forall i | 0 <= i < k :: s[i] == x
  {
    seq(k, _ => x)
  }

  /** After an update every key of the snapshot holds the snapshot's status,
      and every other key is as before. */
  lemma ObserveStatus(st: TrackerState, r: seq<Entry>, ts: int)
    ensures Observe(st, r, ts).lastAlive.Keys == st.lastAlive.Keys + set i | 0 <= i < |r| :: r[i].0
    ensures forall sid | sid in st.lastAlive && sid !in Sids(r) ::
      Observe(st, r, ts).lastAlive[sid] == st.lastAlive[sid]
    ensures Distinct(Sids(r)) ==>
      forall i | 0 <= i < |r| :: Observe(st, r, ts).lastAlive[r[i].0] == AliveOf(r[i].1)
  {
    ObserveKeys(st, r, ts);
    forall sid | sid in st.lastAlive && sid !in Sids(r)
      ensures Observe(st, r, ts).lastAlive[sid] == st.lastAlive[sid]
    {
      ObserveOther(st, r, ts, sid);
    }
    if Distinct(Sids(r)) {
      forall i | 0 <= i < |r|
        ensures Observe(st, r, ts).lastAlive[r[i].0] == AliveOf(r[i].1)
      {
        ObserveOwn(st, r, ts, i);
      }
    }
  }

  /** The keys after an update: the old keys and the snapshot's. */
  lemma {:induction false} ObserveKeys(st: TrackerState, r: seq<Entry>, ts: int)
    ensures Observe(st, r, ts).lastAlive.Keys == st.lastAlive.Keys + set i | 0 <= i < |r| :: r[i].0
  {
    if r != [] {
      var init := r[..|r| - 1];
      ObserveKeys(st, init, ts);
      assert (set i | 0 <= i < |r| :: r[i].0) == (set i | 0 <= i < |init| :: init[i].0) + {r[|r| - 1].0} by {
        assert forall i | 0 <= i < |init| :: init[i] == r[i];
      }
    }
  }

  /** A stored key the snapshot does not carry keeps its status. */
  lemma {:induction false} ObserveOther(st: TrackerState, r: seq<Entry>, ts: int, sid: string)
    requires sid in st.lastAlive && sid !in Sids(r)
    ensures sid in Observe(st, r, ts).lastAlive
    ensures Observe(st, r, ts).lastAlive[sid] == st.lastAlive[sid]
  {
    if r != [] {
      var init := r[..|r| - 1];
      assert Sids(r)[|r| - 1] == r[|r| - 1].0;
      assert Sids(init) == Sids(r)[..|r| - 1];
      ObserveOther(st, init, ts, sid);
    }
  }

  /** Without repeated keys, each key of the snapshot ends with its own
      status. */
  lemma {:induction false} ObserveOwn(st: TrackerState, r: seq<Entry>, ts: int, i: nat)
    requires Distinct(Sids(r)) && i < |r|
    ensures r[i].0 in Observe(st, r, ts).lastAlive
    ensures Observe(st, r, ts).lastAlive[r[i].0] == AliveOf(r[i].1)
  {
    if i < |r| - 1 {
      var init := r[..|r| - 1];
      LastKeyFresh(r);
      assert Sids(r)[i] != Sids(r)[|r| - 1];
      assert init[i] == r[i];
      ObserveOwn(st, init, ts, i);
    }
  }

  /** An update appends the update's timestamp once per transition, the
      buffer keeping its last 200 entries. */
  lemma {:induction false} ObserveBuffer(st: TrackerState, r: seq<Entry>, ts: int)
    requires Distinct(Sids(r)) && |st.buffer| <= BufferCapacity
    ensures Observe(st, r, ts).buffer ==
      KeepLast(st.buffer + Repeat(ts, Transitions(st.lastAlive, r)), BufferCapacity)
  {
    if r == [] {
      assert st.buffer + [] == st.buffer;
    } else {
      var init := r[..|r| - 1];
      var e := r[|r| - 1];
      LastKeyFresh(r);
      ObserveBuffer(st, init, ts);
      UnlistedKeyUnchanged(st, init, ts, e.0);
      StepBuffer(st, Observe(st, init, ts), e, ts, Transitions(st.lastAlive, init));
    }
  }

  /** Without repeated keys, the prefix has no repeated keys and does not
      carry the last key. */
  lemma LastKeyFresh(r: seq<Entry>)
    requires Distinct(Sids(r)) && r != []
    ensures Distinct(Sids(r[..|r| - 1])) && r[|r| - 1].0 !in Sids(r[..|r| - 1])
  {
    var init := r[..|r| - 1];
    assert Sids(init) == Sids(r)[..|r| - 1];
    forall i | 0 <= i < |init| ensures Sids(init)[i] != r[|r| - 1].0 {
      assert Sids(r)[i] != Sids(r)[|r| - 1];
    }
  }

  /** One step of the buffer induction: a transition appends one more
      timestamp to the untrimmed buffer. */
  lemma StepBuffer(st: TrackerState, mid: TrackerState, e: Entry, ts: int, k: nat)
    requires mid.buffer == KeepLast(st.buffer + Repeat(ts, k), BufferCapacity)
    requires WasAlive(mid.lastAlive, e.0) == WasAlive(st.lastAlive, e.0)
    ensures Step(mid, e, ts).buffer == KeepLast(st.buffer + Repeat(ts,
      k + (if WasAlive(st.lastAlive, e.0) && !AliveOf(e.1) then 1 else 0)), BufferCapacity)
  {
    if WasAlive(st.lastAlive, e.0) && !AliveOf(e.1) {
      KeepLastAppend(st.buffer + Repeat(ts, k), [ts], BufferCapacity);
      assert st.buffer + Repeat(ts, k) + [ts] == st.buffer + Repeat(ts, k + 1);
    }
  }

  /** A key the entries do not carry keeps its stored status. */
  lemma UnlistedKeyUnchanged(st: TrackerState, r: seq<Entry>, ts: int, sid: string)
    requires sid !in Sids(r)
    ensures WasAlive(Observe(st, r, ts).lastAlive, sid) == WasAlive(st.lastAlive, sid)
  {
    ObserveStatus(st, r, ts);
    assert sid !in (set i | 0 <= i < |r| :: r[i].0) by {
      forall i | 0 <= i < |r| ensures r[i].0 != sid {
        assert Sids(r)[i] == r[i].0;
      }
    }
  }

  /** Updating twice with the same snapshot is updating once: the second
      call finds every status already stored and records no death. */
  lemma ObserveIdempotent(st: TrackerState, r: seq<Entry>, ts: int, ts2: int)
    requires Distinct(Sids(r)) && |st.buffer| <= BufferCapacity
    ensures Observe(Observe(st, r, ts), r, ts2) == Observe(st, r, ts)
  {
    var once := Observe(st, r, ts);
    ObserveStatus(st, r, ts);
    NoTransitionsWhenSeen(once.lastAlive, r);
    ObserveBounded(st, r, ts);
    ObserveBuffer(once, r, ts2);
    assert once.buffer + [] == once.buffer;
    SecondStatusUnchanged(st, r, ts, ts2);
  }

  lemma SecondStatusUnchanged(st: TrackerState, r: seq<Entry>, ts: int, ts2: int)
    requires Distinct(Sids(r))
    ensures Observe(Observe(st, r, ts), r, ts2).lastAlive == Observe(st, r, ts).lastAlive
  {
    var once := Observe(st, r, ts);
    var twice := Observe(once, r, ts2);
    ObserveStatus(st, r, ts);
    ObserveStatus(once, r, ts2);
    assert twice.lastAlive.Keys == once.lastAlive.Keys;
    forall sid | sid in once.lastAlive
      ensures twice.lastAlive[sid] == once.lastAlive[sid]
    {
      if sid in Sids(r) {
        var i :| 0 <= i < |r| && Sids(r)[i] == sid;
        assert r[i].0 == sid;
      }
    }
  }

  /** A key whose stored status is the snapshot's own status records no
      death. */
  lemma {:induction false} NoTransitionsWhenSeen(seen: map<string, bool>, r: seq<Entry>)
    requires forall i | 0 <= i < |r| :: r[i].0 in seen && seen[r[i].0] == AliveOf(r[i].1)
    ensures Transitions(seen, r) == 0
  {
    if r != [] {
      NoTransitionsWhenSeen(seen, r[..|r| - 1]);
    }
  }

  /** A player the tracker has never seen counts as alive before, so one
      that is dead the first time it is seen is recorded as a death. */
  lemma {:induction false} FirstSeenDeadCounts(seen: map<string, bool>, r: seq<Entry>, i: nat)
    requires i < |r| && r[i].0 !in seen && !AliveOf(r[i].1)
    ensures Transitions(seen, r) >= 1
  {
    if i < |r| - 1 {
      FirstSeenDeadCounts(seen, r[..|r| - 1], i);
    }
  }

  /** The buffer never holds more than 200 timestamps. */
  lemma {:induction false} ObserveBounded(st: TrackerState, r: seq<Entry>, ts: int)
    requires |st.buffer| <= BufferCapacity
    ensures |Observe(st, r, ts).buffer| <= BufferCapacity
  {
    if r != [] {
      ObserveBounded(st, r[..|r| - 1], ts);
    }
  }

  /** Entries of `buffer` at or after `cut`. */
  function CountFrom(buffer: seq<int>, cut: int): (n: nat)
    ensures n <= |buffer|
  {
    if buffer == [] then 0
    else CountFrom(buffer[..|buffer| - 1], cut) + (if buffer[|buffer| - 1] >= cut then 1 else 0)
  }

  lemma {:induction false} CountFromAppend(a: seq<int>, b: seq<int>, cut: int)
    ensures CountFrom(a + b, cut) == CountFrom(a, cut) + CountFrom(b, cut)
  {
    if b == [] {
      assert a + b == a;
    } else {
      CountFromAppend(a, b[..|b| - 1], cut);
      assert (a + b)[..|a + b| - 1] == a + b[..|b| - 1];
      assert (a + b)[|a + b| - 1] == b[|b| - 1];
    }
  }

  /** Every entry at or after the cut is counted, and none before it. */
  lemma {:induction false} CountFromBounds(buffer: seq<int>, cut: int)
    ensures (forall i | 0 <= i < |buffer| :: buffer[i] >= cut) ==> CountFrom(buffer, cut) == |buffer|
    ensures (forall i | 0 <= i < |buffer| :: buffer[i] < cut) ==> CountFrom(buffer, cut) == 0
  {
    if buffer != [] {
      CountFromBounds(buffer[..|buffer| - 1], cut);
    }
  }

  /** A wider window counts at least as many deaths. */
  lemma {:induction false} CountFromMonotone(buffer: seq<int>, cut: int, cut2: int)
    requires cut2 <= cut
    ensures CountFrom(buffer, cut) <= CountFrom(buffer, cut2)
  {
    if buffer != [] {
      CountFromMonotone(buffer[..|buffer| - 1], cut, cut2);
    }
  }

  /** The window has a lower cut only: a timestamp later than `now` counts. */
  lemma LowerCutOnly(now: int)
    ensures CountFrom([now + 5], now - 15) == 1
    ensures CountFrom([now - 16], now - 15) == 0
  {
    assert [now + 5][..0] == [];
    assert [now - 16][..0] == [];
  }

  /** The deaths an update records are counted by any window whose cut is
      at or before the update's timestamp. */
  lemma FreshDeathsCounted(buffer: seq<int>, ts: int, k: nat, cut: int)
    requires ts >= cut && k <= BufferCapacity
    ensures CountFrom(KeepLast(buffer + Repeat(ts, k), BufferCapacity), cut) >= k
  {
    var u := buffer + Repeat(ts, k);
    var kept := KeepLast(u, BufferCapacity);
    var old' := kept[..|kept| - k];
    assert kept == old' + Repeat(ts, k) by {
      assert kept[|kept| - k..] == Repeat(ts, k);
    }
    CountFromAppend(old', Repeat(ts, k), cut);
    CountFromBounds(Repeat(ts, k), cut);
  }

  /** The tracker's mutable state: `last_alive` and `death_buffer`. */
  class DeathTracker {
    var lastAlive: map<string, bool>
    var deathBuffer: seq<int>

    ghost predicate Valid()
      reads this
    {
      |deathBuffer| <= BufferCapacity
    }

    function State(): TrackerState
      reads this
    {
      TrackerState(lastAlive, deathBuffer)
    }

    constructor ()
      ensures Valid()
      ensures lastAlive == map[] && deathBuffer == []
    {
      lastAlive := map[];
      deathBuffer := [];
    }

    /** `update_deaths(gsi)`, the clock reading `ts` given as a parameter. */
    method UpdateDeaths(g: Snapshot, ts: int)
      requires Valid()
      modifies this
      ensures Valid()
      ensures State() == Observe(old(State()), g.allplayers, ts)
    {
      var r := g.allplayers;
      for k := 0 to |r|
        invariant State() == Observe(old(State()), r[..k], ts)
        invariant Valid()
      {
        var (sid, p) := r[k];
        var alive := AliveOf(p);
        var was := WasAlive(lastAlive, sid);
        if was && !alive {
          deathBuffer := KeepLast(deathBuffer + [ts], BufferCapacity);
        }
        lastAlive := lastAlive[sid := alive];
        assert r[..k + 1][..k] == r[..k];
      }
      assert r[..|r|] == r;
    }

    /** `recent_deaths_window(sec)` at clock reading `now`: the timestamps
        at or after `now - sec`. */
    function RecentDeathsWindow(now: int, sec: int): (n: nat)
      reads this
      ensures n <= |deathBuffer|
    {
      CountFrom(deathBuffer, now - sec)
    }
  }
}
