# Macro-state labelling engine

A Dafny model of the macro-state labelling engine of a Dota 2 assistant. The engine has two paths.

- **Offline builder.** `build_dataset.py` turns recorded OpenDota match records into labelled feature rows, one per time step.
  - Per-minute gold and experience differentials (`series`, `gold_xp_adv`).
  - A table of death times per account (`deaths_map`).
  - The two richest "core" players per side (`richest_ids`).
  - The respawn-interval test (`is_dead`).
  - The fixed-step sequencer (`snapshots`) and the nine-label rule cascade (`label`).
  - The skip counter of the batch (`build`).
- **Online feature extractor.** `mvp1_core.py` computes the same twelve features from live Game State Integration (GSI) snapshots.
  - It keeps a death tracker: the map `last_alive` and the 200-slot deque `death_buffer`, updated by `update_deaths`.
  - It has pure feature helpers (`team_of_player`, `gold_adv`, `xp_adv`, `core_ids`, `towers_dire_t3_down`, `roshan_alive`).
  - It assembles the twelve-feature vector inside the evaluation loop. The model lifts that part out as `LiveVector.ComputeFeatures`.

Modules:

| module | file | what it holds |
|---|---|---|
| `Wrappers` | `wrappers.dfy` | `Option` and `Result`. |
| `Seqs` | `seqs.dfy` | `Min` and a multiset split fact. |
| `Features` | `features.dfy` | The nine labels, the twelve-field `FeatureVector` and the `FEATURES` key list. |
| `Cascade` | `cascade.dfy` | `label`, and a reference definition of it as first-match over a priority list. |
| `MatchRecord` | `match_record.dfy` | The OpenDota match record and the two sides. |
| `Series` | `series.dfy` | `series` and `gold_xp_adv`. |
| `Deaths` | `deaths.dfy` | `deaths_map`, `is_dead` and the offline ±7 s recent-deaths count. |
| `Richest` | `richest.dfy` | `richest_ids`. |
| `Sequencer` | `sequencer.dfy` | `snapshots` and `build`. |
| `Gsi` | `gsi.dfy` | The GSI snapshot and the pure online helpers. |
| `Tracker` | `tracker.dfy` | The death tracker: its update as a function, and a class `DeathTracker` holding `last_alive` and `death_buffer`. |
| `LiveVector` | `live_vector.dfy` | The live feature vector. |

How the Python data is represented:

- **Optional JSON fields.** A field read with `.get(k, default)` is an `Option` read with that same default. A field read with `[k]` is a plain field.
- **`deaths_map`.** This dict is an association sequence with dictionary-assignment semantics (`Deaths.Put`): a repeated key keeps the position of its first occurrence and the last value written.
- **`allplayers`.** This GSI object is a sequence of `(key, player)` pairs with distinct keys, in JSON object order (`Gsi.Roster`).
- **Python exceptions.** An exception raised inside `snapshots` becomes an `Err` of `MatchError`. The batch counts that match as skipped and goes on.
  - `max()` of an empty player list raises.
  - So does a Roshan-kill objective without a `time`.
  - So does `range` with step 0.
  - So does an out-of-range list index.
- **Integer arithmetic.**
  - Python integers are unbounded, like Dafny's `int`.
  - `t // 60` is floor division. Dafny's `/` by a positive divisor is the same.
- **Python list indexing.** A negative index counts from the end (`Sequencer.PyIndex`).

## Model

| member | source | states |
|---|---|---|
| `Features.ToMap` | scripts/mvp1_core.py:29-35 | The vector as a map has, under each of the twelve `FEATURES` names, the value of that feature. |
| `Features.TwelveKeys` | scripts/mvp1_core.py:152-162 | The live vector has exactly the twelve keys of `FEATURES`, no more and no fewer. |
| `Cascade.Label` | scripts/build_dataset.py:55-84 | `label`, written as the source's if-cascade. No contract of its own: `Cascade.LabelIsFirstFiring` and `Cascade.LabelCharacterised` state its meaning, and the threshold lemmas below state each rule's boundary. |
| `Cascade.LabelIsFirstFiring` | scripts/build_dataset.py:55-84 | The written if-cascade is first-match evaluation of the priority list TEAMFIGHT, TAKE_ROSHAN, CONTEST_ROSHAN, SIEGE, PUSH, DEFEND, GANK, STACK with FARM as default. Each rule's guard is read on its own, and the Roshan rules carry the `roshan_alive` test. |
| `Cascade.FirstFiringCharacterised` | scripts/build_dataset.py:55-84 | Over distinct rules, first-match gives rule `i` iff rule `i` fires and no earlier rule does. It gives FARM iff no rule fires. |
| `Cascade.FirstFiringAt` | scripts/build_dataset.py:55-84 | The per-rule half of the characterisation, both directions. |
| `Cascade.FirstFiringIn` | scripts/build_dataset.py:55-84 | First-match returns one of the rules or FARM. |
| `Cascade.FirstFiringDefault` | scripts/build_dataset.py:84 | FARM is returned iff no rule fires. |
| `Cascade.FirstFiringCons` | scripts/build_dataset.py:55-84 | One step of first-match: the head rule wins when it fires, and otherwise the rest decides. |
| `Cascade.LabelCharacterised` | scripts/build_dataset.py:55-84 | Every row has exactly one label. It is `Priority[i]` iff that rule fires and none before it does, and FARM iff none fires. |
| `Cascade.TeamfightDominates` | scripts/build_dataset.py:56-57 | `recent_deaths >= 6` gives TEAMFIGHT whatever the other features are. |
| `Cascade.TeamfightBeforeSiege` | scripts/build_dataset.py:56-66 | A row with gold advantage 20000, a T3 down and 6 recent deaths satisfies SIEGE's guard yet is labelled TEAMFIGHT. |
| `Cascade.RoshanRulesNeedRoshan` | scripts/build_dataset.py:59-63 | TAKE_ROSHAN and CONTEST_ROSHAN are only given while Roshan is alive and TEAMFIGHT did not fire. |
| `Cascade.RoshanFallsThrough` | scripts/build_dataset.py:59-66 | With Roshan alive but neither Roshan rule firing, the label is the one the row would get with Roshan dead. Evaluation falls through to SIEGE and the later rules, not straight to FARM. |
| `Cascade.PushThreshold` | scripts/build_dataset.py:68-69 | With `recent_deaths < 6`, `roshan_alive == 0` and `towers_dire_t3_down == 0`, PUSH is given iff `gold_adv > 4000` and `enemy_dead_tot <= 1`. |
| `Cascade.PushBoundaryExamples` | scripts/build_dataset.py:68-69 | A gold advantage of 4000 does not give PUSH, and 4001 does. |
| `Cascade.DefendThreshold` | scripts/build_dataset.py:71-72 | With no TEAMFIGHT and Roshan dead, DEFEND is given iff `gold_adv < -4000` and `our_dead_tot <= 1`. |
| `Cascade.GankNeedsExactlyOneEnemyCore` | scripts/build_dataset.py:75-77 | With Roshan dead, `-4000 <= gold_adv <= 4000`, `our_alive >= 3` and `recent_deaths < 2`, GANK is given iff exactly one enemy core is alive. |
| `Cascade.StackThreshold` | scripts/build_dataset.py:80-82 | With `recent_deaths < 6`, `roshan_alive == 0` and GANK's guard false, STACK is given iff nobody is dead and `abs(gold_adv) <= 2000`. |
| `Cascade.StackBoundaryExamples` | scripts/build_dataset.py:80-82 | At +2000 and at -2000 the row is STACK, and at 2001 it is FARM. |
| `Cascade.FarmIsDefault` | scripts/build_dataset.py:84 | FARM iff no rule of the priority list fires. |
| `MatchRecord.Side` | scripts/build_dataset.py:33-34 | A side is never longer than the record. |
| `MatchRecord.SideMembers` | scripts/build_dataset.py:33-34 | A player is in a side iff it is in the record with that `isRadiant` value. |
| `MatchRecord.SidesPartition` | scripts/build_dataset.py:33-34 | Together the two sides have exactly as many players as the record. |
| `Series.Series` | scripts/build_dataset.py:24-30 | The array has exactly `length` entries. Entry `i` is the sum of sample `i` over the players whose list is present, non-empty and long enough. |
| `Series.LongestGoldT` | scripts/build_dataset.py:35 | The result bounds every `gold_t` length and is the length of one of them. |
| `Series.ColumnSumBeyondSamples` | scripts/build_dataset.py:26-29 | A minute beyond every player's list sums to 0. |
| `Series.AdvSeries` | scripts/build_dataset.py:35-37 | The differential has length `max(longest gold_t, 1)`. Entry `i` is the Radiant column sum minus the Dire one. |
| `Series.GoldXpAdv` | scripts/build_dataset.py:32-38 | It fails exactly on a record without players. Otherwise it returns the gold and experience differentials, both of the gold-derived length. |
| `Series.XpPaddedWithZeros` | scripts/build_dataset.py:35-37 | The experience array uses the gold-derived length: a minute past every experience list reads 0. |
| `Deaths.Get` | scripts/build_dataset.py:52 | A lookup succeeds iff some entry has the id. |
| `Deaths.Put` | scripts/build_dataset.py:41 | Dictionary assignment keeps keys distinct, maps the id to the new value and leaves every other id's value alone. |
| `Deaths.PutNewKeyAppends` | scripts/build_dataset.py:41 | Assigning a new key appends it at the end. |
| `Deaths.DeathsMap` | scripts/build_dataset.py:40-41 | The table has distinct keys. |
| `Deaths.DeathsMapLookup` | scripts/build_dataset.py:40-41 | Looking an id up in `deaths_map` gives the death times of the last player with that id, and nothing iff no player has it. |
| `Deaths.LastDeaths` | scripts/build_dataset.py:40-41 | The reference definition: present iff some player has the id, and then the `death_times` of the last such player. |
| `Deaths.AnonymousPlayersShareOneEntry` | scripts/build_dataset.py:41 | Two players without an account id share one entry, and the later one's deaths win. |
| `Deaths.AnyCovers` | scripts/build_dataset.py:52 | True iff some death `d` has `d <= t < d + resp`. |
| `Deaths.IsDead` | scripts/build_dataset.py:51-52 | `is_dead` holds iff the id has an entry in the table and some recorded death `d` of it has `d <= t < d + resp`. |
| `Deaths.UnknownIdNeverDead` | scripts/build_dataset.py:52 | An id absent from the table is never dead. |
| `Deaths.RespawnInterval` | scripts/build_dataset.py:51-52 | A player who died at 100 with respawn 40 is dead exactly on [100, 140). |
| `Deaths.NearCount` | scripts/build_dataset.py:115 | At most one count per recorded death. |
| `Deaths.RecentDeaths` | scripts/build_dataset.py:115 | The reference count of table deaths within ±7 s of `t`. No contract of its own: `Deaths.CountRecent` ties the source's loop to it, and `Deaths.RecentWindowIsSymmetric` and `Deaths.RecentDeathsCountsAllPlayers` state what it counts. |
| `Deaths.CountRecent` | scripts/build_dataset.py:115 | The counting loop returns the number of table deaths `d` with `t-7 <= d <= t+7`. |
| `Deaths.RecentWindowIsSymmetric` | scripts/build_dataset.py:115 | The offline window includes deaths after `t`: `t+5`, `t-7` and `t+7` are counted, while `t-8` and `t+8` are not. |
| `Deaths.RecentDeathsCountsAllPlayers` | scripts/build_dataset.py:115 | With distinct account ids, the count over the table is the count over every death of every player. |
| `Richest.InsertByGold` | scripts/build_dataset.py:45 | Insertion adds exactly the one player. |
| `Richest.InsertKeepsDescending` | scripts/build_dataset.py:45 | Insertion keeps the list ordered by descending `total_gold`. |
| `Richest.SortByGold` | scripts/build_dataset.py:45 | `sorted(..., reverse=True)` is a permutation ordered by descending `total_gold`, with missing gold read as 0. |
| `Richest.TopByGold` | scripts/build_dataset.py:45 | `[:n]` of that order gives `min(n, len)` players of the list, each at least as rich as every player left out. |
| `Richest.PrefixOutranksSuffix` | scripts/build_dataset.py:45 | In a gold-descending list every player of a prefix is at least as rich as every player after it. |
| `Richest.RichestIds` | scripts/build_dataset.py:43-49 | Each side gets `min(n, side size)` ids, all account ids of that side. |
| `Richest.TopIdsAmongSide` | scripts/build_dataset.py:44-45 | Every chosen id is the id of a player of the side. |
| `Richest.CoresAreRichest` | scripts/build_dataset.py:44-48 | On either side, a chosen player is at least as rich as any player of that side left out. |
| `Richest.RichestIdsAreRichest` | scripts/build_dataset.py:43-49 | Every id `richest_ids` returns for a side is the id of a player of that side who is at least as rich as every player of the side left out. |
| `Sequencer.RoshanKills` | scripts/build_dataset.py:92-93 | It fails iff some Roshan-kill objective has no `time`. Otherwise a time is listed iff it is the time of some Roshan-kill objective: every listed time comes from one, and every Roshan-kill objective's time is listed. |
| `Sequencer.RoshanAliveAt` | scripts/build_dataset.py:111-113 | The flag is 0 or 1. It is 0 iff some kill `k` has `k <= t < k + 600`. |
| `Sequencer.RoshanWindowExample` | scripts/build_dataset.py:111-113 | After a kill at 300, Roshan is down exactly on [300, 900). |
| `Sequencer.T3Down` | scripts/build_dataset.py:117-118 | The flag is 0 or 1. |
| `Sequencer.T3DownIsMaskTest` | scripts/build_dataset.py:117-118 | The flag is 1 iff bits 3, 4 and 5 of `tower_status_dire` are all clear. |
| `Sequencer.CountPlayers` | scripts/build_dataset.py:100-109 | The per-player loop of a tick computes the alive, dead and core-dead counts of both sides. |
| `Sequencer.CountsCoverSides` | scripts/build_dataset.py:100-109 | Per side, alive plus dead is the number of players on that side. |
| `Sequencer.TallyCounts` | scripts/build_dataset.py:103-109 | Each player adds exactly one to the alive-or-dead count of its own side. |
| `Sequencer.CoreDeadBounded` | scripts/build_dataset.py:106-109 | Core deaths of a side are at most the number of that side's players whose id is a core id. |
| `Sequencer.WithIdInBounded` | scripts/build_dataset.py:106-109 | With distinct ids, that number is at most the number of core ids. |
| `Sequencer.CoreCountsInRange` | scripts/build_dataset.py:125-126 | With distinct ids, `our_core_alive` and `enemy_core_alive` lie in 0..2. |
| `Sequencer.PyIndex` | scripts/build_dataset.py:98 | A valid index is itself. Any index it accepts is in range. |
| `Sequencer.Bucket` | scripts/build_dataset.py:97 | `min(t // 60, len - 1)` is at most the last index, and not negative for `t >= 0` and a non-empty array. |
| `Sequencer.RowAt` | scripts/build_dataset.py:97-132 | The reference row of tick `t`. No contract of its own: `Sequencer.TickRow` ties the loop body to it, and `Sequencer.RowAtFacts` and `Sequencer.RowFeatures` state what every row satisfies. |
| `Sequencer.TickRow` | scripts/build_dataset.py:97-133 | One tick computes the row of the reference definition `RowAt`: features read from bucket `min(t // 60, len - 1)`, and label `label(row)`. |
| `Sequencer.TickLoop` | scripts/build_dataset.py:95-134 | The tick loop returns the rows of ticks `0, step, 2*step, ...` inside the duration, or the first tick's failure. |
| `Sequencer.SnapshotsSpec` | scripts/build_dataset.py:87-134 | The reference definition of `snapshots`. No contract of its own: `Sequencer.Snapshots` equals it, and `Sequencer.SnapshotTicks`, `Sequencer.SnapshotFeatures` and `Sequencer.SnapshotsSucceed` state its meaning. |
| `Sequencer.Snapshots` | scripts/build_dataset.py:87-134 | `snapshots` equals its reference definition `SnapshotsSpec`. That definition fails on no players, on an untimed Roshan kill or on step 0, and otherwise gives the tick rows. |
| `Sequencer.TicksFromStep` | scripts/build_dataset.py:96 | The first tick in range contributes its row ahead of the rest. |
| `Sequencer.TicksFromFails` | scripts/build_dataset.py:96-143 | A failing tick fails the whole match. |
| `Sequencer.TicksFromEnd` | scripts/build_dataset.py:96 | The tick after the last produced row lies outside the range. |
| `Sequencer.TicksFromRow` | scripts/build_dataset.py:96 | Row `i` is the row of tick `t0 + i*step`, and that tick is in range. |
| `Sequencer.TicksShape` | scripts/build_dataset.py:96 | The rows are exactly those of ticks `i*step` for `i < |rows|`, and tick `|rows|*step` is out of range. |
| `Sequencer.RowAtFacts` | scripts/build_dataset.py:120-132 | A row carries its tick, its match id and `label` of its own features, read from some valid bucket. |
| `Sequencer.RowFeatures` | scripts/build_dataset.py:100-127 | In each row, alive plus dead is the side size on each side, `our_core_alive = 2 - our_core_dead` and `enemy_core_alive = 2 - enemy_core_dead`. |
| `Sequencer.SnapshotTicks` | scripts/build_dataset.py:96-132 | Every row of a match is at tick `i*step` inside the duration, with the match's id, and labelled by `label`. No further tick is in range. |
| `Sequencer.SnapshotFeatures` | scripts/build_dataset.py:100-127 | The side-size and core-alive identities hold in every row of `snapshots`. |
| `Sequencer.PositiveStepNeverFails` | scripts/build_dataset.py:96-98 | With a positive step from `t >= 0`, every bucket index is in range, so no tick fails. |
| `Sequencer.SnapshotsSucceed` | scripts/build_dataset.py:87-98 | A match with players, timed Roshan kills and a positive step always yields its rows. |
| `Sequencer.SkippedCount` | scripts/build_dataset.py:138-143 | At most one skip per file. |
| `Sequencer.Build` | scripts/build_dataset.py:137-151 | The batch concatenates the rows of every readable, well-formed match and counts the rest as skipped. It reports failure iff no row results, and otherwise saves the rows. |
| `Sequencer.AllSkippedMeansNoRows` | scripts/build_dataset.py:140-146 | When every file is skipped, no row results. |
| `Sequencer.SavedRowsAreLabelled` | scripts/build_dataset.py:132-141 | Every row of the batch carries `label` of its own features. |
| `Gsi.TeamOf` | scripts/mvp1_core.py:51-53 | `team` when it is set and non-zero, else `team2`, else 0. |
| `Gsi.GoldAdv` | scripts/mvp1_core.py:55-64 | `map.radiant_gold_adv` when present. Otherwise it is team 2's net worth minus everybody else's, where net worth is `net_worth`, else `gold`, else 0. |
| `Gsi.XpAdv` | scripts/mvp1_core.py:66-67 | `map.radiant_xp_adv`, 0 when absent. |
| `Gsi.RoshanAlive` | scripts/mvp1_core.py:98-100 | The flag is 0 or 1. It is 1 iff `roshan_state` is `"alive"`. |
| `Gsi.Contains` | scripts/mvp1_core.py:95 | Python's `in` on strings: true iff the pattern occurs at some position. |
| `Gsi.AtShift` | scripts/mvp1_core.py:95 | An occurrence in the tail is an occurrence one position later in the whole string. |
| `Gsi.Tower3s` | scripts/mvp1_core.py:94-95 | A building is kept iff its name contains `_tower3_`. |
| `Gsi.TowersDireT3Down` | scripts/mvp1_core.py:92-96 | The flag is 0 or 1. It is 1 iff some building is a tier-3 tower and every tier-3 tower has health 0, with missing health counting as 1. |
| `Gsi.Tower3NameExample` | scripts/mvp1_core.py:95 | `dota_badguys_tower3_top` is a tier-3 tower, and a building without a name is not. |
| `Gsi.MyTeam` | scripts/mvp1_core.py:130-131 | `player.team`, 2 when absent. |
| `Gsi.StrLeTotal` | scripts/mvp1_core.py:75-76 | Python string order is total. |
| `Gsi.StrLeTrans` | scripts/mvp1_core.py:75-76 | Python string order is transitive. |
| `Gsi.StrLeAntisymmetric` | scripts/mvp1_core.py:75-76 | Python string order is antisymmetric. |
| `Gsi.AtLeastTotal` | scripts/mvp1_core.py:75-76 | The order on the `(net_worth, sid)` tuples is total. |
| `Gsi.AtLeastTrans` | scripts/mvp1_core.py:75-76 | The order on the tuples is transitive. |
| `Gsi.AtLeastAntisymmetric` | scripts/mvp1_core.py:75-76 | The order on the tuples is antisymmetric. |
| `Gsi.InsertRanked` | scripts/mvp1_core.py:75-76 | Insertion adds exactly the one pair. |
| `Gsi.InsertKeepsDescending` | scripts/mvp1_core.py:75-76 | Insertion keeps the tuples descending. |
| `Gsi.SortRanked` | scripts/mvp1_core.py:75-76 | `sorted(pairs, reverse=True)` is a permutation in descending tuple order. |
| `Gsi.TopRanked` | scripts/mvp1_core.py:75-76 | `[:n]` gives `min(n, len)` of the pairs, descending, each at least every pair left out. |
| `Gsi.DescendingPrefix` | scripts/mvp1_core.py:75-76 | A prefix of a descending list is descending. |
| `Gsi.PrefixAtLeastSuffix` | scripts/mvp1_core.py:75-76 | In a descending list every pair of a prefix is at least every pair after it. |
| `Gsi.RankedSide` | scripts/mvp1_core.py:71-74 | A pair is collected for a side iff it is the `(net worth, key)` of a player of that side, where team 2 is "R" and every other team is "D". |
| `Gsi.TopCoresLength` | scripts/mvp1_core.py:75-77 | Each side has at most `n` cores. |
| `Gsi.CoreIds` | scripts/mvp1_core.py:69-77 | The collecting loop and the two sorts give the cores of the reference definition `TopCores`. |
| `Gsi.CoresOfSide` | scripts/mvp1_core.py:69-77 | At most `n` cores per side, each a player of that side. Every player of that side left out is ranked below every chosen one. |
| `Gsi.NoTeamIsDire` | scripts/mvp1_core.py:74 | A player with neither `team` nor `team2` is ranked on the Dire side, not the Radiant one. |
| `Tracker.KeepLast` | scripts/mvp1_core.py:46 | A bounded deque keeps the last `min(len, 200)` elements. |
| `Tracker.KeepLastPush` | scripts/mvp1_core.py:85 | Appending to a full deque drops its oldest element. |
| `Tracker.KeepLastAppend` | scripts/mvp1_core.py:85 | Trimming before an append and trimming after it keep the same elements. |
| `Tracker.Step` | scripts/mvp1_core.py:82-86 | One iteration of `update_deaths`. No contract of its own: `Tracker.StepBuffer` and `Tracker.ObserveStatus` state its effect. |
| `Tracker.Observe` | scripts/mvp1_core.py:79-86 | `update_deaths` over a whole snapshot as a function of the old state. No contract of its own: `Tracker.ObserveStatus`, `Tracker.ObserveBuffer`, `Tracker.ObserveIdempotent` and `Tracker.ObserveBounded` state its meaning, and `Tracker.DeathTracker.UpdateDeaths` is proved against it. |
| `Tracker.Transitions` | scripts/mvp1_core.py:83-85 | At most one death per snapshot entry. |
| `Tracker.ObserveStatus` | scripts/mvp1_core.py:81-86 | After an update the stored keys are the old ones plus the snapshot's. A key outside the snapshot keeps its status. With distinct keys, each snapshot key holds its snapshot status. |
| `Tracker.ObserveKeys` | scripts/mvp1_core.py:86 | The stored keys after an update are the old ones plus the snapshot's. |
| `Tracker.ObserveOther` | scripts/mvp1_core.py:81-86 | A stored key the snapshot does not carry keeps its status. |
| `Tracker.ObserveOwn` | scripts/mvp1_core.py:82-86 | Each key of the snapshot ends with the snapshot's own status, alive when missing. |
| `Tracker.ObserveBuffer` | scripts/mvp1_core.py:79-86 | The buffer gains the timestamp once per alive-to-dead transition, with an unseen key counting as alive, and keeps its last 200 entries. |
| `Tracker.StepBuffer` | scripts/mvp1_core.py:84-85 | One player's transition appends one more timestamp. |
| `Tracker.UnlistedKeyUnchanged` | scripts/mvp1_core.py:83-86 | A key the snapshot does not carry reads the same before and after. |
| `Tracker.ObserveIdempotent` | scripts/mvp1_core.py:83-86 | Updating twice with the same snapshot is updating once: the second call records no death. |
| `Tracker.SecondStatusUnchanged` | scripts/mvp1_core.py:86 | A second update with the same snapshot leaves the statuses as they were. |
| `Tracker.NoTransitionsWhenSeen` | scripts/mvp1_core.py:84 | A snapshot whose statuses are already stored records no death. |
| `Tracker.FirstSeenDeadCounts` | scripts/mvp1_core.py:83-85 | A player seen for the first time already dead is recorded as a death. |
| `Tracker.ObserveBounded` | scripts/mvp1_core.py:46 | The buffer never holds more than 200 timestamps. |
| `Tracker.CountFrom` | scripts/mvp1_core.py:89-90 | The count is at most the buffer length. |
| `Tracker.CountFromAppend` | scripts/mvp1_core.py:90 | The count over a concatenation is the sum of the counts. |
| `Tracker.CountFromBounds` | scripts/mvp1_core.py:89-90 | Entries all at or after the cut are all counted, and entries all before it count 0. |
| `Tracker.CountFromMonotone` | scripts/mvp1_core.py:88-90 | A wider window counts at least as many deaths. |
| `Tracker.LowerCutOnly` | scripts/mvp1_core.py:89-90 | The live window has only a lower cut: a timestamp after `now` is counted, and one more than 15 s old is not. |
| `Tracker.FreshDeathsCounted` | scripts/mvp1_core.py:85-90 | The deaths an update appends at a timestamp inside the window are all counted afterwards. |
| `Tracker.DeathTracker.constructor` | scripts/mvp1_core.py:46-47 | The tracker starts with no stored status and an empty buffer. |
| `Tracker.DeathTracker.UpdateDeaths` | scripts/mvp1_core.py:79-86 | The new `last_alive` and `death_buffer` are the update function `Observe` applied to the old ones. The buffer stays within 200. |
| `Tracker.DeathTracker.RecentDeathsWindow` | scripts/mvp1_core.py:88-90 | At most the buffer length. Its value is `CountFrom` of the buffer at `now - sec`, and the `CountFrom` lemmas state what that window counts. |
| `LiveVector.CountAlive` | scripts/mvp1_core.py:137-145 | The counting loop computes the alive and dead counts of our team and of every other team. |
| `LiveVector.CountSidesCover` | scripts/mvp1_core.py:137-145 | Alive plus dead is the size of our team on our side, and everybody else on the other. |
| `LiveVector.CoresAlive` | scripts/mvp1_core.py:148-149 | A core-alive count is at most the number of cores. |
| `LiveVector.UnseenCoresAlive` | scripts/mvp1_core.py:148-149 | Cores the tracker has never seen all count as alive. |
| `LiveVector.SnapshotAliveAt` | scripts/mvp1_core.py:82 | With distinct keys, the snapshot status of a key is that player's `alive`. |
| `LiveVector.CoresAliveAfterUpdate` | scripts/mvp1_core.py:148-149 | After the tracker has seen a snapshot, the core-alive count is the number of those cores the snapshot reports alive. |
| `LiveVector.CoreAliveCounts` | scripts/mvp1_core.py:147-149 | The two core-alive features read `last_alive` with default true over our two cores and the enemy's. Each is at most 2. |
| `LiveVector.ComputeFeatures` | scripts/mvp1_core.py:130-162 | The twelve live features. <br>• Gold, experience, Roshan and tower features come from their helpers. <br>• The alive and dead counts come from the counting loop, and all four add up to the number of players. <br>• The core-alive counts lie in 0..2, and `enemy_core_dead = 2 - enemy_core_alive`. <br>• `recent_deaths` counts the buffered deaths at or after `now - 15`. |

## Left out

- **HTTP and I/O.** Left out:
  - the Flask routes `/gsi` and `/hint`, and the per-packet logging to `gsi_logs`;
  - the screenshot thread;
  - `fetch_matches.py`, the model server and training.
- **The evaluation loop's mechanics.** Left out: `time.sleep`, the lock, the daemon thread, the global hint text, `LABEL2TXT`, and the call to `/predict` with its FARM fallback. The loop has no state except `my_team`. `my_team` is computed by `Gsi.MyTeam` and passed to `LiveVector.ComputeFeatures` as a parameter.
- **Concurrency.** The handler updating the tracker and the loop reading it run in parallel in the source. The model has one sequential `DeathTracker`.
- **The clock.** `now_ts()` is a parameter: `ts` for `Tracker.DeathTracker.UpdateDeaths` and `now` for `LiveVector.ComputeFeatures`.
- **The batch's file handling.** Left out: globbing, `json.loads`, pandas, CSV writing, printing, `sys.exit` and argparse.
  - `Sequencer.Build` takes the files as already-decoded optional match records, with `None` for an unreadable file.
  - It reports success or failure as a value.
- **JSON decoding.**
  - A match record missing a field read with `[...]` (`duration`, `match_id`, `players`, `isRadiant`, `account_id`) is a file that does not decode. It is skipped like any other failing file.
  - Missing `match_id` differs from the source. The source reads `match["match_id"]` only while building a row (`scripts/build_dataset.py:121`). So a record without `match_id` that has no tick in range (for example `duration <= 0` with a positive step) yields no rows and is not skipped. The model counts that file as skipped.
  - A Roshan-kill objective whose `time` is `null` differs too. The source collects the `None` without error (`scripts/build_dataset.py:92`) and raises only at the comparison inside a tick (`scripts/build_dataset.py:113`). The model reads a `null` time as a missing one, so `Sequencer.RoshanKills` fails the match even when no tick runs. A missing `time` key fails at line 92 in the source too, and there the two agree.
  - A JSON `null` in a field read with `.get` is treated as the field being absent. The source sometimes raises a `TypeError` there instead (for example `len(None)`).
- **Dynamic typing.** `alive` is a boolean, and every other numeric field an integer. Truthiness of other JSON values is left out.
- `Richest.RichestIds`: does not state the order among players of equal `total_gold`. Python's sort is stable, and `Richest.InsertByGold` does place a later player after earlier ones of equal gold, but no lemma states this.
- `MatchRecord.Side`: its own contract states only the length bound. Membership is stated by `MatchRecord.SideMembers`, and record order is not stated.

## Where the model follows the code rather than its docstrings and comments

- **TAKE_ROSHAN.** The module docstring asks for three dead enemies. The code tests `enemy_core_dead >= 1` (`scripts/build_dataset.py:60`), and so does the model.
- **The live recent-deaths window.** It counts every buffered death at or after `now - 15` and has no upper cut (`scripts/mvp1_core.py:89-90`). A death stamped after `now` is counted (`Tracker.LowerCutOnly`).
- **First observation of a dead player.** One might expect a player who is already dead when first seen to record no death, since there is no earlier alive status to compare with. The code reads an unseen key as alive (`last_alive.get(sid, True)`, `scripts/mvp1_core.py:83`), so such a player is recorded as a death (`Tracker.FirstSeenDeadCounts`).
- **The `_tower3_` test.** It matches any building name containing `_tower3_`, Radiant's tier-3 towers included (`scripts/mvp1_core.py:95`). `Gsi.TowersDireT3Down` models exactly that test.
- **Errors offline.** Missing fields mostly fall back to defaults, but the offline code does raise on the cases listed above, and the model returns an error for them rather than a default row.
- **Anonymous players.** Players without an account id (`null`) share one `deaths_map` key and one core-id value (`Deaths.AnonymousPlayersShareOneEntry`).
