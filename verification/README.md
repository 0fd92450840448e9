# Belt tracker team state, modelled in Dafny

This project models the domain logic of a belt tracker (`lib/state.js`).
Each team of a fixed roster enables "skills" over time. The store keeps one
document per team, and each document lists the team's grants
`{name, since}` in insertion order. From these grants the tracker derives:

- the team's belt, the rank earned by completing an ordered curriculum of
  belt tiers;
- the team's skill count;
- a per-day history of how many skills the team held, and the same history
  summed over the roster.

The document collection is modelled by its contents, a map from team name
to grants (`TeamStore.Store`). Each store operation becomes a pure function
from a store to a `Result` that carries either the new store or an error.
The roster, the flat list of valid skill names, the curriculum, the instant
"now" and the clock of the history queries are all parameters.

Modules:

- `Outcomes` (`outcomes.dfy`): `Result` and the error taxonomy. The errors
  are "Team not found!", a duplicate-key insert, "skill is already enabled",
  "<skill> Skill not valid!", and a missing roster entry.
- `Grants` (`grants.dfy`): the grant record, membership by name, and the
  `$pull` filter.
- `Belts` (`belts.dfy`): the belt walk over the curriculum. It is proved
  equal to a reference definition, "the last non-empty tier of the longest
  run of completed leading tiers".
- `TeamStore` (`store.dfy`): team creation, lazy read, add, remove and
  toggle of a skill, and the invariant of one grant per name.
- `Graphs` (`graphs.dfy`): per-team history points and the index-aligned
  sum over the roster.
- `Teams` (`teams.dfy`): the team views returned by `getTeam` and `getTeams`.

Behaviours of the code that the model keeps:

- `toggleSkill` resolves with the result of the store update, not with the
  team name, so `ToggleSkill` returns only the new store.
- An add or remove on a team that has no document matches nothing. It
  succeeds without changing the store, because the update does not upsert.
- `createTeam` rejects a team outside the roster with the message
  "Team not found!".
- `getTeam` on a team that has a document but is absent from the roster
  fails when the roster lookup comes back empty (`MissingRosterEntry`).
- The belt walk compares a tier's skill position, an object key string,
  with the tier length minus one. That comparison coerces the key to a
  number, so it is modelled as an integer index.
- The aggregate graph adds the per-team series by index. All series are
  computed against the same clock here, so every non-empty series has one
  point per day and the index alignment matches the day alignment.

## Model

| member | source | states |
|---|---|---|
| Grants.Without | lib/state.js:135-137 | The pull keeps exactly the grants not named after the skill; it leaves no grant of that name, never grows the list, is the identity when the name is absent and keeps names distinct |
| Grants.WithoutAppend | lib/state.js:136 | The pull distributes over concatenation, so the grants it keeps stay in their original order |
| Belts.WalkTier | lib/state.js:156-164 | The walk over a tier continues iff every remaining skill is granted; it then holds the tier's name (or the entry belt for an empty tier), and on a missing skill it stops with the belt held on entry |
| Belts.WalkTiers | lib/state.js:155-165 | The outer walk from a tier ends with the belt it was entered with, or with the name of a non-empty tier that the team completed together with every tier from the starting one up to it |
| Belts.Belt | lib/state.js:153-167 | A team's belt is "white" or the name of a non-empty tier that the team completed together with every earlier tier; which such tier is pinned down by `Belts.BeltIsLastCompletedTier` |
| Belts.BeltIsLastCompletedTier | lib/state.js:153-167 | The belt is the last non-empty tier within the longest run of leading tiers whose every skill is granted, or "white" if there is none |
| Belts.BeltOfNoGrants | lib/state.js:154-166 | A team without grants is "white" for every curriculum |
| Belts.BeltDependsOnlyOnNames | lib/state.js:158 | Two grant lists that enable the same set of names earn the same belt, so reordering or duplicating grants does not change it |
| Belts.BeltIgnoresTiersAfterGap | lib/state.js:161-162 | Once a tier is incomplete, the tiers after it have no effect on the belt, whatever skills they hold |
| Belts.BeltOfFullCurriculum | lib/state.js:155-166 | A team holding every skill of the curriculum wears its last non-empty tier |
| Belts.CompletedRunExists | lib/state.js:155-165 | Every grant list and curriculum has a completed run: a number of fully granted leading tiers followed by an incomplete tier or the end |
| TeamStore.CreateTeam | lib/state.js:108-115 | A roster team without a document gets one with no grants and nothing else changes; a non-roster name fails with "Team not found!"; a second insert fails on the duplicate key; one grant per name per document is preserved |
| TeamStore.TeamSkills | lib/state.js:117-125 | An existing team reads as its grants with the store unchanged; an absent roster team gets exactly an empty document and reads as no grants; an absent non-roster team fails with "Team not found!" and nothing is created |
| TeamStore.TeamSkillsIdempotent | lib/state.js:117-125 | Reading the same team again returns the same grants and leaves the store as it is |
| TeamStore.AddToSkillSet | lib/state.js:127-133 | Fails with "skill is already enabled" iff the team holds a grant of that name; otherwise appends exactly `{skill, now}` at the end of that team's grants (nothing, when the team has no document), changes nothing else and keeps one grant per name |
| TeamStore.AddTwiceFails | lib/state.js:127-133 | Adding the same skill to a team a second time fails with "skill is already enabled" |
| TeamStore.RemoveFromSkillSet | lib/state.js:135-137 | Never fails; removes every grant of the name from that team and keeps the other grants in their original order and number (the filter `Without`), touches no other team, is a no-op when the name is not held, and keeps one grant per name |
| TeamStore.ToggleSkill | lib/state.js:139-151 | Rejects a name outside the valid list with "Skill not valid!" and an unknown absent team with "Team not found!"; otherwise flips whether the team holds the skill and leaves every other name as it was, by pulling every grant of the skill or appending one `{skill, now}`, creates the team if needed, leaves other teams alone and keeps one grant per name |
| TeamStore.ToggleOnThenOffRestores | lib/state.js:139-151 | For a valid skill the team lacks, toggling it on and then off succeeds both times and gives back exactly the team's original grants |
| TeamStore.ToggleOffThenOnRestoresNames | lib/state.js:139-151 | For a valid skill the team holds, toggling it off and then on succeeds both times and restores the set of names the team holds; the grant's instant may differ |
| TeamStore.RemoveThenAddRestoresNames | lib/state.js:132-136 | Pulling a held skill and granting it again gives back the same set of names |
| TeamStore.AddThenRemoveRestores | lib/state.js:132-136 | Granting a skill not held and pulling it again gives back exactly the original grants |
| Graphs.Seconds | lib/state.js:55 | The timestamp is the cutoff in milliseconds rounded down to whole seconds |
| Graphs.CountUpTo | lib/state.js:30-52 | The count of grants made at or before the cutoff is at most the number of grants, all of them when all are earlier, none when all are later |
| Graphs.CountUpToMonotone | lib/state.js:42 | A later cutoff never counts fewer grants |
| Graphs.CountUpToAppend | lib/state.js:42 | A grant appended at instant `since` adds one to the count of every cutoff at or after `since` and nothing to earlier ones |
| Graphs.DayPoints | lib/state.js:27-58 | The loop from `i` down to 0 yields `i + 1` points (none for negative `i`), the k-th for day `i - k` |
| Graphs.TeamGraph | lib/state.js:25-60 | An existing team yields one point per requested day, oldest first, each with the day's seconds and a count bounded by the team's grants; an absent team yields none |
| Graphs.TeamGraphNonDecreasing | lib/state.js:27-56 | When earlier days have earlier cutoffs, the timestamps and the counts of a team's history never decrease |
| Graphs.SumGraphs | lib/state.js:69-77 | The fold's result is as long as the longest series; entry i sums the `y` of every series that has an entry i and keeps the `x` of the first such series |
| Graphs.RosterGraphs | lib/state.js:64-68 | Series k is the graph of roster entry k's team, for every k, so there is one series per roster team, in roster order |
| Graphs.RosterGraphsAlign | lib/state.js:62-80 | The roster's series line up day by day: the longest has one point per day if any roster team has a document, and column i sums the day's counts over the whole roster |
| Graphs.GetGraph | lib/state.js:62-80 | The aggregate graph has one point per day when some roster team has a document, none otherwise; each point holds the day's seconds and the total of grants held by then over the roster |
| Teams.FindTeam | lib/state.js:93 | Finds the first roster entry with the name, and fails exactly when the roster has none |
| Teams.GetTeam | lib/state.js:90-102 | Succeeds iff the team is on the roster ("Team not found!" or a failed roster lookup otherwise); the view carries the name, the champion of the first roster entry with that name, the team's grants, their count and the belt they earn; the store only gains that team's empty document |
| Teams.GetTeamsFrom | lib/state.js:82-88 | Walking roster entries in order never fails; it gives one view per entry, leaves every visited team with a document, and only adds empty documents to the store |
| Teams.GetTeamsFromViews | lib/state.js:84-87 | The i-th view of the walk shows the i-th entry's team, with the grants it had before the walk, their count and their belt |
| Teams.GetTeams | lib/state.js:82-88 | One view per roster entry, in roster order, each with that team's name, grants, count and belt; every roster team ends up with a document and existing documents are kept |

## Left out

- The database connection and the construction of its URL from environment variables (lib/state.js:5-23). This is I/O and configuration.
- Query execution, cursors and store-connectivity errors. Only the effect of each query and update on the document contents is modelled.
- Concurrency. `getTeams` and `getGraph` start their per-team work together and join it with `Promise.all`. The model runs it sequentially in roster order, so a toggle cannot interleave with a graph query or with another toggle.
- Interleaving of an add and its duplicate check. In the model nothing runs between the check and the append, so the one-grant-per-name invariant holds.
- Calendar arithmetic (`new Date()`, `setDate`, daylight saving, month rollover). The instant of each day is the `cutoffOf` parameter, and "now" is an integer input. All teams of an aggregate query share one clock.
- The skills module (`getFileNames`, `getFlatFileNames`) and the roster file. The curriculum, the flat set of valid names and the roster are parameters. The tiers are an explicit ordered sequence, standing in for the key order of a JavaScript object.
- Graphs.GetGraph: the `+=` on the first team's point objects, which aliases and mutates that team's own series, is not modelled; only the values of the summed series are.
- TeamStore.ToggleSkill: does not state the update result the source resolves with; only the new store is returned.
- `getTeamNames` (lib/state.js:104-106) is the list of roster names. It appears only through `TeamStore.InRoster`.
