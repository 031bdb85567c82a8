# Pilot sizing and planning simulation, in Dafny

This project models the computational core of a pilot-sizing dashboard
(`dim.py`). The dashboard reads a flight programme of rotations and a table of
contract parameters. It then does three things:

- It computes how many pilots are needed. It uses the existing resident
  ("Ivoirien") pilots first and covers any shortfall with leased ("Location")
  pilots.
- It assigns the rotations, in shuffled order, to pilot slots with a greedy
  first-fit pass per category.
- It counts, for each pilot, the days of the planning horizon on which the
  pilot has no rotation.

Dates are day numbers. Python's floating-point arithmetic is modelled with
exact `real`s. The shuffle is an input: a sequence with the same multiset of
rotations as the programme.

Modules:

- `Rotations` (`rotations.dfy`): the rotation record, inclusive date ranges,
  the horizon from the earliest start to the latest end, covered days and free
  days.
- `Sizing` (`sizing.dfy`): total engagement days, ceiling sizing, the
  resident/leased split and the truncation to pilot slots.
- `Assignment` (`assignment.dfy`): one category pass as pure functions. `Pass`
  is a left fold of `Step` over the pool order. The file also holds the
  properties every pass keeps and Python's `list.remove`.
- `Simulation` (`simulation.dfy`): the class `Simulator`. Its fields are the
  pool, the per-category plannings and the free-day sets. It updates them in
  place with the nested loops of the source. `Simulate` runs the whole
  pipeline.

Pilot index `p` of a category is the pilot the source names `Pilote_<category>_<p+1>`.

The model follows the code on these points:

- The code runs one full pass per category: first the Ivoirien pass over the
  whole pool, then the Location pass over what the first pass left. It does not
  scan all slots of both categories for each rotation. The result is the same
  either way: `Assignment.PassesInterleave` proves that the two passes give the
  same plannings and left-over rotations as `Assignment.Interleaved`, which
  offers each rotation to the Ivoirien slots and then to the Location slots.
  Only the idle-day table, below, shows the per-category structure.
- The idle-day table covers only the pilots of the category processed last
  (Location). This is because the free-day dictionary is rebound for every
  category. `Simulator.freeDays` and `Report.idle` reproduce this.
- An empty programme makes the date-range construction fail, because the
  earliest start and the latest end are undefined. `Simulate` returns
  `Failure(EmptyProgramme(staffing))` in that case. The failure carries the
  zero sizing that the dashboard displays before the date range fails
  (`Sizing.EmptySizing`).
- The conflict check compares start days only. Two rotations whose ranges
  overlap but start on different days can go to the same pilot;
  `Assignment.OverlapAccepted` shows this.

`list.remove(rotation)` removes the first element EQUAL to the rotation, not
necessarily the one being scanned. `Assignment.RemoveFirst` models exactly that.
`Simulation.AssignedStep` proves that the two coincide in this loop: every
rotation left earlier in the pool has a start day that every pilot already
holds, so none of them can equal a rotation that some pilot accepts.

## Model

| member | source | states |
|---|---|---|
| `Rotations.DateRange` | dim.py:79 | a day is in the range exactly when it lies between start and end inclusive (empty when end < start) |
| `Rotations.HasStart` | dim.py:77 | a list holds a rotation starting on day d exactly when some index of the list has that start |
| `Rotations.DateRangeSize` | dim.py:68 | an inclusive range from s to e has e - s + 1 days, 0 when e < s |
| `Rotations.Covered` | dim.py:79 | a day is covered exactly when some rotation of the list has it in its inclusive range |
| `Rotations.MinStart` | dim.py:68 | the earliest start is at most every start and is the start of some rotation |
| `Rotations.MaxEnd` | dim.py:68 | the latest end is at least every end and is the end of some rotation |
| `Rotations.Horizon` | dim.py:68 | a day is in the horizon exactly when some rotation starts on or before it and some rotation ends on or after it; `HorizonSize` gives its length |
| `Rotations.HorizonSize` | dim.py:68 | the horizon has MaxEnd - MinStart + 1 days, or none when the latest end precedes the earliest start |
| `Rotations.CoveredInHorizon` | dim.py:68-79 | the days covered by rotations of the programme lie inside the horizon |
| `Rotations.FreeDays` | dim.py:73-79 | a pilot's free days are the horizon days that no rotation of its list covers, a subset of the horizon; `IdleCount` and `IdleNonIncreasing` give its size |
| `Rotations.IdleCount` | dim.py:108 | a pilot's idle count is the horizon length minus its covered days, between 0 and the horizon length |
| `Rotations.IdleNonIncreasing` | dim.py:79 | the free set after more rotations is a subset of the free set after fewer, so the idle count never increases |
| `Sizing.TotalEngagement` | dim.py:29 | the engagement total is at least the engagement days of every rotation; `TotalEngagementZero` says when it is 0 |
| `Sizing.TotalEngagementZero` | dim.py:29 | the engagement total is 0 exactly when every rotation has 0 engagement days |
| `Sizing.CeilDiv` | dim.py:29-30 | the rounded-up quotient n satisfies n * w >= d and (n - 1) * w < d |
| `Sizing.CeilDivLeast` | dim.py:30 | no m with m * w >= d is smaller than the rounded-up quotient |
| `Sizing.CeilDivInteger` | dim.py:29-30 | the rounding of the exact quotient equals integer ceiling division (d + w - 1) / w, and is 0 exactly when d is 0 |
| `Sizing.Needed` | dim.py:29-30 | the pilots needed are the integer ceiling of total engagement days over resident working days, and 0 exactly when no rotation has engagement days |
| `Sizing.Size` | dim.py:35-41 | needed is the least headcount covering the engagement days; resident used is min(needed, existing); leased is 0 without shortfall, else its working days equal the shortfall's |
| `Sizing.Convert` | dim.py:41 | the converted leased headcount times leased working days equals the shortfall times resident working days, and is non-negative |
| `Sizing.Truncate` | dim.py:71 | int() truncates toward zero: floor for non-negative values, ceiling for negative ones |
| `Sizing.LocationSlots` | dim.py:71 | the leased slot count is the leased count with its fraction dropped; `LocationSlotsInteger` gives it as an integer quotient |
| `Sizing.LocationSlotsInteger` | dim.py:71 | the leased slot count is the leased count with its fraction dropped, equal to the integer quotient of the shortfall's working days by the leased working days, 0 without shortfall |
| `Sizing.EmptySizing` | dim.py:29-50 | an empty programme needs no pilot: 0 needed, 0 resident, 0 leased, and the divisor condition holds |
| `Sizing.NeededExample` | dim.py:29-30 | 130 engagement days at 26 working days need 5 pilots |
| `Sizing.SplitExample` | dim.py:35-41 | 5 needed with 3 existing at 26/22 working days: 3 resident, 52/22 leased, 2 leased slots |
| `Assignment.EmptyPlanning` | dim.py:71-72 | a category with n slots starts with n empty lists |
| `Assignment.FirstFreeFrom` | dim.py:76-77 | the index found is the first pilot from p on holding no rotation with that start day, or the number of pilots when every one holds one |
| `Assignment.FirstFree` | dim.py:76-77 | the pilot chosen holds no rotation with that start day and every lower-index pilot holds one; it is the pilot count when all hold one |
| `Assignment.Step` | dim.py:76-81 | one offer keeps the number of pilots; the rotation stays in the pool exactly when every pilot holds a rotation with its start day, else the pool is unchanged; `StepFirstFit` says which pilot takes it |
| `Assignment.Pass` | dim.py:70-83 | a pass over any pool keeps exactly one list per pilot slot |
| `Assignment.StepFirstFit` | dim.py:76-81 | a rotation is appended to the lowest-index pilot holding no rotation with its start and nothing else changes; when every pilot holds one it stays in the pool |
| `Assignment.PassConflictFree` | dim.py:76-78 | after any pass, no pilot's list holds two rotations with the same start day |
| `Assignment.PassConservation` | dim.py:75-81 | the multiset of rotations held by the pilots plus those left equals the pool; sizes add up to the pool size |
| `Assignment.PassSurvivors` | dim.py:75-81 | a rotation survives the pass only if every pilot of the category holds a rotation with its start day |
| `Assignment.PassAppendOnly` | dim.py:78-80 | after any prefix of the pool, every pilot's list and the left-over list are prefixes of the final ones |
| `Assignment.PassKeepsOrder` | dim.py:75-78 | every pilot's list and the left-over list are subsequences of the pool order |
| `Assignment.PassIdleNonIncreasing` | dim.py:73-79 | during a pass, a pilot's free set after the whole pool is contained in its free set after any prefix, so its idle count never increases |
| `Assignment.Offer` | dim.py:70-81 | offering a rotation to both categories keeps both slot counts, and leaves it in the pool exactly when every slot of both categories holds its start day |
| `Assignment.Interleaved` | dim.py:70-83 | the scan of both categories rotation by rotation keeps one list per slot of each category |
| `Assignment.PassesInterleave` | dim.py:70-83 | the Ivoirien pass followed by the Location pass over its leftovers gives the same two plannings and left-over rotations as the rotation-by-rotation scan of both categories |
| `Assignment.SameStartExample` | dim.py:75-81 | three rotations with one start day and one pilot: the first is assigned, the other two stay |
| `Assignment.OverlapAccepted` | dim.py:77 | rotations on days 1-5 and 3-4 both go to a single pilot although their ranges overlap |
| `Assignment.RemoveFirst` | dim.py:80 | list.remove of a present element shortens the list by one and removes one occurrence from its multiset |
| `Assignment.RemoveFirstAt` | dim.py:75-80 | when the element does not occur before the scanned position, list.remove drops exactly the scanned element |
| `Simulation.Simulator.constructor` | dim.py:64-66 | the pool is the shuffled programme and both categories' plannings are empty |
| `Simulation.Simulator.AssignCategory` | dim.py:70-83 | the new pool is what the pass left; only this category's planning changes, to the pass's planning; each free set is the horizon minus that pilot's covered days |
| `Simulation.Simulator.IdleCounts` | dim.py:108 | one count per pilot of the last category, the size of its free set, at most the horizon length |
| `Simulation.FirstFit` | dim.py:76-81 | the scan returns the first pilot holding no rotation with the start day, or the number of pilots when there is none |
| `Simulation.AssignedStep` | dim.py:77-80 | appending to the first free pilot is one step of the pass, and list.remove then drops exactly the scanned rotation |
| `Simulation.LeftStep` | dim.py:75-81 | a rotation no pilot can take is one step of the pass and stays in the pool in order |
| `Simulation.FreeStep` | dim.py:79 | subtracting the rotation's range keeps every free set equal to the horizon minus the covered days |
| `Simulation.TwoPasses` | dim.py:64-83 | across both passes every rotation is held by exactly one pilot or unassigned, both plannings are conflict-free, and Location idle counts are the horizon length minus covered days |
| `Simulation.Simulate` | dim.py:21-108 | fails exactly on an empty programme, carrying the zero sizing; otherwise reports the sizing, the Ivoirien pass over the shuffled pool, the Location pass over its leftovers, the unassigned rotations and the Location idle counts, with conservation and conflict-freedom |

## Left out

- Spreadsheet loading and the hard-coded file path (dim.py:7-12): file I/O. The programme and the parameters are plain values.
- Category lookup in the parameter table (dim.py:25-26, 33): a pandas lookup. The two contract rows are given as a `Policy`. A missing category is not modelled.
- Dashboard titles and tables (dim.py:14-19, 46-51, 107-109) and both charts (dim.py:53-60, 85-104): display only.
- Total hours (dim.py:22) and productivity (dim.py:44): floating-point metrics that nothing downstream uses. Productivity divides by zero when no pilot is needed. The `hours` field is kept only because it takes part in record equality.
- `random.shuffle` (dim.py:66): replaced by the `shuffled` input, any reordering of the programme.
- Other spreadsheet columns: they would also take part in the record equality that `list.remove` uses. A rotation here has only start, end, hours and engagement days.
- Floating-point rounding: the arithmetic is exact. CeilDiv, Convert and Truncate therefore agree with the source only as long as its floats are exact.
- Sizing.Size: requires positive resident working days, and positive leased working days when there is a shortfall. With a zero divisor, numpy yields inf or nan instead of raising, and the later int() conversion fails. With negative resident working days the quotient at dim.py:29 is not positive, so the headcount at dim.py:30 is 0 or negative, all of it counts as resident, and dim.py:71 creates no slot. With negative leased working days and a shortfall the leased count is negative and dim.py:71 creates no leased slot. These zero and negative cases are not modelled.
- Engagement days and working days are integers. A fractional spreadsheet value is not modelled.
