# Integrated hospital scheduling: a verified model of the RVNS solver core

This project models the Python solver of the integrated healthcare
timetabling problem in Dafny. The problem combines patient admission
scheduling, nurse-to-room assignment and surgical case planning. The model
covers three pieces:

- The instance access layer (`Loader` in `instances/Hospital.py`). This is
  the id dictionaries, the id lookups, the expansion of a solution into
  `(day, room, patient)` triples, the nurse staffing map, and a nurse's
  maximum load.
- The fifteen scoring functions of `solvers/constraints.py`. These are the
  hard constraints H1 to H7, each worth `HARD_VIOLATION_PENALTY` = 1000000
  per violation, and the weighted soft constraints S1 to S8.
- The reduced variable neighbourhood search of `solvers/RVNS_solver.py`.
  This is the evaluation of a solution, the greedy start (patient phase and
  nurse phase), the five neighbourhood moves, the shake, the local search
  and `solve`.

Each scoring function whose source has loops is a `method` with those
loops. Its `ensures` ties the result to a specification function, written
as a fold over the last element. S5, a set comprehension in the source, is
a function. Lemmas then say what that function means: a count of
grouped keys, a sum over keys, or zero exactly when a plain property of the
solution holds.

The search works on values. A Python `copy.deepcopy` followed by an
in-place edit becomes a new `Solution` value. The object that keeps the best
solution is a `class` (`Rvns.Solver`) with `modifies` clauses.

Randomness comes from `Oracle.Random`, a seeded generator. Only what a draw
may return is modelled (an index in range, a permutation of the list); its
distribution is not. The wall-clock budget of `solve` becomes a number of
rounds (`fuel`).

Two predicates gather the conditions under which the Python code runs
without raising an exception:

- `Validity.WellFormed` is about the instance.
- `Validity.Valid` is about a solution.

It is proved that the greedy start produces a valid solution, that every
move keeps validity, and that a valid solution can be scored.

Where the code and its documentation differ, the model follows the code.
Examples:

- S2 and S4 look up a stay's requirement and workload vectors at
  `day_offset * 3 + shift_idx`. The nurse phase of the greedy start uses
  `day_offset * len(shift_types) + shift_idx`. Both are kept as written
  (`NraConstraints.VectorIndex`, `Roster.ShiftDemand`).
- The rescheduling move tries days in `range(release, days - length_of_stay)`,
  which leaves out the last day. The greedy start tries
  `range(release, due + 1)`, where `due` defaults to `days - length_of_stay`.
- H6 looks at the due day only for mandatory patients.

## Model

| member | source | states |
|---|---|---|
| Collections.LastWinsKey | instances/Hospital.py:27-32 | a key is in a dict built by a comprehension exactly when some entry has it |
| Collections.LastWinsFrom | instances/Hospital.py:27-32 | the value stored for a key comes from the last entry with that key |
| Collections.LastWinsAt | instances/Hospital.py:27-32 | an entry that no later entry overrides is the one stored for its key |
| Collections.IdDictKey | instances/Hospital.py:27-32 | an id dictionary knows exactly the ids that occur in its list |
| Collections.IdDictFrom | instances/Hospital.py:27-32 | the record stored for an id is a list element with that id, and no later element has it |
| Collections.FirstKeysHas | instances/Hospital.py:27-32 | a dictionary's key order lists exactly the ids of the list |
| Collections.FirstKeysDistinct | instances/Hospital.py:27-32 | a dictionary's key order lists no id twice |
| Collections.DictValues | solvers/RVNS_solver.py:173-176 | `list(d.values())` has one record per key, and every key it reads is in the dictionary |
| Collections.DictValuesSpec | solvers/RVNS_solver.py:173-176 | `patient_dict.values()` lists, in key order, the record stored for each key |
| Collections.GroupSetsAt | solvers/constraints.py:14-18 | a grouped set exists for a key exactly when an entry has that key, and holds exactly the values paired with it |
| Collections.BuildGroupSets | solvers/constraints.py:14-18 | the loop that fills a dictionary of sets computes the grouping of its entries |
| Collections.GroupSumsAt | solvers/constraints.py:171-172 | a key's accumulated value is the sum of the values paired with it; keys are the ones that occur |
| Collections.BuildGroupSums | solvers/constraints.py:171-172 | the `get(key, 0) + v` loop computes the per-key sums |
| Collections.AddTo | solvers/constraints.py:172 | one `get(key, 0) + v` update extends the per-key sums by one entry |
| Collections.GroupCountsAt | solvers/constraints.py:46-48 | a key's count is the number of times it occurs |
| Collections.BuildGroupCounts | solvers/constraints.py:46-48 | the counting loop computes the multiplicity of every key |
| Collections.GroupListsAt | solvers/constraints.py:64-68 | a grouped list exists for a key that occurs, is non-empty, and holds exactly the values paired with it |
| Collections.BuildGroupLists | solvers/constraints.py:64-68 | the append loop computes the grouped lists |
| Collections.FirstIndexFirst | solvers/RVNS_solver.py:300-308 | the index a loop with early return stops at passes the test, and no earlier element does |
| Collections.FirstIndexNone | solvers/RVNS_solver.py:300-311 | a loop with early return runs to its end exactly when no element passes the test |
| Collections.FirstIndexPrefix | solvers/RVNS_solver.py:300-308 | a hit found in a prefix is the hit of the whole list |
| Collections.FirstIndexStep | solvers/RVNS_solver.py:300-308 | extending a prefix with no hit by one element hits exactly when that element passes |
| Collections.FirstTripleFirst | solvers/RVNS_solver.py:363-384 | the triple three nested loops with early return stop at passes the test, and every triple visited before it fails |
| Collections.FirstTripleEarlier | solvers/RVNS_solver.py:198-225 | every triple whose outer index lies before the hit's fails the test |
| Collections.FirstTripleNone | solvers/RVNS_solver.py:363-386 | three nested loops with early return run to their end exactly when no triple passes the test |
| Collections.SeqMax | solvers/constraints.py:71 | `max(ages)` is an element and bounds every element |
| Collections.SeqMin | solvers/constraints.py:71 | `min(ages)` is an element and is bounded by every element |
| Collections.CountWhere | solvers/constraints.py:19-21 | the counting loop over a dictionary's values counts exactly the keys meeting the test |
| Collections.SumAll | solvers/constraints.py:69-71 | the accumulation loop over a dictionary's keys computes the sum of the per-key terms |
| Hospital.PatientDictLastWins | instances/Hospital.py:31 | the patient dictionary knows exactly the listed ids and keeps the last record of a repeated id |
| Hospital.PatientByIdSpec | instances/Hospital.py:104-112 | a patient record shadows an occupant with the same id; otherwise the occupant is found; an id of neither kind gives None |
| Hospital.NurseById | instances/Hospital.py:186-190 | the result is present exactly when a nurse has the id, and is the last nurse record with it |
| Hospital.GetPatient | instances/Hospital.py:94-99 | None exactly when no patient has the id, otherwise the first patient with it |
| Hospital.GetRoom | instances/Hospital.py:79-84 | None exactly when no room has the id, otherwise the first room with it |
| Hospital.GetOccupant | instances/Hospital.py:60-65 | None exactly when no occupant has the id, otherwise the first occupant with it |
| Hospital.FirstPlacement | instances/Hospital.py:114-121 | None exactly when no placement has the id, otherwise the first placement with it |
| Hospital.GetSolutionPatientById | instances/Hospital.py:114-121 | the early-return loop finds the first placement with the id |
| Hospital.StayDaysMember | instances/Hospital.py:142-145 | a triple is yielded for a stay exactly on its planned days that fall before the horizon |
| Hospital.StayDaysLength | instances/Hospital.py:142-145 | a stay yields one triple per planned day, clipped to the horizon |
| Hospital.YieldStayDays | instances/Hospital.py:142-145 | the day loop yields the triples of one stay |
| Hospital.AllPatientsInRooms | instances/Hospital.py:123-155 | the generator, collected, is the expansion: placements first, then occupants |
| Hospital.YieldPlaced | instances/Hospital.py:130-145 | the first loop yields the triples of the placements, skipping unknown ids |
| Hospital.YieldOccupied | instances/Hospital.py:149-155 | the second loop yields the triples of the occupants that have a room, from day 0 |
| Hospital.PlacementStaysMember | instances/Hospital.py:130-145 | a placement's triples are in its room, for the resolved record, on days from its admission day, before the horizon |
| Hospital.OccupantStaysMember | instances/Hospital.py:149-155 | an occupant's triples are in its own room, on days from 0, before the horizon |
| Hospital.PlacedStaysMember | instances/Hospital.py:130-145 | a triple comes from the placements exactly when it comes from one of them |
| Hospital.OccupiedStaysMember | instances/Hospital.py:149-155 | a triple comes from the occupants exactly when it comes from one of them |
| Hospital.ExpansionMember | instances/Hospital.py:123-155 | every yielded triple lies before the horizon, within its record's stay, and comes from a placement or an occupant |
| Hospital.ExpansionEmpty | instances/Hospital.py:123-155 | with no placements and no occupants nothing is yielded |
| Hospital.WriteDuty | instances/Hospital.py:169-171 | the room loop writes one slot per room of a duty record, the last write winning |
| Hospital.WriteSchedule | instances/Hospital.py:168-171 | the duty loop writes every slot of a nurse's records, the last write winning |
| Hospital.GetNurseAssignments | instances/Hospital.py:157-172 | the loops build the staffing map of the solution, skipping unknown nurses |
| Hospital.DutyEntriesMember | instances/Hospital.py:169-171 | a duty record writes exactly its (day, shift, room) slots |
| Hospital.EntryCovered | instances/Hospital.py:168-171 | a write of a nurse's records comes from a duty that covers its slot |
| Hospital.CoveredEntry | instances/Hospital.py:168-171 | every slot covered by a nurse's duty is written |
| Hospital.ScheduleEntriesMember | instances/Hospital.py:168-171 | a nurse's records write a slot exactly when one of its duties lists the room on that day and shift |
| Hospital.CoverageEntriesMember | instances/Hospital.py:163-171 | the writes of all records are exactly the listed slots of known nurses, with their id or skill |
| Collections.LastWinsAppend | instances/Hospital.py:168-171 | after more writes, a key written again holds the later value and a key not written again keeps the earlier one |
| Hospital.CoverageLast | instances/Hospital.py:163-171 | a written slot holds the id or skill of the last nurse record, in solution order, that lists it |
| Hospital.CoverageSpec | instances/Hospital.py:157-172 | a slot is staffed exactly when a known nurse's record lists it, and it then holds the id or skill of the last such record in solution order |
| Hospital.CoverageSkills | instances/Hospital.py:171 | without `id_only` every stored value is a skill level |
| Hospital.FirstShiftLoad | instances/Hospital.py:181-184 | the `max_load` of the first matching working shift (0 when it is missing), or 0 when none matches |
| Hospital.GetNurseMaxLoad | instances/Hospital.py:174-184 | 0 for an unknown nurse, otherwise the load of the first matching working shift, or 0 |
| PasConstraints.H1NoGenderMix | solvers/constraints.py:9-22 | the loops compute H1, a whole number of penalties |
| PasConstraints.MixedKey | solvers/constraints.py:14-21 | a (day, room) group holds two or more genders exactly when two triples there differ in gender |
| PasConstraints.GroupedMixed | solvers/constraints.py:14-21 | two genders in a (day, room) group come from two triples there that differ in gender |
| PasConstraints.MixedGrouped | solvers/constraints.py:14-21 | two triples of a (day, room) that differ in gender give its group two genders |
| PasConstraints.H1Meaning | solvers/constraints.py:9-22 | H1 is the penalty times the number of (day, room) pairs that hold two different genders |
| PasConstraints.H1Empty | solvers/constraints.py:9-22 | with no placements and no occupants H1 is zero |
| PasConstraints.H2CompatibleRooms | solvers/constraints.py:26-37 | the loop computes H2, a whole number of penalties |
| PasConstraints.IncompatibleCountSpec | solvers/constraints.py:28-35 | at most one violation per placement; none exactly when no placement is in one of its patient's incompatible rooms |
| PasConstraints.H2Meaning | solvers/constraints.py:26-37 | H2 is at most one penalty per placement, and zero exactly when every placement is in a compatible room |
| PasConstraints.OccupancyKeys | solvers/constraints.py:50-53 | every occupied (day, room) has a room that `room_dict` knows, so the lookup cannot raise |
| PasConstraints.H7RoomCapacity | solvers/constraints.py:40-56 | the loops compute H7, a whole number of penalties |
| PasConstraints.H7Meaning | solvers/constraints.py:40-56 | H7 is the penalty times the number of (day, room) pairs holding more triples than the room's capacity |
| PasConstraints.AgeRanksSpec | solvers/constraints.py:62 | the age map knows exactly the listed groups, each at its last position |
| PasConstraints.AgesRanked | solvers/constraints.py:62-68 | every expanded triple's age group is in the age map, so the lookup cannot raise |
| PasConstraints.RankInjective | solvers/constraints.py:62-68 | two triples have the same rank exactly when they have the same age group |
| PasConstraints.S1MixedAgePenalty | solvers/constraints.py:58-72 | the loops compute S1 |
| PasConstraints.SpreadZero | solvers/constraints.py:69-71 | a room-day's term is non-negative, and zero exactly when all its ranks are equal |
| PasConstraints.SpreadKey | solvers/constraints.py:64-71 | a room-day adds a non-negative amount, zero exactly when it holds a single age group |
| PasConstraints.ZeroSpreadOneGroup | solvers/constraints.py:64-71 | equal ranks in a room-day mean a single age group |
| PasConstraints.OneGroupZeroSpread | solvers/constraints.py:64-71 | a single age group in a room-day means equal ranks |
| PasConstraints.S1Terms | solvers/constraints.py:69-71 | every room-day term is non-negative |
| PasConstraints.AgeListsKeys | solvers/constraints.py:64-68 | the grouped keys are exactly the (day, room) pairs of the expansion |
| PasConstraints.S1KeysZero | solvers/constraints.py:64-71 | every term is zero exactly when every (day, room) of the expansion holds a single age group |
| PasConstraints.S1Meaning | solvers/constraints.py:58-72 | S1 is non-negative and, for a positive weight, zero exactly when no room-day mixes age groups |
| NraConstraints.S2MinimumSkillLevel | solvers/constraints.py:78-92 | the loops compute S2 |
| NraConstraints.StaySkillGaps | solvers/constraints.py:84-91 | the shift loop computes one triple's missing skill |
| NraConstraints.StayGapsSpec | solvers/constraints.py:84-91 | one triple's missing skill is non-negative, and zero exactly when each of its shifts is served |
| NraConstraints.SkillGapsSpec | solvers/constraints.py:83-91 | the total missing skill is non-negative, and zero exactly when every shift of every triple is served |
| NraConstraints.S2Meaning | solvers/constraints.py:78-92 | S2 is non-negative and, for a positive weight, zero exactly when every staffed slot's nurse has the required skill |
| NraConstraints.S2Unstaffed | solvers/constraints.py:78-92 | without nurse records S2 is zero |
| NraConstraints.CollectNurses | solvers/constraints.py:121-126 | the day and shift loops collect exactly the staff seen in the room over the stay |
| NraConstraints.S3ContinuityOfCare | solvers/constraints.py:95-131 | the loops compute S3 |
| NraConstraints.SeenShiftsMember | solvers/constraints.py:123-126 | a nurse is seen on a day exactly when the map holds it for one of the shifts |
| NraConstraints.SeenDaysMember | solvers/constraints.py:121-126 | a nurse is seen over a stay exactly when the map holds it for some shift of some day |
| NraConstraints.NursesSeenSpec | solvers/constraints.py:104-126 | a nurse counts for an id exactly when it staffs some shift of some day of the id's stay in its room |
| NraConstraints.S3Meaning | solvers/constraints.py:95-131 | S3 is non-negative, and zero without nurse records |
| NraConstraints.AddShiftLoad | solvers/constraints.py:141-149 | one shift's workload is added to the nurse staffing its slot, if any |
| NraConstraints.AddStayLoads | solvers/constraints.py:140-149 | the shift loop adds one triple's workloads to the nurses' loads |
| NraConstraints.AccumulateLoads | solvers/constraints.py:139-149 | the first loop computes the per-(nurse, day, shift) load sums |
| NraConstraints.S4MaximumWorkload | solvers/constraints.py:133-154 | the loops compute S4 |
| NraConstraints.NurseLoadsSpec | solvers/constraints.py:136-149 | a nurse's load on a (day, shift) is the sum of the workloads put on it |
| NraConstraints.S4Meaning | solvers/constraints.py:133-154 | S4 is non-negative and, for a positive weight, zero exactly when no load exceeds the nurse's maximum |
| ScpConstraints.CountOver | solvers/constraints.py:174-178 | the counting loop counts exactly the known resources above their day's capacity |
| ScpConstraints.OverKeysMeaning | solvers/constraints.py:163-178 | the overloaded pairs are exactly those of a known resource whose summed minutes exceed that day's capacity |
| ScpConstraints.SurgeonEntriesMember | solvers/constraints.py:165-172 | the surgery minutes recorded are exactly those of placements whose id names a patient |
| ScpConstraints.SurgeonLoadsIndexable | solvers/constraints.py:174-177 | every (day, surgeon) load of a known surgeon can be looked up in its vector |
| ScpConstraints.SurgeonMinutes | solvers/constraints.py:165-172 | the first loop computes the surgery minutes of each (day, surgeon) |
| ScpConstraints.H3SurgeonOvertime | solvers/constraints.py:160-180 | the loops compute H3, a whole number of penalties |
| ScpConstraints.H3Meaning | solvers/constraints.py:160-180 | H3 is the penalty times the number of (day, surgeon) pairs of a known surgeon whose minutes exceed that day's maximum |
| ScpConstraints.TheaterEntriesMember | solvers/constraints.py:187-194 | the surgery minutes recorded are exactly those of placements whose id names a patient, by theater |
| ScpConstraints.TheaterLoadsIndexable | solvers/constraints.py:196-199 | every (day, theater) load of a known theater can be looked up in its vector |
| ScpConstraints.TheaterMinutes | solvers/constraints.py:187-194 | the first loop computes the surgery minutes of each (day, theater) |
| ScpConstraints.H4TheaterOvertime | solvers/constraints.py:183-202 | the loops compute H4, a whole number of penalties |
| ScpConstraints.H4Meaning | solvers/constraints.py:183-202 | H4 is the penalty times the number of (day, theater) pairs of a known theater whose minutes exceed that day's availability |
| ScpConstraints.OpenTheatersBound | solvers/constraints.py:206 | there are at most as many open (day, theater) pairs as placements, and at least one when there is a placement |
| ScpConstraints.S5 | solvers/constraints.py:204-207 | S5 lies between the weight (when anything is placed) and the weight times the number of placements |
| ScpConstraints.S6SurgeonTransfer | solvers/constraints.py:210-230 | the loops compute S6 |
| ScpConstraints.TransferEntriesMember | solvers/constraints.py:215-224 | the theaters recorded are exactly those of placements whose id names a patient |
| ScpConstraints.TheatersOf | solvers/constraints.py:213-224 | a (day, surgeon) is grouped exactly when a placement operates there, and its set holds exactly those placements' theaters |
| ScpConstraints.GroupedKey | solvers/constraints.py:213-224 | a (day, surgeon) is grouped exactly when some placement operates there |
| ScpConstraints.GroupedTheater | solvers/constraints.py:213-224 | a grouped (day, surgeon) set holds exactly the theaters of the placements operating there |
| ScpConstraints.TransfersKey | solvers/constraints.py:226-228 | a (day, surgeon) adds a non-negative amount, zero exactly when its placements share one theater |
| ScpConstraints.NoTransfersSingle | solvers/constraints.py:226-228 | no transfers anywhere means each surgeon uses a single theater each day |
| ScpConstraints.SingleNoTransfers | solvers/constraints.py:226-228 | a single theater per surgeon and day means no transfers |
| ScpConstraints.S6Meaning | solvers/constraints.py:210-230 | S6 is non-negative and, for a positive weight, zero exactly when every surgeon uses a single theater each day |
| GlobalConstraints.CountUnscheduled | solvers/constraints.py:241-243 | the loop over `patient_dict` counts exactly the unadmitted patients of one kind |
| GlobalConstraints.H5MandatoryUnscheduled | solvers/constraints.py:236-245 | the loop computes H5, a whole number of penalties |
| GlobalConstraints.UnscheduledPartition | solvers/constraints.py:238-243 | patients of one kind are split, with nothing shared, into admitted and unscheduled |
| GlobalConstraints.H5Meaning | solvers/constraints.py:236-245 | H5 is zero exactly when every mandatory patient is admitted, and is one penalty per mandatory patient left out |
| GlobalConstraints.S8UnscheduledOptional | solvers/constraints.py:277-287 | the loop computes S8 |
| GlobalConstraints.S8Meaning | solvers/constraints.py:277-287 | S8 is non-negative and, for a positive weight, zero exactly when every optional patient is admitted; H5 and S8 together count every unadmitted patient |
| GlobalConstraints.H6AdmissionDay | solvers/constraints.py:248-259 | the loop computes H6 |
| GlobalConstraints.WindowCountSpec | solvers/constraints.py:251-257 | at most two violations per placement, none exactly when every placement is inside its window |
| GlobalConstraints.H6Meaning | solvers/constraints.py:248-259 | H6 is a whole number of penalties, at most two per placement, and zero exactly when every placement is inside its window |
| GlobalConstraints.S7AdmissionDelay | solvers/constraints.py:262-272 | the loop computes S7 |
| GlobalConstraints.DelaysSpec | solvers/constraints.py:265-270 | the total delay is non-negative, and zero exactly when no placement comes after its release day |
| GlobalConstraints.S7Meaning | solvers/constraints.py:262-272 | S7 is non-negative and, for a positive weight, zero exactly when no placed patient waits past its release day |
| Validity.ValidEvaluable | solvers/RVNS_solver.py:129-158 | a valid solution meets every precondition of the fifteen scoring functions, so evaluating it cannot raise |
| Validity.DictPatientFits | solvers/RVNS_solver.py:180-190 | every record of the patient dictionary carries its own id and fits the horizon |
| Validity.AdmissibleDay | solvers/RVNS_solver.py:129-158 | a valid placement has an admission day inside the horizon and resolves to a patient that fits it |
| Validity.ValidRoomsKnown | solvers/RVNS_solver.py:129-158 | in a valid solution every room looked up by H7 and every age group looked up by S1 is known |
| Validity.ValidDaysInRange | solvers/RVNS_solver.py:129-158 | in a valid solution every day index H3 and H4 read lies inside the capacity vectors |
| Evaluation.Evaluate | solvers/RVNS_solver.py:129-158 | the breakdown holds each scoring function's value, and the total is their sum |
| Evaluation.HardQuantised | solvers/RVNS_solver.py:133-156 | every hard entry of the breakdown is a non-negative multiple of the penalty |
| Evaluation.SoftNonNegative | solvers/RVNS_solver.py:133-156 | every soft entry of the breakdown is non-negative |
| Evaluation.CostsBound | solvers/RVNS_solver.py:157-158 | any breakdown of non-negative soft parts and quantised hard parts totals at least its hard part, and below one penalty has no hard violation |
| Evaluation.CostSpec | solvers/RVNS_solver.py:157-158 | the total is at least the hard part, which is non-negative, and a total below one penalty means no hard violation |
| Evaluation.ValidCost | solvers/RVNS_solver.py:129-158 | a valid solution can be scored, and its cost is non-negative |
| Oracle.Random.Below | solvers/RVNS_solver.py:287 | `random.choice` picks an index within the list |
| Oracle.Random.Shuffle | solvers/RVNS_solver.py:298 | `random.shuffle` returns a permutation of the list |
| Moves.Excluding | solvers/RVNS_solver.py:290-294 | the candidate rooms are exactly the known rooms that are neither incompatible nor the current one |
| Moves.DayRange | solvers/RVNS_solver.py:326 | `range(lo, hi)` holds exactly the days from lo up to hi |
| Moves.RemoveFirst | solvers/RVNS_solver.py:327 | `list.remove` drops exactly one occurrence |
| Moves.RangeWithout | solvers/RVNS_solver.py:326-327 | the days tried are exactly the other days of the window |
| Moves.DayRangeAt | solvers/RVNS_solver.py:192 | `range(lo, hi)` has `hi - lo` days, the `j`-th being `lo + j` |
| Moves.ChangePatientRoom | solvers/RVNS_solver.py:282-313 | the result is valid; it is the input or one placement moved to another compatible known room with H1, H2 and H7 at zero; it is the input only when there is no placement or the drawn one has no such room |
| Moves.MoveRoom | solvers/RVNS_solver.py:290-311 | for the drawn placement: a move to another compatible room passing H1, H2 and H7, or the input when no such room passes |
| Moves.RoomCandidate | solvers/RVNS_solver.py:301 | a candidate room move of a valid solution is valid and names only known rooms |
| Moves.FirstRoom | solvers/RVNS_solver.py:300-311 | the result is valid, and is the placement moved to the first room of the order that passes H1, H2 and H7, or the input exactly when none does |
| Moves.TryRoom | solvers/RVNS_solver.py:301-308 | the candidate is the placement moved to the room, and is accepted exactly when H1, H2 and H7 are zero |
| Moves.ChangePatientDay | solvers/RVNS_solver.py:315-342 | the result is valid; it is the input or one placement moved to another day of its window with H6, H3 and H4 at zero; it is the input only when there is no placement or the drawn one has no such day |
| Moves.MoveDay | solvers/RVNS_solver.py:323-340 | for the drawn placement: a move to another day of its window passing H6, H3 and H4, or the input when no such day passes |
| Moves.DayCandidate | solvers/RVNS_solver.py:331 | a candidate day move of a valid solution inside the window is valid and scorable |
| Moves.DaysToTry | solvers/RVNS_solver.py:321-327 | the days tried are exactly the other days from the patient's release day to its due day or default |
| Moves.FirstDay | solvers/RVNS_solver.py:330-342 | the result is valid, and is the placement moved to the first day of the order that passes H6, H3 and H4, or the input exactly when none does |
| Moves.TryDay | solvers/RVNS_solver.py:331-337 | the candidate is the placement moved to the day, and is accepted exactly when H6, H3 and H4 are zero |
| Moves.ChangePatientTheater | solvers/RVNS_solver.py:425-448 | the result is valid; it is the input or one placement moved to another known theater with H3 and H4 at zero; it is the input only when there is no placement or the drawn one has no such theater |
| Moves.MoveTheater | solvers/RVNS_solver.py:430-446 | for the drawn placement: a move to another known theater passing H3 and H4, or the input when no such theater passes |
| Moves.TheaterCandidate | solvers/RVNS_solver.py:439 | a candidate theater move of a valid solution is valid and scorable |
| Moves.FirstTheater | solvers/RVNS_solver.py:438-448 | the result is valid, and is the placement moved to the first theater of the order that passes H3 and H4, or the input exactly when none does |
| Moves.TryTheater | solvers/RVNS_solver.py:439-444 | the candidate is the placement moved to the theater, and is accepted exactly when H3 and H4 are zero |
| Moves.UnplacedOptionals | solvers/RVNS_solver.py:346-350 | the candidates are exactly the optional patients without a placement |
| Moves.PickUnplaced | solvers/RVNS_solver.py:346-354 | the patient drawn is the dictionary record of an optional id that has no placement |
| Moves.UnscheduledListed | solvers/RVNS_solver.py:346-350 | the record of every unscheduled optional id is among the candidates |
| Moves.AppendCandidate | solvers/RVNS_solver.py:372-373 | appending an admissible placement of an unplaced patient keeps the solution valid and scorable |
| Moves.TryAppend | solvers/RVNS_solver.py:366-381 | the candidate is the input with the placement appended, valid and scorable, and is accepted exactly when the six hard checks pass |
| Moves.OrdersKnown | solvers/RVNS_solver.py:355-361 | the shuffled lists hold exactly the days of the range, the known rooms and the known theaters |
| Moves.ShuffledOrders | solvers/RVNS_solver.py:355-361 | the three lists searched hold exactly the days of the range, the known rooms and the known theaters |
| Moves.NoneFits | solvers/RVNS_solver.py:363-386 | when every triple of lists covering the days, allowed rooms and theaters fails, no placement of the patient there passes |
| Moves.FirstTheaterAt | solvers/RVNS_solver.py:365-384 | the innermost loop appends the placement with the first theater of the order that passes, and reports whether there is one |
| Moves.FirstRoomAt | solvers/RVNS_solver.py:364-384 | the middle loop appends the placement with the first room, and then the first theater, that pass, and reports whether there is one |
| Moves.FirstFeasible | solvers/RVNS_solver.py:363-386 | the result is valid, and is the input extended by the first triple of the day, room and theater orders that passes the six hard checks, or the input exactly when none does |
| Moves.RescheduleFound | solvers/RVNS_solver.py:363-384 | a passing placement of an unscheduled optional patient on a day of its range is a rescheduling step |
| Moves.RescheduleOutcome | solvers/RVNS_solver.py:363-386 | the first passing triple gives a rescheduling step; no passing triple means no day of `[release, days - length_of_stay)`, known room and theater passes |
| Moves.ReschedulePatient | solvers/RVNS_solver.py:353-386 | for the drawn patient: one more placement on a day of `[release, days - length_of_stay)` passing the six hard checks, or the input when no day, room and theater passes |
| Moves.RescheduleUnscheduled | solvers/RVNS_solver.py:344-386 | the result is valid; it is the input or the input with one more placement of an unscheduled optional patient on a day before `days - length_of_stay`, passing the six hard checks; it is the input only when no optional patient is unscheduled or the drawn one has no passing placement |
| Moves.SwapRooms | solvers/RVNS_solver.py:411-415 | the swap keeps every nurse id and the number of duties of every record |
| Moves.Staffed | solvers/RVNS_solver.py:394 | the positions drawn from are exactly those of nurse records with a duty |
| Moves.IgnoresNurses | solvers/RVNS_solver.py:419-420 | the expansion, and so H1 and H7, do not depend on nurse records |
| Moves.SwapKeepsRoster | solvers/RVNS_solver.py:411-415 | trading room lists keeps the multiset of rooms staffed at every (day, shift) |
| Moves.PartnersOf | solvers/RVNS_solver.py:397-406 | the candidates are exactly the duties of other nurse ids on the drawn duty's day and shift that share no room with it |
| Moves.RoomSetEmpty | solvers/RVNS_solver.py:405 | `set(rooms)` is empty exactly when the room list is |
| Moves.SwapUnchanged | solvers/RVNS_solver.py:411-415 | a swap leaves the records as they were only when both duties list no room |
| Moves.SwapOutcome | solvers/RVNS_solver.py:408-423 | after the swap check the result is the swapped records with H1 and H7 at zero, or the input, which is then stuck |
| Moves.ChangeNurseAssignment | solvers/RVNS_solver.py:388-423 | the result is valid, and is the input or two same-shift duties of different nurses, with no room in common, that traded rooms, with H1 and H7 at zero; it is the input only when there are fewer than two records, some duty has no partner, two room-less partners exist, or H1 or H7 is already nonzero |
| Moves.ApplyMove | solvers/RVNS_solver.py:120-126 | neighbourhood k keeps validity and either makes a move of its kind or returns its input, which it does only when that move is stuck |
| Roster.StayDemandMember | solvers/RVNS_solver.py:237-245 | a stay requires a slot for a shift exactly when the requirement index is inside its skill vector |
| Roster.StayNeeds | solvers/RVNS_solver.py:237-245 | a stay's requirements are exactly what it needs |
| Roster.ListedNeeded | solvers/RVNS_solver.py:236-245 | every listed requirement is needed by some stay |
| Roster.NeededListed | solvers/RVNS_solver.py:236-245 | every need of a stay is listed |
| Roster.DemandsMember | solvers/RVNS_solver.py:236-245 | a requirement is listed exactly when some stay needs it |
| Roster.GroupMaxAt | solvers/RVNS_solver.py:244-245 | a slot's value is at least -1, bounds every skill paired with it, and is -1 or one of them |
| Roster.OrderKeys | solvers/RVNS_solver.py:248 | the insertion order lists exactly the keys of the requirement map |
| Roster.RoomShiftRequirements | solvers/RVNS_solver.py:235-245 | the loops compute the highest skill each slot needs, and the slots in insertion order |
| Roster.AddStay | solvers/RVNS_solver.py:237-245 | the shift loop adds one stay's requirements |
| Roster.Require | solvers/RVNS_solver.py:243-245 | one `max(get(key, -1), skill)` update extends the requirements by one entry |
| Roster.DemandKeys | solvers/RVNS_solver.py:235-245 | a slot has a requirement exactly when some stay needs it |
| Roster.DemandBound | solvers/RVNS_solver.py:235-245 | a slot's requirement is at least every skill a stay needs there |
| Roster.DemandAttained | solvers/RVNS_solver.py:235-245 | a slot's requirement is -1 or a skill some stay needs there |
| Roster.DemandSpec | solvers/RVNS_solver.py:235-245 | a slot is present exactly when needed, and its value is the largest skill needed there, or -1 |
| Roster.Available | solvers/RVNS_solver.py:249-253 | the available nurses are exactly those working the shift with at least the skill |
| Roster.FirstDuty | solvers/RVNS_solver.py:263-268 | the first duty on the same day and shift, or none when there is no such duty |
| Roster.AddRoom | solvers/RVNS_solver.py:262-275 | the search with early break merges the room into the nurse's duties |
| Roster.MergeDutySpec | solvers/RVNS_solver.py:259-275 | merging covers exactly one more slot, keeps a duty, and keeps duties and rooms distinct |
| Roster.SkipStep | solvers/RVNS_solver.py:255 | a slot no nurse can take is skipped without breaking the hand-out's invariant |
| Roster.GiveSound | solvers/RVNS_solver.py:255-275 | after a hand-out every listed slot was handed out to an eligible nurse |
| Roster.GiveUnique | solvers/RVNS_solver.py:255-275 | a fresh slot handed out is listed by one record only |
| Roster.GiveComplete | solvers/RVNS_solver.py:255-275 | every handed-out slot that a nurse could take stays listed |
| Roster.GiveStep | solvers/RVNS_solver.py:255-275 | handing a fresh slot to an eligible nurse keeps the hand-out's invariant |
| Roster.Records | solvers/RVNS_solver.py:277 | one record per key, in key order, holding that key's duties |
| Roster.HandOutSlots | solvers/RVNS_solver.py:248-275 | the loop hands every required slot some nurse could take to one eligible nurse |
| Roster.AssignNurses | solvers/RVNS_solver.py:231-277 | every record has a duty; no nurse twice; each slot is listed by one eligible nurse and only if required; every slot that could be staffed is staffed |
| Builder.Insert | solvers/RVNS_solver.py:173-176 | insertion adds exactly the one record |
| Builder.SortBy | solvers/RVNS_solver.py:173-176 | `sorted` returns a permutation of its input |
| Builder.InsertSorted | solvers/RVNS_solver.py:173-176 | inserting into a list ordered by the key keeps it ordered |
| Builder.SortBySorted | solvers/RVNS_solver.py:173-176 | the result of `sorted` is ordered by the key |
| Builder.Select | solvers/RVNS_solver.py:173-176 | the filter keeps exactly the patients of one kind |
| Builder.SelectSplit | solvers/RVNS_solver.py:173-178 | splitting by kind loses and adds nothing |
| Builder.ArrangeOrder | solvers/RVNS_solver.py:172-178 | mandatory patients come first, ordered by due day, then optional ones by release day, as a permutation |
| Builder.ArrangeDistinct | solvers/RVNS_solver.py:172-178 | arranging records with distinct ids keeps the ids distinct |
| Builder.ScheduleCovers | solvers/RVNS_solver.py:172-178 | every record of the patient dictionary is scheduled exactly once, and nothing else is |
| Builder.RoomIdsExcept | solvers/RVNS_solver.py:193 | the rooms tried are exactly the listed rooms the patient is not barred from |
| Builder.TheaterIds | solvers/RVNS_solver.py:194 | the theaters tried are exactly the listed ones |
| Builder.CandidatesKnown | solvers/RVNS_solver.py:193-197 | the shuffled lists hold exactly the known rooms the patient is not barred from and exactly the known theaters |
| Builder.ShuffledCandidates | solvers/RVNS_solver.py:193-197 | the two lists searched hold exactly the allowed known rooms and the known theaters |
| Builder.EmptyWindow | solvers/RVNS_solver.py:189-190 | a patient whose release day is after its due day is passed over |
| Builder.EarlierDaysFail | solvers/RVNS_solver.py:198-225 | when every triple of the days before the hit fails, no allowed room and theater passes on any of those days |
| Builder.PlaceFound | solvers/RVNS_solver.py:198-225 | a passing triple places the patient inside its window, in an allowed room, passing the six hard checks, on a day before which nothing passes |
| Builder.PlaceOutcome | solvers/RVNS_solver.py:198-225 | the first passing triple places the patient on the earliest day where anything passes; no passing triple means nothing in the window passes |
| Builder.PlaceInWindow | solvers/RVNS_solver.py:192-225 | for a non-empty window: a placement on the earliest day of the window where some allowed room and theater pass the six hard checks, or the input when none does |
| Builder.PlacePatient | solvers/RVNS_solver.py:180-225 | one pass keeps validity; the patient is left out only when its window is empty or no day, allowed room and theater of it pass the six hard checks; otherwise one placement is appended, on the earliest such day |
| Builder.PhaseStep | solvers/RVNS_solver.py:216-219 | a placement that passes keeps the loop invariant of the patient phase |
| Builder.PlaceNext | solvers/RVNS_solver.py:180-228 | one iteration keeps the loop invariant: valid, no nurses, allowed rooms, hard checks passed, only scheduled ids admitted |
| Builder.PlaceInOrder | solvers/RVNS_solver.py:180-228 | the patient loop yields a valid solution without nurses, passing the six hard checks when anyone is placed, admitting only scheduled ids |
| Builder.PlacePatients | solvers/RVNS_solver.py:172-228 | the patient phase over the sorted dictionary records yields such a solution |
| Builder.NursesKeepChecks | solvers/RVNS_solver.py:212-217 | none of the six hard checks reads nurse records |
| Builder.InitialSolution | solvers/RVNS_solver.py:164-279 | the greedy start is valid and scorable, passes the six hard checks when it places anyone, puts every patient in a room it may use and a known theater, and its nurse records fit the slot requirements |
| Rvns.Shake | solvers/RVNS_solver.py:451-457 | neighbourhood k is applied k times: a valid chain of k steps, each a move of that neighbourhood or no change |
| Rvns.LocalSearch | solvers/RVNS_solver.py:460-478 | the result is valid, is the input or strictly cheaper, and has no hard violation when the input costs less than one penalty |
| Rvns.Search | solvers/RVNS_solver.py:490-509 | the best solution is valid, costs the best cost, is the start or strictly cheaper, the best costs held strictly decrease, and a cost below one penalty means no hard violation |
| Rvns.EmptyStart | solvers/RVNS_solver.py:116-117 | the empty solution, with its cost, is a search that has not moved |
| Rvns.Run | solvers/RVNS_solver.py:481-513 | the search starts from a greedy start with all of its guarantees, and gives a best solution as Search describes |
| Rvns.Solver.constructor | solvers/RVNS_solver.py:103-127 | the solver starts with the empty best solution, its cost, and its invariant |
| Rvns.Solver.Solve | solvers/RVNS_solver.py:481-513 | afterwards the stored start is a greedy start with all of its guarantees, and the best solution is valid, costs the stored best cost, is that start or strictly cheaper, and has no hard violation when its cost is below one penalty |
| Rvns.Solver.Store | solvers/RVNS_solver.py:486-487 | the outcome of a search becomes the solver's best solution and cost |

## Left out

- Reading the instance file (`Loader.get_data` and the getters of `instances/Hospital.py:34-92`), the counts of lines 21-25, `main.py`, `naive.py`, every `print`, and writing the solution file. The instance is an already-loaded `Hospital.Instance` value.
- The record classes of `instances/Hospital.py:192-262` are the datatypes `Patient`, `Occupant`, `Surgeon`, `Theater`, `Room` and `Nurse`. A solution's placements always carry an admission day, a room and a theater, so the generator's test for a missing admission day or room (line 138) never fires.
- The weight classes `PenaltyWeights`, `PAS`, `NRA`, `SCP` and `GlobalPenalty` are folded into the `Scoring.Weights` record and `Evaluation.Evaluate`. Weights are natural numbers rather than JSON numbers that could be floats.
- `copy.deepcopy` is not needed: solutions are values. A move's in-place edit of a copied placement is `Moves.Replace`. The aliasing between `p_sol` and the copy is therefore not modelled.
- `time.time()` and the time limit: `solve` runs `fuel` rounds instead.
- `Oracle.Random.Shuffle`: states that the result is a permutation, not that it is uniformly distributed. `random.choice` is `Oracle.Random.Below`, with no distribution; a seeded linear congruential generator stands in for Python's generator.
- `Rvns.Solver.constructor`: `__init__` sets `best_cost` to `float('inf')`. The model stores the cost of the empty solution instead. `solve` replaces both before any comparison, so the value is never read.
- `Builder.SortBy`: it is an insertion sort that keeps equal keys in input order, as Python's sort does, but only the ordering and the permutation are proved, not the stability.
- `Builder.PlacePatient`: states that the patient is left out only when nothing in its window passes and that it lands on the earliest day where something passes; which room and theater of that day it gets depends on the shuffled orders, and is stated by `Moves.FirstFeasible` for the orders it is given.
- `Builder.PlaceInOrder`: states the loop invariant of the patient phase, not that each patient it leaves out was stuck against the solution built up to its own turn; `Builder.PlacePatient` states that for each pass.
- `NraConstraints.S3Meaning`: states only that S3 is non-negative and zero without nurse records, not an exact characterisation. `NraConstraints.NursesSeenSpec` gives what each id's count is made of.
- Crash paths of the source are preconditions, not modelled error results. Each one below is the case where the Python code raises:
  - H3, H4, H6, S6 and S7 read surgery fields of a placement whose id names an occupant (`PlacedArePatients`).
  - H7 looks up `room_dict` with an unknown room (`RoomsKnown`).
  - S1 looks up an unknown age group (`AgesKnown`).
  - H3 and H4 index a capacity vector outside Python's index range (`SurgeonDaysInRange`, `TheaterDaysInRange`). Negative indices are modelled as Python reads them.
  - H6 compares the due day of a mandatory patient that has none (`DueDaysKnown`).
- `Moves.ChangePatientDay`: requires `Validity.Valid`, which excludes the `ValueError` of `list.remove` when the current admission day lies outside the patient's window.
- `Moves.ChangeNurseAssignment`: requires `Validity.Valid`, which excludes the `IndexError` of `random.choice` over an empty list when no nurse record holds a duty.
- `Moves.ChangePatientRoom`: requires `Validity.Valid`, which excludes the `AttributeError` raised when a placement's id resolves to nothing.
- `Rvns.Solver.Solve`: requires `Validity.WellFormed` of the instance: due days before the horizon exactly for mandatory patients, stays of at least a day, release days not negative, known age groups, occupants' rooms known, and capacity vectors covering the horizon.
