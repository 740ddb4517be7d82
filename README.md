# PatientMonitor — a Dafny model of the monitoring core

PatientMonitor is a desktop dashboard for a practitioner. The practitioner
picks patients and watches their latest measurements:

- total cholesterol, with the mean over the watched patients;
- blood pressure, as a systolic and a diastolic reading;
- a systolic history of up to five readings, for patients whose latest
  systolic reading exceeds a user-set value X.

This project models the core of that program:

- `Encounter.dfy`: an encounter is an immutable timestamped reading of one kind (cholesterol, systolic, diastolic).
- `Patient.dfy`: a patient has fixed demographics and a reading list, newest first, that is replaced as a whole. It also holds the formatting of the full name and of the extra-information text.
- `MonitoringList.dfy`: a monitoring list holds the watched patients in dictionary insertion order. It has a settable threshold and a refresh pass that re-fetches only patients who already have a reading.
- `MonitoringListAverage.dfy`: an averaging list is a monitoring list that also keeps:
  - the number of members with a reading;
  - the mean of their latest readings.

  Add and remove update these two numbers step by step with the program's running-mean formulas. A refresh recomputes them, and the mean is republished as the list's threshold.
- `ViewController.dfy` holds the controller's decision logic:
  - the three click toggles (cholesterol, blood pressure, historic);
  - the highlight classification of a blood-pressure row, and its tag and historic cell;
  - the red/plain/no-data decision of a cholesterol row;
  - the text of the historic column.
- `Text.dfy` holds Python's `sep.join` and `str.split`, and proves that split undoes join.
- `Optional.dfy` holds the option type used for Python's `None`.

The central invariant is `MonitoringListAverages.MonitoringListAverage.Valid`. It says the running count and running average equal the count and the true mean over the current members (`CountWithReading`, `Mean`), and that the threshold equals the average. Add, remove and refresh all preserve it. The lemmas `AddKeepsMean` and `RemoveKeepsMean` prove that the program's incremental formulas compute exactly the true mean after each step.

The remote data service enters as a function `fetch(id, kind, n)` that returns readings newest first. The practitioner's patient directory enters as a map from id to patient. Python's `round(_, 2)` on the average and the number formatting of the historic column enter as function parameters.

Each list should hold, per patient, at most its depth of readings, all of its own kind (`MonitoringLists.Fits`, `ReadingsFit`). The code does not check this. It holds because every list is fed only by `fetch` for its own kind and depth, or by a directory patient, and directory patients are built without readings (App/Model/Patient.py:16) and handed out as copies. The model states these two facts as `MonitoringLists.Respects(fetch)` and `ViewControllers.NoReadings(directory)`. It makes the fit part of `ViewControllers.ViewController.Valid` and proves that every toggle and every refresh keeps it whenever the two facts hold. Each of the three click toggles then ensures the whole of `Valid` again, and the controller's constructor establishes it with four new lists.

Two behaviours of the code worth knowing:

- The refresh docstring of `MonitoringList.update` speaks of patients that had no measurements. The code re-fetches only patients that already have one, and the model follows the code.
- A row with no systolic reading and a diastolic reading above Y is classified as diastolic (App/Controller/ViewController.py:291-299), and so does `ViewControllers.Classify`.

## Model

| member | source | states |
|---|---|---|
| Encounters.NewEncounter | App/Model/Encounter.py:6-14 | an encounter's getters return exactly the timestamp and value it was built from, and its kind is the subclass it was built as |
| Patients.Patient.constructor | App/Model/Patient.py:6-16 | a new patient carries the given identity and demographics and has no readings; `GetId` reads the identity back |
| Patients.Patient.UpdateEncounters | App/Model/Patient.py:18-24 | the reading list is replaced by the given one |
| Patients.Patient.GetEncounters | App/Model/Patient.py:50-57 | None exactly when the patient has no reading, otherwise the whole list, which is non-empty |
| Patients.Patient.Copy | App/Model/Practitioner.py:31 | a deep copy is a new, unshared patient with the same identity, demographics and readings |
| Patients.FullNameSplits | App/Model/Patient.py:26-31 | for space-free names, the full name that `Patient.GetFullName` returns splits at the space back into the first and the last name |
| Patients.ExtraInfoSplits | App/Model/Patient.py:33-41 | for tab-free fields, the extra-information text that `Patient.GetExtraInfo` returns splits at tabs back into the birthdate, gender and address parts, with an empty part between each |
| Patients.AddressAvoidsTab | App/Model/Patient.py:40 | the address line built from tab-free fields contains no tab |
| MonitoringLists.MonitoringList.constructor | App/Model/MonitoringList.py:7-12 | a new list is empty and has the given kind, threshold and history depth |
| MonitoringLists.MonitoringList.Add | App/Model/MonitoringList.py:14-25 | returns true iff the id was not monitored; then the patient is stored under its id and appended to the order; otherwise nothing changes; the threshold is kept; a patient whose readings fit keeps the list fitting |
| MonitoringLists.MonitoringList.Remove | App/Model/MonitoringList.py:27-35 | the id is gone and the others keep their patients and relative order; removing an unmonitored id changes nothing; a fitting list keeps fitting |
| MonitoringLists.MonitoringList.Contains | App/Model/MonitoringList.py:37-43 | true iff the id is monitored |
| MonitoringLists.MonitoringList.ReturnPatients | App/Model/MonitoringList.py:45-50 | the same ids, each mapped to a fresh deep copy of its patient |
| MonitoringLists.MonitoringList.Update | App/Model/MonitoringList.py:52-67 | no patient joins or leaves, every reading list becomes its refreshed value, and a fitting list keeps fitting when the service keeps its promise |
| MonitoringLists.MonitoringList.RefreshEach | App/Model/MonitoringList.py:59-67 | the loop over the snapshot of ids keeps the same patients and gives each one its one-patient refresh |
| MonitoringLists.RefreshedFits | App/Model/MonitoringList.py:59-67 | refreshing from a service that keeps its promise keeps every reading list within the list's kind and depth |
| MonitoringLists.MonitoringList.RefreshPatient | App/Model/MonitoringList.py:61-67 | one patient's list is replaced only when it had a reading, the fetch is non-empty and the newest timestamp differs |
| MonitoringLists.Refreshed | App/Model/MonitoringList.py:59-67 | a refresh keeps the monitored ids; a list changes only to a non-empty fetched list with a new newest timestamp, and only if it was non-empty; it always changes in that case; a list is empty afterwards iff it was empty before |
| MonitoringLists.Without | App/Model/MonitoringList.py:35 | deleting a key keeps exactly the other ids, without duplicates, one fewer when the id was present, and is the identity when it was absent |
| MonitoringLists.MonitoringList.GetPatientIds | App/Model/MonitoringList.py:69-74 | every monitored id exactly once |
| MonitoringLists.MonitoringList.GetNthEncounter | App/Model/MonitoringList.py:77-87 | the n-th newest reading when the patient is monitored and has more than n readings, otherwise None |
| MonitoringLists.MonitoringList.SetThreshold | App/Model/MonitoringList.py:89-102 | the threshold that `GetThreshold` returns becomes the new value, and the readings are untouched |
| MonitoringLists.MonitoringList.GetNumPatients | App/Model/MonitoringList.py:104-109 | the number of monitored patients, those without a reading included |
| MonitoringListAverages.MonitoringListAverage.constructor | App/Model/MonitoringListAverage.py:7-10 | a new averaging list is empty, watches history depth 1, and has count 0 and average and threshold -1 |
| MonitoringListAverages.MonitoringListAverage.Add | App/Model/MonitoringListAverage.py:13-31 | keeps the invariant; a new member is stored, appended to the order and its readings added; a known id changes no member; count and average move by one add step only when the new member has a reading |
| MonitoringListAverages.MonitoringListAverage.AdmitReading | App/Model/MonitoringListAverage.py:21-31 | after a new member joins, count, average and threshold are those of the enlarged list, and are one add step from the old ones |
| MonitoringListAverages.MonitoringListAverage.IncludeReading | App/Model/MonitoringListAverage.py:25-31 | the count rises by one, the average follows the add formula (the value itself for the first reading), and the threshold follows the average |
| MonitoringListAverages.MonitoringListAverage.Remove | App/Model/MonitoringListAverage.py:33-49 | keeps the invariant; the member is gone from the map, the order and the readings; count and average move back by one remove step only when the member had a reading (-1 once nobody is left) |
| MonitoringListAverages.MonitoringListAverage.RetractReading | App/Model/MonitoringListAverage.py:40-48 | count, average and threshold become those of the list without the member, and are one remove step from the old ones, while the members are untouched |
| MonitoringListAverages.MonitoringListAverage.ExcludeReading | App/Model/MonitoringListAverage.py:41-48 | the count falls by one, the average follows the remove formula (-1 at zero), and the threshold follows the average |
| MonitoringListAverages.MonitoringListAverage.UpdateAverage | App/Model/MonitoringListAverage.py:53-73 | recomputing establishes the invariant: count and average are exact over the current members and the threshold is the average |
| MonitoringListAverages.MonitoringListAverage.SumLatestReadings | App/Model/MonitoringListAverage.py:59-66 | the loop yields the sum and the number of the members' latest readings |
| MonitoringListAverages.MonitoringListAverage.Update | App/Model/MonitoringListAverage.py:76-82 | members unchanged, readings refreshed, invariant kept, the count of members with a reading unchanged, and a fitting list keeps fitting when the service keeps its promise |
| MonitoringListAverages.MonitoringListAverage.GetAverage | App/Model/MonitoringListAverage.py:85-90 | the average is the true mean of the members' latest readings, or -1 |
| MonitoringListAverages.AddKeepsMean | App/Model/MonitoringListAverage.py:25-30 | the add formula applied to the true mean gives the true mean of the enlarged list; a member without a reading leaves it unchanged |
| MonitoringListAverages.RemoveKeepsMean | App/Model/MonitoringListAverage.py:42-47 | the remove formula applied to the true mean gives the true mean of the reduced list; a member without a reading leaves it unchanged |
| MonitoringListAverages.AddStepIsMean | App/Model/MonitoringListAverage.py:27-30 | the add step from the mean of n values is the mean of the n + 1 values |
| MonitoringListAverages.RemoveStepIsMean | App/Model/MonitoringListAverage.py:44-47 | the remove step from the mean of n + 1 values is the mean of the remaining n values |
| MonitoringListAverages.RatioAdd | App/Model/MonitoringListAverage.py:23-30 | the add step taken or skipped according to whether a reading exists agrees with the ratio of the new sum and count |
| MonitoringListAverages.RatioRemove | App/Model/MonitoringListAverage.py:41-47 | the remove step taken or skipped according to whether a reading exists agrees with the ratio of the new sum and count |
| MonitoringListAverages.AddCountSum | App/Model/MonitoringListAverage.py:23-26 | a new member adds one to the count and its latest value to the sum exactly when it has a reading |
| MonitoringListAverages.RemoveCountSum | App/Model/MonitoringListAverage.py:40-43 | removing a member takes one from the count and its latest value from the sum exactly when it had a reading |
| MonitoringListAverages.CountSumAppend | App/Model/MonitoringListAverage.py:62-66 | one more loop step adds that member's share to the count and the sum |
| MonitoringListAverages.CountSumWithout | App/Model/MonitoringListAverage.py:40-49 | deleting one id from a duplicate-free list drops exactly its share of the count and the sum |
| MonitoringListAverages.RefreshKeepsCount | App/Model/MonitoringListAverage.py:76-82 | a refresh neither gives a reading to a member without one nor takes one away, so the count is unchanged |
| MonitoringListAverages.MeanSentinelExactlyWhenEmpty | App/Model/MonitoringListAverage.py:68-72 | with non-negative readings, the average is the sentinel -1 exactly when no member has a reading, and is non-negative otherwise |
| MonitoringListAverages.SumNonNegative | App/Model/MonitoringListAverage.py:59-66 | non-negative latest readings give a non-negative sum |
| ViewControllers.Classify | App/Controller/ViewController.py:284-299 | a row is allBloodPressure iff both readings exceed their set limits, systolic or diastolic iff only that one does, and unhighlighted iff neither does |
| ViewControllers.RowTag | App/Controller/ViewController.py:301-315 | a row gets a colour tag exactly when it is highlighted |
| ViewControllers.RowTagsDistinct | App/Controller/ViewController.py:301-312 | the red, blue and purple tags tell the three highlights apart: equal tags mean equal highlights |
| ViewControllers.HistoricCellOffered | App/Controller/ViewController.py:301-315 | the historic cell reads "Click Here" exactly when the latest systolic reading exceeds a non-zero X |
| ViewControllers.ZeroXDisablesSystolic | App/Controller/ViewController.py:287 | with X = 0 the systolic side is never highlighted |
| ViewControllers.ClassifyExamples | App/Controller/ViewController.py:284-299 | the classification of five concrete rows, including a missing systolic reading with a high diastolic one |
| ViewControllers.OfferedImpliesEligible | App/Controller/ViewController.py:301-333 | every row that offers historic monitoring belongs to a patient that the historic toggle accepts |
| ViewControllers.CholesterolRowOf | App/Controller/ViewController.py:194-210 | 'No Data' exactly when there is no reading; otherwise the latest value and time, red iff the value exceeds the rounded average |
| ViewControllers.Pieces | App/Controller/ViewController.py:352-353 | one "value (date)" entry per encounter, in order |
| ViewControllers.TerminatedIsJoinAndComma | App/Controller/ViewController.py:351-354 | the text of the `+=` loop is the entries joined by commas, plus one trailing comma |
| ViewControllers.HistoricString | App/Controller/ViewController.py:350-354 | the historic column is the entries joined by "," with no trailing comma |
| ViewControllers.HistoricStringEndsWithEntry | App/Controller/ViewController.py:354 | for a non-empty history the text ends with an entry's closing parenthesis, never with a comma |
| ViewControllers.GetPatient | App/Model/Practitioner.py:22-31 | a fresh deep copy of the directory's patient, or none for an unknown id |
| ViewControllers.CholesterolCopy | App/Controller/ViewController.py:170-176 | the copy to add has the directory patient's identity and demographics and holds the fetched cholesterol reading, or no reading when the fetch is empty; the reading fits the cholesterol list when the service keeps its promise |
| ViewControllers.HistoricCopy | App/Controller/ViewController.py:327-332 | the copy to add has the directory patient's identity and demographics and holds up to five fetched systolic readings, or the directory's readings when the fetch is empty; these fit the historic list when the service keeps its promise and directory patients hold no readings |
| ViewControllers.BloodPressureCopies | App/Controller/ViewController.py:246-253 | two distinct fresh copies with the directory patient's identity and demographics; when a systolic reading was fetched they hold the fetched systolic and diastolic readings, otherwise the directory's; each fits its list when the service keeps its promise and directory patients hold no readings |
| ViewControllers.ViewController.constructor | App/Controller/ViewController.py:15-27 | refresh period 20, X 140, Y 90, and four new, empty, consistent lists; the systolic, historic and diastolic lists have thresholds 140, 140 and 90 and depths 1, 5 and 1 |
| ViewControllers.ViewController.UpdateN | App/Controller/ViewController.py:48-53 | the refresh period becomes the given value |
| ViewControllers.ViewController.UpdateX | App/Controller/ViewController.py:55-60 | X becomes the given value |
| ViewControllers.ViewController.UpdateY | App/Controller/ViewController.py:62-67 | Y becomes the given value |
| ViewControllers.ViewController.MonitorCholesterol | App/Controller/ViewController.py:162-177 | a monitored patient is removed, the others keep their entries and order, and count and average take one remove step when they had a reading; otherwise a copy of a known patient, with their identity and demographics, is appended with their fetched reading, every other entry kept, and count and average take one add step when a reading was fetched; an unknown id changes nothing; the averaging invariant is kept, and the whole controller invariant when the service keeps its promise |
| ViewControllers.ViewController.StartCholesterol | App/Controller/ViewController.py:169-177 | a copy of a known patient, with their identity and demographics, is appended to the cholesterol list with their fetched reading, every other entry kept, and count and average take one add step when a reading was fetched; an unknown id changes nothing; the fit is kept when the service keeps its promise |
| ViewControllers.ViewController.StopCholesterol | App/Controller/ViewController.py:167-168 | the patient leaves the cholesterol list, the others keep their entries and order, and count and average take one remove step when the patient had a reading |
| ViewControllers.ViewController.MonitorBloodPressure | App/Controller/ViewController.py:233-255 | a monitored patient leaves the systolic, diastolic and historic lists, whose other entries and order are kept; otherwise copies of a known patient, with their identity and demographics, are appended to both current lists with the readings the source stores, every other entry kept, and an unknown id changes nothing; the historic list is untouched by an add; the lists stay linked, and the whole controller invariant holds on when the service keeps its promise and directory patients hold no readings |
| ViewControllers.ViewController.StopBloodPressure | App/Controller/ViewController.py:240-244 | the patient is removed from all three blood-pressure lists, the others keep their entries and order, and the lists stay linked and fitting |
| ViewControllers.ViewController.StopHistoric | App/Controller/ViewController.py:243-244 | the patient is removed from the historic list when it holds them, the others keep their entries and order; the lists stay fitting |
| ViewControllers.ViewController.StopCurrent | App/Controller/ViewController.py:241-242 | the patient is removed from the systolic and the diastolic list, the others keep their entries and order, and the lists stay fitting |
| ViewControllers.ViewController.RemoveSystolic | App/Controller/ViewController.py:241 | the patient is removed from the systolic list, the others keep their entries and order, and it stays fitting |
| ViewControllers.ViewController.RemoveDiastolic | App/Controller/ViewController.py:242 | the patient is removed from the diastolic list, the others keep their entries and order, and it stays fitting |
| ViewControllers.ViewController.StartBloodPressure | App/Controller/ViewController.py:245-255 | copies of a known patient, with their identity and demographics, are appended to the systolic and the diastolic list with the readings the source stores, every other entry kept; an unknown id changes nothing; the lists stay fitting when the service keeps its promise and directory patients hold no readings |
| ViewControllers.ViewController.AddSystolic | App/Controller/ViewController.py:254 | the copy is appended to the systolic list under its id, every other entry kept; a copy with at most one systolic reading keeps the lists fitting |
| ViewControllers.ViewController.AddDiastolic | App/Controller/ViewController.py:255 | the copy is appended to the diastolic list under its id, every other entry kept; a copy with at most one diastolic reading keeps the lists fitting |
| ViewControllers.ViewController.MonitorHistoricBloodPressure | App/Controller/ViewController.py:317-333 | a patient in the historic list is removed, the others keep their entries and order; otherwise a patient is appended, every other entry kept, only if known and their latest systolic reading exceeds X, as a copy with their identity and demographics and up to five fetched readings, and nothing changes otherwise; the whole controller invariant holds on when the service keeps its promise and directory patients hold no readings |
| ViewControllers.ViewController.StartHistoric | App/Controller/ViewController.py:324-333 | a copy of the patient, with their identity and demographics, is appended to the historic list, every other entry kept, exactly when their latest systolic reading exceeds X and they are known, and nothing changes otherwise; the lists stay fitting under the same two conditions |
| ViewControllers.ViewController.AddHistoric | App/Controller/ViewController.py:333 | a patient of the systolic list is appended to the historic list, every other entry kept; one with at most five systolic readings keeps the lists fitting |

## Left out

- The remote data service (`App/Model/WebServiceManager.py`): HTTP requests, JSON paging and FHIR parsing. Fetching is the parameter `fetch`, which gives each (id, kind, depth) a newest-first list.
- The practitioner (`App/Model/Practitioner.py`): its constructor makes network calls. `getPatient` is modelled as `ViewControllers.GetPatient` on a directory map.
- The tkinter view (`App/View/View.py`), the tree inserts, the matplotlib graphs, the extra-information window and the click handlers that read cell coordinates.
- The refresh timer (`timerFunction`, `threading.Timer`). It is concurrency, and it never calls any list's `update` anyway.
- The login retry loop, which is unbounded and network-bound, the `int()` parsing of the entry fields, and the `print("New …")` logging of `updateN`, `updateX` and `updateY` (App/Controller/ViewController.py:53, 60, 67).
- Floating-point arithmetic. Readings and averages are exact reals, and `round(_, 2)` and the number formatting of the historic column are function parameters. `round(X, 2)` on the integer X is the identity.
- Aliasing through `copy.deepcopy` beyond fresh objects. A copy is a fresh patient with the same identity and demographics (`Patients.Patient.SameDetails`); only its readings may then be replaced, and readings are immutable values.
- `Patients.Patient.UpdateEncounters`: `updateEncounters(None)` is modelled as the empty list. Both read back as None through `getEncounters`.
- `MonitoringLists.MonitoringList.GetNthEncounter`: `n` is a natural number. Python's negative indices are not modelled.
- `ViewControllers.HistoricString`: it takes the reading list. The source iterates over `getEncounters()`, which is None for a patient without readings and would raise there.
- `MonitoringListAverages.MonitoringListAverage.Add` returns nothing, as the Python override does. Its base list's `Add` reports whether the patient was added.
- `ViewControllers.ViewController.StopBloodPressure` removes from the historic list before the other two. The source removes from it last; the final state is the same.
- The encounter subclasses (`CholesterolEncounter`, `SystolicEncounter`, `DiastolicEncounter`) become the `Kind` tag of one datatype.
- The averaging list's refresh depth is fixed at 1, and its threshold is its average. The constructor parameters `threshold` and `num` of the source default to -1 and 1 and are passed explicitly.
- ViewControllers.ViewController.constructor: builds the averaging list for cholesterol. The source passes its two arguments swapped (`MonitoringListAverage(self.__wsm, "cholesterol")`, App/Controller/ViewController.py:24), so its list holds the client as its kind. The controller never calls that list's refresh, the only place the kind is read, so the swap has no visible effect.
