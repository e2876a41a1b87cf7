# MSML course-plan reconciliation, modelled in Dafny

This project models the planning core of `msml.py`, the MSOE MSML advising
script. It covers four steps:

- **Decoding term codes** (`semester_code_to_string`, `TERMS`). A code `<d>S<yy>` becomes a label such as `"Fall, '23"`. Fall (1) and the second summer term (0) belong to the calendar year before the academic year. Digit 0 is shown as Summer, and digits 4–9 raise `KeyError`.
- **Recognising course codes** (`is_course_code`): three letters, then four digits.
- **Grouping a record** (`get_class_list`). A student record is a sequence of `(field, value)` pairs in column order. It becomes an insertion-ordered dict from term label to the values of that term's course fields. Fields that do not start with `<d>S<yy> ` are skipped.
- **Reconciling the plan** (`get_requirements`, with `make_electives_unique`):
  - Build the requirement list from the two admission flags. It has eight slots: numbered electives `CSC5xxx 1..3`, an optional `CSC5610` first and an optional `MTH5810` last.
  - Pool every planned course.
  - Meet `CSC5201` with the first of `CSC5201`, `CSC6711`, `CSC6712`, in that order, that is planned.
  - Walk the remaining requirements in order. An elective slot greedily takes the first planned entry that starts with `CSC` and whose fourth character is a digit of at least 5; a bare `"CSC"` reached by that scan raises `IndexError`. A named requirement takes the course of the same name.
  - Report what stays open as `"unplanned"`. Report what stays in the pool as `"Extra course n"`.

Python exceptions are modelled as `Result` errors, not preconditions:

- `NoSemesterCode`: `re.match` found nothing, so `.group` raises `AttributeError`.
- `UnknownSemester`: `TERMS[sem]` raises `KeyError`.
- `IndexError("CSC")`: `opt[3]` on a planned entry that is exactly `"CSC"`, when an elective scan reaches it.

Modules:

- `Wrappers`: `Option` and `Result`.
- `Text`: ASCII character classes, `str()` of an int, `startswith`, and `re.match` for patterns of single-character classes.
- `Lists`: `list.remove`, and dict assignment and lookup on a sequence of pairs.
- `Terms`, `ClassList` and `Requirements`: the first three steps and the requirement template.
- `Reconciliation`: `get_requirements`. Functions specify it, and methods with loops carry it out.
- `ReconcileFacts`: theorems about the whole reconciliation.

Each loop of the source is a method proved equal to a specification function:

- `GetClassList` equals `Grouped`.
- `MakeElectivesUnique` works on an `array`, in place, and equals `Numbered`.
- `MeetFamily`, `ScanForElective` and `MeetSlots` equal `FamilyPass`, `FindElective` and `BindAll`.
- `MarkUnplanned` and `ListExtras` each build one part of `Finish`: the `"unplanned"` entries and the extra courses. `Conclude` runs the two in turn and equals `Finish`.
- `GetRequirements` equals `Reconcile`.

Theorems about the specification functions state what the source promises.

## Behaviour worth noting

- **The reconciliation can raise.** `get_requirements` raises `IndexError` when an elective scan reaches the planned entry `"CSC"`, and that is its only failure (`ReconcileFacts.ReconcileRaises`).
- **Only CSC counts as advanced, and malformed codes can qualify.** The elective test is `startswith("CSC")` plus a fourth character that is a digit of at least 5. So `"CSC5"` or `"CSC9abc"` can fill an elective, and no other subject can.
- **The template has eight slots.** An empty pool yields eight `"unplanned"` entries and no extras (`ReconcileFacts.ReconcileNothingPlanned`).
- **Grouping fails only on digits 4–9.** `get_class_list` raises only `KeyError`, for a term digit from 4 to 9. The field pattern already admits digits only, so a non-numeric year cannot reach the decoder (`ClassList.CollectErrorIsUnknownSemester`).
- **Year 00 can go negative.** Years are printed without zero padding. Year 00 of a fall (1) or second-summer (0) term gives `'-1`, while `3S00` gives `"Summer, '0"` (`Terms.YearExamples`, `Terms.BoundaryExamples`).

## Model

| member | source | states |
|---|---|---|
| Text.NatToString | msml.py:92 | `str(n)` is a non-empty run of digits; it has one digit exactly when n < 10 and starts with 0 exactly when n is 0 |
| Text.ParseNatToString | msml.py:92 | `int(str(n)) == n` |
| Text.NatToStringInjective | msml.py:139 | different counters give different strings, so elective and extra labels never collide |
| Text.IntToStringInjective | msml.py:65 | the year rendered in a term label determines the year, negative years included |
| Text.MatchesPrefix | msml.py:58 | `re.match` of a pattern of single-character classes succeeds iff every pattern position matches the string's character there (anchored at the start only) |
| Terms.SemesterCodeToString | msml.py:54-65 | a code without the `\dS\d\d` prefix fails with NoSemesterCode; digits 0-3 decode to season + ", '" + calendar year (one less for 0 and 1, and 0 reads as Summer); digits 4-9 fail with UnknownSemester |
| Terms.SameLabelIff | msml.py:54-65 | two decodable codes get the same label iff they name the same season and calendar year (so `0S24` and `3S23` collide) |
| Terms.DecodingExamples | msml.py:56-65 | `1S24` gives "Fall, '23", and both `0S24` and `3S23` give "Summer, '23" |
| Terms.YearExamples | msml.py:59-65 | `2S24` gives "Spring, '24"; `1S05` gives "Fall, '4" with no zero padding |
| Terms.BoundaryExamples | msml.py:59-65 | `1S00` gives "Fall, '-1"; `3S00` gives "Summer, '0"; `4S24` fails with UnknownSemester(4) |
| Terms.IsCourseCode | msml.py:67-69 | true iff the string is exactly three ASCII letters followed by four ASCII digits |
| Lists.RemoveFirstMultiset | msml.py:118-119 | `list.remove(x)` takes away exactly one occurrence of x when there is one |
| Lists.RemoveFirstSplit | msml.py:126-127 | removing x whose first occurrence sits between u and w leaves u + w |
| Lists.Put | msml.py:117 | dict assignment adds a new key at the end, and keeps the key order when the key exists |
| Lists.PutExisting | msml.py:83 | assigning to an existing key changes that key's value and nothing else |
| Lists.FlattenSplit | msml.py:110 | the flattened pool is the lists before entry i, then entry i's list, then the lists after it |
| ClassList.GetClassList | msml.py:71-84 | the loop returns exactly Grouped(record): the first decoding error, or the grouped dict |
| ClassList.CollectStopsAtError | msml.py:77-80 | once a prefix of the record fails to decode, the whole record fails with that same error |
| ClassList.GroupPairsKeys | msml.py:81-82 | the dict's keys are the decoded terms in order of first appearance, each once |
| ClassList.GroupPairsValues | msml.py:83 | each term's list holds exactly the values of that term's fields, in record order |
| ClassList.GroupPairsConserves | msml.py:81-83 | all lists together hold every collected value exactly once (multiset equality) |
| ClassList.CollectSkipsMetadata | msml.py:78-79 | inserting a metadata field anywhere in the record does not change the result |
| ClassList.CollectErrorIsUnknownSemester | msml.py:78-80 | grouping fails only with UnknownSemester for a term digit from 4 to 9 |
| Requirements.MakeElectivesUnique | msml.py:86-92 | the array afterwards is Numbered of the array before: the k-th "CSC5xxx" is renamed "CSC5xxx k", and every other entry is unchanged |
| Requirements.NumberedElectivesDistinct | msml.py:88-92 | two placeholders get different names |
| Requirements.NumberedBase | msml.py:90-92 | stripping the " k" suffix restores the list, when no other entry already looks numbered |
| Requirements.NumberedDistinct | msml.py:86-92 | numbering leaves a list without repeats when its named entries have none |
| Requirements.TemplateShape | msml.py:100-107 | the requirement list written out for both flags |
| Requirements.TemplateFacts | msml.py:100-107 | eight distinct requirements including CSC5201; the first is CSC5610 iff it is needed, and the last is MTH5810 iff it is needed |
| Reconciliation.BuildRequirements | msml.py:100-107 | building the list and numbering it in place gives the template |
| Reconciliation.FamilyChoice | msml.py:113-120 | picks a planned course of CSC5201/CSC6711/CSC6712, and none only when none is planned; no earlier alternative is planned |
| Reconciliation.MeetFamily | msml.py:113-120 | the CSC5201 loop yields exactly FamilyPass: bind CSC5201 to the chosen alternative and remove both, or change nothing |
| Reconciliation.FindElective | msml.py:123-128 | returns the first planned course that qualifies for an elective, with every earlier one skipped; or none when none qualifies; or IndexError when the scan meets "CSC" first |
| Reconciliation.ScanForElective | msml.py:123-128 | the inner elective loop returns exactly FindElective |
| Reconciliation.MeetSlots | msml.py:121-133 | the requirement loop, using dict assignment and `list.remove`, yields exactly BindAll over the copied requirement list |
| Reconciliation.MarkUnplanned | msml.py:134-135 | the loop appends each open requirement marked "unplanned", in order |
| Reconciliation.ListExtras | msml.py:136-139 | the loop appends each unused course as "Extra course n", numbered from 1 in pool order |
| Reconciliation.Conclude | msml.py:134-139 | the two closing loops together build exactly `Finish` of the state the slot loop leaves: open requirements as "unplanned", then the extras |
| Reconciliation.GetRequirements | msml.py:94-140 | the whole function returns exactly Reconcile(classList, flags) |
| Reconciliation.FamilyPassFacts | msml.py:112-120 | the CSC5201 pass keeps the requirements and the pool conserved, binds only a fitting course, and binds the chosen alternative or nothing |
| Reconciliation.BindAllInv | msml.py:121-133 | after any prefix of the loop: the answer only grows; the met requirements are its new keys in order; the open ones are the unmet plus the unvisited; used plus unused courses are the starting pool; every binding fits |
| Reconciliation.BindAllExhausted | msml.py:121-133 | for every run of the slot loop: once an elective slot it visited stays open, every course left in the pool is one the elective scan steps over |
| Reconciliation.BindAllStopped | msml.py:121-133 | once a step raises, the rest of the loop does not change the error |
| Reconciliation.FinishDistinct | msml.py:134-139 | the final dict never assigns the same key twice |
| Reconciliation.ExtraLabelInjective | msml.py:139 | extra-course labels are distinct for distinct counters |
| Reconciliation.TemplateElectivesLast | msml.py:105-106 | in the template no advanced named requirement follows an elective slot, which the greedy scan relies on |
| Reconciliation.ElectivesLastRemove | msml.py:118 | removing CSC5201 keeps that ordering |
| Reconciliation.NamedBound | msml.py:121-133 | a planned named requirement that no earlier elective can steal ends up bound to its own course |
| ReconcileFacts.ReconcileLabels | msml.py:110-139 | the answer's first eight keys are the template's requirements (as a multiset), the rest are "Extra course 1", "Extra course 2", …, and no key repeats |
| ReconcileFacts.ReconcileOrder | msml.py:114-139 | the first eight keys are the key the CSC5201 pass set (if it found an alternative), then the requirements the slot loop met in template order, then the ones left open in template order |
| ReconcileFacts.ReconcileFills | msml.py:110-135 | each of the first eight entries is bound to a course that fits its requirement, or is "unplanned"; the unplanned ones come last |
| ReconcileFacts.ReconcileConserves | msml.py:110-139 | the bound courses plus the extras are exactly the planned courses (multiset equality): each planned course is accounted for once |
| ReconcileFacts.ReconcileRaises | msml.py:122-124 | the only failure is IndexError on a planned entry "CSC" |
| ReconcileFacts.UsedCourses | msml.py:110-135 | every course the answer binds was planned and fits its requirement |
| ReconcileFacts.UnplannedWhenNothingFits | msml.py:134-135 | a requirement that no planned course fits is reported "unplanned" |
| ReconcileFacts.ReconcileElectivesExhaust | msml.py:123-139 | an elective requirement is reported "unplanned" only when no extra course is advanced, so no leftover course could have met it |
| ReconcileFacts.ReconcileFamily | msml.py:112-120 | CSC5201 is the first entry, bound to the first planned alternative; it is "unplanned" when none is planned |
| ReconcileFacts.ReconcileNamedCourse | msml.py:121-135 | a named requirement other than CSC5201 is bound to itself iff that course is planned, and is "unplanned" otherwise |
| ReconcileFacts.ReconcileNothingPlanned | msml.py:134-139 | with nothing planned the answer is the eight requirements, all "unplanned", with no extras |

## Left out

- File access (`check_file_accessibility`, `create_local_copy`), the Excel workbook, pandas (`get_pandas`), `summarize_student`, `summarize_course`, `main` and argument parsing are not modelled. They are I/O and reporting around the core.
- Character classes are ASCII only. Python's `\d` and `str.isdigit` also accept other Unicode digits. On such a digit, `int(opt[3])` and the term decoder would behave differently (`int` may even raise `ValueError`).
- Terms.IsCourseCode: states exact length 7. Python's `$` also matches before one trailing newline, so `"ABC1234\n"` is accepted by the source and rejected by the model.
- ClassList.GetClassList: record values are modelled as strings. The caller drops missing cells before grouping (msml.py:153), but turns whole-number float cells into `int` (msml.py:154). Such an `int` can reach `get_requirements`, where `opt.startswith` (msml.py:124) raises `AttributeError`; that case is not modelled.
- Lists.RemoveFirstMultiset: `list.remove` of an absent element is modelled as a no-op instead of `ValueError`. The source removes only elements it has just found, so this case is unreachable there.
- The `if label not in matched_dict: matched_dict[label] = []` / `append` pair is modelled as two dict assignments on a sequence of pairs. Aliasing of the Python list objects is not modelled.
- Reconciliation.GetRequirements: the body of `get_requirements` is split into one method per loop (`MeetFamily`, `MeetSlots` with `ScanForElective`, `MarkUnplanned`, `ListExtras`). Each method keeps the source's order of operations.
