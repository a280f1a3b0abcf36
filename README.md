# Course data model and registry of the Hydrant class-schedule planner

This project models `src/firehose.ts` from the Hydrant planner. The planner helps a student choose classes from a course catalog.

- **Course** (`course.dfy`) covers the immutable raw catalog record (`RawClass`), its raw sections and raw timeslots, and the three section kinds. It also covers the read-only views built from a raw record: `Timeslot`, `Section` and `Class`. `Class` computes total units and workload hours, with a fallback flag for missing evaluation hours. It maps the raw kind letters `l`, `r`, `b` to section kinds, builds the sections of one kind, and builds the kind-to-sections map.
- **Registry** (`registry.dfy`) covers the `Firehose` class. Its constructor walks the raw catalog in iteration order and pushes one eval-table row per class. `fillTable` filters those rows by a predicate on the class number. `selectSlots` is, in this version of the program, a stub that returns no section pairs and no options.

How the model represents the source:

- The catalog `Map<string, RawClass>` is a sequence of key/record pairs, so its insertion order is explicit.
- `Class`, `Section` and `Timeslot` are never changed after construction, so they are datatypes. A section's back-reference to its class is the class value.
- The `Firehose` constructor fills `evalTableRows` step by step, so `Firehose` is a class and its constructor keeps the `for … of` loop.
- `formatNumber` is a parameter of the constructor: the model treats it as an opaque function from a number and a precision to a string.
- Credit units, evaluation hours and ratings are `real`. Grid positions are `int`.
- The test `!h` is modelled as `h == 0`.
- A raw kind letter other than `l`, `r`, `b` has no entry in the getter's object literal. `sectionKinds` then yields `undefined` at that position, modelled as `None`. The `sections` getter then throws a `TypeError` when it indexes the record with that value, modelled as `Sections()` returning `None`.

Some behaviour of the code that a reader might not expect, which the model keeps:

- The `number` getter returns the name field `n`, not the class number `no`. See Findings.
- `sectionsOfKind` reads the record's raw list for any kind. It does not check whether the class declares that kind.
- `selectSlots` returns no options at all. This includes the case with no (class, kind) pairs, where the single empty option would be the trivially valid schedule.
- Records with negative units or unknown kind letters are not skipped when the catalog is loaded.

## Model

| member | source | states |
|---|---|---|
| Course.KindOfLetter | src/firehose.ts:133-138 | a letter gives a kind exactly when it is "l", "r" or "b", and that kind's enum value is the letter |
| Course.KindOfLetterInverse | src/firehose.ts:78-82 | each kind's letter looks up to that same kind |
| Course.KindsOfLetters | src/firehose.ts:138 | the letter lookup applied position by position: same length, entry i is the lookup of letter i |
| Course.Class.SectionKinds | src/firehose.ts:132-139 | one entry per raw letter in `s`, in order; when every letter is valid, every entry is the kind whose letter is the raw letter |
| Course.NewTimeslot | src/firehose.ts:88-90 | the timeslot's (startSlot, numSlots) is the raw pair |
| Course.NewTimeslots | src/firehose.ts:103 | one timeslot per raw pair, same length and order, fields equal to the pair's components |
| Course.NewTimeslotsRoundTrip | src/firehose.ts:88-90 | reading the raw pairs back from the built timeslots gives the raw list unchanged |
| Course.NewSection | src/firehose.ts:99-105 | the section has the given class and kind, and its timeslots and room read back as the raw section |
| Course.NewSections | src/firehose.ts:142 | one section per raw section, in order, each with the given class and kind and reading back as its raw section |
| Course.Class.Hours | src/firehose.ts:124-130 | the flag is set exactly when raw `h` is zero; then hours equal units, otherwise hours equal `h` |
| Course.Class.SectionsOfKind | src/firehose.ts:141-143 | one section per raw section of the kind, in source order; each belongs to this class, has this kind and the raw room, and its timeslots equal the raw pairs in number and order |
| Course.SectionsOfKindRoundTrip | src/firehose.ts:141-143 | reading the raw sections back from sectionsOfKind gives the record's raw list for that kind |
| Course.Class.SectionMap | src/firehose.ts:146 | the map exists exactly when every looked-up kind is defined; its keys are exactly those kinds and each maps to that kind's sections |
| Course.Class.Sections | src/firehose.ts:145-147 | defined exactly when all raw letters are valid; its keys are exactly the kinds in sectionKinds, and each key maps to sectionsOfKind of that kind |
| Course.SectionKindsAreDeclared | src/firehose.ts:145-147 | every section in the sections map belongs to the class, has the kind of its key, and that kind is one the class declares |
| Course.UnitsNonNegative | src/firehose.ts:120-122 | units are non-negative when u1, u2 and u3 are |
| Course.HoursNonNegative | src/firehose.ts:124-130 | hours are non-negative when the unit components and `h` are |
| Course.MachineLearningExample | src/firehose.ts:120-130 | u1=5, u2=0, u3=7 and h=0 give 12 units and hours 12 with the fallback flag set |
| Course.NumberReturnsName | src/firehose.ts:116-118 | the `number` getter as written returns the name, which differs from the class number `no` |
| Registry.EvalTable | src/firehose.ts:160-163 | one row per raw class, in iteration order; row i holds class i's `no`, its formatted `ra` and `h` (one decimal), and its `n` |
| Registry.Filter | src/firehose.ts:167 | the kept rows are table rows whose class number is selected, and there are no more of them than rows |
| Registry.FilterKeepsSelected | src/firehose.ts:167 | every table row whose class number is selected is kept |
| Registry.FilterIsSubsequence | src/firehose.ts:167 | the kept rows are a subsequence of the table, so relative order is preserved |
| Registry.SelectedSubsequenceBound | src/firehose.ts:167 | no subsequence of selected rows is longer than the filtered table |
| Registry.FilterUnique | src/firehose.ts:166-168 | the filtered table is the only subsequence of selected rows of its length, so it keeps exactly the selected rows in order |
| Registry.FilterAllOrNothing | src/firehose.ts:166-168 | an always-true predicate keeps every row; an always-false one keeps none |
| Registry.FilterEvalTable | src/firehose.ts:158-168 | filtering the eval table of a catalog equals building the eval table of the catalog entries whose class number is selected |
| Registry.Firehose.constructor | src/firehose.ts:158-164 | stores the catalog, and the rows pushed by the loop are exactly the eval table of the catalog |
| Registry.Firehose.FillTable | src/firehose.ts:166-168 | returns exactly the rows whose class number is selected, as a subsequence of the table; all rows for always-true, none for always-false; the table itself is only read |
| Registry.Firehose.SelectSlots | src/firehose.ts:170-182 | for every lock map, no (class, kind) pairs and no options |

## Findings

| source | as written | input that shows it | evidently intended | confidence | as-written member | corrected member |
|---|---|---|---|---|---|---|
| src/firehose.ts:116-118 | `get number()` returns `rawClass.n`, which the record declares as the name | a record with `no` = "6.036" and `n` = "Introduction to Machine Learning": `number` gives the name | return the class number `no`, the key of the eval table and of `fillTable`'s predicate | not executed; medium | Course.NumberReturnsName | Registry.FilterEvalTable |

The as-written getter is `Course.Class.Number`. The corrected getter is `Course.Class.ClassNumber`. `Registry.FilterClasses` selects catalog entries by `ClassNumber`, and `Registry.FilterEvalTable` proves that this selection agrees with filtering the eval table on its class-number field.

## Left out

- `formatNumber` internals (src/firehose.ts:1-4) are not modelled, because they depend on floating-point `toFixed` and a regular expression. The model treats the function as an opaque parameter.
- Course.Class.Units: sums over reals, so the model does not capture IEEE double rounding of non-integer unit values.
- Course.Class.Hours: `!h` is also true for NaN or a missing field. These cases are not modelled, because the record type gives a number.
- Course.KindOfLetter: some letters that are not kind letters, such as "toString", give an inherited function from the JavaScript object literal rather than `undefined`. The model maps every such letter to `None`; either way `sections` then throws.
- Course.Class.Sections: the iteration order of the resulting JavaScript `Map` is not modelled; the model returns a Dafny `map`.
- Section views are values, so the model does not distinguish two `Section` or `Class` objects built from the same record (object identity).
- The `currentClasses` field (src/firehose.ts:156) is never read or written, so it is not modelled.
- Display-only raw fields (HASS/CI flags, description, prerequisites, URL, terms and the like) are not read by the core functions, so they are not modelled.
- The slot-selection search, the timeslot overlap test, lock handling and option caps are not modelled, because `selectSlots` is a stub in this source.
- src/components/App.tsx is not part of this model. It is user-interface code: the catalog fetch, OAuth, the state callback and the debug global.
