# Carbon-rod exfoliation lab assistant: a Dafny model of its core

This project models the computational core of a small laboratory record-keeping
application for carbon-rod exfoliation experiments, and proves properties of it:

- **Reagent calculator** (`reagent_calc.dfy`, module `ReagentCalc`). It computes the grams
  of a solid electrolyte to weigh out for a target volume and molarity, using a fixed
  molar-mass table. It also computes the millilitres of 98 % sulfuric acid (density
  1.84 g/mL) to measure out.
- **Anomaly detection** (`analyzer.dfy`, module `Analyzer`). The detector has three rules:
  - high cathode loss relative to anode loss, per experiment;
  - high anode loss, per experiment;
  - an unstable anode loss within an (electrolyte, mode) group.
  
  Thresholds are merged over configurable defaults. Group keys are visited in sorted order,
  using the string order defined in `string_order.dfy`.
- **Experiment recorder** (`recorder.dfy`, module `Recorder`):
  - number parsing;
  - Δm derivation;
  - creating, editing, deleting and querying experiments held as attribute dictionaries in a
    database modelled as a sequence.
- **Record entity** (`experiment_record.dfy`, module `RecordEntity`). This is the record
  service's `ExperimentRecord` as a class with thirteen mutable fields, its setters, and
  `buildNewRecord` / `touchTimestamp`.
- **Record controller** (`record_controller.dfy`, module `RecordController`). This covers:
  - listing records newest first;
  - create, update and delete over a repository with a primary key;
  - the CSV export.

  A quoted-field CSV reader is written next to the export. It is used to prove that the
  export reads back as each record's 13 texts, with a null read as "".

Shared pieces: `wrappers.dfy` (Option/Result) and `sorting.dfy` (a stable newest-first
insertion sort, proved sorted and a permutation).

External effects are parameters of the model:

- Python's `float()` on text is `floatOf`.
- SQL `ILIKE '%…%'` is `ilike`.
- The pandas population standard deviation is `stdDev`.
- `Instant.now()` is `now`.
- `UUID.randomUUID()` is `uuid`.
- `Instant.toString()` is `instantText`.

Floating-point numbers are modelled as exact reals.

## Model

| member | source | states |
|---|---|---|
| ReagentCalc.CalcSolidMass | ai_experiment_assistant/reagent_calc.py:23-28 | fails exactly when the formula is not in the molar-mass table, and the error names that formula |
| ReagentCalc.CalcH2SO4Volume | ai_experiment_assistant/reagent_calc.py:31-38 | the returned volume × density × purity is exactly the pure H2SO4 mass the solution needs |
| ReagentCalc.MolarMassesPositive | ai_experiment_assistant/reagent_calc.py:6-17 | every molar mass in the table is positive |
| ReagentCalc.SolidMassFormula | ai_experiment_assistant/reagent_calc.py:27-28 | for a known formula, mass = volume · molarity · molar mass / 1000 |
| ReagentCalc.H2SO4VolumeFromSolidMass | ai_experiment_assistant/reagent_calc.py:31-38 | the acid volume is the solid-mass result for H2SO4, divided by purity, then by density |
| ReagentCalc.SolidMassNonNegative | ai_experiment_assistant/reagent_calc.py:23-28 | non-negative volume and molarity give a non-negative mass |
| ReagentCalc.H2SO4VolumeNonNegative | ai_experiment_assistant/reagent_calc.py:31-38 | non-negative volume and molarity give a non-negative acid volume |
| ReagentCalc.SolidMassLinearInVolume | ai_experiment_assistant/reagent_calc.py:27-28 | scaling the volume by k scales the mass by k |
| ReagentCalc.SolidMassLinearInMolarity | ai_experiment_assistant/reagent_calc.py:27-28 | scaling the molarity by k scales the mass by k |
| ReagentCalc.SolidMassAdditiveInVolume | ai_experiment_assistant/reagent_calc.py:27-28 | the mass for v1 + v2 is the mass for v1 plus the mass for v2 |
| ReagentCalc.H2SO4VolumeLinear | ai_experiment_assistant/reagent_calc.py:33-38 | the acid volume is linear in the volume and in the molarity |
| ReagentCalc.SolidMassIncreasesWithMolarity | ai_experiment_assistant/reagent_calc.py:27-28 | at a positive volume, a higher molarity needs strictly more solid |
| ReagentCalc.H2SO4VolumeIncreasesWithMolarity | ai_experiment_assistant/reagent_calc.py:33-38 | at a positive volume, a higher molarity needs strictly more acid |
| ReagentCalc.ConcentrateAtLeastPure | ai_experiment_assistant/reagent_calc.py:19-36 | with purity 0.98, the concentrate mass is at least the pure acid mass |
| ReagentCalc.PotassiumCarbonateExample | ai_experiment_assistant/reagent_calc.py:7-28 | 500 mL of 0.1 M K2CO3 needs exactly 6.91025 g |
| ReagentCalc.SulfuricAcidExample | ai_experiment_assistant/reagent_calc.py:16-38 | 500 mL of 0.1 M H2SO4 needs between 2.7195 and 2.7196 mL of the concentrate |
| Analyzer.MergeThresholds | ai_experiment_assistant/analyzer.py:81 | with no overrides the result is the defaults (0.5, 0.1, 0.05); otherwise the keys are the union, caller values win, and the other defaults are kept |
| Analyzer.EffectiveLimits | ai_experiment_assistant/analyzer.py:81-84 | each limit is the caller's value for its key, if given, else its default |
| Analyzer.ExperimentRules | ai_experiment_assistant/analyzer.py:92-111 | at most two anomalies per experiment; each carries that experiment's id and is never UNSTABLE_RESULTS |
| Analyzer.PerExperimentAnomalies | ai_experiment_assistant/analyzer.py:91-111 | at most 2·n anomalies, none of them UNSTABLE_RESULTS |
| Analyzer.GroupKeys | ai_experiment_assistant/analyzer.py:113-116 | the group keys are strictly increasing (sorted, no repeats), and there are no more of them than experiments |
| Analyzer.GroupKeysComplete | ai_experiment_assistant/analyzer.py:115-116 | a key is a group key iff some experiment has that (electrolyte, mode) |
| Analyzer.GroupDeltas | ai_experiment_assistant/analyzer.py:116-117 | the group's Δm+ values are exactly those of the experiments with that key, as a set |
| Analyzer.GroupDeltasConcat | ai_experiment_assistant/analyzer.py:116-117 | the Δm+ column of a concatenation is the concatenation of the columns: every occurrence is kept, in input order |
| Analyzer.GroupDeltasSingle | ai_experiment_assistant/analyzer.py:116-117 | one experiment contributes its Δm+ exactly when its (electrolyte, mode) is the group's key; with GroupDeltasConcat this fixes the column, multiplicities included |
| Analyzer.UnstableKeysFilter | ai_experiment_assistant/analyzer.py:116-118 | the reported keys are exactly the group keys whose std ≥ the limit, still in sorted order |
| Analyzer.GroupAnomalies | ai_experiment_assistant/analyzer.py:118-127 | one anomaly per unstable key, in key order, each built from its key |
| Analyzer.AnomalyNamesDistinct | ai_experiment_assistant/analyzer.py:98-122 | the three anomaly types are stored under three different anomaly_type names |
| Analyzer.DetectAnomalies | ai_experiment_assistant/analyzer.py:76-128 | the loops return exactly the specification `Anomalies`: the per-experiment anomalies followed by the group anomalies |
| Analyzer.Anomalies | ai_experiment_assistant/analyzer.py:86-128 | at most two anomalies per experiment plus one per group (so at most 3·n), and none for no experiments |
| Analyzer.CheckEachExperiment | ai_experiment_assistant/analyzer.py:91-111 | the per-experiment loop returns exactly `PerExperimentAnomalies` |
| Analyzer.CheckEachGroup | ai_experiment_assistant/analyzer.py:113-127 | the group loop appends exactly the anomalies of the unstable keys, in sorted key order |
| Analyzer.NoExperimentsNoAnomalies | ai_experiment_assistant/analyzer.py:86-89 | no experiments, no anomalies |
| Analyzer.CathodeRule | ai_experiment_assistant/analyzer.py:92-103 | HIGH_CATHODE_LOSS is reported iff Δm+ ≠ 0 and \|Δm−\| ≥ limit · \|Δm+\| |
| Analyzer.NoCathodeLossWithoutAnodeChange | ai_experiment_assistant/analyzer.py:92 | Δm+ = 0 never yields HIGH_CATHODE_LOSS (no division by zero) |
| Analyzer.AnodeRule | ai_experiment_assistant/analyzer.py:104-111 | HIGH_ANODE_LOSS is reported iff Δm+ ≥ the anode limit |
| Analyzer.PerExperimentIds | ai_experiment_assistant/analyzer.py:91-111 | every per-experiment anomaly carries the id of an input experiment |
| Analyzer.PerExperimentInInputOrder | ai_experiment_assistant/analyzer.py:91-111 | the anomalies of a + b are those of a followed by those of b |
| Analyzer.GroupAnomaliesLast | ai_experiment_assistant/analyzer.py:91-127 | no UNSTABLE_RESULTS anomaly precedes a per-experiment anomaly |
| Analyzer.GroupAnomalyShape | ai_experiment_assistant/analyzer.py:113-127 | the result splits into per-experiment and group parts; group ids are `GROUP-{electrolyte}-{mode}`; each key appears once; a key is reported iff it occurs and its std ≥ the limit |
| StringOrder.LessIrreflexive | ai_experiment_assistant/analyzer.py:115-116 | the key order is irreflexive |
| StringOrder.LessTransitive | ai_experiment_assistant/analyzer.py:115-116 | the key order is transitive |
| StringOrder.LessTotal | ai_experiment_assistant/analyzer.py:115-116 | any two distinct strings are ordered |
| StringOrder.PairLessIrreflexive | ai_experiment_assistant/analyzer.py:115-116 | tuple order on (electrolyte, mode) is irreflexive |
| StringOrder.PairLessTransitive | ai_experiment_assistant/analyzer.py:115-116 | tuple order is transitive |
| StringOrder.PairLessTotal | ai_experiment_assistant/analyzer.py:115-116 | tuple order is total |
| StringOrder.InsertPair | ai_experiment_assistant/analyzer.py:115-116 | inserting a key keeps the keys strictly sorted and holds exactly the old keys plus the new one |
| StringOrder.StrictlySortedDistinct | ai_experiment_assistant/analyzer.py:115-116 | sorted group keys are pairwise distinct |
| Recorder.ParseFloat | ai_experiment_assistant/recorder.py:28-34 | None and "" (only those) give no value; a number is kept as it is; any other text succeeds exactly when float() accepts it, with float() of the text; a failure is a ValidationError carrying the value |
| Recorder.CalculateDelta | ai_experiment_assistant/recorder.py:37-38 | initial + Δ = final, and Δ ≥ 0 iff final ≥ initial |
| Recorder.ParseField | ai_experiment_assistant/recorder.py:44-48 | a non-numeric key keeps its value; under a numeric key None and "" store None, a number is stored as it is, a text float() accepts is stored as float() of it, and anything else fails with a ValidationError |
| Recorder.Assign | ai_experiment_assistant/recorder.py:44-48 | the parse-and-store loop (shared with the setattr loop of recorder.py:84-88) fails only with an invalid numeric value, a ValidationError |
| Recorder.AssignFailure | ai_experiment_assistant/recorder.py:44-48 | the argument loop fails iff some numeric value does not parse, with the error of the first such value |
| Recorder.AssignStores | ai_experiment_assistant/recorder.py:84-88 | the loop adds only names among the settable ones, leaves unnamed keys unchanged, and stores each (parsed) value under its name |
| Recorder.AssignNumericValues | ai_experiment_assistant/recorder.py:44-48 | parsed numeric fields hold None or a number |
| Recorder.FirstMissing | ai_experiment_assistant/recorder.py:50-57 | names a mass field that is missing or None, and none before it in check order; returns none iff all four are present |
| Recorder.AddExperiment | ai_experiment_assistant/recorder.py:41-64 | the two loops and the Δm derivation compute exactly `AddSpec` |
| Recorder.AddRejectsInvalidNumbers | ai_experiment_assistant/recorder.py:44-48 | an invalid-number error is raised iff some argument fails to parse, and it names a numeric argument's value |
| Recorder.AddRequiresMasses | ai_experiment_assistant/recorder.py:50-57 | when every value parses, add fails iff a mass is missing or empty, naming the first such mass |
| Recorder.AddSpecSuccess | ai_experiment_assistant/recorder.py:43-64 | a successful add passed every argument, found all four masses as numbers, and stores the parsed row with Δm+ and Δm− set to final − initial |
| Recorder.AddStoresKeys | ai_experiment_assistant/recorder.py:43-64 | on success, the stored keys are exactly the arguments' keys plus both Δm |
| Recorder.AddStoresArguments | ai_experiment_assistant/recorder.py:43-48 | on success, non-numeric arguments pass through unchanged and numeric ones are stored parsed |
| Recorder.AddStoresFloatOfText | ai_experiment_assistant/recorder.py:44-46 | on success, a numeric argument given as non-empty text is stored as the float of that text |
| Recorder.AddDerivesDeltas | ai_experiment_assistant/recorder.py:50-64 | on success, all four masses are numbers and Δm± = final − initial |
| Recorder.Lookup | ai_experiment_assistant/recorder.py:77-82 | one_or_none: a unique match is returned; not-found iff nothing matches; multiple-found only when two rows match |
| Recorder.Recompute | ai_experiment_assistant/recorder.py:90-103 | succeeds iff both masses are numbers, and then sets Δ = final − initial; otherwise fails with the TypeError of subtracting None, which is not a ValidationError |
| Recorder.EditExperiment | ai_experiment_assistant/recorder.py:75-106 | the lookup, the setattr loop and the Δm recomputation compute exactly `EditSpec` |
| Recorder.EditUnknownId | ai_experiment_assistant/recorder.py:77-82 | editing an id nobody has is a ValidationError |
| Recorder.EditMissingMassIsTypeError | ai_experiment_assistant/recorder.py:84-103 | after the attributes are set, the edit fails iff it changed a mass of a pair that is then not a number, and that failure is a TypeError, not a ValidationError |
| Recorder.EditChangesOnlyNamedAttributes | ai_experiment_assistant/recorder.py:84-88 | only the matching row changes; names that are not attributes are ignored; unnamed attributes keep their values; named ones hold their parsed values |
| Recorder.EditRecomputesDeltas | ai_experiment_assistant/recorder.py:90-103 | Δm+ = final − initial when a positive mass was edited, else it is unchanged (likewise Δm−) |
| Recorder.DeleteExperiment | ai_experiment_assistant/recorder.py:109-116 | an id held by exactly one row is deleted: exactly that row is removed and none with the id remains; not-found iff no row matches; multiple-found only when two rows match |
| Recorder.FilterRows | ai_experiment_assistant/recorder.py:128-143 | keeps each row passing every given filter (date range, mode, electrolyte, case-insensitive search in id or notes) with its multiplicity, and drops every other row |
| Recorder.QueryExperiments | ai_experiment_assistant/recorder.py:119-144 | returns exactly the rows passing every given filter, with their multiplicities, sorted by date_time descending |
| Sorting.InsertDesc | record-service/src/main/java/com/example/recordservice/ExperimentRecordController.java:43 | inserting into a newest-first list keeps it sorted and adds exactly that element |
| Sorting.SortDesc | record-service/src/main/java/com/example/recordservice/ExperimentRecordController.java:43 | the result is sorted newest first and is a permutation of the input |
| RecordEntity.AssignedId | record-service/src/main/java/com/example/recordservice/ExperimentRecord.java:69-72 | a non-blank supplied id is kept; a null or blank one is replaced by the UUID; the result is never blank when the UUID is not |
| RecordEntity.BlankSamples | record-service/src/main/java/com/example/recordservice/ExperimentRecord.java:70 | isBlank as Character.isWhitespace defines it: empty text, ASCII controls and Unicode spaces are blank; the non-breaking spaces U+00A0, U+2007 and U+202F are not |
| RecordEntity.UuidTextNotBlank | record-service/src/main/java/com/example/recordservice/ExperimentRecord.java:70-71 | a UUID string (with its dash) is never blank |
| RecordEntity.ExperimentRecord.constructor | record-service/src/main/java/com/example/recordservice/ExperimentRecord.java:61-63 | a new entity has every field null |
| RecordEntity.ExperimentRecord.Load | record-service/src/main/java/com/example/recordservice/ExperimentRecordController.java:68-69 | a loaded entity holds exactly the stored values |
| RecordEntity.ExperimentRecord.BuildNewRecord | record-service/src/main/java/com/example/recordservice/ExperimentRecord.java:69-75 | fills a null or blank id with the UUID, stamps now, returns the same object, and changes nothing else |
| RecordEntity.ExperimentRecord.TouchTimestamp | record-service/src/main/java/com/example/recordservice/ExperimentRecord.java:80-82 | sets the time stamp to now and changes nothing else |
| RecordEntity.ExperimentRecord.SetId | record-service/src/main/java/com/example/recordservice/ExperimentRecord.java:90-92 | sets id only |
| RecordEntity.ExperimentRecord.SetExperimentId | record-service/src/main/java/com/example/recordservice/ExperimentRecord.java:98-100 | sets experimentId only |
| RecordEntity.ExperimentRecord.SetDate | record-service/src/main/java/com/example/recordservice/ExperimentRecord.java:106-108 | sets date only |
| RecordEntity.ExperimentRecord.SetMode | record-service/src/main/java/com/example/recordservice/ExperimentRecord.java:114-116 | sets mode only |
| RecordEntity.ExperimentRecord.SetVoltage | record-service/src/main/java/com/example/recordservice/ExperimentRecord.java:122-124 | sets voltage only |
| RecordEntity.ExperimentRecord.SetCurrent | record-service/src/main/java/com/example/recordservice/ExperimentRecord.java:130-132 | sets current only |
| RecordEntity.ExperimentRecord.SetElectrolyte | record-service/src/main/java/com/example/recordservice/ExperimentRecord.java:138-140 | sets electrolyte only |
| RecordEntity.ExperimentRecord.SetAnodeInitial | record-service/src/main/java/com/example/recordservice/ExperimentRecord.java:146-148 | sets anodeInitial only |
| RecordEntity.ExperimentRecord.SetAnodeFinal | record-service/src/main/java/com/example/recordservice/ExperimentRecord.java:154-156 | sets anodeFinal only |
| RecordEntity.ExperimentRecord.SetCathodeInitial | record-service/src/main/java/com/example/recordservice/ExperimentRecord.java:162-164 | sets cathodeInitial only |
| RecordEntity.ExperimentRecord.SetCathodeFinal | record-service/src/main/java/com/example/recordservice/ExperimentRecord.java:170-172 | sets cathodeFinal only |
| RecordEntity.ExperimentRecord.SetNotes | record-service/src/main/java/com/example/recordservice/ExperimentRecord.java:178-180 | sets notes only |
| RecordEntity.ExperimentRecord.SetTimestamp | record-service/src/main/java/com/example/recordservice/ExperimentRecord.java:186-188 | sets timestamp only |
| RecordController.FindById | record-service/src/main/java/com/example/recordservice/ExperimentRecordController.java:68-69 | finds a record iff one with that id is stored, and returns a stored record with that id |
| RecordController.Save | record-service/src/main/java/com/example/recordservice/ExperimentRecordController.java:82 | afterwards the id finds the saved record; other ids find what they found before; the size grows only for a new id; nothing but the saved record is added |
| RecordController.SaveKeepsUniqueIds | record-service/src/main/java/com/example/recordservice/ExperimentRecord.java:18-20 | saving keeps ids non-null and unique |
| RecordController.Remove | record-service/src/main/java/com/example/recordservice/ExperimentRecordController.java:97 | keeps exactly the records with other ids; the id no longer finds anything; other ids are unaffected |
| RecordController.RemoveOne | record-service/src/main/java/com/example/recordservice/ExperimentRecordController.java:95-98 | under a primary key, delete removes exactly one record when the id is present |
| RecordController.FindAll | record-service/src/main/java/com/example/recordservice/ExperimentRecordController.java:39-45 | fails iff two or more records exist and one has a null time stamp; otherwise returns a permutation of the records sorted by time stamp descending |
| RecordController.Updated | record-service/src/main/java/com/example/recordservice/ExperimentRecordController.java:70-81 | keeps the stored id, sets the time stamp to now, and takes every other field from the payload |
| RecordController.UpdatedForgetsOldContents | record-service/src/main/java/com/example/recordservice/ExperimentRecordController.java:69-82 | an update's result depends on the stored record only through its id |
| RecordController.ExperimentRecordController.constructor | record-service/src/main/java/com/example/recordservice/ExperimentRecordController.java:30-32 | starts from an empty repository that meets the table constraints |
| RecordController.ExperimentRecordController.Create | record-service/src/main/java/com/example/recordservice/ExperimentRecordController.java:53-57 | fills in the id and stamps now on the posted entity itself, saves exactly that entity's new state, and keeps ids unique and time stamps present |
| RecordController.ExperimentRecordController.Update | record-service/src/main/java/com/example/recordservice/ExperimentRecordController.java:66-85 | 404 with no change for an unknown id; otherwise saves and returns `Updated(stored, payload, now)` |
| RecordController.ExperimentRecordController.Delete | record-service/src/main/java/com/example/recordservice/ExperimentRecordController.java:93-101 | 404 with no change for an unknown id; otherwise removes that record |
| RecordController.SaveKeepsTimestamps | record-service/src/main/java/com/example/recordservice/ExperimentRecord.java:55-56 | saving a stamped record keeps every stored time stamp non-null |
| RecordController.RemoveKeepsTimestamps | record-service/src/main/java/com/example/recordservice/ExperimentRecord.java:55-56 | deleting keeps every stored time stamp non-null |
| RecordController.ValidListingSucceeds | record-service/src/main/java/com/example/recordservice/ExperimentRecordController.java:39-45 | over a repository meeting the table constraints, listing never fails |
| RecordController.Escape | record-service/src/main/java/com/example/recordservice/ExperimentRecordController.java:146 | escaping never shortens the text and leaves text without quotes unchanged |
| RecordController.Wrap | record-service/src/main/java/com/example/recordservice/ExperimentRecordController.java:145-148 | the field starts and ends with a double quote |
| RecordController.WrapNullIsEmpty | record-service/src/main/java/com/example/recordservice/ExperimentRecordController.java:146-147 | null and "" export as the same field `""` |
| RecordController.CsvValues | record-service/src/main/java/com/example/recordservice/ExperimentRecordController.java:115-129 | one value per header column |
| RecordController.CsvRow | record-service/src/main/java/com/example/recordservice/ExperimentRecordController.java:115-129 | a record's line reads back, field by field, as the texts of its thirteen values |
| RecordController.CsvRows | record-service/src/main/java/com/example/recordservice/ExperimentRecordController.java:114-130 | one line per record, in repository order |
| RecordController.ExportCsv | record-service/src/main/java/com/example/recordservice/ExperimentRecordController.java:109-132 | the text starts with the byte order mark and the header line; an empty repository exports only those; ExportCsvReadsBack reads the rest back |
| RecordController.ReadQuotedEscape | record-service/src/main/java/com/example/recordservice/ExperimentRecordController.java:146-147 | escaped text plus the closing quote reads back as the text, leaving what follows |
| RecordController.ReadFieldWrap | record-service/src/main/java/com/example/recordservice/ExperimentRecordController.java:145-148 | a wrapped value reads back as its text (null as "") |
| RecordController.ReadRowJoin | record-service/src/main/java/com/example/recordservice/ExperimentRecordController.java:115-129 | a comma-joined row of wrapped values reads back as their texts |
| RecordController.ReadRowsJoin | record-service/src/main/java/com/example/recordservice/ExperimentRecordController.java:114-130 | the newline-joined rows read back as one line of values per record, in order |
| RecordController.ExportCsvReadsBack | record-service/src/main/java/com/example/recordservice/ExperimentRecordController.java:108-132 | the export is BOM + header + newline, followed by a body that reads back as each record's 13 texts in repository order, a null read as "" and the time stamp as its instant text |
| RecordController.ExportedColumns | record-service/src/main/java/com/example/recordservice/ExperimentRecordController.java:110-129 | each exported line has 13 values in header order: id, time stamp text ("" when null), experimentId, date, mode, voltage, current, electrolyte, anodeInitial, anodeFinal, cathodeInitial, cathodeFinal, notes |

## Left out

- Persistence: sessions, commits, the ORM and JPA are not modelled.
  - A database is a sequence of rows, and each operation returns the new sequence.
  - An error leaves the caller's sequence untouched, which stands for the rollback.
  - Database constraints on insert or update are not modelled: NOT NULL columns, the unique
    experiment_id, and the `nullable = false` entity columns.
- Python `float()` on text, SQL `ILIKE`, `Instant.now()`, `UUID.randomUUID()` and
  `Instant.toString()` are parameters.
- Floating point is modelled as exact reals: no rounding, NaN or infinity. The examples are
  exact for the given decimals.
- Analyzer.DetectAnomalies: the population standard deviation (`std(ddof=0)`) is the
  parameter `stdDev`.
  - The human-readable messages of anomalies are left out.
  - The conversion to a pandas DataFrame (`experiments_to_dataframe`) is left out.
- Recorder.AddExperiment: these steps are not modelled:
  - the ISO-8601 parsing of a text `date_time` (recorder.py:66-67);
  - building the ORM object from the dictionary (an unknown keyword would raise there);
  - the insert.
- Recorder.EditExperiment: `hasattr` is modelled as "is one of the fifteen columns". An
  ORM object has other attributes that setattr could reach; the model ignores those names.
- Recorder.QueryExperiments: does not state the order among experiments with equal
  date_time. The database leaves that order unspecified; the model sorts stably.
- RecordController.FindAll: does not state the order of records with equal time stamps,
  although the insertion sort used is stable, as Java's sort is.
- RecordController.ExportCsv: the HTTP response is left out. That covers the UTF-8 byte
  encoding, the content type and the attachment header.
- The entity getters (`getId` … `getTimestamp`) are not modelled: each returns its field.
  The model reads the fields directly.
- The calculator does not validate its inputs: zero or negative volumes and molarities are
  accepted and give zero or negative results; the only error is an unknown formula
  (ai_experiment_assistant/reagent_calc.py:25-26).
- Group ids `GROUP-{electrolyte}-{mode}` can coincide for different keys, for example
  ("a-b", "c") and ("a", "b-c"). Distinctness is therefore proved for the keys, not for the
  id strings.
