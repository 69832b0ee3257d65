/**
 * Creating, editing, deleting and querying experiments (ai_experiment_assistant/recorder.py).
 *
 * An experiment is held as its attribute dictionary (column name to value), which is how the
 * source builds it (a `parsed` dict) and edits it (setattr by name). The database is a sequence
 * of such rows; a failed operation raises, the session rolls back, and the sequence the caller
 * holds is unchanged. Python's float() on text is the parameter floatOf.
 */
module Recorder {
  import opened Wrappers
  import opened Sorting

  /** A value as the recorder receives or stores it: None, a str, a float or a datetime. */
  datatype Value = Null | Text(s: string) | Number(x: real) | Time(t: int)

  /** An experiment's attributes by name. */
  type Row = map<string, Value>

  /** The database: every stored experiment. */
  type Database = seq<Row>

  datatype RecorderError =
    | InvalidNumericValue(value: Value)     // ValidationError
    | MissingRequiredField(field: string)  // ValidationError
    | ExperimentNotFound(experimentId: string)  // ValidationError
    | MultipleResultsFound(experimentId: string)  // raised by one_or_none()
    | DeltaOfNone                          // TypeError: a mass that is None in final − initial
  {
    predicate IsValidationError() {
      InvalidNumericValue? || MissingRequiredField? || ExperimentNotFound?
    }
  }

  const ExperimentIdKey: string := "experiment_id"
  const DateTimeKey: string := "date_time"
  const ModeKey: string := "mode"
  const ElectrolyteKey: string := "electrolyte"
  const NotesKey: string := "notes"
  const InitialPositive: string := "initial_mass_positive_g"
  const FinalPositive: string := "final_mass_positive_g"
  const DeltaPositive: string := "delta_mass_positive_g"
  const InitialNegative: string := "initial_mass_negative_g"
  const FinalNegative: string := "final_mass_negative_g"
  const DeltaNegative: string := "delta_mass_negative_g"

  /** The fields parsed as floats. */
  const NumericFields: set<string> := {
    "voltage_V", "current_A", "duration_min",
    InitialPositive, FinalPositive, InitialNegative, FinalNegative
  }

  /** The four masses a new experiment must have, in the order they are checked. */
  const MassFields: seq<string> := [InitialPositive, FinalPositive, InitialNegative, FinalNegative]

  /** The columns of an experiment: the attribute names an edit may set. */
  const Columns: set<string> := {
    "id", DateTimeKey, ExperimentIdKey, ModeKey, "voltage_V", "current_A", ElectrolyteKey,
    "duration_min", InitialPositive, FinalPositive, DeltaPositive,
    InitialNegative, FinalNegative, DeltaNegative, NotesKey
  }

  // Parsing and derivation.

  /** None and "" mean "no value"; any other value must convert to a float. */
  function ParseFloat(value: Value, floatOf: string -> Option<real>): (r: Result<Option<real>, RecorderError>)
    ensures r.Success? && r.value.None? <==> value == Null || value == Text("")
    ensures r.Failure? ==> r.error == InvalidNumericValue(value) && r.error.IsValidationError()
    ensures r.Success? && r.value.Some? ==>
              value == Number(r.value.value) || (value.Text? && floatOf(value.s) == r.value)
    ensures value.Number? ==> r == Success(Some(value.x))
    ensures value.Time? ==> r.Failure?
    ensures value.Text? && value.s != "" ==>
              (r.Failure? <==> floatOf(value.s).None?) && (r.Success? ==> r.value == floatOf(value.s))
  {
    match value
    case Null => Success(None)
    case Number(x) => Success(Some(x))
    case Time(_) => Failure(InvalidNumericValue(value))
    case Text(s) =>
      if s == "" then Success(None)
      else if floatOf(s).Some? then Success(floatOf(s))
      else Failure(InvalidNumericValue(value))
  }

  /** Δm: the final mass less the initial one. */
  function CalculateDelta(initial: real, final: real): (delta: real)
    ensures initial + delta == final
    ensures delta >= 0.0 <==> final >= initial
  {
    final - initial
  }

  /** The value stored under key: parsed when key is numeric, as given otherwise. */
  function ParseField(key: string, value: Value, floatOf: string -> Option<real>): (r: Result<Value, RecorderError>)
    ensures key !in NumericFields ==> r == Success(value)
    ensures key in NumericFields && r.Success? ==> r.value.Null? || r.value.Number?
    ensures key in NumericFields && (value == Null || value == Text("")) ==> r == Success(Null)
    ensures key in NumericFields && value.Number? ==> r == Success(value)
    ensures key in NumericFields && value.Text? && value.s != "" && floatOf(value.s).Some? ==>
              r == Success(Number(floatOf(value.s).value))
    ensures key in NumericFields && (value.Time? || (value.Text? && value.s != "" && floatOf(value.s).None?)) ==>
              r == Failure(InvalidNumericValue(value))
  {
    if key !in NumericFields then Success(value)
    else
      match ParseFloat(value, floatOf)
      case Failure(e) => Failure(e)
      case Success(None) => Success(Null)
      case Success(Some(x)) => Success(Number(x))
  }

  predicate Fails(items: seq<(string, Value)>, i: nat, floatOf: string -> Option<real>)
    requires i < |items|
  {
    ParseField(items[i].0, items[i].1, floatOf).Failure?
  }

  function KeysOf(items: seq<(string, Value)>): set<string> {
    set i | 0 <= i < |items| :: items[i].0
  }

  /** Keyword arguments: no name occurs twice. */
  ghost predicate DistinctKeys(items: seq<(string, Value)>) {
    forall i, j :: 0 <= i < j < |items| ==> items[i].0 != items[j].0
  }

  /**
   * The loop shared by add and edit: each (key, value) in turn is parsed if numeric and then
   * stored into target if key is one of attrs; the first value that fails to parse aborts.
   */
  function Assign(target: Row, items: seq<(string, Value)>, attrs: set<string>,
                  floatOf: string -> Option<real>): (r: Result<Row, RecorderError>)
    ensures r.Failure? ==> r.error.InvalidNumericValue?
    decreases |items|
  {
    if items == [] then Success(target)
    else
      var (key, value) := items[|items| - 1];
      match Assign(target, items[..|items| - 1], attrs, floatOf)
      case Failure(e) => Failure(e)
      case Success(row) =>
        match ParseField(key, value, floatOf)
        case Failure(e) => Failure(e)
        case Success(v) => Success(if key in attrs then row[key := v] else row)
  }

  /** The loop fails exactly at the first value that does not parse. */
  lemma {:induction false} AssignFailure(target: Row, items: seq<(string, Value)>, attrs: set<string>,
                                         floatOf: string -> Option<real>)
    ensures var r := Assign(target, items, attrs, floatOf);
            r.Failure? <==> exists i :: 0 <= i < |items| && Fails(items, i, floatOf)
    ensures var r := Assign(target, items, attrs, floatOf);
            r.Failure? ==> exists i :: 0 <= i < |items| && Fails(items, i, floatOf)
                                        && r.error == InvalidNumericValue(items[i].1)
                                        && forall j :: 0 <= j < i ==> !Fails(items, j, floatOf)
    decreases |items|
  {
    if items != [] {
      var front := items[..|items| - 1];
      AssignFailure(target, front, attrs, floatOf);
      forall j | 0 <= j < |front| ensures Fails(front, j, floatOf) == Fails(items, j, floatOf) {
        assert front[j] == items[j];
      }
      var n := |items| - 1;
      if Assign(target, front, attrs, floatOf).Success? {
        assert forall j :: 0 <= j < n ==> !Fails(items, j, floatOf);
        if Fails(items, n, floatOf) {
          assert ParseField(items[n].0, items[n].1, floatOf).error == InvalidNumericValue(items[n].1);
        }
      }
    }
  }

  /**
   * What a successful loop stores: the attrs among the keys are added, keys that are not
   * changed keep their value, and (for distinct keys) each key in attrs holds its parsed value.
   */
  lemma {:induction false} AssignStores(target: Row, items: seq<(string, Value)>, attrs: set<string>,
                                        floatOf: string -> Option<real>)
    requires Assign(target, items, attrs, floatOf).Success?
    ensures var r := Assign(target, items, attrs, floatOf).value;
            && (forall k :: k in r <==> k in target || (k in attrs && k in KeysOf(items)))
            && (forall k :: k in target && k !in KeysOf(items) ==> r[k] == target[k])
            && (forall k :: k in target && k !in attrs ==> r[k] == target[k])
            && (DistinctKeys(items) ==>
                  forall i :: 0 <= i < |items| && items[i].0 in attrs ==>
                    Success(r[items[i].0]) == ParseField(items[i].0, items[i].1, floatOf))
    decreases |items|
  {
    if items != [] {
      var front, last := items[..|items| - 1], items[|items| - 1];
      AssignStores(target, front, attrs, floatOf);
      assert KeysOf(items) == KeysOf(front) + {last.0} by {
        forall k | k in KeysOf(items) ensures k in KeysOf(front) + {last.0} {
          var i :| 0 <= i < |items| && items[i].0 == k;
          if i < |front| { assert front[i] == items[i]; }
        }
        forall k | k in KeysOf(front) ensures k in KeysOf(items) {
          var i :| 0 <= i < |front| && front[i].0 == k;
          assert items[i] == front[i];
        }
      }
      if DistinctKeys(items) {
        assert DistinctKeys(front) by {
          forall i, j | 0 <= i < j < |front| ensures front[i].0 != front[j].0 {
            assert front[i] == items[i] && front[j] == items[j];
          }
        }
        forall i | 0 <= i < |front| ensures front[i].0 != last.0 {
          assert front[i] == items[i];
        }
        assert last.0 !in KeysOf(front);
        forall i | 0 <= i < |front| ensures front[i] == items[i] { }
      }
    }
  }

  /** Assigning into an empty row only ever stores parsed numbers under numeric keys. */
  lemma {:induction false} AssignNumericValues(items: seq<(string, Value)>, attrs: set<string>,
                                               floatOf: string -> Option<real>)
    requires Assign(map[], items, attrs, floatOf).Success?
    ensures var r := Assign(map[], items, attrs, floatOf).value;
            forall k :: k in r && k in NumericFields ==> r[k].Null? || r[k].Number?
    decreases |items|
  {
    if items != [] {
      AssignNumericValues(items[..|items| - 1], attrs, floatOf);
    }
  }

  // add_experiment

  /** `parsed.get(field) is None`. */
  predicate Missing(parsed: Row, field: string) {
    field !in parsed || parsed[field] == Null
  }

  /** The first mass field the parsed dictionary lacks, if any. */
  function FirstMissing(parsed: Row): (r: Option<string>)
    ensures r.Some? ==> r.value in MassFields && Missing(parsed, r.value)
    ensures forall i :: 0 <= i < |MassFields| && r == Some(MassFields[i]) ==>
              forall j :: 0 <= j < i ==> !Missing(parsed, MassFields[j])
    ensures r.None? <==> forall f :: f in MassFields ==> !Missing(parsed, f)
  {
    if Missing(parsed, InitialPositive) then Some(InitialPositive)
    else if Missing(parsed, FinalPositive) then Some(FinalPositive)
    else if Missing(parsed, InitialNegative) then Some(InitialNegative)
    else if Missing(parsed, FinalNegative) then Some(FinalNegative)
    else None
  }

  /** The value of a present, numeric field. */
  function Num(row: Row, key: string): real
    requires key in row && row[key].Number?
  {
    row[key].x
  }

  /** Everything add_experiment derives from its keyword arguments, before storing the row. */
  function AddSpec(data: seq<(string, Value)>, floatOf: string -> Option<real>): Result<Row, RecorderError> {
    match Assign(map[], data, KeysOf(data), floatOf)
    case Failure(e) => Failure(e)
    case Success(parsed) =>
      if FirstMissing(parsed).Some? then Failure(MissingRequiredField(FirstMissing(parsed).value))
      else
        AssignNumericValues(data, KeysOf(data), floatOf);
        Success(parsed[DeltaPositive := Number(CalculateDelta(Num(parsed, InitialPositive), Num(parsed, FinalPositive)))]
                      [DeltaNegative := Number(CalculateDelta(Num(parsed, InitialNegative), Num(parsed, FinalNegative)))])
  }

  /** add_experiment: parse the arguments in a loop, check the masses in a loop, derive Δm. */
  method AddExperiment(data: seq<(string, Value)>, floatOf: string -> Option<real>)
    returns (r: Result<Row, RecorderError>)
    ensures r == AddSpec(data, floatOf)
  {
    var parsed: Row := map[];
    for i := 0 to |data|
      invariant Assign(map[], data[..i], KeysOf(data), floatOf) == Success(parsed)
    {
      var (key, value) := data[i];
      assert data[..i + 1][..i] == data[..i];
      var v := ParseField(key, value, floatOf);
      if v.Failure? {
        AssignAbortsAt(map[], data, i, KeysOf(data), floatOf);
        return Failure(v.error);
      }
      assert key in KeysOf(data);
      parsed := parsed[key := v.value];
    }
    assert data[..|data|] == data;
    assert Assign(map[], data, KeysOf(data), floatOf) == Success(parsed);
    for m := 0 to |MassFields|
      invariant forall j :: 0 <= j < m ==> !Missing(parsed, MassFields[j])
    {
      var field := MassFields[m];
      if field !in parsed || parsed[field] == Null {
        return Failure(MissingRequiredField(field));
      }
    }
    AssignNumericValues(data, KeysOf(data), floatOf);
    assert MassFields[0] == InitialPositive && MassFields[1] == FinalPositive;
    assert MassFields[2] == InitialNegative && MassFields[3] == FinalNegative;
    assert FirstMissing(parsed) == None;
    var deltaPositive := CalculateDelta(parsed[InitialPositive].x, parsed[FinalPositive].x);
    var deltaNegative := CalculateDelta(parsed[InitialNegative].x, parsed[FinalNegative].x);
    r := Success(parsed[DeltaPositive := Number(deltaPositive)][DeltaNegative := Number(deltaNegative)]);
  }

  /** Once the loop fails at step i, the whole loop fails with that error. */
  lemma {:induction false} AssignAbortsAt(target: Row, items: seq<(string, Value)>, i: nat, attrs: set<string>,
                                          floatOf: string -> Option<real>)
    requires i < |items|
    requires Assign(target, items[..i], attrs, floatOf).Success?
    requires Fails(items, i, floatOf)
    ensures Assign(target, items, attrs, floatOf)
         == Failure(ParseField(items[i].0, items[i].1, floatOf).error)
    decreases |items| - i
  {
    assert items[..i + 1][..i] == items[..i];
    if i + 1 < |items| {
      AssignAbortsAfter(target, items, i + 1, attrs, floatOf);
    } else {
      assert items[..i + 1] == items;
    }
  }

  /** A failed prefix makes every longer prefix fail the same way. */
  lemma {:induction false} AssignAbortsAfter(target: Row, items: seq<(string, Value)>, n: nat, attrs: set<string>,
                                             floatOf: string -> Option<real>)
    requires n <= |items|
    requires Assign(target, items[..n], attrs, floatOf).Failure?
    ensures Assign(target, items, attrs, floatOf) == Assign(target, items[..n], attrs, floatOf)
    decreases |items| - n
  {
    if n == |items| {
      assert items[..n] == items;
    } else {
      assert items[..n + 1][..n] == items[..n];
      AssignAbortsAfter(target, items, n + 1, attrs, floatOf);
    }
  }

  /** A value that does not parse under a numeric key is a ValidationError: the first such. */
  lemma AddRejectsInvalidNumbers(data: seq<(string, Value)>, floatOf: string -> Option<real>)
    ensures AddSpec(data, floatOf).Failure? && AddSpec(data, floatOf).error.InvalidNumericValue?
        <==> exists i :: 0 <= i < |data| && Fails(data, i, floatOf)
    ensures AddSpec(data, floatOf).Failure? && AddSpec(data, floatOf).error.InvalidNumericValue? ==>
              exists i :: 0 <= i < |data| && data[i].0 in NumericFields && Fails(data, i, floatOf)
                          && AddSpec(data, floatOf).error == InvalidNumericValue(data[i].1)
  {
    AssignFailure(map[], data, KeysOf(data), floatOf);
  }

  /** With every value parsable, a missing or empty mass is a ValidationError naming it. */
  lemma AddRequiresMasses(data: seq<(string, Value)>, floatOf: string -> Option<real>)
    requires forall i :: 0 <= i < |data| ==> !Fails(data, i, floatOf)
    ensures var parsed := Assign(map[], data, KeysOf(data), floatOf);
            && parsed.Success?
            && (AddSpec(data, floatOf).Failure? <==> exists f :: f in MassFields && Missing(parsed.value, f))
            && (AddSpec(data, floatOf).Failure? ==>
                  AddSpec(data, floatOf) == Failure(MissingRequiredField(FirstMissing(parsed.value).value)))
  {
    AssignFailure(map[], data, KeysOf(data), floatOf);
  }

  /** A successful add is the parsed row, complete in its masses, with both Δm stored on top. */
  lemma AddSpecSuccess(data: seq<(string, Value)>, floatOf: string -> Option<real>)
    requires AddSpec(data, floatOf).Success?
    ensures Assign(map[], data, KeysOf(data), floatOf).Success?
    ensures var parsed := Assign(map[], data, KeysOf(data), floatOf).value;
            && FirstMissing(parsed).None?
            && (forall f :: f in MassFields ==> f in parsed && parsed[f].Number?)
            && AddSpec(data, floatOf).value
               == parsed[DeltaPositive := Number(parsed[FinalPositive].x - parsed[InitialPositive].x)]
                        [DeltaNegative := Number(parsed[FinalNegative].x - parsed[InitialNegative].x)]
  {
    AssignNumericValues(data, KeysOf(data), floatOf);
  }

  /** A successful add stores exactly the arguments' keys and both Δm. */
  lemma AddStoresKeys(data: seq<(string, Value)>, floatOf: string -> Option<real>)
    requires AddSpec(data, floatOf).Success?
    ensures AddSpec(data, floatOf).value.Keys == KeysOf(data) + {DeltaPositive, DeltaNegative}
  {
    AddSpecSuccess(data, floatOf);
    AssignStores(map[], data, KeysOf(data), floatOf);
  }

  /** For distinct argument names, the loop stores each argument's parsed value under its name. */
  lemma AssignParsesEach(data: seq<(string, Value)>, floatOf: string -> Option<real>)
    requires DistinctKeys(data)
    requires Assign(map[], data, KeysOf(data), floatOf).Success?
    ensures var parsed := Assign(map[], data, KeysOf(data), floatOf).value;
            forall i :: 0 <= i < |data| ==>
              data[i].0 in parsed && Success(parsed[data[i].0]) == ParseField(data[i].0, data[i].1, floatOf)
  {
    AssignStores(map[], data, KeysOf(data), floatOf);
    forall i | 0 <= i < |data| ensures data[i].0 in KeysOf(data) { }
  }

  lemma DeltasNotNumeric()
    ensures DeltaPositive !in NumericFields && DeltaNegative !in NumericFields
  {
  }

  /** The arguments as found in a parsed row with both Δm stored on top. */
  lemma ArgumentsInRow(data: seq<(string, Value)>, parsed: Row, dp: real, dn: real,
                       floatOf: string -> Option<real>)
    requires forall i :: 0 <= i < |data| ==>
               data[i].0 in parsed && Success(parsed[data[i].0]) == ParseField(data[i].0, data[i].1, floatOf)
    ensures var row := parsed[DeltaPositive := Number(dp)][DeltaNegative := Number(dn)];
            && (forall i :: 0 <= i < |data| && data[i].0 !in NumericFields
                            && data[i].0 != DeltaPositive && data[i].0 != DeltaNegative
                            ==> data[i].0 in row && row[data[i].0] == data[i].1)
            && (forall i :: 0 <= i < |data| && data[i].0 in NumericFields ==>
                            data[i].0 in row && Success(row[data[i].0]) == ParseField(data[i].0, data[i].1, floatOf))
  {
    DeltasNotNumeric();
  }

  /**
   * A successful add: non-numeric arguments pass through unchanged and numeric ones are
   * stored parsed.
   */
  lemma AddStoresArguments(data: seq<(string, Value)>, floatOf: string -> Option<real>)
    requires DistinctKeys(data)
    requires AddSpec(data, floatOf).Success?
    ensures var row := AddSpec(data, floatOf).value;
            && (forall i :: 0 <= i < |data| && data[i].0 !in NumericFields
                            && data[i].0 != DeltaPositive && data[i].0 != DeltaNegative
                            ==> data[i].0 in row && row[data[i].0] == data[i].1)
            && (forall i :: 0 <= i < |data| && data[i].0 in NumericFields ==>
                            data[i].0 in row && Success(row[data[i].0]) == ParseField(data[i].0, data[i].1, floatOf))
  {
    AddSpecSuccess(data, floatOf);
    AssignParsesEach(data, floatOf);
    var parsed := Assign(map[], data, KeysOf(data), floatOf).value;
    ArgumentsInRow(data, parsed, parsed[FinalPositive].x - parsed[InitialPositive].x,
                   parsed[FinalNegative].x - parsed[InitialNegative].x, floatOf);
  }

  /** A successful add stores a numeric argument given as text as the float of that text. */
  lemma AddStoresFloatOfText(data: seq<(string, Value)>, floatOf: string -> Option<real>, i: nat)
    requires DistinctKeys(data)
    requires AddSpec(data, floatOf).Success?
    requires i < |data| && data[i].0 in NumericFields && data[i].1.Text? && data[i].1.s != ""
    ensures floatOf(data[i].1.s).Some?
    ensures data[i].0 in AddSpec(data, floatOf).value
    ensures AddSpec(data, floatOf).value[data[i].0] == Number(floatOf(data[i].1.s).value)
  {
    AddStoresArguments(data, floatOf);
  }

  /** A successful add holds all four masses as numbers and Δm± = final − initial. */
  lemma AddDerivesDeltas(data: seq<(string, Value)>, floatOf: string -> Option<real>)
    requires AddSpec(data, floatOf).Success?
    ensures var row := AddSpec(data, floatOf).value;
            && (forall f :: f in MassFields ==> f in row && row[f].Number?)
            && row[DeltaPositive] == Number(row[FinalPositive].x - row[InitialPositive].x)
            && row[DeltaNegative] == Number(row[FinalNegative].x - row[InitialNegative].x)
  {
    AddSpecSuccess(data, floatOf);
  }

  // Finding one experiment by its experiment_id.

  predicate HasId(row: Row, experimentId: string) {
    ExperimentIdKey in row && row[ExperimentIdKey] == Text(experimentId)
  }

  /** filter_by(experiment_id=…).one_or_none(): the single matching index, or an error. */
  function Lookup(db: Database, experimentId: string): (r: Result<nat, RecorderError>)
    ensures r.Success? ==> r.value < |db| && HasId(db[r.value], experimentId)
                           && forall j :: 0 <= j < |db| && j != r.value ==> !HasId(db[j], experimentId)
    ensures r == Failure(ExperimentNotFound(experimentId))
        <==> forall j :: 0 <= j < |db| ==> !HasId(db[j], experimentId)
    ensures r.Failure? ==> r.error == ExperimentNotFound(experimentId) || r.error == MultipleResultsFound(experimentId)
    ensures r == Failure(MultipleResultsFound(experimentId)) ==>
              exists i, j :: 0 <= i < j < |db| && HasId(db[i], experimentId) && HasId(db[j], experimentId)
    ensures forall i :: 0 <= i < |db| && HasId(db[i], experimentId)
                        && (forall j :: 0 <= j < |db| && j != i ==> !HasId(db[j], experimentId))
                        ==> r == Success(i)
    decreases |db|
  {
    if db == [] then Failure(ExperimentNotFound(experimentId))
    else
      var front := db[..|db| - 1];
      var previous := Lookup(front, experimentId);
      assert forall j :: 0 <= j < |front| ==> front[j] == db[j];
      if !HasId(db[|db| - 1], experimentId) then previous
      else if previous == Failure(ExperimentNotFound(experimentId)) then Success(|db| - 1)
      else Failure(MultipleResultsFound(experimentId))
  }

  // edit_experiment

  /** Recomputes one Δm from the row's current masses; a None mass is a TypeError. */
  function Recompute(row: Row, initialKey: string, finalKey: string, deltaKey: string)
    : (r: Result<Row, RecorderError>)
    ensures r.Success? <==> initialKey in row && finalKey in row && row[initialKey].Number? && row[finalKey].Number?
    ensures r.Success? ==> r.value == row[deltaKey := Number(row[finalKey].x - row[initialKey].x)]
    ensures r.Failure? ==> r.error == DeltaOfNone && !r.error.IsValidationError()
  {
    if initialKey in row && finalKey in row && row[initialKey].Number? && row[finalKey].Number? then
      Success(row[deltaKey := Number(CalculateDelta(row[initialKey].x, row[finalKey].x))])
    else Failure(DeltaOfNone)
  }

  predicate PositiveMassChanged(changes: seq<(string, Value)>) {
    InitialPositive in KeysOf(changes) || FinalPositive in KeysOf(changes)
  }

  predicate NegativeMassChanged(changes: seq<(string, Value)>) {
    InitialNegative in KeysOf(changes) || FinalNegative in KeysOf(changes)
  }

  /** The edited experiment: changes applied to its columns, then each Δm recomputed if due. */
  function EditRow(row: Row, changes: seq<(string, Value)>, floatOf: string -> Option<real>)
    : Result<Row, RecorderError>
  {
    match Assign(row, changes, Columns, floatOf)
    case Failure(e) => Failure(e)
    case Success(changed) =>
      var positive := if PositiveMassChanged(changes)
                      then Recompute(changed, InitialPositive, FinalPositive, DeltaPositive)
                      else Success(changed);
      if positive.Failure? then positive
      else if NegativeMassChanged(changes)
      then Recompute(positive.value, InitialNegative, FinalNegative, DeltaNegative)
      else positive
  }

  /** edit_experiment as a function of the database: the new database and the edited row. */
  function EditSpec(db: Database, experimentId: string, changes: seq<(string, Value)>,
                    floatOf: string -> Option<real>): Result<(Database, Row), RecorderError>
  {
    match Lookup(db, experimentId)
    case Failure(e) => Failure(e)
    case Success(i) =>
      match EditRow(db[i], changes, floatOf)
      case Failure(e) => Failure(e)
      case Success(row) => Success((db[i := row], row))
  }

  /** edit_experiment: find the row, setattr each change in a loop, recompute Δm where due. */
  method EditExperiment(db: Database, experimentId: string, changes: seq<(string, Value)>,
                        floatOf: string -> Option<real>)
    returns (r: Result<(Database, Row), RecorderError>)
    ensures r == EditSpec(db, experimentId, changes, floatOf)
  {
    var found := Lookup(db, experimentId);
    if found.Failure? {
      return Failure(found.error);
    }
    var index := found.value;
    var experiment := db[index];
    for i := 0 to |changes|
      invariant Assign(db[index], changes[..i], Columns, floatOf) == Success(experiment)
    {
      var (key, value) := changes[i];
      assert changes[..i + 1][..i] == changes[..i];
      var v := ParseField(key, value, floatOf);
      if v.Failure? {
        AssignAbortsAt(db[index], changes, i, Columns, floatOf);
        return Failure(v.error);
      }
      if key in Columns {
        experiment := experiment[key := v.value];
      }
    }
    assert changes[..|changes|] == changes;
    if InitialPositive in KeysOf(changes) || FinalPositive in KeysOf(changes) {
      if !(InitialPositive in experiment && FinalPositive in experiment
           && experiment[InitialPositive].Number? && experiment[FinalPositive].Number?) {
        return Failure(DeltaOfNone);
      }
      experiment := experiment[DeltaPositive :=
        Number(CalculateDelta(experiment[InitialPositive].x, experiment[FinalPositive].x))];
    }
    if InitialNegative in KeysOf(changes) || FinalNegative in KeysOf(changes) {
      if !(InitialNegative in experiment && FinalNegative in experiment
           && experiment[InitialNegative].Number? && experiment[FinalNegative].Number?) {
        return Failure(DeltaOfNone);
      }
      experiment := experiment[DeltaNegative :=
        Number(CalculateDelta(experiment[InitialNegative].x, experiment[FinalNegative].x))];
    }
    r := Success((db[index := experiment], experiment));
  }

  /** Both masses of a pair are present and numeric, so their Δm can be computed. */
  predicate MassesNumeric(row: Row, initialKey: string, finalKey: string) {
    initialKey in row && finalKey in row && row[initialKey].Number? && row[finalKey].Number?
  }

  /**
   * Once the attributes are set, an edit fails exactly when it changes a mass of a pair that
   * is then not numeric (for example a mass set to ""), and that failure is the TypeError of
   * subtracting None, not a ValidationError.
   */
  lemma EditMissingMassIsTypeError(db: Database, experimentId: string, changes: seq<(string, Value)>,
                                   floatOf: string -> Option<real>)
    requires Lookup(db, experimentId).Success?
    requires Assign(db[Lookup(db, experimentId).value], changes, Columns, floatOf).Success?
    ensures var changed := Assign(db[Lookup(db, experimentId).value], changes, Columns, floatOf).value;
            var r := EditSpec(db, experimentId, changes, floatOf);
            && (r.Failure? <==>
                  || (PositiveMassChanged(changes) && !MassesNumeric(changed, InitialPositive, FinalPositive))
                  || (NegativeMassChanged(changes) && !MassesNumeric(changed, InitialNegative, FinalNegative)))
            && (r.Failure? ==> r.error == DeltaOfNone && !r.error.IsValidationError())
  {
  }

  /** Editing an experiment_id nobody has is a ValidationError. */
  lemma EditUnknownId(db: Database, experimentId: string, changes: seq<(string, Value)>,
                      floatOf: string -> Option<real>)
    requires forall j :: 0 <= j < |db| ==> !HasId(db[j], experimentId)
    ensures EditSpec(db, experimentId, changes, floatOf) == Failure(ExperimentNotFound(experimentId))
  {
  }

  /**
   * A successful edit replaces exactly the experiment with that id; names that are not
   * attributes are ignored, attributes the edit does not name keep their values, and every
   * named attribute holds its (parsed) new value unless it is a Δm that was recomputed.
   */
  lemma EditChangesOnlyNamedAttributes(db: Database, experimentId: string, changes: seq<(string, Value)>,
                                       floatOf: string -> Option<real>)
    requires DistinctKeys(changes)
    requires EditSpec(db, experimentId, changes, floatOf).Success?
    ensures var (db', row) := EditSpec(db, experimentId, changes, floatOf).value;
            var i := Lookup(db, experimentId).value;
            && HasId(db[i], experimentId)
            && |db'| == |db| && db'[i] == row
            && (forall j :: 0 <= j < |db| && j != i ==> db'[j] == db[j])
            && (forall k :: k in row <==>
                  || k in db[i]
                  || (k in Columns && k in KeysOf(changes))
                  || (k == DeltaPositive && PositiveMassChanged(changes))
                  || (k == DeltaNegative && NegativeMassChanged(changes)))
            && (forall k :: k in db[i] && k !in KeysOf(changes) && k != DeltaPositive && k != DeltaNegative
                            ==> row[k] == db[i][k])
            && (forall k :: k in db[i] && k !in Columns ==> row[k] == db[i][k])
            && (forall n :: 0 <= n < |changes| && changes[n].0 in Columns
                            && changes[n].0 != DeltaPositive && changes[n].0 != DeltaNegative
                            ==> Success(row[changes[n].0]) == ParseField(changes[n].0, changes[n].1, floatOf))
  {
    var i := Lookup(db, experimentId).value;
    AssignStores(db[i], changes, Columns, floatOf);
  }

  /**
   * Δm+ is recomputed as final − initial exactly when a positive mass is among the changes;
   * otherwise it keeps its stored value (unless the edit names Δm+ itself). Likewise Δm−.
   */
  lemma EditRecomputesDeltas(db: Database, experimentId: string, changes: seq<(string, Value)>,
                             floatOf: string -> Option<real>)
    requires EditSpec(db, experimentId, changes, floatOf).Success?
    ensures var row := EditSpec(db, experimentId, changes, floatOf).value.1;
            var old_ := db[Lookup(db, experimentId).value];
            && (PositiveMassChanged(changes) ==>
                  row[DeltaPositive] == Number(row[FinalPositive].x - row[InitialPositive].x))
            && (!PositiveMassChanged(changes) && DeltaPositive !in KeysOf(changes) && DeltaPositive in old_
                ==> DeltaPositive in row && row[DeltaPositive] == old_[DeltaPositive])
            && (NegativeMassChanged(changes) ==>
                  row[DeltaNegative] == Number(row[FinalNegative].x - row[InitialNegative].x))
            && (!NegativeMassChanged(changes) && DeltaNegative !in KeysOf(changes) && DeltaNegative in old_
                ==> DeltaNegative in row && row[DeltaNegative] == old_[DeltaNegative])
  {
    var i := Lookup(db, experimentId).value;
    AssignStores(db[i], changes, Columns, floatOf);
  }

  // delete_experiment

  /** delete_experiment: removes the one experiment with that id. */
  function DeleteExperiment(db: Database, experimentId: string): (r: Result<Database, RecorderError>)
    ensures r == Failure(ExperimentNotFound(experimentId))
        <==> forall j :: 0 <= j < |db| ==> !HasId(db[j], experimentId)
    ensures r.Success? ==> |r.value| == |db| - 1
                           && (exists i :: 0 <= i < |db| && HasId(db[i], experimentId)
                                           && multiset(r.value) + multiset{db[i]} == multiset(db))
                           && forall row :: row in r.value ==> !HasId(row, experimentId)
    ensures (exists i :: 0 <= i < |db| && HasId(db[i], experimentId)
                         && forall j :: 0 <= j < |db| && j != i ==> !HasId(db[j], experimentId))
            ==> r.Success?
    ensures r.Failure? ==> r.error == ExperimentNotFound(experimentId) || r.error == MultipleResultsFound(experimentId)
    ensures r == Failure(MultipleResultsFound(experimentId)) ==>
              exists i, j :: 0 <= i < j < |db| && HasId(db[i], experimentId) && HasId(db[j], experimentId)
  {
    match Lookup(db, experimentId)
    case Failure(e) => Failure(e)
    case Success(i) =>
      var rest := db[..i] + db[i + 1..];
      assert db == db[..i] + [db[i]] + db[i + 1..];
      forall row | row in rest ensures !HasId(row, experimentId) {
        var j :| 0 <= j < |rest| && rest[j] == row;
        if j < i { assert rest[j] == db[j]; } else { assert rest[j] == db[j + 1]; }
      }
      Success(rest)
  }

  // query_experiments

  /** The optional filters; a missing or empty text filter does not filter (Python truthiness). */
  datatype QueryFilters = QueryFilters(
    startDate: Option<int>,
    endDate: Option<int>,
    mode: Option<string>,
    electrolyte: Option<string>,
    search: Option<string>)

  predicate Truthy(s: Option<string>) {
    s.Some? && s.value != ""
  }

  /** The row's date_time as a number, for ordering; 0 when it has none. */
  function DateOf(row: Row): int {
    if DateTimeKey in row && row[DateTimeKey].Time? then row[DateTimeKey].t else 0
  }

  function TextOf(row: Row, key: string): Option<string> {
    if key in row && row[key].Text? then Some(row[key].s) else None
  }

  /**
   * The row passes every supplied filter. ilike(text, pattern) stands for the database's
   * case-insensitive `text ILIKE '%pattern%'`; a NULL column matches nothing.
   */
  predicate Selected(row: Row, f: QueryFilters, ilike: (string, string) -> bool) {
    && (f.startDate.Some? ==> DateTimeKey in row && row[DateTimeKey].Time? && row[DateTimeKey].t >= f.startDate.value)
    && (f.endDate.Some? ==> DateTimeKey in row && row[DateTimeKey].Time? && row[DateTimeKey].t <= f.endDate.value)
    && (Truthy(f.mode) ==> TextOf(row, ModeKey) == f.mode)
    && (Truthy(f.electrolyte) ==> TextOf(row, ElectrolyteKey) == f.electrolyte)
    && (Truthy(f.search) ==>
          (TextOf(row, ExperimentIdKey).Some? && ilike(TextOf(row, ExperimentIdKey).value, f.search.value))
          || (TextOf(row, NotesKey).Some? && ilike(TextOf(row, NotesKey).value, f.search.value)))
  }

  function FilterRows(db: Database, f: QueryFilters, ilike: (string, string) -> bool): (r: Database)
    ensures forall row :: multiset(r)[row] == if Selected(row, f, ilike) then multiset(db)[row] else 0
    decreases |db|
  {
    if db == [] then []
    else
      assert db == [db[0]] + db[1..];
      (if Selected(db[0], f, ilike) then [db[0]] else []) + FilterRows(db[1..], f, ilike)
  }

  /** query_experiments: the experiments passing every filter, newest first. */
  function QueryExperiments(db: Database, f: QueryFilters, ilike: (string, string) -> bool): (r: Database)
    ensures forall row :: row in r ==> row in db && Selected(row, f, ilike)
    ensures forall row :: row in db && Selected(row, f, ilike) ==> row in r
    ensures forall row :: Selected(row, f, ilike) ==> multiset(r)[row] == multiset(db)[row]
    ensures SortedDesc(r, DateOf)
  {
    var r := SortDesc(FilterRows(db, f, ilike), DateOf);
    forall row | row in r ensures row in db && Selected(row, f, ilike) {
      assert multiset(r)[row] > 0;
    }
    forall row | row in db && Selected(row, f, ilike) ensures row in r {
      assert multiset(db)[row] > 0;
    }
    r
  }
}
