/**
 * The record service's REST controller (record-service/.../ExperimentRecordController.java):
 * list newest first, create, update, delete, and export every record as CSV.
 *
 * The repository (a JPA table keyed by id) is the sequence of stored records in table order.
 * Instant.toString() is the parameter instantText; UUID generation and the clock are the
 * parameters uuid and now.
 */
module RecordController {
  import opened Wrappers
  import opened Sorting
  import opened RecordEntity

  datatype ControllerError =
    | NotFound       // ResponseStatusException(NOT_FOUND, "Record not found"): HTTP 404
    | NullTimestamp  // NullPointerException from comparing a record whose timestamp is null

  // The repository.

  /** A primary key: no id is stored twice, and none is null. */
  ghost predicate UniqueIds(repo: seq<RecordData>) {
    && (forall i :: 0 <= i < |repo| ==> repo[i].id.Some?)
    && (forall i, j :: 0 <= i < j < |repo| ==> repo[i].id != repo[j].id)
  }

  /** findById: the stored record with that id. */
  function FindById(repo: seq<RecordData>, id: string): (r: Option<RecordData>)
    ensures r.Some? <==> exists i :: 0 <= i < |repo| && repo[i].id == Some(id)
    ensures r.Some? ==> r.value in repo && r.value.id == Some(id)
    decreases |repo|
  {
    if repo == [] then None
    else if repo[0].id == Some(id) then Some(repo[0])
    else
      var r := FindById(repo[1..], id);
      assert forall i :: 0 < i < |repo| ==> repo[i] == repo[1..][i - 1];
      r
  }

  /** save: replaces the stored record with the same id, or appends a new one. */
  function Save(repo: seq<RecordData>, rec: RecordData): (r: seq<RecordData>)
    requires rec.id.Some?
    ensures FindById(r, rec.id.value) == Some(rec)
    ensures forall id :: id != rec.id.value ==> FindById(r, id) == FindById(repo, id)
    ensures |r| == if FindById(repo, rec.id.value).Some? then |repo| else |repo| + 1
    ensures forall x :: x in r ==> x == rec || x in repo
    decreases |repo|
  {
    if repo == [] then [rec]
    else if repo[0].id == rec.id then [rec] + repo[1..]
    else [repo[0]] + Save(repo[1..], rec)
  }

  /** Saving keeps the ids unique and non-null. */
  lemma {:induction false} SaveKeepsUniqueIds(repo: seq<RecordData>, rec: RecordData)
    requires rec.id.Some? && UniqueIds(repo)
    ensures UniqueIds(Save(repo, rec))
    decreases |repo|
  {
    if repo != [] && repo[0].id != rec.id {
      var tail := repo[1..];
      TailUniqueIds(repo);
      SaveKeepsUniqueIds(tail, rec);
      var saved := Save(tail, rec);
      HeadIdNotInTail(repo, rec, saved);
      ConsUniqueIds(repo[0], saved);
    } else if repo != [] {
      TailUniqueIds(repo);
      forall i | 0 <= i < |repo[1..]| ensures repo[1..][i].id != rec.id {
        assert repo[1..][i] == repo[i + 1];
      }
      ConsUniqueIds(rec, repo[1..]);
    }
  }

  lemma TailUniqueIds(repo: seq<RecordData>)
    requires repo != [] && UniqueIds(repo)
    ensures UniqueIds(repo[1..])
  {
    var tail := repo[1..];
    forall i, j | 0 <= i < j < |tail| ensures tail[i].id != tail[j].id {
      assert tail[i] == repo[i + 1] && tail[j] == repo[j + 1];
    }
  }

  lemma ConsUniqueIds(x: RecordData, s: seq<RecordData>)
    requires x.id.Some? && UniqueIds(s)
    requires forall i :: 0 <= i < |s| ==> s[i].id != x.id
    ensures UniqueIds([x] + s)
  {
    var r := [x] + s;
    forall i, j | 0 <= i < j < |r| ensures r[i].id != r[j].id {
      assert r[j] == s[j - 1];
      if i > 0 { assert r[i] == s[i - 1]; }
    }
  }

  /** The first stored id occurs nowhere among records taken from the rest. */
  lemma HeadIdNotAmong(repo: seq<RecordData>, s: seq<RecordData>)
    requires repo != [] && UniqueIds(repo)
    requires forall x :: x in s ==> x in repo[1..]
    ensures forall i :: 0 <= i < |s| ==> s[i].id != repo[0].id
  {
    forall i | 0 <= i < |s| ensures s[i].id != repo[0].id {
      assert s[i] in s;
      var m :| 0 <= m < |repo[1..]| && repo[1..][m] == s[i];
      assert repo[m + 1] == s[i];
    }
  }

  /** The first stored id occurs nowhere in the rest after saving a record with another id. */
  lemma HeadIdNotInTail(repo: seq<RecordData>, rec: RecordData, saved: seq<RecordData>)
    requires repo != [] && UniqueIds(repo) && repo[0].id != rec.id
    requires forall x :: x in saved ==> x == rec || x in repo[1..]
    ensures forall i :: 0 <= i < |saved| ==> saved[i].id != repo[0].id
  {
    forall i | 0 <= i < |saved| ensures saved[i].id != repo[0].id {
      assert saved[i] in saved;
      if saved[i] != rec {
        var m :| 0 <= m < |repo[1..]| && repo[1..][m] == saved[i];
        assert repo[m + 1] == saved[i];
      }
    }
  }

  /** delete: removes the stored record with that id. */
  function Remove(repo: seq<RecordData>, id: string): (r: seq<RecordData>)
    ensures forall x :: x in r <==> x in repo && x.id != Some(id)
    ensures FindById(r, id).None?
    ensures forall other :: other != id ==> FindById(r, other) == FindById(repo, other)
    decreases |repo|
  {
    if repo == [] then []
    else if repo[0].id == Some(id) then Remove(repo[1..], id)
    else [repo[0]] + Remove(repo[1..], id)
  }

  /** Under a primary key, delete removes exactly one record when the id is present. */
  lemma {:induction false} RemoveOne(repo: seq<RecordData>, id: string)
    requires UniqueIds(repo)
    ensures UniqueIds(Remove(repo, id))
    ensures |Remove(repo, id)| == if FindById(repo, id).Some? then |repo| - 1 else |repo|
    decreases |repo|
  {
    if repo != [] {
      var tail := repo[1..];
      TailUniqueIds(repo);
      RemoveOne(tail, id);
      if repo[0].id == Some(id) {
        HeadIdNotAmong(repo, tail);
        assert FindById(tail, id).None?;
      } else {
        var removed := Remove(tail, id);
        HeadIdNotAmong(repo, removed);
        ConsUniqueIds(repo[0], removed);
      }
    }
  }

  // GET /records

  /** The sort key of a record: its time stamp. */
  function TimestampOf(rec: RecordData): int {
    if rec.timestamp.Some? then rec.timestamp.value else 0
  }

  predicate Timestamped(repo: seq<RecordData>) {
    forall i :: 0 <= i < |repo| ==> repo[i].timestamp.Some?
  }

  /**
   * findAll: every record, newest time stamp first. The comparator dereferences each time
   * stamp, so any null one fails the sort once there are two records to compare.
   */
  function FindAll(repo: seq<RecordData>): (r: Result<seq<RecordData>, ControllerError>)
    ensures r.Failure? <==> |repo| >= 2 && !Timestamped(repo)
    ensures r.Failure? ==> r.error == NullTimestamp
    ensures r.Success? ==> SortedDesc(r.value, TimestampOf) && multiset(r.value) == multiset(repo)
  {
    if |repo| >= 2 && !Timestamped(repo) then Failure(NullTimestamp)
    else Success(SortDesc(repo, TimestampOf))
  }

  /** The fields an update copies from the payload, the time stamp set to now; the id is kept. */
  function Updated(existing: RecordData, payload: RecordData, now: int): (r: RecordData)
    ensures r.id == existing.id && r.timestamp == Some(now)
    ensures r.(id := payload.id, timestamp := payload.timestamp) == payload
  {
    existing.(experimentId := payload.experimentId, date := payload.date, mode := payload.mode,
              voltage := payload.voltage, current := payload.current,
              electrolyte := payload.electrolyte,
              anodeInitial := payload.anodeInitial, anodeFinal := payload.anodeFinal,
              cathodeInitial := payload.cathodeInitial, cathodeFinal := payload.cathodeFinal,
              notes := payload.notes, timestamp := Some(now))
  }

  /** An update's outcome depends on the stored record only through its id. */
  lemma UpdatedForgetsOldContents(e1: RecordData, e2: RecordData, payload: RecordData, now: int)
    ensures Updated(e1, payload, now) == Updated(e2, payload, now) <==> e1.id == e2.id
  {
    if e1.id == e2.id {
      assert Updated(e1, payload, now).id == Updated(e2, payload, now).id;
    }
  }

  class ExperimentRecordController {
    var repository: seq<RecordData>

    /** The table's constraints: a unique non-null id and a non-null time stamp. */
    ghost predicate Valid()
      reads this
    {
      UniqueIds(repository) && Timestamped(repository)
    }

    constructor ()
      ensures Valid() && repository == []
    {
      repository := [];
    }

    /** POST /records: fill in id and time stamp on the posted entity, then save it. */
    method Create(record: ExperimentRecord, uuid: string, now: int) returns (saved: RecordData)
      requires Valid()
      modifies this, record
      ensures Valid()
      ensures saved == old(record.Data()).(id := Some(AssignedId(old(record.id), uuid)), timestamp := Some(now))
      ensures repository == Save(old(repository), saved)
      ensures record.Data() == saved
    {
      var ready := record.BuildNewRecord(uuid, now);
      saved := ready.Data();
      SaveKeepsUniqueIds(repository, saved);
      SaveKeepsTimestamps(repository, saved);
      repository := Save(repository, saved);
    }

    /** PUT /records/{id}: copy the payload's fields onto the stored record, re-stamp, save. */
    method Update(id: string, payload: ExperimentRecord, now: int)
      returns (r: Result<RecordData, ControllerError>)
      requires Valid()
      modifies this
      ensures Valid()
      ensures FindById(old(repository), id).None? ==> r == Failure(NotFound) && repository == old(repository)
      ensures FindById(old(repository), id).Some? ==>
                && r == Success(Updated(FindById(old(repository), id).value, payload.Data(), now))
                && repository == Save(old(repository), r.value)
    {
      var found := FindById(repository, id);
      if found.None? {
        return Failure(NotFound);
      }
      var existing := new ExperimentRecord.Load(found.value);
      existing.SetExperimentId(payload.experimentId);
      existing.SetDate(payload.date);
      existing.SetMode(payload.mode);
      existing.SetVoltage(payload.voltage);
      existing.SetCurrent(payload.current);
      existing.SetElectrolyte(payload.electrolyte);
      existing.SetAnodeInitial(payload.anodeInitial);
      existing.SetAnodeFinal(payload.anodeFinal);
      existing.SetCathodeInitial(payload.cathodeInitial);
      existing.SetCathodeFinal(payload.cathodeFinal);
      existing.SetNotes(payload.notes);
      existing.TouchTimestamp(now);
      var saved := existing.Data();
      SaveKeepsUniqueIds(repository, saved);
      SaveKeepsTimestamps(repository, saved);
      repository := Save(repository, saved);
      r := Success(saved);
    }

    /** DELETE /records/{id}: remove the stored record, or 404. */
    method Delete(id: string) returns (r: Result<(), ControllerError>)
      requires Valid()
      modifies this
      ensures Valid()
      ensures FindById(old(repository), id).None? ==> r == Failure(NotFound) && repository == old(repository)
      ensures FindById(old(repository), id).Some? ==> r == Success(()) && repository == Remove(old(repository), id)
    {
      if FindById(repository, id).None? {
        return Failure(NotFound);
      }
      RemoveOne(repository, id);
      RemoveKeepsTimestamps(repository, id);
      repository := Remove(repository, id);
      r := Success(());
    }
  }

  lemma SaveKeepsTimestamps(repo: seq<RecordData>, rec: RecordData)
    requires rec.id.Some? && rec.timestamp.Some? && Timestamped(repo) && UniqueIds(repo)
    ensures Timestamped(Save(repo, rec))
  {
    SaveKeepsUniqueIds(repo, rec);
    var r := Save(repo, rec);
    forall i | 0 <= i < |r| ensures r[i].timestamp.Some? {
      assert r[i] in r;
      if r[i] != rec {
        var m :| 0 <= m < |repo| && repo[m] == r[i];
      }
    }
  }

  lemma RemoveKeepsTimestamps(repo: seq<RecordData>, id: string)
    requires Timestamped(repo)
    ensures Timestamped(Remove(repo, id))
  {
    var r := Remove(repo, id);
    forall i | 0 <= i < |r| ensures r[i].timestamp.Some? {
      assert r[i] in r;
      var m :| 0 <= m < |repo| && repo[m] == r[i];
    }
  }

  /** Every stored record has a time stamp, so listing them never fails. */
  lemma ValidListingSucceeds(c: ExperimentRecordController)
    requires c.Valid()
    ensures FindAll(c.repository).Success?
  {
  }

  // GET /records/export

  /** String.join: the parts with sep between consecutive ones. */
  function Join(sep: string, parts: seq<string>): string
    decreases |parts|
  {
    if parts == [] then ""
    else if |parts| == 1 then parts[0]
    else parts[0] + sep + Join(sep, parts[1..])
  }

  const ByteOrderMark: string := "\U{FEFF}"

  const HeaderNames: seq<string> := [
    "id", "timestamp", "experimentId", "date", "mode", "voltage", "current",
    "electrolyte", "anodeInitial", "anodeFinal", "cathodeInitial", "cathodeFinal", "notes"
  ]

  const Header: string := Join(",", HeaderNames)

  /** Doubles every double quote. */
  function Escape(s: string): (r: string)
    ensures |r| >= |s|
    ensures (forall i :: 0 <= i < |s| ==> s[i] != '"') ==> r == s
    decreases |s|
  {
    if s == [] then ""
    else if s[0] == '"' then "\"\"" + Escape(s[1..])
    else [s[0]] + Escape(s[1..])
  }

  /** wrap: a null becomes the empty field; otherwise the escaped text between quotes. */
  function Wrap(value: Option<string>): (r: string)
    ensures |r| >= 2 && r[0] == '"' && r[|r| - 1] == '"'
  {
    var safe := if value.None? then "" else Escape(value.value);
    "\"" + safe + "\""
  }

  /** A null and an empty text export alike. */
  lemma WrapNullIsEmpty()
    ensures Wrap(None) == Wrap(Some("")) == "\"\""
  {
  }

  /** The thirteen exported values of a record, in header order; a null time stamp is "". */
  function CsvValues(rec: RecordData, instantText: int -> string): (r: seq<Option<string>>)
    ensures |r| == |HeaderNames|
  {
    [rec.id,
     Some(if rec.timestamp.Some? then instantText(rec.timestamp.value) else ""),
     rec.experimentId, rec.date, rec.mode, rec.voltage, rec.current, rec.electrolyte,
     rec.anodeInitial, rec.anodeFinal, rec.cathodeInitial, rec.cathodeFinal, rec.notes]
  }

  function WrapAll(values: seq<Option<string>>): (r: seq<string>)
    ensures |r| == |values|
    decreases |values|
  {
    if values == [] then [] else [Wrap(values[0])] + WrapAll(values[1..])
  }

  /** One exported line: the record's wrapped values joined by commas. */
  function CsvRow(rec: RecordData, instantText: int -> string): (r: string)
    ensures ReadRow(r) == Some((TextsOf(CsvValues(rec, instantText)), ""))
  {
    var line := Join(",", WrapAll(CsvValues(rec, instantText)));
    ReadRowJoin(CsvValues(rec, instantText), "");
    assert line + "" == line;
    line
  }

  function CsvRows(repo: seq<RecordData>, instantText: int -> string): (r: seq<string>)
    ensures |r| == |repo|
    ensures forall i :: 0 <= i < |repo| ==> r[i] == CsvRow(repo[i], instantText)
    decreases |repo|
  {
    if repo == [] then [] else [CsvRow(repo[0], instantText)] + CsvRows(repo[1..], instantText)
  }

  /** exportCsv: the byte order mark, the header line, then one line per record. */
  function ExportCsv(repo: seq<RecordData>, instantText: int -> string): (r: string)
    ensures |r| > |Header| + 1 && r[0] == '\U{FEFF}' && r[|Header| + 1] == '\n'
    ensures repo == [] ==> r == ByteOrderMark + Header + "\n"
  {
    ByteOrderMark + Header + "\n" + Join("\n", CsvRows(repo, instantText))
  }

  // Reading the export back (quoted fields as in section 2 of RFC 4180).

  /** Reads the inside of a quoted field: "" stands for ", a lone " closes the field. */
  function ReadQuoted(s: string): (r: Option<(string, string)>)
    ensures r.Some? ==> |r.value.1| < |s|
    decreases |s|
  {
    if s == [] then None
    else if s[0] == '"' then
      if |s| >= 2 && s[1] == '"' then
        match ReadQuoted(s[2..])
        case None => None
        case Some((text, rest)) => Some(("\"" + text, rest))
      else Some(("", s[1..]))
    else
      match ReadQuoted(s[1..])
      case None => None
      case Some((text, rest)) => Some(([s[0]] + text, rest))
  }

  /** One quoted field and what follows it. */
  function ReadField(s: string): (r: Option<(string, string)>)
    ensures r.Some? ==> |r.value.1| < |s|
  {
    if s != [] && s[0] == '"' then ReadQuoted(s[1..]) else None
  }

  /** Comma-separated quoted fields up to the end of the line. */
  function ReadRow(s: string): (r: Option<(seq<string>, string)>)
    ensures r.Some? ==> |r.value.1| < |s|
    decreases |s|
  {
    match ReadField(s)
    case None => None
    case Some((field, rest)) =>
      if rest != [] && rest[0] == ',' then
        match ReadRow(rest[1..])
        case None => None
        case Some((fields, rest')) => Some(([field] + fields, rest'))
      else Some(([field], rest))
  }

  /** Lines of fields separated by newlines, to the end of the text. */
  function ReadRows(s: string): Option<seq<seq<string>>>
    decreases |s|
  {
    if s == [] then Some([])
    else
      match ReadRow(s)
      case None => None
      case Some((fields, rest)) =>
        if rest == [] then Some([fields])
        else if rest[0] == '\n' && rest[1..] != [] then
          match ReadRows(rest[1..])
          case None => None
          case Some(rows) => Some([fields] + rows)
        else None
  }

  /** The text a reader recovers from an exported value. */
  function TextOf(value: Option<string>): string {
    if value.None? then "" else value.value
  }

  function TextsOf(values: seq<Option<string>>): (r: seq<string>)
    ensures |r| == |values|
    ensures forall i :: 0 <= i < |values| ==> r[i] == TextOf(values[i])
    decreases |values|
  {
    if values == [] then [] else [TextOf(values[0])] + TextsOf(values[1..])
  }

  /** Escaped text followed by the closing quote reads back as the text. */
  lemma {:induction false} ReadQuotedEscape(v: string, rest: string)
    requires rest == [] || rest[0] != '"'
    ensures ReadQuoted(Escape(v) + ("\"" + rest)) == Some((v, rest))
    decreases |v|
  {
    var closed := "\"" + rest;
    if v == [] {
      assert Escape(v) + closed == closed;
      ReadQuotedClose(rest);
    } else {
      ReadQuotedEscape(v[1..], rest);
      var tail := Escape(v[1..]) + closed;
      EscapeCons(v, closed);
      assert [v[0]] + v[1..] == v;
      if v[0] == '"' {
        ReadQuotedDoubled(tail, v[1..], rest);
      } else {
        ReadQuotedPlain(v[0], tail, v[1..], rest);
      }
    }
  }

  /** Unfolds the escaping of v by its first character, with more text attached. */
  lemma EscapeCons(v: string, more: string)
    requires v != []
    ensures Escape(v) + more == (if v[0] == '"' then "\"\"" else [v[0]]) + (Escape(v[1..]) + more)
  {
    EscapeHead(v);
    ConcatAssoc(if v[0] == '"' then "\"\"" else [v[0]], Escape(v[1..]), more);
  }

  lemma EscapeHead(v: string)
    requires v != []
    ensures Escape(v) == (if v[0] == '"' then "\"\"" else [v[0]]) + Escape(v[1..])
  {
  }

  lemma ConcatAssoc(a: string, b: string, c: string)
    ensures (a + b) + c == a + (b + c)
  {
  }

  /** A lone quote closes the field. */
  lemma ReadQuotedClose(rest: string)
    requires rest == [] || rest[0] != '"'
    ensures ReadQuoted("\"" + rest) == Some(("", rest))
  {
    assert ("\"" + rest)[1..] == rest;
  }

  /** A doubled quote reads as one quote character. */
  lemma ReadQuotedDoubled(t: string, text: string, rest: string)
    requires ReadQuoted(t) == Some((text, rest))
    ensures ReadQuoted("\"\"" + t) == Some(("\"" + text, rest))
  {
    assert ("\"\"" + t)[2..] == t;
  }

  /** Any other character reads as itself. */
  lemma ReadQuotedPlain(c: char, t: string, text: string, rest: string)
    requires c != '"'
    requires ReadQuoted(t) == Some((text, rest))
    ensures ReadQuoted([c] + t) == Some(([c] + text, rest))
  {
    assert ([c] + t)[1..] == t;
  }

  /** A wrapped value reads back as its text, leaving what follows it. */
  lemma ReadFieldWrap(value: Option<string>, rest: string)
    requires rest == [] || rest[0] != '"'
    ensures ReadField(Wrap(value) + rest) == Some((TextOf(value), rest))
  {
    var text := TextOf(value);
    var safe := if value.None? then "" else Escape(value.value);
    assert safe == Escape(text);
    var body := safe + ("\"" + rest);
    ReadQuotedEscape(text, rest);
    ConcatAssoc("\"" + safe, "\"", rest);
    ConcatAssoc("\"", safe, "\"" + rest);
    assert Wrap(value) + rest == "\"" + body;
    assert ("\"" + body)[1..] == body;
  }

  /** A joined row of wrapped values reads back as their texts, up to the end of the line. */
  lemma {:induction false} ReadRowJoin(values: seq<Option<string>>, rest: string)
    requires values != []
    requires rest == [] || rest[0] == '\n'
    ensures ReadRow(Join(",", WrapAll(values)) + rest) == Some((TextsOf(values), rest))
    decreases |values|
  {
    if |values| == 1 {
      ReadRowLast(values[0], rest);
      assert values == [values[0]];
    } else {
      var tail := values[1..];
      var joinedTail := Join(",", WrapAll(tail));
      var after := "," + (joinedTail + rest);
      JoinWrapAllCons(values, rest);
      TextsOfCons(values);
      ReadFieldWrap(values[0], after);
      ReadRowJoin(tail, rest);
      DropComma(joinedTail + rest);
      ReadRowStep(Wrap(values[0]) + after, TextOf(values[0]), after, TextsOf(tail), rest);
    }
  }

  /** The row of one wrapped value reads back as its text. */
  lemma ReadRowLast(value: Option<string>, rest: string)
    requires rest == [] || rest[0] == '\n'
    ensures ReadRow(Join(",", WrapAll([value])) + rest) == Some((TextsOf([value]), rest))
  {
    ReadFieldWrap(value, rest);
    assert WrapAll([value]) == [Wrap(value)];
    assert TextsOf([value]) == [TextOf(value)];
  }

  /** Unfolds a joined row by its first value, with the rest of the text attached. */
  lemma JoinWrapAllCons(values: seq<Option<string>>, rest: string)
    requires |values| >= 2
    ensures Join(",", WrapAll(values)) + rest
         == Wrap(values[0]) + ("," + (Join(",", WrapAll(values[1..])) + rest))
  {
    var head, tail := Wrap(values[0]), WrapAll(values[1..]);
    assert WrapAll(values) == [head] + tail;
    JoinCons(head, tail);
    CommaAssoc(head, Join(",", tail), rest);
  }

  lemma TextsOfCons(values: seq<Option<string>>)
    requires values != []
    ensures TextsOf(values) == [TextOf(values[0])] + TextsOf(values[1..])
  {
  }

  lemma DropComma(b: string)
    ensures ("," + b)[1..] == b
  {
  }

  lemma CommaAssoc(a: string, b: string, c: string)
    ensures (a + "," + b) + c == a + ("," + (b + c))
  {
  }

  lemma JoinCons(head: string, tail: seq<string>)
    requires tail != []
    ensures Join(",", [head] + tail) == head + "," + Join(",", tail)
  {
    assert ([head] + tail)[1..] == tail;
  }

  /** A field followed by a comma and a readable rest of the line reads as one more field. */
  lemma ReadRowStep(s: string, field: string, after: string, fields: seq<string>, rest: string)
    requires ReadField(s) == Some((field, after))
    requires after != [] && after[0] == ','
    requires ReadRow(after[1..]) == Some((fields, rest))
    ensures ReadRow(s) == Some(([field] + fields, rest))
  {
  }

  /** The values every exported line carries, as a reader sees them. */
  function ExpectedRows(repo: seq<RecordData>, instantText: int -> string): (r: seq<seq<string>>)
    ensures |r| == |repo|
    ensures forall i :: 0 <= i < |r| ==> |r[i]| == |HeaderNames|
    decreases |repo|
  {
    if repo == [] then []
    else [TextsOf(CsvValues(repo[0], instantText))] + ExpectedRows(repo[1..], instantText)
  }

  /** The exported lines read back as the records' values, one line per record. */
  lemma {:induction false} ReadRowsJoin(repo: seq<RecordData>, instantText: int -> string)
    ensures ReadRows(Join("\n", CsvRows(repo, instantText))) == Some(ExpectedRows(repo, instantText))
    decreases |repo|
  {
    if repo != [] {
      var rows := CsvRows(repo, instantText);
      var line := CsvRow(repo[0], instantText);
      if |repo| == 1 {
        assert Join("\n", rows) == line;
        ReadRowJoin(CsvValues(repo[0], instantText), "");
        assert line + "" == line;
        assert line != [];
        assert ExpectedRows(repo, instantText) == [TextsOf(CsvValues(repo[0], instantText))];
      } else {
        var rest := Join("\n", CsvRows(repo[1..], instantText));
        assert rows[1..] == CsvRows(repo[1..], instantText);
        assert Join("\n", rows) == line + ("\n" + rest);
        ReadRowJoin(CsvValues(repo[0], instantText), "\n" + rest);
        ReadRowsJoin(repo[1..], instantText);
        assert ("\n" + rest)[1..] == rest;
        NonEmptyJoin(CsvRows(repo[1..], instantText));
        assert line != [];
      }
    }
  }

  lemma NonEmptyJoin(rows: seq<string>)
    requires rows != [] && rows[0] != []
    ensures Join("\n", rows) != []
  {
  }

  /**
   * The export is the byte order mark, the header naming the thirteen columns, and a body a
   * CSV reader turns back into exactly the stored records' values, in repository order.
   */
  lemma ExportCsvReadsBack(repo: seq<RecordData>, instantText: int -> string)
    ensures var csv := ExportCsv(repo, instantText);
            var prefix := ByteOrderMark + Header + "\n";
            && csv[..|prefix|] == prefix
            && ReadRows(csv[|prefix|..]) == Some(ExpectedRows(repo, instantText))
  {
    ReadRowsJoin(repo, instantText);
    var prefix := ByteOrderMark + Header + "\n";
    var csv := ExportCsv(repo, instantText);
    assert csv == prefix + Join("\n", CsvRows(repo, instantText));
    assert csv[|prefix|..] == Join("\n", CsvRows(repo, instantText));
  }

  /** Each exported line holds a record's values in header order: id, timestamp, …, notes. */
  lemma ExportedColumns(rec: RecordData, instantText: int -> string)
    ensures var row := TextsOf(CsvValues(rec, instantText));
            && |row| == |HeaderNames| == 13
            && row[0] == TextOf(rec.id) && row[2] == TextOf(rec.experimentId)
            && row[1] == (if rec.timestamp.Some? then instantText(rec.timestamp.value) else "")
            && row[3] == TextOf(rec.date) && row[4] == TextOf(rec.mode)
            && row[5] == TextOf(rec.voltage) && row[6] == TextOf(rec.current)
            && row[7] == TextOf(rec.electrolyte)
            && row[8] == TextOf(rec.anodeInitial) && row[9] == TextOf(rec.anodeFinal)
            && row[10] == TextOf(rec.cathodeInitial) && row[11] == TextOf(rec.cathodeFinal)
            && row[12] == TextOf(rec.notes)
  {
  }
}
