/**
 * The record service's entity (record-service/.../ExperimentRecord.java): thirteen nullable
 * fields, twelve of them text and the time stamp an instant, updated in place by setters and
 * by the two helpers that fill in the id and the time stamp.
 *
 * A Java null is None. An Instant is an integer count of time units; the clock and the UUID
 * generator are parameters (now, uuid) of the methods that use them.
 */
module RecordEntity {
  import opened Wrappers

  /** The values of an entity's fields, as one value. */
  datatype RecordData = RecordData(
    id: Option<string>,
    experimentId: Option<string>,
    date: Option<string>,
    mode: Option<string>,
    voltage: Option<string>,
    current: Option<string>,
    electrolyte: Option<string>,
    anodeInitial: Option<string>,
    anodeFinal: Option<string>,
    cathodeInitial: Option<string>,
    cathodeFinal: Option<string>,
    notes: Option<string>,
    timestamp: Option<int>)

  /** What the no-argument constructor leaves: every field null. */
  const EmptyRecord: RecordData :=
    RecordData(None, None, None, None, None, None, None, None, None, None, None, None, None)

  /** Character.isWhitespace: Unicode space, line and paragraph separators other than the
    * non-breaking ones, and the ASCII/ISO controls HT, LF, VT, FF, CR and FS, GS, RS, US. */
  predicate IsWhitespace(c: char) {
    || ('\U{0009}' <= c <= '\U{000D}')
    || ('\U{001C}' <= c <= '\U{0020}')
    || c == '\U{1680}'
    || ('\U{2000}' <= c <= '\U{2006}')
    || ('\U{2008}' <= c <= '\U{200A}')
    || c == '\U{2028}' || c == '\U{2029}' || c == '\U{205F}' || c == '\U{3000}'
  }

  /** String.isBlank: empty, or white space only. */
  predicate IsBlank(s: string) {
    forall i :: 0 <= i < |s| ==> IsWhitespace(s[i])
  }

  /**
   * isBlank on sample ids: empty text and ASCII or Unicode spaces are blank; the
   * non-breaking spaces U+00A0, U+2007 and U+202F and any visible character are not.
   */
  lemma BlankSamples()
    ensures IsBlank("") && IsBlank(" \t\n\r") && IsBlank("\U{3000}\U{2028}\U{001F}")
    ensures !IsBlank("\U{00A0}") && !IsBlank("\U{2007}") && !IsBlank("\U{202F}") && !IsBlank(" x ")
  {
    assert !IsWhitespace("\U{00A0}"[0]);
    assert !IsWhitespace("\U{2007}"[0]);
    assert !IsWhitespace("\U{202F}"[0]);
    assert !IsWhitespace(" x "[1]);
  }

  /** The id a new record ends up with: the one supplied unless it is null or blank, else uuid. */
  function AssignedId(id: Option<string>, uuid: string): (r: string)
    ensures id.Some? && !IsBlank(id.value) ==> r == id.value
    ensures id.None? || IsBlank(id.value) ==> r == uuid
    ensures !IsBlank(uuid) ==> !IsBlank(r)
  {
    if id.None? || IsBlank(id.value) then uuid else id.value
  }

  /** A generated UUID (hex digits and dashes) is never blank. */
  lemma UuidTextNotBlank(uuid: string)
    requires |uuid| == 36 && uuid[8] == '-'
    ensures !IsBlank(uuid)
  {
    assert !IsWhitespace(uuid[8]);
  }

  class ExperimentRecord {
    var id: Option<string>
    var experimentId: Option<string>
    var date: Option<string>
    var mode: Option<string>
    var voltage: Option<string>
    var current: Option<string>
    var electrolyte: Option<string>
    var anodeInitial: Option<string>
    var anodeFinal: Option<string>
    var cathodeInitial: Option<string>
    var cathodeFinal: Option<string>
    var notes: Option<string>
    var timestamp: Option<int>

    /** The entity's current field values. */
    function Data(): RecordData
      reads this
    {
      RecordData(id, experimentId, date, mode, voltage, current, electrolyte,
                 anodeInitial, anodeFinal, cathodeInitial, cathodeFinal, notes, timestamp)
    }

    /** The no-argument constructor JPA uses. */
    constructor ()
      ensures Data() == EmptyRecord
    {
      id, experimentId, date, mode := None, None, None, None;
      voltage, current, electrolyte := None, None, None;
      anodeInitial, anodeFinal, cathodeInitial, cathodeFinal := None, None, None, None;
      notes, timestamp := None, None;
    }

    /** An entity loaded from the repository: a fresh object holding the stored values. */
    constructor Load(d: RecordData)
      ensures Data() == d
    {
      id, experimentId, date, mode := d.id, d.experimentId, d.date, d.mode;
      voltage, current, electrolyte := d.voltage, d.current, d.electrolyte;
      anodeInitial, anodeFinal := d.anodeInitial, d.anodeFinal;
      cathodeInitial, cathodeFinal := d.cathodeInitial, d.cathodeFinal;
      notes, timestamp := d.notes, d.timestamp;
    }

    /** Fills in a UUID when the id is null or blank, stamps the time, and returns this object. */
    method BuildNewRecord(uuid: string, now: int) returns (self: ExperimentRecord)
      modifies this
      ensures self == this
      ensures id == Some(AssignedId(old(id), uuid))
      ensures old(id).Some? && !IsBlank(old(id).value) ==> id == old(id)
      ensures timestamp == Some(now)
      ensures Data() == old(Data()).(id := id, timestamp := Some(now))
    {
      if id.None? || IsBlank(id.value) {
        id := Some(uuid);
      }
      timestamp := Some(now);
      self := this;
    }

    /** Sets the time stamp to the current time; nothing else changes. */
    method TouchTimestamp(now: int)
      modifies this
      ensures Data() == old(Data()).(timestamp := Some(now))
    {
      timestamp := Some(now);
    }

    method SetId(v: Option<string>)
      modifies this
      ensures Data() == old(Data()).(id := v)
    {
      id := v;
    }

    method SetExperimentId(v: Option<string>)
      modifies this
      ensures Data() == old(Data()).(experimentId := v)
    {
      experimentId := v;
    }

    method SetDate(v: Option<string>)
      modifies this
      ensures Data() == old(Data()).(date := v)
    {
      date := v;
    }

    method SetMode(v: Option<string>)
      modifies this
      ensures Data() == old(Data()).(mode := v)
    {
      mode := v;
    }

    method SetVoltage(v: Option<string>)
      modifies this
      ensures Data() == old(Data()).(voltage := v)
    {
      voltage := v;
    }

    method SetCurrent(v: Option<string>)
      modifies this
      ensures Data() == old(Data()).(current := v)
    {
      current := v;
    }

    method SetElectrolyte(v: Option<string>)
      modifies this
      ensures Data() == old(Data()).(electrolyte := v)
    {
      electrolyte := v;
    }

    method SetAnodeInitial(v: Option<string>)
      modifies this
      ensures Data() == old(Data()).(anodeInitial := v)
    {
      anodeInitial := v;
    }

    method SetAnodeFinal(v: Option<string>)
      modifies this
      ensures Data() == old(Data()).(anodeFinal := v)
    {
      anodeFinal := v;
    }

    method SetCathodeInitial(v: Option<string>)
      modifies this
      ensures Data() == old(Data()).(cathodeInitial := v)
    {
      cathodeInitial := v;
    }

    method SetCathodeFinal(v: Option<string>)
      modifies this
      ensures Data() == old(Data()).(cathodeFinal := v)
    {
      cathodeFinal := v;
    }

    method SetNotes(v: Option<string>)
      modifies this
      ensures Data() == old(Data()).(notes := v)
    {
      notes := v;
    }

    method SetTimestamp(v: Option<int>)
      modifies this
      ensures Data() == old(Data()).(timestamp := v)
    {
      timestamp := v;
    }
  }
}
