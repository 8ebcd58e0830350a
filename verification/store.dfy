/** The record store's data processing: the list written on every save, the
    loads with their soft failures, the engagement-type tally and the export
    guards. */
module Store {

  import opened Wrappers
  import opened Timestamps
  import opened Records
  import opened Counting

  // ---------------------------------------------------------------------
  // Serialisation before the write

  /** The conversion loop's body, giving one entry of the written list: a
      Timestamp cell becomes its `YYYY-MM-DD HH:MM:SS` text; text cells and
      every other field are kept. */
  function SerializeRecord(r: FanRecord): (w: FanRecord)
    ensures w.timestamp.Text?
    ensures w.(timestamp := r.timestamp) == r
    ensures r.timestamp.Text? ==> w == r
  {
    match r.timestamp
    case Stamp(t) => r.(timestamp := Text(FormatTimestamp(t)))
    case Text(_) => r
  }

  /** The list json.dump receives: a JSON document, one entry per record. */
  function Serialized(s: seq<FanRecord>): (doc: Document)
    ensures |doc| == |s|
  {
    seq(|s|, i requires 0 <= i < |s| => SerializeRecord(s[i]))
  }

  /** The conversion loop over the list of records, entry by entry in place. */
  method StringifyTimestamps(items: array<FanRecord>)
    modifies items
    ensures items[..] == Serialized(old(items[..]))
  {
    ghost var original := items[..];
    for i := 0 to items.Length
      invariant forall j :: 0 <= j < i ==> items[j] == SerializeRecord(original[j])
      invariant forall j :: i <= j < items.Length ==> items[j] == original[j]
    {
      items[i] := SerializeRecord(items[i]);
    }
    SerializedPointwise(original, items[..]);
  }

  /** A list whose every entry is the serialised entry of s is Serialized(s). */
  lemma SerializedPointwise(s: seq<FanRecord>, w: seq<FanRecord>)
    requires |w| == |s| && forall j :: 0 <= j < |s| ==> w[j] == SerializeRecord(s[j])
    ensures w == Serialized(s)
  {
  }

  /** The written list has one entry per record, in order; every timestamp in
      it is text; each entry differs from its record in the timestamp at most,
      and text timestamps are written as they are. */
  lemma SerializedSpec(s: seq<FanRecord>)
    ensures |Serialized(s)| == |s|
    ensures forall i :: 0 <= i < |s| ==> Serialized(s)[i].timestamp.Text?
    ensures forall i :: 0 <= i < |s| ==> Serialized(s)[i].(timestamp := s[i].timestamp) == s[i]
    ensures forall i :: 0 <= i < |s| && s[i].timestamp.Text? ==> Serialized(s)[i] == s[i]
    ensures forall i :: 0 <= i < |s| && s[i].timestamp.Stamp? ==>
              Serialized(s)[i].timestamp.text == FormatTimestamp(s[i].timestamp.time)
  {
  }

  // ---------------------------------------------------------------------
  // Loading

  /** A JSON list of records: JSON has no datetime type, so every timestamp
      in it is text. */
  predicate TextOnly(doc: seq<FanRecord>) {
    forall r :: r in doc ==> r.timestamp.Text?
  }

  type Document = doc: seq<FanRecord> | TextOnly(doc) witness []

  /** The state of the data file as the loads find it. */
  datatype FileState = Missing | Unreadable | Stored(doc: Document)

  /** The store read at session start: the file's list as it is, timestamps
      left as text; no file, or one that cannot be read, gives an empty store. */
  function InitialStore(f: FileState): (s: seq<FanRecord>)
    ensures f.Stored? ==> s == f.doc
    ensures !f.Stored? ==> s == []
  {
    match f
    case Stored(doc) => doc
    case _ => []
  }

  /** A timestamp cell pd.to_datetime accepts (in the fixed format only). */
  predicate Parses(v: TimeValue) {
    v.Stamp? || ParseTimestamp(v.text).Some?
  }

  function ParsedTime(v: TimeValue): Time
    requires Parses(v)
  {
    match v
    case Stamp(t) => t
    case Text(x) => ParseTimestamp(x).value
  }

  /** load_fan_data: the file's list with its timestamp column parsed. No file,
      an unreadable file, or a timestamp that does not parse (the exception is
      caught) gives an empty table. */
  function LoadFanData(f: FileState): (s: seq<FanRecord>)
    ensures !f.Stored? ==> s == []
    ensures f.Stored? && (exists r :: r in f.doc && !Parses(r.timestamp)) ==> s == []
    ensures f.Stored? && (forall r :: r in f.doc ==> Parses(r.timestamp)) ==>
              && |s| == |f.doc|
              && (forall i :: 0 <= i < |s| ==> s[i].(timestamp := f.doc[i].timestamp) == f.doc[i])
              && (forall i :: 0 <= i < |s| ==>
                    s[i].timestamp.Stamp? && ParseTimestamp(f.doc[i].timestamp.text).Some?
                    && s[i].timestamp.time == ParseTimestamp(f.doc[i].timestamp.text).value)
  {
    match f
    case Stored(doc) =>
      if forall r :: r in doc ==> Parses(r.timestamp) then
        seq(|doc|, i requires 0 <= i < |doc| => doc[i].(timestamp := Stamp(ParsedTime(doc[i].timestamp))))
      else []
    case _ => []
  }

  /** A record as it comes back after a save and a load: the timestamp as a
      point in time, to the second. */
  function Reloaded(r: FanRecord): FanRecord
    requires Parses(r.timestamp)
  {
    r.(timestamp := Stamp(TruncateToSecond(ParsedTime(r.timestamp))))
  }

  /** Saving a store and loading the file gives the same records, in order,
      with every field equal and every timestamp equal to the second. */
  lemma SaveLoadRoundTrip(s: seq<FanRecord>)
    requires forall r :: r in s ==> Parses(r.timestamp)
    ensures LoadFanData(Stored(Serialized(s))) == seq(|s|, i requires 0 <= i < |s| => Reloaded(s[i]))
  {
    var doc := Serialized(s);
    forall i | 0 <= i < |s|
      ensures Parses(doc[i].timestamp)
      ensures ParsedTime(doc[i].timestamp) == TruncateToSecond(ParsedTime(s[i].timestamp))
    {
      match s[i].timestamp
      case Stamp(t) =>
        FormatParseRoundTrip(t);
      case Text(x) =>
        assert ParseTimestamp(x).value.nanos == 0;
    }
    assert forall r :: r in doc ==> Parses(r.timestamp);
  }

  // ---------------------------------------------------------------------
  // Engagement-type frequency

  /** The entries of a record's engagement cell; a cell that is not a list
      contributes nothing. */
  function ListedOf(r: FanRecord): (l: seq<Activity>)
    ensures |l| == EngagementCount(r)
  {
    match r.engagement
    case Some(list) => list
    case None => []
  }

  /** All engagement entries of the rows, row by row. */
  function ListedActivities(rows: seq<FanRecord>): seq<Activity> {
    if rows == [] then []
    else ListedActivities(rows[..|rows| - 1]) + ListedOf(rows[|rows| - 1])
  }

  /** Sum over the rows of their engagement list lengths. */
  function TotalListed(rows: seq<FanRecord>): nat {
    if rows == [] then 0
    else TotalListed(rows[..|rows| - 1]) + EngagementCount(rows[|rows| - 1])
  }

  lemma {:induction false} ListedActivitiesLength(rows: seq<FanRecord>)
    ensures |ListedActivities(rows)| == TotalListed(rows)
  {
    if rows != [] {
      ListedActivitiesLength(rows[..|rows| - 1]);
    }
  }

  /** process_engagement_data: a dictionary from activity to count, updated
      entry by entry over every row's list, listed in first-seen order. Empty
      input gives the empty table. */
  method EngagementCounts(rows: seq<FanRecord>) returns (counts: seq<(Activity, nat)>)
    ensures counts == TallyOf(ListedActivities(rows))
    ensures rows == [] ==> counts == []
    ensures forall a :: Lookup(counts, a) == multiset(ListedActivities(rows))[a]
    ensures SumCounts(counts) == TotalListed(rows)
  {
    counts := [];
    if rows == [] {
      return;
    }
    for i := 0 to |rows|
      invariant counts == TallyOf(ListedActivities(rows[..i]))
    {
      ListedStep(rows, i);
      match rows[i].engagement {
        case Some(list) =>
          counts := CountEntries(counts, ListedActivities(rows[..i]), list);
        case None =>
          assert ListedActivities(rows[..i]) + ListedOf(rows[i]) == ListedActivities(rows[..i]);
      }
    }
    assert rows[..|rows|] == rows;
    ListedActivitiesLength(rows);
  }

  /** The inner loop: count the entries of one row's list into the table. */
  method CountEntries(counts: seq<(Activity, nat)>, ghost done: seq<Activity>, list: seq<Activity>)
    returns (updated: seq<(Activity, nat)>)
    requires counts == TallyOf(done)
    ensures updated == TallyOf(done + list)
  {
    updated := counts;
    assert done + list[..0] == done;
    for j := 0 to |list|
      invariant updated == TallyOf(done + list[..j])
    {
      TallyPrefixStep(done, list, j);
      updated := Bump(updated, list[j]);
    }
    assert list[..|list|] == list;
  }

  lemma ListedStep(rows: seq<FanRecord>, i: nat)
    requires i < |rows|
    ensures ListedActivities(rows[..i + 1]) == ListedActivities(rows[..i]) + ListedOf(rows[i])
  {
    assert rows[..i + 1][..i] == rows[..i];
  }

  lemma TallyPrefixStep<T(!new)>(done: seq<T>, list: seq<T>, j: nat)
    requires j < |list|
    ensures TallyOf(done + list[..j + 1]) == Bump(TallyOf(done + list[..j]), list[j])
  {
    assert done + list[..j + 1] == (done + list[..j]) + [list[j]];
    TallyStep(done + list[..j], list[j]);
  }

  lemma TallyStep<T(!new)>(s: seq<T>, x: T)
    ensures TallyOf(s + [x]) == Bump(TallyOf(s), x)
  {
    assert (s + [x])[..|s|] == s;
  }

  // ---------------------------------------------------------------------
  // Exports

  datatype ExportOutcome = Exported | NothingToExport | ExportFailed

  /** export_data_to_csv and export_data_to_json: an empty table is refused
      before any write is attempted; otherwise the outcome is the write's. */
  function ExportTable(data: seq<FanRecord>, writeSucceeds: bool): (res: ExportOutcome)
    ensures res == NothingToExport <==> data == []
    ensures res == Exported <==> data != [] && writeSucceeds
  {
    if data == [] then NothingToExport
    else if writeSucceeds then Exported
    else ExportFailed
  }
}
