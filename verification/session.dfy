/** The state one browser session keeps between interactions (the record
    store and the filter state), the data file the sessions share, and the
    operations of the entry page and the sidebar that change them. */
module Session {

  import opened Timestamps
  import opened Records
  import opened Filters
  import opened Store
  import opened Submission

  class SessionState {
    /** Whether the session holds a record store yet, and the store. */
    var hasFanData: bool
    var fanData: seq<FanRecord>
    /** Whether the session holds a filter state yet, and the state. */
    var hasFilters: bool
    var filters: FilterSpec
    /** The data file as the next load will find it. */
    var file: FileState

    /** A fresh session: nothing is held yet; the file is whatever is on disk. */
    constructor (onDisk: FileState)
      ensures !hasFanData && !hasFilters
      ensures file == onDisk
    {
      hasFanData := false;
      fanData := [];
      hasFilters := false;
      filters := DefaultFilters;
      file := onDisk;
    }

    /** initialize_session_state: a store not yet held is read from the file
        (an empty one when there is no file or it cannot be read), and a filter
        state not yet held becomes the default one; what is held is kept. */
    method Initialize()
      modifies this
      ensures hasFanData && hasFilters
      ensures fanData == if old(hasFanData) then old(fanData) else InitialStore(file)
      ensures filters == if old(hasFilters) then old(filters) else DefaultFilters
      ensures file == old(file)
    {
      if !hasFanData {
        fanData := InitialStore(file);
        hasFanData := true;
      }
      if !hasFilters {
        filters := DefaultFilters;
        hasFilters := true;
      }
    }

    /** filter_sidebar: the two sliders always set their ranges; the three
        multiselects are shown, and set their lists, only when the store is not
        empty; Reset Filters then replaces the whole state by the default. */
    method FilterSidebar(ageRange: (int, int), gender: seq<Gender>, country: seq<string>,
                         favoriteGame: seq<Game>, fanSinceRange: (int, int), reset: bool)
      requires hasFanData && hasFilters
      modifies this
      ensures reset ==> filters == DefaultFilters
      ensures !reset ==> filters == FilterSpec(
                ageRange,
                if fanData != [] then gender else old(filters).gender,
                if fanData != [] then country else old(filters).country,
                if fanData != [] then favoriteGame else old(filters).favoriteGame,
                fanSinceRange)
      ensures hasFanData && hasFilters
      ensures fanData == old(fanData) && file == old(file)
    {
      filters := filters.(ageRange := ageRange);
      if fanData != [] {
        filters := filters.(gender := gender);
        filters := filters.(country := country);
        filters := filters.(favoriteGame := favoriteGame);
      }
      filters := filters.(fanSinceRange := fanSinceRange);
      if reset {
        filters := DefaultFilters;
      }
    }

    /** save_fan_data: the record is appended to the store (which becomes the
        record alone when none is held), then the whole store is copied to a
        list, its timestamps written as text, and the list written to the file.
        A failed write leaves the file as it was but the store appended. */
    method SaveFanData(record: FanRecord, writeSucceeds: bool)
      modifies this
      ensures hasFanData
      ensures fanData == (if old(hasFanData) then old(fanData) else []) + [record]
      ensures writeSucceeds ==> file == Stored(Serialized(fanData))
      ensures !writeSucceeds ==> file == old(file)
      ensures hasFilters == old(hasFilters) && filters == old(filters)
    {
      var store := if hasFanData then fanData else [];
      var data := store + [record];
      fanData := data;
      hasFanData := true;
      var items := new FanRecord[|data|](i requires 0 <= i < |data| => data[i]);
      assert items[..] == data;
      StringifyTimestamps(items);
      if writeSucceeds {
        file := Stored(items[..]);
      }
    }

    /** The submit button of the entry form: a form with name, email and
        country is turned into a record and saved; any other form is refused
        and nothing changes. */
    method SubmitForm(form: FormInput, now: Time, writeSucceeds: bool) returns (res: SubmitResult)
      modifies this
      ensures res == Submit(form, now)
      ensures res.Accepted? ==>
                && hasFanData
                && fanData == (if old(hasFanData) then old(fanData) else []) + [res.record]
                && (writeSucceeds ==> file == Stored(Serialized(fanData)))
                && (!writeSucceeds ==> file == old(file))
                && filters == old(filters)
      ensures res.Rejected? ==> unchanged(this)
    {
      res := Submit(form, now);
      if res.Accepted? {
        SaveFanData(res.record, writeSucceeds);
      }
    }
  }

  /** A store whose timestamps all parse, saved with one more record and
      loaded back, has one more record: the old ones and then the new one, each
      with its timestamp to the second. */
  lemma SaveThenLoad(store: seq<FanRecord>, record: FanRecord)
    requires forall r :: r in store ==> Parses(r.timestamp)
    requires Parses(record.timestamp)
    ensures |LoadFanData(Stored(Serialized(store + [record])))| == |store| + 1
    ensures forall i :: 0 <= i < |store| ==> LoadFanData(Stored(Serialized(store + [record])))[i] == Reloaded(store[i])
    ensures LoadFanData(Stored(Serialized(store + [record])))[|store|] == Reloaded(record)
  {
    var s := store + [record];
    assert forall r :: r in s ==> Parses(r.timestamp);
    SaveLoadRoundTrip(s);
  }
}
