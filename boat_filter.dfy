/** The boat type filter bar: seven buttons, one of them selected, the choice
    kept in the browser's local storage and restored when the bar is mounted
    again. The value handed to `onFilterChange` is returned by the handlers. */
module BoatFilter {
  import opened Wrappers

  /** The seven values of `BoatFilterType`, in button order. */
  const ALL := "all"
  const FILTER_NAMES: seq<string> := [ALL, "single", "double", "four", "eight", "recreational", "other"]

  /** The key the choice is stored under. */
  const FILTER_STORAGE_KEY := "boat-filter-selection"

  predicate IsFilterName(s: string)
  {
    s in FILTER_NAMES
  }

  /** The button labels, in the order of `FILTER_NAMES`. */
  const FILTER_LABELS: seq<string> := ["All", "1", "2", "4", "8", "Rec", "Other"]

  /** The browser's local storage. */
  class BrowserStorage {
    var entries: map<string, string>

    constructor(entries: map<string, string>)
      ensures this.entries == entries
    {
      this.entries := entries;
    }

    /** `localStorage.getItem`: None when the key was never set. */
    function GetItem(key: string): (r: Option<string>)
      reads this
      ensures r.Some? <==> key in entries
      ensures r.Some? ==> r.value == entries[key]
    {
      if key in entries then Some(entries[key]) else None
    }

    /** `localStorage.setItem`. */
    method SetItem(key: string, value: string)
      modifies this
      ensures entries == old(entries)[key := value]
    {
      entries := entries[key := value];
    }
  }

  /** What the mount effect adopts from storage: a stored value that names a
      filter; anything else (nothing, "", an unknown name) is ignored. */
  function SavedFilter(stored: Option<string>): (r: Option<string>)
    ensures r.Some? <==> stored.Some? && IsFilterName(stored.value)
    ensures r.Some? ==> r == stored
  {
    if stored.Some? && stored.value != "" && IsFilterName(stored.value) then stored else None
  }

  /** A choice written by a click is the one restored by the next mount. */
  lemma ClickSurvivesReload(entries: map<string, string>, f: string)
    requires IsFilterName(f)
    ensures SavedFilter(Some(entries[FILTER_STORAGE_KEY := f][FILTER_STORAGE_KEY])) == Some(f)
  {
  }

  /** What a button shows next to its label: `boatCounts?.[value] ?? 0`,
      shown only when it is greater than 0. A missing count table or entry
      shows nothing; so does a count that is not a number. */
  datatype Tally = Num(n: int) | NotANumber

  function DisplayedCount(counts: Option<map<string, Tally>>, f: string): (shown: Option<int>)
    ensures shown.Some? <==> counts.Some? && f in counts.value && counts.value[f].Num? && counts.value[f].n > 0
    ensures shown.Some? ==> shown.value == counts.value[f].n && shown.value > 0
  {
    if counts.Some? && f in counts.value && counts.value[f].Num? && counts.value[f].n > 0
    then Some(counts.value[f].n) else None
  }

  class FilterBar {
    var selectedFilter: string

    /** The selection is always one of the seven buttons. */
    predicate Valid()
      reads this
    {
      IsFilterName(selectedFilter)
    }

    /** Exactly one button is highlighted, the one for the selection. */
    lemma ExactlyOneSelected()
      requires Valid()
      ensures exists i :: 0 <= i < |FILTER_NAMES| && FILTER_NAMES[i] == selectedFilter
      ensures forall i, j :: 0 <= i < j < |FILTER_NAMES| ==> FILTER_NAMES[i] != FILTER_NAMES[j]
    {
    }

    constructor()
      ensures selectedFilter == ALL && Valid()
    {
      selectedFilter := ALL;
    }

    /** The mount effect: adopts and reports a valid stored choice, and
        otherwise keeps the selection and reports nothing. */
    method Mount(storage: BrowserStorage) returns (reported: Option<string>)
      requires Valid()
      modifies this
      ensures Valid()
      ensures reported == SavedFilter(storage.GetItem(FILTER_STORAGE_KEY))
      ensures reported.Some? ==> selectedFilter == reported.value
      ensures reported.None? ==> selectedFilter == old(selectedFilter)
    {
      var saved := storage.GetItem(FILTER_STORAGE_KEY);
      if saved.Some? && saved.value != "" && IsFilterName(saved.value) {
        selectedFilter := saved.value;
        reported := saved;
      } else {
        reported := None;
      }
    }

    /** `handleFilterClick`: selects, stores and reports the clicked filter. */
    method Click(storage: BrowserStorage, f: string) returns (reported: string)
      requires Valid() && IsFilterName(f)
      modifies this, storage
      ensures Valid()
      ensures selectedFilter == f && reported == f
      ensures storage.entries == old(storage.entries)[FILTER_STORAGE_KEY := f]
    {
      selectedFilter := f;
      storage.SetItem(FILTER_STORAGE_KEY, f);
      reported := f;
    }
  }
}
