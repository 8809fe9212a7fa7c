/**
 * The page's state and event handlers: the loaded records, the selected
 * category and types, the checkbox list and the results panel.
 */
module App {
  import opened Wrappers
  import opened Seqs
  import opened Strings
  import opened Records
  import opened Filtering
  import opened AssistanceTypes
  import opened Rendering

  class Directory {
    /** `allData`: the dataset, empty until it has been fetched. */
    var allData: seq<Record>
    /** Whether the fetch has completed and the category buttons have their handlers. */
    var loaded: bool
    /** `selectedCategory`: `null` until a category button is clicked. */
    var selectedCategory: Option<string>
    /** `selectedTypes`: the checked assistance types. */
    var selectedTypes: set<string>
    /** The checkboxes of the types list, in display order. */
    var typeOptions: seq<string>
    /** Whether the types container is displayed. */
    var typesVisible: bool
    /** The contents of the results list. */
    var results: ResultsView
    /** Whether the results container is displayed. */
    var resultsVisible: bool
    /** The host's `encodeURIComponent`. */
    const encodeUriComponent: string -> string

    /**
     * The relations every handler keeps: nothing is selected before the data
     * is loaded; the checkboxes are the category's types, sorted and without
     * repeats, and shown exactly when there is at least one; only offered types
     * are checked; and the results panel, when displayed, shows what the
     * current selection yields, and is empty when hidden.
     */
    ghost predicate Valid()
      reads this
    {
      && (!loaded ==> allData == [] && selectedCategory.None?)
      && (selectedCategory.None? ==> typeOptions == [] && selectedTypes == {})
      && (selectedCategory.Some? ==>
            StrictlySorted(typeOptions) && Elems(typeOptions) == TypeSet(allData, selectedCategory.value))
      && typesVisible == (typeOptions != [])
      && selectedTypes <= Elems(typeOptions)
      && (!resultsVisible ==> results == Cleared)
      && (resultsVisible ==>
            ShowResults(allData, selectedCategory, selectedTypes, encodeUriComponent) == Display(true, results))
    }

    /** The script's start: no data, no selection, both containers hidden. */
    constructor (encode: string -> string)
      ensures Valid()
      ensures !loaded && allData == [] && selectedCategory == None && selectedTypes == {}
      ensures typeOptions == [] && !typesVisible && results == Cleared && !resultsVisible
      ensures encodeUriComponent == encode
    {
      allData := [];
      loaded := false;
      selectedCategory := None;
      selectedTypes := {};
      typeOptions := [];
      typesVisible := false;
      results := Cleared;
      resultsVisible := false;
      encodeUriComponent := encode;
    }

    /** The fetch resolving: store the records and attach the category handlers. */
    method Load(data: seq<Record>)
      requires Valid() && !loaded
      modifies this
      ensures Valid()
      ensures loaded && allData == data
      ensures selectedCategory == old(selectedCategory) && selectedTypes == old(selectedTypes)
      ensures typeOptions == old(typeOptions) && typesVisible == old(typesVisible)
      ensures results == old(results) && resultsVisible == old(resultsVisible)
    {
      allData := data;
      loaded := true;
    }

    /**
     * A click on a category button: select the category, uncheck every type,
     * offer the category's types and hide the results.  Before the data is
     * loaded the buttons have no handler and nothing happens.
     */
    method SelectCategory(category: string)
      requires Valid()
      modifies this
      ensures Valid()
      ensures allData == old(allData) && loaded == old(loaded)
      ensures !old(loaded) ==> unchanged(this)
      ensures old(loaded) ==>
        && selectedCategory == Some(category)
        && selectedTypes == {}
        && StrictlySorted(typeOptions) && Elems(typeOptions) == TypeSet(allData, category)
        && typesVisible == (typeOptions != [])
        && results == Cleared && !resultsVisible
    {
      if !loaded {
        return;
      }
      selectedCategory := Some(category);
      selectedTypes := {};
      DisplayTypesOfAssistance();
      ClearResults();
    }

    /** Rebuild the checkbox list for the selected category and show it when it is not empty. */
    method DisplayTypesOfAssistance()
      requires selectedCategory.Some?
      modifies this`typeOptions, this`typesVisible
      ensures StrictlySorted(typeOptions) && Elems(typeOptions) == TypeSet(allData, selectedCategory.value)
      ensures typesVisible == (typeOptions != [])
    {
      typeOptions := CollectTypes(allData, selectedCategory.value);
      typesVisible := |typeOptions| > 0;
    }

    /** `clearResults`: empty the results list and hide its container. */
    method ClearResults()
      modifies this`results, this`resultsVisible
      ensures results == Cleared && !resultsVisible
    {
      results := Cleared;
      resultsVisible := false;
    }

    /**
     * A change of the checkbox for `t`, which is now `checked`: add or remove
     * exactly that type, then show the results for the new selection.
     */
    method ToggleType(t: string, checked: bool)
      requires Valid() && t in typeOptions
      modifies this
      ensures Valid()
      ensures selectedTypes == if checked then old(selectedTypes) + {t} else old(selectedTypes) - {t}
      ensures allData == old(allData) && loaded == old(loaded) && selectedCategory == old(selectedCategory)
      ensures typeOptions == old(typeOptions) && typesVisible == old(typesVisible)
      ensures Display(resultsVisible, results) == ShowResults(allData, selectedCategory, selectedTypes, encodeUriComponent)
    {
      if checked {
        selectedTypes := selectedTypes + {t};
      } else {
        selectedTypes := selectedTypes - {t};
      }
      assert selectedTypes <= Elems(typeOptions);
      FilterAndDisplayResults();
    }

    /**
     * `filterAndDisplayResults`: hide the panel when no category is selected;
     * otherwise filter the records and show the message or one block per record.
     */
    method FilterAndDisplayResults()
      modifies this`results, this`resultsVisible
      ensures Display(resultsVisible, results) == ShowResults(allData, selectedCategory, selectedTypes, encodeUriComponent)
      ensures !resultsVisible ==> results == Cleared
    {
      results := Cleared;
      if selectedCategory.None? || selectedCategory.value == "" {
        resultsVisible := false;
        return;
      }
      var filtered := FilterRecords(allData, selectedCategory.value, selectedTypes);
      if |filtered| == 0 {
        results := Message(NoResultsMessage);
        resultsVisible := true;
        return;
      }
      var blocks := RenderBlocks(filtered, encodeUriComponent);
      assert blocks == RenderAll(filtered, encodeUriComponent);
      results := Organizations(blocks);
      resultsVisible := true;
    }
  }
}
