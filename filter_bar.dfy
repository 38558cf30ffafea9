/**
 * The search and filter bar (src/components/SearchFilterBar.jsx): four pieces of state,
 * handlers that update one of them and hand the whole spec to the page, a reset, and
 * the "any filter active" test that shows the reset button.
 */
module FilterBar {
  import opened Lists
  import opened Vocabulary
  import opened FilterEngine

  class SearchFilterBar {
    var searchText: string
    var selectedSubjects: seq<Subject>
    var selectedKeyStages: seq<KeyStage>
    var sortBy: string

    /** The selections never hold a value twice. */
    ghost predicate Valid()
      reads this
    {
      NoDup(selectedSubjects) && NoDup(selectedKeyStages)
    }

    /** The spec the current state describes. */
    function Current(): FilterSpec
      reads this
    {
      FilterSpec(searchText, selectedSubjects, selectedKeyStages, sortBy)
    }

    /** `hasActiveFilters`: the state differs from the initial (and reset) state. */
    function HasActiveFilters(): (r: bool)
      reads this
      ensures r <==> Current() != DefaultSpec
    {
      searchText != "" || |selectedSubjects| > 0 || |selectedKeyStages| > 0 || sortBy != "newest"
    }

    constructor ()
      ensures Valid()
      ensures Current() == DefaultSpec
    {
      searchText, selectedSubjects, selectedKeyStages, sortBy := "", [], [], "newest";
    }

    /** `handleSearchChange`: store the text and emit the spec with it. */
    method HandleSearchChange(value: string) returns (emitted: FilterSpec)
      modifies this`searchText
      ensures searchText == value
      ensures emitted == Current() == old(Current()).(searchText := value)
    {
      searchText := value;
      emitted := FilterSpec(value, selectedSubjects, selectedKeyStages, sortBy);
    }

    /** `handleSubjectToggle`: add an unselected subject at the end, or remove a selected one. */
    method HandleSubjectToggle(subject: Subject) returns (emitted: FilterSpec)
      requires Valid()
      modifies this`selectedSubjects
      ensures Valid()
      ensures selectedSubjects == Toggle(old(selectedSubjects), subject)
      ensures subject in selectedSubjects <==> subject !in old(selectedSubjects)
      ensures emitted == Current() == old(Current()).(subjects := selectedSubjects)
    {
      ToggleKeepsNoDup(selectedSubjects, subject);
      var newSubjects := Toggle(selectedSubjects, subject);
      selectedSubjects := newSubjects;
      emitted := FilterSpec(searchText, newSubjects, selectedKeyStages, sortBy);
    }

    /** `handleKeyStageToggle`: the same toggle on the key-stage selection. */
    method HandleKeyStageToggle(keyStage: KeyStage) returns (emitted: FilterSpec)
      requires Valid()
      modifies this`selectedKeyStages
      ensures Valid()
      ensures selectedKeyStages == Toggle(old(selectedKeyStages), keyStage)
      ensures keyStage in selectedKeyStages <==> keyStage !in old(selectedKeyStages)
      ensures emitted == Current() == old(Current()).(keyStages := selectedKeyStages)
    {
      ToggleKeepsNoDup(selectedKeyStages, keyStage);
      var newKeyStages := Toggle(selectedKeyStages, keyStage);
      selectedKeyStages := newKeyStages;
      emitted := FilterSpec(searchText, selectedSubjects, newKeyStages, sortBy);
    }

    /** `handleSortChange`: store the sort mode and emit the spec with it. */
    method HandleSortChange(value: string) returns (emitted: FilterSpec)
      modifies this`sortBy
      ensures sortBy == value
      ensures emitted == Current() == old(Current()).(sortBy := value)
    {
      sortBy := value;
      emitted := FilterSpec(searchText, selectedSubjects, selectedKeyStages, value);
    }

    /** `clearAllFilters`: back to the initial state, which is emitted. */
    method ClearAllFilters() returns (emitted: FilterSpec)
      modifies this
      ensures Valid()
      ensures Current() == DefaultSpec && emitted == DefaultSpec
      ensures !HasActiveFilters()
    {
      searchText, selectedSubjects, selectedKeyStages, sortBy := "", [], [], "newest";
      emitted := FilterSpec("", [], [], "newest");
    }
  }
}
