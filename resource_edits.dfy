/**
 * "Manage task resources": the new resource list each action of the quick pick produces from
 * the task's current list, the parse of the comma-separated list the user types, and the text
 * the edit box is prefilled with.
 */
module ResourceEdits {
  import opened Wrappers
  import opened Strings
  import opened Sequences
  import opened TaskTypes
  import opened TaskList

  /** The placeholder shown for an empty resource list. */
  const NO_RESOURCES: string := "无"

  /** `resourceList`: the current list one per line, or the placeholder when it is empty. */
  function ResourceListText(current: seq<string>): string {
    if |current| > 0 then Join(current, '\n') else NO_RESOURCES
  }

  /** The value the "edit resource list" box starts with. */
  function EditPrefill(current: seq<string>): string {
    if ResourceListText(current) == NO_RESOURCES then "" else Join(current, ',')
  }

  /** The five entries of the action pick, each with the answer of the dialog it opens. */
  datatype ResourceAction =
    | ViewResources
    | AddFileResources(picked: Option<seq<string>>)
    | AddNetworkResource(entered: Option<string>)
    | ClearResources(confirmed: bool)
    | EditResourceList(entered: Option<string>)

  predicate NonEmpty(s: string) {
    s != ""
  }

  /** `input.trim() ? input.split(',').map(s => s.trim()).filter(s => s) : []`. */
  function ParseResourceList(input: string): seq<string> {
    if Trim(input) == [] then [] else Filter(Map(Split(input, ','), Trim), NonEmpty)
  }

  /**
   * The list `updateTaskResources` is called with, or `None` when the action writes nothing:
   * file and network additions append to the current list, clearing gives the empty list,
   * editing gives the parsed text, and a dismissed or empty answer changes nothing.
   */
  function NewResourceList(current: seq<string>, action: ResourceAction): (r: Option<seq<string>>)
    ensures action.ViewResources? ==> r.None?
    ensures action.AddFileResources? ==>
              && (r.Some? <==> action.picked.Some? && |action.picked.value| > 0)
              && (r.Some? ==> |current| <= |r.value| && r.value[..|current|] == current
                              && r.value[|current|..] == action.picked.value)
    ensures action.AddNetworkResource? ==>
              && (r.Some? <==> Answered(action.entered))
              && (r.Some? ==> |r.value| == |current| + 1 && r.value[..|current|] == current
                              && r.value[|current|] == action.entered.value)
    ensures action.ClearResources? ==> (r.Some? <==> action.confirmed) && (r.Some? ==> r.value == [])
    ensures action.EditResourceList? ==>
              && (r.Some? <==> action.entered.Some?)
              && (r.Some? ==> r.value == ParseResourceList(action.entered.value))
  {
    match action
    case ViewResources => None
    case AddFileResources(picked) =>
      if picked.Some? && |picked.value| > 0 then Some(current + picked.value) else None
    case AddNetworkResource(entered) =>
      if Answered(entered) then Some(current + [entered.value]) else None
    case ClearResources(confirmed) =>
      if confirmed then Some([]) else None
    case EditResourceList(entered) =>
      if entered.Some? then Some(ParseResourceList(entered.value)) else None
  }

  /** A list the parse can give back unchanged: every entry trimmed, non-empty and free of commas. */
  predicate WellFormedResources(rs: seq<string>) {
    forall k :: 0 <= k < |rs| ==> IsTrimmed(rs[k]) && rs[k] != "" && ',' !in rs[k]
  }

  /** A blank or whitespace-only input gives the empty list. */
  lemma ParseBlank(input: string)
    requires AllWhitespace(input)
    ensures ParseResourceList(input) == []
  {
    TrimBlank(input);
  }

  /** Every parsed entry is trimmed, non-empty and free of commas. */
  lemma ParseWellFormed(input: string)
    ensures WellFormedResources(ParseResourceList(input))
  {
    if Trim(input) != [] {
      var pieces := Split(input, ',');
      var trimmed := Map(pieces, Trim);
      FilterSpec(trimmed, NonEmpty);
      forall k | 0 <= k < |trimmed| ensures IsTrimmed(trimmed[k]) && ',' !in trimmed[k] {
        TrimSpec(pieces[k]);
        TrimKeepsCharacters(pieces[k]);
      }
      var r := ParseResourceList(input);
      forall k | 0 <= k < |r| ensures IsTrimmed(r[k]) && r[k] != "" && ',' !in r[k] {
        assert r[k] in trimmed && NonEmpty(r[k]);
      }
    }
  }

  /** A string holding a character other than whitespace does not trim to the empty string. */
  lemma NotBlank(s: string, k: int)
    requires 0 <= k < |s| && !IsWhitespace(s[k])
    ensures Trim(s) != []
  {
    TrimBlank(s);
  }

  /** Joining a well-formed list with commas and parsing it gives the list back. */
  lemma ParseJoin(rs: seq<string>)
    requires WellFormedResources(rs)
    ensures ParseResourceList(Join(rs, ',')) == rs
  {
    if rs != [] {
      var s := Join(rs, ',');
      SplitJoin(rs, ',');
      JoinStartsWithFirst(rs, ',');
      assert s[0] == rs[0][0];
      NotBlank(s, 0);
      forall k | 0 <= k < |rs| ensures Trim(rs[k]) == rs[k] {
        TrimOfTrimmed(rs[k]);
      }
      assert Map(rs, Trim) == rs;
      FilterSpec(rs, NonEmpty);
    }
  }

  /** Parsing is idempotent: the parse of an edit box prefilled from a parsed list is that list. */
  lemma ParseIdempotent(input: string)
    ensures ParseResourceList(Join(ParseResourceList(input), ',')) == ParseResourceList(input)
  {
    ParseWellFormed(input);
    ParseJoin(ParseResourceList(input));
  }

  /** Comma-separated pieces are parsed in order: the parse distributes over a comma. */
  lemma ParseConcat(a: string, b: string)
    ensures ParseResourceList(a + [','] + b) == ParseResourceList(a) + ParseResourceList(b)
  {
    var ab := a + [','] + b;
    assert ab[|a|] == ',';
    NotBlank(ab, |a|);
    SplitConcat(a, b, ',');
    MapConcat(Split(a, ','), Split(b, ','), Trim);
    FilterConcat(Map(Split(a, ','), Trim), Map(Split(b, ','), Trim), NonEmpty);
    ParseUnguarded(a);
    ParseUnguarded(b);
  }

  /** The blank-input guard only short-cuts: without it the parse gives the same list. */
  lemma ParseUnguarded(input: string)
    ensures ParseResourceList(input) == Filter(Map(Split(input, ','), Trim), NonEmpty)
  {
    if Trim(input) == [] {
      TrimBlank(input);
      var pieces := Split(input, ',');
      var trimmed := Map(pieces, Trim);
      forall k | 0 <= k < |trimmed| ensures !NonEmpty(trimmed[k]) {
        SplitPiecesFromInput(input, ',', k);
        assert AllWhitespace(pieces[k]);
        TrimBlank(pieces[k]);
      }
      FilterNone(trimmed, NonEmpty);
    }
  }

  /** The edit box is prefilled empty exactly when the list is empty or is the single entry `无`. */
  lemma PrefillEmptyCases(current: seq<string>)
    ensures ResourceListText(current) == NO_RESOURCES <==> current == [] || current == [NO_RESOURCES]
  {
    if |current| >= 2 {
      var text := Join(current, '\n');
      assert text == current[0] + ['\n'] + Join(current[1..], '\n');
      assert text[|current[0]|] == '\n';
      assert '\n' in text;
      assert '\n' !in NO_RESOURCES;
    }
  }

  /**
   * Accepting the prefilled edit box unchanged keeps a well-formed list, except the single
   * entry `无`, which the placeholder check mistakes for an empty list and clears.
   */
  lemma PrefillRoundTrip(current: seq<string>)
    requires WellFormedResources(current)
    ensures current != [NO_RESOURCES] ==> ParseResourceList(EditPrefill(current)) == current
    ensures current == [NO_RESOURCES] ==> ParseResourceList(EditPrefill(current)) == []
  {
    PrefillEmptyCases(current);
    if current != [] && current != [NO_RESOURCES] {
      ParseJoin(current);
    }
  }

  /**
   * `manageTaskResources`: starting from the resource list of the task as shown in the tree,
   * performs the picked action and, when it produces a list, stores it on the first task of
   * the file with the task's label. A dismissed action pick changes nothing.
   */
  method ManageTaskResources(config: ParsedConfig, task: TaskDefinition, action: Option<ResourceAction>)
    returns (written: bool)
    modifies config
    ensures action.None? || NewResourceList(ResourcesOf(task), action.value).None? ==>
              !written && config.tasks == old(config.tasks)
    ensures action.Some? && NewResourceList(ResourcesOf(task), action.value).Some? ==>
              && (written <==> LabelIndex(old(config.tasks), task.taskLabel) != -1)
              && config.tasks == WithResourceOfLabel(old(config.tasks), task.taskLabel,
                                                     NewResourceList(ResourcesOf(task), action.value).value)
    ensures config.version == old(config.version)
  {
    var currentResources := ResourcesOf(task);
    if action.None? {
      return false;
    }
    var newResources := NewResourceList(currentResources, action.value);
    written := false;
    if newResources.Some? {
      written := config.UpdateTaskResources(task, newResources.value);
    }
  }
}
