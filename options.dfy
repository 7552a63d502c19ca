/**
  The read-only settings of one run (SortUtilityOptions.cs): the option record with its
  defaults, and the small predicates derived from it.
 */
module Options {
  import opened Wrappers
  import opened DotNetText

  /** One field per option. `inputFilePath` is `None` where the C# property is null.
      `removeEmptyValueTags` is read by the block sorter but not declared with the other
      options; it is modelled here as a further flag defaulting to false. */
  datatype SortUtilityOptions = SortUtilityOptions(
    inputFilePath: Option<string>,
    recurseDirectories: bool,
    removeEmptyBlocks: bool,
    removeEmptyRemarks: bool,
    removeEmptyReturns: bool,
    removeEmptyValueTags: bool,
    renameInvalidElements: bool,
    updateFiles: bool,
    verboseMode: bool,
    quietMode: bool)

  /** The options as they stand before any command-line argument is applied. */
  function Defaults(): (o: SortUtilityOptions)
    ensures o.inputFilePath.None?
    ensures o.removeEmptyBlocks && o.renameInvalidElements && o.verboseMode
    ensures !o.removeEmptyRemarks && !o.removeEmptyReturns && !o.removeEmptyValueTags
    ensures !o.updateFiles && !o.quietMode && !o.recurseDirectories
  {
    SortUtilityOptions(
      inputFilePath := None,
      recurseDirectories := false,
      removeEmptyBlocks := true,
      removeEmptyRemarks := false,
      removeEmptyReturns := false,
      removeEmptyValueTags := false,
      renameInvalidElements := true,
      updateFiles := false,
      verboseMode := true,
      quietMode := false)
  }

  /** Whether empty `<remarks></remarks>` elements are removed: the umbrella flag implies it. */
  predicate EffectiveRemoveEmptyRemarks(o: SortUtilityOptions) {
    o.removeEmptyRemarks || o.removeEmptyBlocks
  }

  /** Whether empty `<returns></returns>` elements are removed: the umbrella flag implies it. */
  predicate EffectiveRemoveEmptyReturns(o: SortUtilityOptions) {
    o.removeEmptyReturns || o.removeEmptyBlocks
  }

  /** Whether empty `<value></value>` elements are removed: the umbrella flag implies it. */
  predicate EffectiveRemoveEmptyValue(o: SortUtilityOptions) {
    o.removeEmptyValueTags || o.removeEmptyBlocks
  }

  /** Verbose reporting as shown to the user: quiet mode overrides it. */
  predicate EffectiveVerbose(o: SortUtilityOptions) {
    o.verboseMode && !o.quietMode
  }

  /** The umbrella flag switches on all three empty-element removals, and without it each
      removal is governed by its own flag alone. */
  lemma UmbrellaRemoval(o: SortUtilityOptions)
    ensures o.removeEmptyBlocks ==>
              EffectiveRemoveEmptyRemarks(o) && EffectiveRemoveEmptyReturns(o) && EffectiveRemoveEmptyValue(o)
    ensures !o.removeEmptyBlocks ==>
              && EffectiveRemoveEmptyRemarks(o) == o.removeEmptyRemarks
              && EffectiveRemoveEmptyReturns(o) == o.removeEmptyReturns
              && EffectiveRemoveEmptyValue(o) == o.removeEmptyValueTags
  {
  }

  /** Quiet mode silences the verbose echo; otherwise the verbose flag decides. */
  lemma QuietOverridesVerbose(o: SortUtilityOptions)
    ensures o.quietMode ==> !EffectiveVerbose(o)
    ensures !o.quietMode ==> EffectiveVerbose(o) == o.verboseMode
  {
  }

  /** Out of the box, every empty-element removal is on and the echo is verbose. */
  lemma DefaultsRemoveAllEmptyElements()
    ensures EffectiveRemoveEmptyRemarks(Defaults())
    ensures EffectiveRemoveEmptyReturns(Defaults())
    ensures EffectiveRemoveEmptyValue(Defaults())
    ensures EffectiveVerbose(Defaults())
  {
  }

  /** `PathHasWildcard`: the path names a file pattern when it holds a `*` or a `?`. */
  function PathHasWildcard(filePath: string): (r: bool)
    ensures r <==> '*' in filePath || '?' in filePath
  {
    ContainsChar(filePath, '*');
    ContainsChar(filePath, '?');
    Contains(filePath, "*") || Contains(filePath, "?")
  }

  /** `Validate`: the options are accepted exactly when an input path is given and holds
      at least one character that is not white space. */
  function Validate(o: SortUtilityOptions): (r: bool)
    ensures r <==> o.inputFilePath.Some? &&
                   exists i :: 0 <= i < |o.inputFilePath.value| && !IsWhiteSpace(o.inputFilePath.value[i])
  {
    if o.inputFilePath.None? || IsNullOrWhiteSpace(o.inputFilePath.value) then false else true
  }

  /** `BoolToEnabledDisabled`: the word shown for a flag, distinct for the two values. */
  function BoolToEnabledDisabled(value: bool): (r: string)
    ensures r == "Enabled" <==> value
    ensures r == "Disabled" <==> !value
  {
    if value then "Enabled" else "Disabled"
  }
}
