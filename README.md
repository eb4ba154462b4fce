# Unity-Miscellaneous, modelled in Dafny

This project models the core of Unity-Miscellaneous, a set of independent Unity
editor and runtime tools, and proves properties of that model:

- **Asset Clearance** (`AssetClearance*` modules): rules with scopes, wildcard
  patterns and conditions; the database that stores rules and reports; the
  report tree of the editor window; the checks run against assets, such as texture
  sizes and mesh statistics. `Text` and `Lists` hold the string and list helpers
  from the .NET library that those checks use.
- **Auto Grouping** (`AutoGroupingWindow`): groups of assets, the name-to-ID
  lookup, and the placement of new groups.
- **Dynamic Instancing** (`DynamicInstancingRenderer`, `DynamicInstancingHelper`):
  the registry of renderers, visibility culling, compaction of the visible
  instances, and their split into instanced draw calls of at most 1023
  matrices.
- **Legacy Animator** (`LegacyAnimator`): parameters, transition conditions
  and the state machine.
- **Low-End Rendering** (`LowEndMaterialAdaptorEditor`,
  `LowEndRenderingManager`): the material property mapping, the texture pack
  size, and the manager's list of adaptors with their slot indices.
- **Prefab Proxy** (`PrefabProxy`): proxy instances, their parent containers
  and the manager's stash.
- **Prefab Lightmap** (`PrefabLightmap`): the atlas packer for lightmap
  textures and the atlas size.
- **UI Particle** (`UIParticleUpdater`, `UIParticleMesh`): mesh baking for
  particle systems, and the per-particle mesh job (texture sheet animation, tiles, UV
  streams, colours).
- **FBX Refiner** (`FbxRefiner`): the native library that removes UV layers
  and vertex colours from FBX scene nodes.

Each object that the source updates in place is a `class`, and its methods state
their new state. Pure computations are functions, and lemmas relate them to
independent reference definitions. The "## Findings" section lists defects in
the source. For each one the model keeps both the code as written, with a lemma that
exhibits the defect, and a corrected member whose intended property is proved.

## Model

| member | source | states |
|---|---|---|
| AssetClearance.EscapeChar | AssetClearance/Editor/AssetClearance.cs:52 | Regex.Escape of one character is the character itself or a backslash followed by it |
| AssetClearance.WildcardChar | AssetClearance/Editor/AssetClearance.cs:52 | one pattern character translates to `.*` for `*`, `.` for `?`, and its escape otherwise |
| AssetClearance.PieceToRegexPerChar | AssetClearance/Editor/AssetClearance.cs:52 | escaping a piece and then replacing `\*` and `\?` equals translating it character by character |
| AssetClearance.ReplaceFlatMap | AssetClearance/Editor/AssetClearance.cs:52 | replacing an escaped two-character sequence in a translated string equals translating those characters to the replacement directly |
| AssetClearance.MapPieces | AssetClearance/Editor/AssetClearance.cs:50-53 | one regex alternative per comma-separated piece, each the translation of its piece |
| AssetClearance.ToRegex | AssetClearance/Editor/AssetClearance.cs:45-56 | the loop's result is the pieces' translations joined by the bar character |
| AssetClearance.ToRegexPieces | AssetClearance/Editor/AssetClearance.cs:45-56 | there is at least one piece, and every alternative is its piece translated per character |
| AssetClearance.CopyValues | AssetClearance/Editor/AssetClearance.cs:103-112 | the array copy reads `count` values from the running offset, or fails when they run past the stored values |
| AssetClearance.ReadParameter | AssetClearance/Editor/AssetClearance.cs:93-117 | a consuming parameter reads its count at the count cursor, then one value or `count` values at the value cursor of its type |
| AssetClearance.NextArg | AssetClearance/Editor/AssetClearance.cs:86-117 | each argument is null for `out`, the ping references for the ping-objects parameter, and otherwise the layout read |
| AssetClearance.Advance | AssetClearance/Editor/AssetClearance.cs:97-117 | the count cursor moves by one and the value cursor by the count read |
| AssetClearance.DecodeFailsFrom | AssetClearance/Editor/AssetClearance.cs:84-118 | once one parameter cannot be read (the source throws), the whole decoding fails |
| AssetClearance.ExpectedArgsClosedForm | AssetClearance/Editor/AssetClearance.cs:84-118 | decoding succeeds exactly when every parameter reads, and then argument i is parameter i's read |
| AssetClearance.DecodeParameters | AssetClearance/Editor/AssetClearance.cs:78-118 | the decoding loop from fresh counter dictionaries yields the per-parameter specification |
| AssetClearance.DoMethod | AssetClearance/Editor/AssetClearance.cs:76-119 | DoMethod returns the invoked result exactly when every parameter decodes, and throws otherwise |
| AssetClearance.CheckCondition | AssetClearance/Editor/AssetClearance.cs:127-157 | Ignored for an unknown method, a generic object, an object the first parameter does not accept or a failed validation; otherwise the invoked result flipped by `negation` |
| AssetClearance.TransformPingObject | AssetClearance/Editor/AssetClearance.cs:121-126 | null exactly when both the referencer and the object are null, else the constructed ping object |
| AssetClearance.Blocks | AssetClearance/Editor/AssetClearance.cs:161-171 | the blocks are non-empty, there are none only for an empty list, and the last block ends with the last condition |
| AssetClearance.BlocksFlatten | AssetClearance/Editor/AssetClearance.cs:161-171 | the blocks concatenate back to the condition list |
| AssetClearance.BlocksUniform | AssetClearance/Editor/AssetClearance.cs:163-169 | every condition of a block has that block's priority |
| AssetClearance.BlocksBoundaries | AssetClearance/Editor/AssetClearance.cs:163-169 | neighbouring blocks have different priorities, so the blocks are maximal runs |
| AssetClearance.BlocksPartition | AssetClearance/Editor/AssetClearance.cs:161-171 | the blocks are a partition of the list in order into maximal equal-priority runs |
| AssetClearance.CountFirstIgnoredAll | AssetClearance/Editor/AssetClearance.cs:184-264 | the ignored count equals the number of blocks exactly when every block starts with an Ignored condition |
| AssetClearance.FirstsAreStarts | AssetClearance/Editor/AssetClearance.cs:183-188 | every block's first condition is Ignored exactly when every block-start position holds an Ignored condition |
| AssetClearance.FinalIgnoredIff | AssetClearance/Editor/AssetClearance.cs:160-264 | the final status is Ignored exactly when the list is empty or every block starts with an Ignored condition |
| AssetClearance.AndBlock | AssetClearance/Editor/AssetClearance.cs:221-245 | a block joined by AND with no Ignored condition is true exactly when all its conditions are true |
| AssetClearance.OrBlock | AssetClearance/Editor/AssetClearance.cs:221-245 | a block joined by OR with no Ignored condition is true exactly when one of its conditions is true |
| AssetClearance.NoPrecedence | AssetClearance/Editor/AssetClearance.cs:251-263 | blocks combine left to right with no AND-over-OR precedence: the three blocks true OR true AND false give False |
| AssetClearance.LogsWithSource | AssetClearance/Editor/AssetClearance.cs:190-230 | every collected log entry comes from a condition whose status is the one collected |
| AssetClearance.EvaluateBlock | AssetClearance/Editor/AssetClearance.cs:181-247 | one block's value: the first condition, Ignored counting as true, then each later non-Ignored condition combined with its predecessor's operator; True and False logs collected in order |
| AssetClearance.CountBlocks | AssetClearance/Editor/AssetClearance.cs:161-171 | the first loop's counts are the lengths of the maximal equal-priority runs |
| AssetClearance.EvaluateBlocks | AssetClearance/Editor/AssetClearance.cs:172-250 | the second loop gives each block's value, its last condition's operator, the number of blocks that start Ignored and the True/False logs in order |
| AssetClearance.CombineBlocks | AssetClearance/Editor/AssetClearance.cs:251-263 | the third loop folds the block results left to right with each block's operator |
| AssetClearance.FinalStatusOf | AssetClearance/Editor/AssetClearance.cs:264 | the loops' results give the final status of the specification |
| AssetClearance.GenerateReport | AssetClearance/Editor/AssetClearance.cs:330-351 | log type by status; log, order and group only when the type is not None, otherwise the defaults "", 0 and 0 (AssetClearance/Editor/AssetClearanceReports.cs:141); fix method, notice and help URL only for Error |
| AssetClearance.GenerateReports | AssetClearance/Editor/AssetClearance.cs:265-284 | one report per log, in order; the null-log filter never drops one |
| AssetClearance.CheckConditions | AssetClearance/Editor/AssetClearance.cs:158-286 | the status is the block fold (Ignored for an empty list or when every block starts Ignored) and there is one report per log of a condition with the final status when reports are output |
| AssetClearance.SiblingFolderInScope | AssetClearance/Editor/AssetClearance.cs:393-423 | as written, rules in "Assets/Fo" reach an asset in the sibling folder "Assets/Foo"; the intended folder test does not |
| AssetClearance.InFolderImpliesAsWritten | AssetClearance/Editor/AssetClearance.cs:398-412 | the intended folder test implies the string-prefix test as written |
| AssetClearance.InFolderByComponents | AssetClearance/Editor/AssetClearance.cs:393-423 | the intended folder test holds exactly when the folder's path components begin the directory's components |
| AssetClearance.IgnorableImpliesAsWritten | AssetClearance/Editor/AssetClearance.cs:424-428 | every file skipped by the intended extension test is skipped as written |
| AssetClearance.ExtensionIgnorable | AssetClearance/Editor/AssetClearance.cs:424-428 | any `<name>.<ext>` with one of the listed extensions is skipped |
| AssetClearance.UxmlSkippedAsWritten | AssetClearance/Editor/AssetClearance.cs:424-428 | "UI/a.uxml" is skipped as written, because the unescaped `.` in `.xml$` matches any character, and not as intended |
| AssetClearance.PingReferences | AssetClearance/Editor/AssetClearance.cs:633 | one reference per report, in order, null for a report without a ping object |
| AssetClearance.Fix | AssetClearance/Editor/AssetClearance.cs:603-640 | false for an empty group, an unknown fix method or asset type, a first parameter that does not accept the asset, or a failed validation; otherwise DoMethod with every report's ping object |
| AssetClearanceDatabase.KeyEquals | AssetClearance/Editor/AssetClearanceDatabase.cs:28-36 | false for a null report; otherwise equal rules, rule name, asset path and log, and ping objects equal as references or by content in either direction |
| AssetClearanceDatabase.FirstMatch | AssetClearance/Editor/AssetClearanceDatabase.cs:61-63 | the position of the first record that matches the report, with none before it, or the record count when none matches |
| AssetClearanceDatabase.Unmatched | AssetClearance/Editor/AssetClearanceDatabase.cs:101-111 | the records left after removal, none of which matches the report |
| AssetClearanceDatabase.NewRecord | AssetClearance/Editor/AssetClearanceDatabase.cs:88-98 | the appended record matches the report and holds its status, priority and note |
| AssetClearanceDatabase.InsertThenSync | AssetClearance/Editor/AssetClearanceDatabase.cs:59-100 | after Insert(report), the first matching record holds the report's status, priority and note, so Sync finds it and changes nothing |
| AssetClearanceDatabase.FirstMatchAgrees | AssetClearance/Editor/AssetClearanceDatabase.cs:78-86 | an Insert that only updates the matching record keeps the first match where it was |
| AssetClearanceDatabase.RemoveStep | AssetClearance/Editor/AssetClearanceDatabase.cs:103-109 | during Remove's scan, index i still addresses the next unscanned original record |
| AssetClearanceDatabase.RemoveThenSyncFails | AssetClearance/Editor/AssetClearanceDatabase.cs:59-111 | after Remove(report) no record matches, so Sync returns false |
| AssetClearanceDatabase.FirstMatchSameKeys | AssetClearance/Editor/AssetClearanceDatabase.cs:61-63 | record lists that agree on which records match have the same first match |
| AssetClearanceDatabase.InsertKeepsRecorded | AssetClearance/Editor/AssetClearanceDatabase.cs:76-100 | inserting one report keeps every other report's recorded status |
| AssetClearanceDatabase.InsertRecords | AssetClearance/Editor/AssetClearanceDatabase.cs:76-100 | Insert records the report's own status under its first match |
| AssetClearanceDatabase.UnmatchedIsSublist | AssetClearance/Editor/AssetClearanceDatabase.cs:101-111 | Remove only deletes records |
| AssetClearanceDatabase.NoMatchInSublist | AssetClearance/Editor/AssetClearanceDatabase.cs:101-111 | a report with no matching record has none after records are removed |
| AssetClearanceDatabase.Database.Sync | AssetClearance/Editor/AssetClearanceDatabase.cs:59-75 | true exactly when a record matches; then the report takes that first record's status, priority and note, otherwise Confirm, High and "" |
| AssetClearanceDatabase.Database.Insert | AssetClearance/Editor/AssetClearanceDatabase.cs:76-100 | the first match is updated in place and the count is unchanged; otherwise exactly one new record is appended |
| AssetClearanceDatabase.Database.Remove | AssetClearance/Editor/AssetClearanceDatabase.cs:101-111 | the records become the non-matching ones in their original order |
| AssetClearanceReports.ContentEquals | AssetClearance/Editor/AssetClearanceReports.cs:93-101 | with a non-null argument, equality of the five key fields; with null, the blank test of NullEquals |
| AssetClearanceReports.NullEquals | AssetClearance/Editor/AssetClearanceReports.cs:102-110 | with null, true exactly for empty paths, no sub-asset and zero ids |
| AssetClearanceReports.Clone | AssetClearance/Editor/AssetClearanceReports.cs:111-120 | the clone and the original are content-equal both ways |
| AssetClearanceReports.ContentEqualsReflexiveSymmetric | AssetClearance/Editor/AssetClearanceReports.cs:93-101 | content equality is reflexive and symmetric |
| AssetClearanceReports.NullEqualsDelegates | AssetClearance/Editor/AssetClearanceReports.cs:95-104 | NullEquals and ContentEquals agree on every argument |
| AssetClearanceReports.Report.Asset | AssetClearance/Editor/AssetClearanceReports.cs:157-166 | the cached object once loaded; null for an empty path; otherwise the loaded object, which is then cached |
| AssetClearanceRules.NewMethod | AssetClearance/Editor/AssetClearanceRules.cs:24-37 | a new Method has no name and no parameters of any type |
| AssetClearanceRules.FindIndexByName | AssetClearance/Editor/AssetClearanceRules.cs:51 | the position of the first method with the name, or the count when none has it |
| AssetClearanceRules.FindByName | AssetClearance/Editor/AssetClearanceRules.cs:51 | List.Find: a listed method with that name, and null exactly when none has it |
| AssetClearanceRules.Condition.ValidateMethod | AssetClearance/Editor/AssetClearanceRules.cs:47-54 | the cache is reused while its name equals the method's name and searched again otherwise; a valid cache stays the first match |
| AssetClearanceRules.NewRule | AssetClearance/Editor/AssetClearanceRules.cs:70-80 | a new Rule has trueLogType None, falseLogType Warning and a fresh fix method |
| AssetClearanceRules.NewRules | AssetClearance/Editor/AssetClearanceRules.cs:82-92 | a new rules asset enables rules and skip conditions, has an empty skip filter and empty lists |
| AssetClearanceDatabase.Database.constructor | AssetClearance/Editor/AssetClearanceDatabase.cs:38 | a new database has no records |
| AssetClearanceReports.Report.constructor | AssetClearance/Editor/AssetClearanceReports.cs:135-156 | a new report holds the given rule and path and ping object and log and fix fields and group with status Confirm and priority High (the first enum values) and no fix result and an empty note and nothing cached |
| AssetClearanceRules.Condition.constructor | AssetClearance/Editor/AssetClearanceRules.cs:39-46 | a new condition holds the given priority and method and negation and operator and no cached MethodInfo |
| AssetClearanceMethods.LogBuffer.constructor | AssetClearance/Editor/AssetClearanceMethods.cs:13-19 | the log and ping lists start empty |
| AssetClearanceMethods.LogBuffer.GetLog | AssetClearance/Editor/AssetClearanceMethods.cs:16 | the i-th log below the count and null from the count on |
| AssetClearanceMethods.LogBuffer.GetPingReferencer | AssetClearance/Editor/AssetClearanceMethods.cs:21 | the i-th referencer below the ping-object count and null from it on |
| AssetClearanceMethods.LogBuffer.GetPingObject | AssetClearance/Editor/AssetClearanceMethods.cs:22 | the i-th ping object below the count and null from it on |
| AssetClearanceMethods.LogBuffer.ClearLogs | AssetClearance/Editor/AssetClearanceMethods.cs:17 | the log list becomes empty and the ping lists are kept |
| AssetClearanceMethods.LogBuffer.ClearPingObjects | AssetClearance/Editor/AssetClearanceMethods.cs:23-27 | both ping lists become empty and the logs are kept |
| AssetClearanceMethods.LogBuffer.AddLog | AssetClearance/Editor/AssetClearanceMethods.cs:28-33 | appends one entry to each of the three lists so they stay aligned |
| AssetClearanceMethods.CompareName | AssetClearance/Editor/AssetClearanceMethods.cs:41-56 | per mode: containment, prefix, suffix or (Match) equality of the optionally lower-cased names |
| AssetClearanceMethods.CompareNameModes | AssetClearance/Editor/AssetClearanceMethods.cs:41-56 | Match implies StartWith and EndWith, and each of those implies Contain |
| AssetClearanceMethods.CompareNameIgnoresCase | AssetClearance/Editor/AssetClearanceMethods.cs:44-45 | with toLower the comparison equals the case-sensitive comparison of the lower-cased names, and lower-casing the object name first changes nothing |
| AssetClearanceMethods.ToLowerIdempotent | AssetClearance/Editor/AssetClearanceMethods.cs:44-45 | lower-casing twice equals lower-casing once |
| AssetClearanceMethodUtils.IsUselessMeshInfo | AssetClearance/Editor/Methods/AssetClearanceMethods_Utils.cs:12-22 | true exactly for two or more entries that are all equal |
| AssetClearanceMethodUtils.IsEmptyStringArray | AssetClearance/Editor/Methods/AssetClearanceMethods_Utils.cs:23-34 | true exactly for null or for entries that are all null or white space |
| AssetClearanceMethodUtils.HasLostMaterial | AssetClearance/Editor/Methods/AssetClearanceMethods_Utils.cs:128-149 | true exactly for a null or empty array or one holding a null slot |
| AssetClearanceMethodUtils.RootsOf | AssetClearance/Editor/Methods/AssetClearanceMethods_Utils.cs:44-67 | null exactly when every path is blank; otherwise exactly the roots Find locates from non-blank paths |
| AssetClearanceMethodUtils.RootsStep | AssetClearance/Editor/Methods/AssetClearanceMethods_Utils.cs:44-55 | one more path creates the list at the first non-blank path and appends its root when found |
| AssetClearanceMethodUtils.CollectRoots | AssetClearance/Editor/Methods/AssetClearanceMethods_Utils.cs:44-67 | the root loop computes RootsOf |
| AssetClearanceMethodUtils.ChildrenOf | AssetClearance/Editor/Methods/AssetClearanceMethods_Utils.cs:68-85 | a transform is collected exactly when it lies under one of the roots |
| AssetClearanceMethodUtils.CollectChildren | AssetClearance/Editor/Methods/AssetClearanceMethods_Utils.cs:68-85 | empty for null roots and ChildrenOf otherwise |
| AssetClearanceMethodUtils.Compact | AssetClearance/Editor/Methods/AssetClearanceMethods_Utils.cs:86-103 | the array is permuted and the first n entries are exactly the kept ones |
| AssetClearanceMethodUtils.MultisetSplit | AssetClearance/Editor/Methods/AssetClearanceMethods_Utils.cs:103 | the multiset of an array is the sum of the multisets of its two parts |
| AssetClearanceMethodUtils.FindRoots | AssetClearance/Editor/Methods/AssetClearanceMethods_Utils.cs:37-85 | blank path lists fall back to the rule defaults; the roots and the transforms under them |
| AssetClearanceMethodUtils.GetComponentsInChildrenAdvanced | AssetClearance/Editor/Methods/AssetClearanceMethods_Utils.cs:35-106 | every non-null component under an include root (when includes are given) and under no exclude root is kept as often as it occurs and nothing else |
| AssetClearanceMethodUtils.KeptPart | AssetClearance/Editor/Methods/AssetClearanceMethods_Utils.cs:86-103 | the kept front of the permuted array holds each kept component as often as the original |
| AssetClearanceMethodUtils.Wrap | AssetClearance/Editor/Methods/AssetClearanceMethods_Utils.cs:37-38 | the rule's default paths as non-null entries in order |
| AssetClearanceMethodUtils.MissingIncludeRoot | AssetClearance/Editor/Methods/AssetClearanceMethods_Utils.cs:44-97 | a non-blank include path that finds nothing filters out every component |
| AssetClearanceMethodUtils.NothingFound | AssetClearance/Editor/Methods/AssetClearanceMethods_Utils.cs:44-55 | when Find locates nothing the root list is empty |
| AssetClearanceMethodUtils.CollectDependencies | AssetClearance/Editor/Methods/AssetClearanceMethods_Utils.cs:251-277 | the collector loop computes Collected |
| AssetClearanceMethodUtils.AddSeen | AssetClearance/Editor/Methods/AssetClearanceMethods_Utils.cs:266-272 | one step adds exactly the non-null asset to the seen set |
| AssetClearanceMethodUtils.AddDistinct | AssetClearance/Editor/Methods/AssetClearanceMethods_Utils.cs:264-272 | one step keeps every list non-empty and every asset listed once |
| AssetClearanceMethodUtils.AddGrows | AssetClearance/Editor/Methods/AssetClearanceMethods_Utils.cs:266-272 | one step only extends lists; an unseen asset lands in its referencer's list |
| AssetClearanceMethodUtils.CollectedSeen | AssetClearance/Editor/Methods/AssetClearanceMethods_Utils.cs:251-277 | the seen set is exactly the non-null assets of the pairs |
| AssetClearanceMethodUtils.CollectedDistinct | AssetClearance/Editor/Methods/AssetClearanceMethods_Utils.cs:251-277 | no asset is listed twice and no list is empty |
| AssetClearanceMethodUtils.CollectedFirstUse | AssetClearance/Editor/Methods/AssetClearanceMethods_Utils.cs:251-277 | every asset is listed under its first referencer |
| AssetClearanceMethodUtils.CollectSingleDependencies | AssetClearance/Editor/Methods/AssetClearanceMethods_Utils.cs:191-211 | the mesh collector loop computes CollectedSingle |
| AssetClearanceMethodUtils.CollectedSingleFromPairs | AssetClearance/Editor/Methods/AssetClearanceMethods_Utils.cs:191-211 | every stored mesh is one its referencer used |
| AssetClearanceMethodUtils.AddSingleInjective | AssetClearance/Editor/Methods/AssetClearanceMethods_Utils.cs:199-201 | with noRepeat one step never stores a mesh under a second referencer |
| AssetClearanceMethodUtils.CollectedSingleDistinct | AssetClearance/Editor/Methods/AssetClearanceMethods_Utils.cs:191-211 | with noRepeat no mesh is stored under two referencers |
| AssetClearanceMethodUtils.PlatformTextureSizeBounds | AssetClearance/Editor/Methods/AssetClearanceMethods_Utils.cs:285-304 | the larger side becomes min(platform maximum and itself) and the other side lies between 0 and that |
| AssetClearanceMethodUtils.ScaleSide | AssetClearance/Editor/Methods/AssetClearanceMethods_Utils.cs:303 | integer scaling of a side of at most m by s / m lies in [0 and s] and gives s for m |
| AssetClearanceReportTree.CharSum | AssetClearance/Editor/AssetClearanceReportTreeView.cs:274-283 | the character-code sum is never negative |
| AssetClearanceReportTree.CharSumAppend | AssetClearance/Editor/AssetClearanceReportTreeView.cs:276-282 | the sum of a concatenation is the sum of the sums |
| AssetClearanceReportTree.StringOrderRotation | AssetClearance/Editor/AssetClearanceReportTreeView.cs:274-283 | swapping the two halves of a log keeps its order |
| AssetClearanceReportTree.StringOrderZero | AssetClearance/Editor/AssetClearanceReportTreeView.cs:274-283 | the order is 0 exactly for null and empty logs and all-NUL logs |
| AssetClearanceReportTree.CharSumZero | AssetClearance/Editor/AssetClearanceReportTreeView.cs:276-282 | the sum is 0 exactly when every character is NUL |
| AssetClearanceReportTree.GetStringOrder | AssetClearance/Editor/AssetClearanceReportTreeView.cs:274-283 | the loop returns 0 for null or empty and otherwise the character-code sum |
| AssetClearanceReportTree.StatusKey | AssetClearance/Editor/AssetClearanceReportTreeView.cs:298-300 | the key lies in 0..3; it is 0 exactly for an unfixed Confirm and 3 exactly for a fixed Ignore |
| AssetClearanceReportTree.LogKeyCases | AssetClearance/Editor/AssetClearanceReportTreeView.cs:309-311 | an explicit log order is the key; otherwise the key is non-negative and 0 for a null or empty log |
| AssetClearanceReportTree.VisibleListAppend | AssetClearance/Editor/AssetClearanceReportTreeView.cs:247-273 | the visible rows of two item lists are the concatenation of their visible rows |
| AssetClearanceReportTree.VisibleCollapsed | AssetClearance/Editor/AssetClearanceReportTreeView.cs:265-271 | with nothing expanded the rows are exactly the top-level items |
| AssetClearanceReportTree.VisibleExpanded | AssetClearance/Editor/AssetClearanceReportTreeView.cs:265-271 | with everything expanded the rows are the full preorder of every subtree |
| AssetClearanceReportTree.TreeToList | AssetClearance/Editor/AssetClearanceReportTreeView.cs:247-273 | the stack loop yields exactly the visible preorder of the items |
| AssetClearanceReportTree.PopInvariant | AssetClearance/Editor/AssetClearanceReportTreeView.cs:261-271 | one pop and push of the children keeps the loop invariant |
| AssetClearanceReportTree.PushReversed | AssetClearance/Editor/AssetClearanceReportTreeView.cs:257-258 | pushing in reverse leaves the first item on top |
| AssetClearanceReportTree.PopStep | AssetClearance/Editor/AssetClearanceReportTreeView.cs:261-271 | the popped item is followed by its visible subtree and then the rest of the stack |
| AssetClearanceReportTree.NextDict | AssetClearance/Editor/AssetClearanceReportTreeView.cs:186-209 | the dictionary keeps its "Total" root |
| AssetClearanceReportTree.BuildStep | AssetClearance/Editor/AssetClearanceReportTreeView.cs:184-219 | both dictionaries keep their "Total" roots after one report |
| AssetClearanceReportTree.Build | AssetClearance/Editor/AssetClearanceReportTreeView.cs:174-221 | both dictionaries hold "Total" after any number of reports |
| AssetClearanceReportTree.BuildRoot | AssetClearance/Editor/AssetClearanceReportTreeView.cs:174-226 | the loop builds the heads and both root dictionaries as Build does and leaves every report with a log synced |
| AssetClearanceReportTree.Place | AssetClearance/Editor/AssetClearanceReportTreeView.cs:186-217 | one iteration computes BuildStep |
| AssetClearanceReportTree.SyncReport | AssetClearance/Editor/AssetClearanceReportTreeView.cs:200 | the report takes its recorded status and the earlier reports stay synced |
| AssetClearanceReportTree.SelectRoot | AssetClearance/Editor/AssetClearanceReportTreeView.cs:222-225 | the temp or normal dictionary under the selected rules path or "Total"; None when that key is missing |
| AssetClearanceReportTree.HeadPositions | AssetClearance/Editor/AssetClearanceReportTreeView.cs:195 | every listed position lies below n and is a group head (the first report or one whose group differs from the previous) |
| AssetClearanceReportTree.Logged | AssetClearance/Editor/AssetClearanceReportTreeView.cs:212-217 | every listed position lies in the range and has a non-empty log |
| AssetClearanceReportTree.AttachedOf | AssetClearance/Editor/AssetClearanceReportTreeView.cs:198-210 | every listed head has a log and is temporary exactly when the dictionary is |
| AssetClearanceReportTree.BuildHeads | AssetClearance/Editor/AssetClearanceReportTreeView.cs:195-197 | heads are created exactly at the group heads in order and carry their report's group |
| AssetClearanceReportTree.NewHeadAtGroupChange | AssetClearance/Editor/AssetClearanceReportTreeView.cs:195 | a step opens a head exactly at a group head |
| AssetClearanceReportTree.ChildrenFollowKept | AssetClearance/Editor/AssetClearanceReportTreeView.cs:212-217 | an earlier head keeps its children when a later report is added |
| AssetClearanceReportTree.ChildrenStep | AssetClearance/Editor/AssetClearanceReportTreeView.cs:195-217 | one step keeps every head's children equal to the logged reports of its group so far |
| AssetClearanceReportTree.ChildrenStepNewHead | AssetClearance/Editor/AssetClearanceReportTreeView.cs:195-197 | the children invariant across a step that opens a head |
| AssetClearanceReportTree.ChildrenStepSameGroup | AssetClearance/Editor/AssetClearanceReportTreeView.cs:212-217 | the children invariant across a step inside a group |
| AssetClearanceReportTree.BuildChildren | AssetClearance/Editor/AssetClearanceReportTreeView.cs:195-217 | each head's children are in order exactly the reports with a log up to the next head |
| AssetClearanceReportTree.IdsStep | AssetClearance/Editor/AssetClearanceReportTreeView.cs:197-216 | one step hands out the next id |
| AssetClearanceReportTree.BuildIds | AssetClearance/Editor/AssetClearanceReportTreeView.cs:182-216 | item ids run consecutively from 1 in creation order so no two items share one |
| AssetClearanceReportTree.AttachedOfSnoc | AssetClearance/Editor/AssetClearanceReportTreeView.cs:198-210 | one more head extends the attached list by that head exactly when it qualifies |
| AssetClearanceReportTree.TotalsStep | AssetClearance/Editor/AssetClearanceReportTreeView.cs:198-210 | one step keeps "Total" equal to the attached heads |
| AssetClearanceReportTree.BuildTotals | AssetClearance/Editor/AssetClearanceReportTreeView.cs:176-210 | "Total" lists in order exactly the heads with a log whose asset is temporary just for the temporary dictionary |
| AssetClearanceReportTree.AttachedOfOtherPath | AssetClearance/Editor/AssetClearanceReportTreeView.cs:198-210 | a head of another rules path does not change a path's attached list |
| AssetClearanceReportTree.PathsStep | AssetClearance/Editor/AssetClearanceReportTreeView.cs:186-210 | one step keeps each rules path root equal to its attached heads |
| AssetClearanceReportTree.BuildPaths | AssetClearance/Editor/AssetClearanceReportTreeView.cs:186-210 | every rules path seen has a root in both dictionaries listing in order its heads with a log of that kind |
| AssetClearanceReportTree.ActionRows | AssetClearance/Editor/AssetClearanceReportTreeView.cs:434-435 | the selection when non-empty and otherwise the clicked item alone |
| AssetClearanceReportTree.RowReports | AssetClearance/Editor/AssetClearanceReportTreeView.cs:436 | the rows' reports position by position |
| AssetClearanceReportTree.SetGroupStatus | AssetClearance/Editor/AssetClearanceReportTreeView.cs:440-449 | every report of the group takes the status and is recorded with it; others keep theirs |
| AssetClearanceReportTree.InsertStatus | AssetClearance/Editor/AssetClearanceReportTreeView.cs:451-452 | the report is recorded with its status and earlier records of that status survive |
| AssetClearanceReportTree.SetStatus | AssetClearance/Editor/AssetClearanceReportTreeView.cs:432-482 | Set Fixing and Set Ignore: every report in scope of an unfixed row takes the status and is recorded with it; no other report changes status |
| AssetClearanceReportTree.FixGroup | AssetClearance/Editor/AssetClearanceReportTreeView.cs:465-474 | every report of the group becomes fixed with no record; others keep fixResult |
| AssetClearanceReportTree.RemoveReport | AssetClearance/Editor/AssetClearanceReportTreeView.cs:476-477 | the report has no record afterwards and records are only dropped |
| AssetClearanceReportTree.SetFixed | AssetClearance/Editor/AssetClearanceReportTreeView.cs:458-482 | every row's report ends fixed; every report in scope of a row not fixed beforehand ends fixed with no record; nothing becomes unfixed |
| AssetClearanceReportTree.ResetGroup | AssetClearance/Editor/AssetClearanceReportTreeView.cs:516-527 | every report of the group is reset with no record; others keep their fields |
| AssetClearanceReportTree.ResetRow | AssetClearance/Editor/AssetClearanceReportTreeView.cs:514-532 | the row's report and (for a head) its group are reset with no record |
| AssetClearanceReportTree.Reset | AssetClearance/Editor/AssetClearanceReportTreeView.cs:510-538 | every report in scope of a row is reset with no record; reports outside every scope keep their fields |
| AssetClearanceReportTree.DoesItemMatchSearch | AssetClearance/Editor/AssetClearanceReportTreeView.cs:698-713 | None for a null field; otherwise whether the lower-cased field contains the lower-cased search |
| AssetClearanceReportTree.SearchIgnoresCase | AssetClearance/Editor/AssetClearanceReportTreeView.cs:698-713 | lower-casing the search changes nothing and the empty search matches every non-null field |
| AssetClearanceReportTree.AssetSearchFindsSubstring | AssetClearance/Editor/AssetClearanceReportTreeView.cs:710-712 | an asset path containing the search verbatim matches |
| AssetClearanceRulesEditor.WithPriority | AssetClearance/Editor/AssetClearanceRulesEditor.cs:311-328 | a priority class is never longer than the list |
| AssetClearanceRulesEditor.WithPriorityAppend | AssetClearance/Editor/AssetClearanceRulesEditor.cs:311-328 | the class of a concatenation is the concatenation of the classes |
| AssetClearanceRulesEditor.SwapKeepsClasses | AssetClearance/Editor/AssetClearanceRulesEditor.cs:320-325 | swapping neighbours of different priority keeps every class in order |
| AssetClearanceRulesEditor.WithPriorityCount | AssetClearance/Editor/AssetClearanceRulesEditor.cs:311-328 | a condition occurs in its own class as often as in the list |
| AssetClearanceRulesEditor.SameClassesPermutation | AssetClearance/Editor/AssetClearanceRulesEditor.cs:311-328 | lists with equal classes are permutations of each other |
| AssetClearanceRulesEditor.SettledSorted | AssetClearance/Editor/AssetClearanceRulesEditor.cs:313-328 | all but the first condition settled means the list is in non-increasing priority |
| AssetClearanceRulesEditor.MoveArrayElement | AssetClearance/Editor/AssetClearanceRulesEditor.cs:324 | MoveArrayElement(i and i + 1) swaps the neighbours and keeps every class |
| AssetClearanceRulesEditor.PassStep | AssetClearance/Editor/AssetClearanceRulesEditor.cs:317-326 | one compare-and-move keeps the pass invariant |
| AssetClearanceRulesEditor.AdjacentSorted | AssetClearance/Editor/AssetClearanceRulesEditor.cs:313-328 | neighbours in order means the list is in order |
| AssetClearanceRulesEditor.PassEnd | AssetClearance/Editor/AssetClearanceRulesEditor.cs:317-326 | a completed pass settles one more condition |
| AssetClearanceRulesEditor.CompareAndMove | AssetClearance/Editor/AssetClearanceRulesEditor.cs:319-325 | swaps exactly when the right neighbour has a strictly higher priority and keeps every class |
| AssetClearanceRulesEditor.BubblePass | AssetClearance/Editor/AssetClearanceRulesEditor.cs:316-326 | a pass keeps every class; settles one more condition; a pass with no swap leaves the list sorted |
| AssetClearanceRulesEditor.SortConditionsByPriority | AssetClearance/Editor/AssetClearanceRulesEditor.cs:311-328 | the conditions end in non-increasing priority as a permutation that keeps the order of equal priorities |
| AssetClearanceRulesEditor.AtLeastOne | AssetClearance/Editor/AssetClearanceRulesEditor.cs:509 | Mathf.Max(1 and c): at least 1 and c; c itself when c is at least 1 |
| AssetClearanceRulesEditor.SumToPrefix | AssetClearance/Editor/AssetClearanceRulesEditor.cs:510 | a running sum depends only on the counts it adds |
| AssetClearanceRulesEditor.SumToMonotone | AssetClearance/Editor/AssetClearanceRulesEditor.cs:510 | running sums grow over non-negative counts |
| AssetClearanceRulesEditor.SumToNonNegative | AssetClearance/Editor/AssetClearanceRulesEditor.cs:510 | a running sum of non-negative counts is non-negative |
| AssetClearanceRulesEditor.SumToUpdate | AssetClearance/Editor/AssetClearanceRulesEditor.cs:509-510 | changing one count shifts every later running sum by the change |
| AssetClearanceRulesEditor.GrowSlot | AssetClearance/Editor/AssetClearanceRulesEditor.cs:503-520 | a missing count is added; the count is raised to at least 1; other counts are kept; the values grow to cover the running total and keep their prefix |
| AssetClearanceRulesEditor.Raised | AssetClearance/Editor/AssetClearanceRulesEditor.cs:503-509 | the first n counts are raised to at least 1 (missing ones added) and the rest are kept |
| AssetClearanceRulesEditor.ValidateNext | AssetClearance/Editor/AssetClearanceRulesEditor.cs:503-520 | one more parameter of a kind keeps the layout raised and covering the running total |
| AssetClearanceRulesEditor.ValidateParameter | AssetClearance/Editor/AssetClearanceRulesEditor.cs:492-525 | the loop body grows the layout only for a parameter that takes a slot of the kind |
| AssetClearanceRulesEditor.ValidateSlots | AssetClearance/Editor/AssetClearanceRulesEditor.cs:492-525 | every slot parameter of the kind ends with a count of at least 1 and the values cover them all; values only grow at the end |
| AssetClearanceRulesEditor.ValidateKind | AssetClearance/Editor/AssetClearanceRulesEditor.cs:492-525 | the layout of one kind is extended to fit its parameters |
| AssetClearanceRulesEditor.ValidateMethod | AssetClearance/Editor/AssetClearanceRulesEditor.cs:484-533 | null for an empty name; otherwise List.Find by name; when found every kind's layout is extended to fit; nothing changes when not found |
| AssetClearanceRulesEditor.SlotsBeforeIsEarlier | AssetClearance/Editor/AssetClearanceRulesEditor.cs:492-510 | without out parameters the inspector and DoMethod count the same parameters per kind |
| AssetClearanceRulesEditor.SlotsBeforeBelowTotal | AssetClearance/Editor/AssetClearanceRulesEditor.cs:507 | a slot parameter's index is below the total of its kind |
| AssetClearanceRulesEditor.ValidatedDecodes | AssetClearance/Editor/AssetClearanceRulesEditor.cs:484-533 | after validation DoMethod reads every parameter of a method without out parameters inside the arrays |
| AssetClearanceRulesEditor.ValidatedArgDecodes | AssetClearance/Editor/AssetClearanceRulesEditor.cs:484-533 | one parameter of ValidatedDecodes |
| AssetClearanceRulesEditor.SlotReadable | AssetClearance/Editor/AssetClearanceRulesEditor.cs:507-510 | a slot below a fitting total has a count of at least 1 and its values inside the array |
| AssetClearanceRulesEditor.Block | AssetClearance/Editor/AssetClearanceRulesEditor.cs:646-649 | a parameter's block holds exactly its count of values |
| AssetClearanceRulesEditor.SumCounts | AssetClearance/Editor/AssetClearanceRulesEditor.cs:701-705 | the "+" loop adds up the counts of the earlier parameters |
| AssetClearanceRulesEditor.AddArrayValue | AssetClearance/Editor/AssetClearanceRulesEditor.cs:697-711 | "+" raises the count and inserts the reset value at the end of the parameter's block |
| AssetClearanceRulesEditor.MoveUp | AssetClearance/Editor/AssetClearanceRulesEditor.cs:706-709 | one MoveArrayElement(k and k + 1) moves the new value down one place |
| AssetClearanceRulesEditor.AddedBlocks | AssetClearance/Editor/AssetClearanceRulesEditor.cs:697-711 | after "+" the layout fits and only the parameter's block changes by gaining the reset value at its end |
| AssetClearanceRulesEditor.InsertedSlice | AssetClearance/Editor/AssetClearanceRulesEditor.cs:706-710 | a slice after an insertion point shifts by one |
| AssetClearanceRulesEditor.PrefixSlice | AssetClearance/Editor/AssetClearanceRulesEditor.cs:700 | growing the array keeps every slice of the old part |
| AssetClearanceRulesEditor.DeletedInBlock | AssetClearance/Editor/AssetClearanceRulesEditor.cs:690 | deleting inside a block removes exactly that value from it |
| AssetClearanceRulesEditor.DeletedSlice | AssetClearance/Editor/AssetClearanceRulesEditor.cs:690 | a slice after a deleted value shifts down by one |
| AssetClearanceRulesEditor.AddedFits | AssetClearance/Editor/AssetClearanceRulesEditor.cs:697-711 | "+" keeps every count at least 1 and the values covering them |
| AssetClearanceRulesEditor.RemovedBlocks | AssetClearance/Editor/AssetClearanceRulesEditor.cs:685-694 | after "-" the layout fits and only the parameter's block changes by losing value k unless it is the block's last |
| AssetClearanceRulesEditor.RemovedFits | AssetClearance/Editor/AssetClearanceRulesEditor.cs:685-694 | "-" keeps every count at least 1 and the values covering them |
| AssetClearanceRulesEditor.AtLeastOneEntry | AssetClearance/Editor/AssetClearanceRulesEditor.cs:251 | an empty list gains one empty entry and any other list is kept |
| AssetClearanceRulesEditor.DrawArray | AssetClearance/Editor/AssetClearanceRulesEditor.cs:249-275 | at least one entry first; unfolded "-" deletes entry i and "+" appends an empty entry; folded nothing changes |
| AssetClearanceRulesEditor.DrawnListNotEmpty | AssetClearance/Editor/AssetClearanceRulesEditor.cs:249-275 | every draw shows an entry; only deleting the sole entry empties the list until the next draw |
| AssetClearanceRulesEditor.AppendThenRemove | AssetClearance/Editor/AssetClearanceRulesEditor.cs:259-271 | "-" on the entry "+" added undoes it |
| AssetClearanceUtil.SpaceUppers | AssetClearance/Editor/AssetClearanceUtil.cs:225-232 | inserting spaces never shortens the name |
| AssetClearanceUtil.SpaceUppersSpaced | AssetClearance/Editor/AssetClearanceUtil.cs:225-232 | afterwards every upper-case letter follows a space |
| AssetClearanceUtil.SpacedUnchanged | AssetClearance/Editor/AssetClearanceUtil.cs:225-232 | a name already spaced is left unchanged |
| AssetClearanceUtil.DisplayNameIdempotent | AssetClearance/Editor/AssetClearanceUtil.cs:222-235 | GetDisplayName applied twice equals applied once |
| AssetClearanceUtil.GetDisplayName | AssetClearance/Editor/AssetClearanceUtil.cs:222-235 | null and empty names unchanged; otherwise the first letter is not lower case and every later upper-case letter follows a space |
| AssetClearanceUtil.InsertSpaceStep | AssetClearance/Editor/AssetClearanceUtil.cs:227-231 | inserting a space and skipping past it keeps the loop invariant |
| AssetClearanceUtil.KeepStep | AssetClearance/Editor/AssetClearanceUtil.cs:225-232 | an iteration without insertion keeps the loop invariant |
| AssetClearanceUtil.DisplayNameFirst | AssetClearance/Editor/AssetClearanceUtil.cs:224 | the first character is upper-cased and the rest is spaced after it |
| AssetClearanceUtil.Range | AssetClearance/Editor/AssetClearanceUtil.cs:80-87 | the consecutive ids from a start |
| AssetClearanceUtil.RangeSplit | AssetClearance/Editor/AssetClearanceUtil.cs:80-87 | two adjacent ranges join into one |
| AssetClearanceUtil.IdsListShape | AssetClearance/Editor/AssetClearanceUtil.cs:80-87 | lists of items with the same shapes have the same number of ids |
| AssetClearanceUtil.IdsShape | AssetClearance/Editor/AssetClearanceUtil.cs:80-87 | trees of the same shape have the same number of ids |
| AssetClearanceUtil.SetIndexToTreeItems | AssetClearance/Editor/AssetClearanceUtil.cs:80-87 | the tree keeps its shape; its preorder ids run consecutively from index and the index advances by the tree's size |
| AssetClearanceUtil.NumberedRoot | AssetClearance/Editor/AssetClearanceUtil.cs:82-86 | numbering the root and its children keeps the root's shape |
| AssetClearanceUtil.NumberStep | AssetClearance/Editor/AssetClearanceUtil.cs:83-86 | numbering one more child extends the consecutive ids |
| AssetClearanceUtil.FirstWithIdAppend | AssetClearance/Editor/AssetClearanceUtil.cs:94-98 | the first match in a concatenation is the first in the front part or else in the back part |
| AssetClearanceUtil.GetTreeViewLeafRecursively | AssetClearance/Editor/AssetClearanceUtil.cs:88-100 | any item found is a childless item with the id |
| AssetClearanceUtil.LeafAmong | AssetClearance/Editor/AssetClearanceUtil.cs:94-99 | any item found among the children is a childless item with the id |
| AssetClearanceUtil.LeafIsFirstInPreorder | AssetClearance/Editor/AssetClearanceUtil.cs:88-100 | the result is the first leaf in preorder with the id |
| AssetClearanceUtil.LeafAmongIsFirst | AssetClearance/Editor/AssetClearanceUtil.cs:94-99 | the child loop returns the first such leaf of the remaining children |
| AssetClearanceUtil.FileName | AssetClearance/Editor/AssetClearanceUtil.cs:72 | Path.GetFileName: a suffix of the path with no separator |
| AssetClearanceUtil.DirectoryName | AssetClearance/Editor/AssetClearanceUtil.cs:71 | Path.GetDirectoryName: shorter than the path; the path is it plus "/" plus the file name; "" without a separator |
| AssetClearanceUtil.FileNameOf | AssetClearance/Editor/AssetClearanceUtil.cs:72 | the file name of dir/file is file |
| AssetClearanceUtil.DirectoryNameOf | AssetClearance/Editor/AssetClearanceUtil.cs:71 | the directory name of dir/file is dir |
| AssetClearanceUtil.FileNameExtends | AssetClearance/Editor/AssetClearanceUtil.cs:72 | a file name shorter than the path is preceded by a separator |
| AssetClearanceUtil.GroupTree.constructor | AssetClearance/Editor/AssetClearanceUtil.cs:68 | the tree starts with the root alone and an empty dictionary |
| AssetClearanceUtil.GroupTree.BuildGroup | AssetClearance/Editor/AssetClearanceUtil.cs:68-79 | the root for an empty group; otherwise the dictionary node of the leaf name; the keys grow by exactly the names on the path; a new leaf is appended as the last child of its parent's node |
| AssetClearanceUtil.GroupTree.Attach | AssetClearance/Editor/AssetClearanceUtil.cs:72-78 | the leaf name's node; created as the parent's last child only when the name is missing |
| AssetClearanceUtil.GroupTree.AddChild | AssetClearance/Editor/AssetClearanceUtil.cs:75-76 | records the new node under its name and appends it to the parent's children |
| AssetClearanceUtil.GetGameObjectRelativePath | AssetClearance/Editor/AssetClearanceUtil.cs:105-118 | succeeds exactly when the target is in the root's subtree |
| AssetClearanceUtil.RelativePathAmong | AssetClearance/Editor/AssetClearanceUtil.cs:108-116 | the child loop succeeds exactly when a remaining child's subtree holds the target |
| AssetClearanceUtil.RelativePathIsPath | AssetClearance/Editor/AssetClearanceUtil.cs:105-118 | on success the result is the child names along a path from the root to the target each followed by "/" and then the old value |
| AssetClearanceUtil.RelativePathAmongIsPath | AssetClearance/Editor/AssetClearanceUtil.cs:108-116 | the same for the child loop |
| AssetClearanceUtil.GetPingObjectDisplayName | AssetClearance/Editor/AssetClearanceUtil.cs:236-242 | "" for null; the ping object's own asset path when it differs; the sub-asset name; else the referencer path or "" |
| AssetClearanceUtil.FreshCursors | AssetClearance/Editor/AssetClearanceUtil.cs:604-624 | every counter starts at 0 |
| AssetClearanceUtil.FreshCursorsTotal | AssetClearance/Editor/AssetClearanceUtil.cs:604-624 | every parameter kind has a counter (scalar and array types share one) |
| AssetClearanceUtil.CsvFields | AssetClearance/Editor/AssetClearanceUtil.cs:676-684 | nine fields; priority only for Fixing and the note only for Fixing or Ignore |
| AssetClearanceUtil.SaveReportsToCSV | AssetClearance/Editor/AssetClearanceUtil.cs:666-686 | the header line and then one line per report with a non-empty log |
| AssetClearanceUtil.SplitJoinInverse | AssetClearance/Editor/AssetClearanceUtil.cs:676-684 | joining comma-free fields and splitting again gives them back |
| AssetClearanceUtil.CsvLineFields | AssetClearance/Editor/AssetClearanceUtil.cs:676-684 | a line of comma-free fields splits into nine fields |
| AutoGroupingWindow.CommonPrefixLength | AutoGrouping/Editor/AutoGroupingWindow.cs:288-297 | a common prefix length within both strings that stops at a mismatch or the shorter end |
| AutoGroupingWindow.CommonPrefixIsLongest | AutoGrouping/Editor/AutoGroupingWindow.cs:288-297 | every common prefix is a prefix of the longest one |
| AutoGroupingWindow.MaxMatchingPrefixLength | AutoGrouping/Editor/AutoGroupingWindow.cs:288-297 | the loop returns the longest common prefix length |
| AutoGroupingWindow.CommonLengthUnique | AutoGrouping/Editor/AutoGroupingWindow.cs:288-297 | a common prefix that stops at a mismatch or an end is the longest |
| AutoGroupingWindow.MaxMatchingPrefix | AutoGrouping/Editor/AutoGroupingWindow.cs:298-308 | the loop returns the longest common prefix and it is a prefix of both strings |
| AutoGroupingWindow.RootWithin | AutoGrouping/Editor/AutoGroupingWindow.cs:113-121 | any root reached is an item that points at itself |
| AutoGroupingWindow.GetGroupRootID | AutoGrouping/Editor/AutoGroupingWindow.cs:113-121 | the walk returns the root the links reach (an item pointing at itself) or None on a cycle |
| AutoGroupingWindow.RankedReachesRoot | AutoGrouping/Editor/AutoGroupingWindow.cs:113-121 | without cycles every walk reaches a root |
| AutoGroupingWindow.RootDeterministic | AutoGrouping/Editor/AutoGroupingWindow.cs:113-121 | two walks from one item that reach a root reach the same root |
| AutoGroupingWindow.RootMoreFuel | AutoGrouping/Editor/AutoGroupingWindow.cs:113-121 | a walk that reaches a root still does when allowed more links |
| AutoGroupingWindow.PointAtRootKeepsRoots | AutoGrouping/Editor/AutoGroupingWindow.cs:331-334 | pointing an item straight at its root keeps the root of every item |
| AutoGroupingWindow.InitialIds | AutoGrouping/Editor/AutoGroupingWindow.cs:311-316 | each named item starts as its own group and an unnamed one keeps 0 |
| AutoGroupingWindow.LinkRow | AutoGrouping/Editor/AutoGroupingWindow.cs:320-329 | one row keeps the id array's length |
| AutoGroupingWindow.Links | AutoGrouping/Editor/AutoGroupingWindow.cs:317-330 | the linking keeps one id per name |
| AutoGroupingWindow.LinkStepWellLinked | AutoGrouping/Editor/AutoGroupingWindow.cs:324-328 | linking a similar item to i's id keeps every id in range and ids only moved between similar names |
| AutoGroupingWindow.LinkRowWellLinked | AutoGrouping/Editor/AutoGroupingWindow.cs:320-329 | a row of linking keeps the ids well linked |
| AutoGroupingWindow.LinkRowStepWellLinked | AutoGrouping/Editor/AutoGroupingWindow.cs:322-328 | one more column keeps the ids well linked |
| AutoGroupingWindow.LinksWellLinked | AutoGrouping/Editor/AutoGroupingWindow.cs:317-330 | the whole linking keeps the ids well linked |
| AutoGroupingWindow.IsolatedKeepsOwnGroup | AutoGrouping/Editor/AutoGroupingWindow.cs:309-336 | a named item that nothing is similar to stays its own root |
| AutoGroupingWindow.IsSimilar | AutoGrouping/Editor/AutoGroupingWindow.cs:322-325 | the test is true exactly when both items are named, the names differ, and the common prefix is at least the similarity times the shorter length (an empty shorter name fails) |
| AutoGroupingWindow.LinkToItem | AutoGrouping/Editor/AutoGroupingWindow.cs:320-329 | the inner loop computes LinkRow |
| AutoGroupingWindow.SkippedRow | AutoGrouping/Editor/AutoGroupingWindow.cs:319 | a row for an unnamed item links nothing |
| AutoGroupingWindow.GroupIDByName | AutoGrouping/Editor/AutoGroupingWindow.cs:309-336 | one id per name; every item whose links reach a root ends pointing at that root which points at itself |
| AutoGroupingWindow.LinksInRange | AutoGrouping/Editor/AutoGroupingWindow.cs:317-330 | the final links point at items |
| AutoGroupingWindow.PointAtRoots | AutoGrouping/Editor/AutoGroupingWindow.cs:331-334 | each item with a root ends pointing at it and roots point at themselves |
| AutoGroupingWindow.PointAtRootStep | AutoGrouping/Editor/AutoGroupingWindow.cs:333 | one step keeps every root of the original links |
| AutoGroupingWindow.GenerateGroupNames | AutoGrouping/Editor/AutoGroupingWindow.cs:337-354 | exactly the groups with a named member are named; each name is the longest common prefix of its members' names |
| AutoGroupingWindow.NoMemberAdded | AutoGrouping/Editor/AutoGroupingWindow.cs:342 | an unnamed item joins no group |
| AutoGroupingWindow.FirstMember | AutoGrouping/Editor/AutoGroupingWindow.cs:343-346 | a group's first member names it |
| AutoGroupingWindow.OtherGroupsKept | AutoGrouping/Editor/AutoGroupingWindow.cs:347-351 | an item changes only its own group's members |
| AutoGroupingWindow.Kept | AutoGrouping/Editor/AutoGroupingWindow.cs:456-463 | the kept groups are never more than the groups |
| AutoGroupingWindow.KeptMembers | AutoGrouping/Editor/AutoGroupingWindow.cs:456-463 | exactly the groups with more than one child are kept |
| AutoGroupingWindow.DropSmallGroups | AutoGrouping/Editor/AutoGroupingWindow.cs:456-463 | the RemoveAt loop leaves the groups with more than one child in their order |
| AutoGroupingWindow.DropStep | AutoGrouping/Editor/AutoGroupingWindow.cs:458-462 | one turn removes the group at i or moves past it and keeps the invariant |
| AutoGroupingWindow.SplitAt | AutoGrouping/Editor/AutoGroupingWindow.cs:460 | RemoveAt at the end of a kept prefix drops exactly the next group |
| AutoGroupingWindow.KeptStep | AutoGrouping/Editor/AutoGroupingWindow.cs:458-462 | one more group extends the kept list by it exactly when it has more than one child |
| AutoGroupingWindow.InsertById | AutoGrouping/Editor/AutoGroupingWindow.cs:464 | insertion keeps the list sorted by id and adds exactly x |
| AutoGroupingWindow.LowerThanInserted | AutoGrouping/Editor/AutoGroupingWindow.cs:464 | a group below x and all of s is below all of their permutation |
| AutoGroupingWindow.SortById | AutoGrouping/Editor/AutoGroupingWindow.cs:464 | ids non-decreasing and the same groups |
| AutoGroupingWindow.Renumber | AutoGrouping/Editor/AutoGroupingWindow.cs:465-468 | each group's id becomes its position and nothing else changes |
| AutoGroupingWindow.FinishGroups | AutoGrouping/Editor/AutoGroupingWindow.cs:456-468 | the kept groups sorted by id and renumbered from 0 |
| AutoGroupingWindow.FinishedGroups | AutoGrouping/Editor/AutoGroupingWindow.cs:456-468 | ids 0 1 2 ... ; every group has at least two children; exactly the groups with at least two children remain |
| DynamicInstancingRenderer.Child.constructor | DynamicInstancingRenderer/DynamicInstancingChild.cs:21-26 | a new child has the given resource and matrix; childrenID and boundingID are -1 and it is not visible |
| DynamicInstancingRenderer.Child.StartVisible | DynamicInstancingHelper/DynamicInstancingChild.cs:23-28 | the DynamicInstancingHelper variant's new child has the given resource and matrix; childrenID and boundingID are -1 and it is visible |
| DynamicInstancingRenderer.Compact | DynamicInstancingRenderer/DynamicInstancingRenderer.cs:58-84 | compaction never yields more matrices than it was given |
| DynamicInstancingRenderer.CompactAllVisible | DynamicInstancingRenderer/DynamicInstancingRenderer.cs:58-84 | with every child visible compaction keeps every matrix |
| DynamicInstancingRenderer.CompactAppend | DynamicInstancingRenderer/DynamicInstancingRenderer.cs:58-84 | compaction distributes over concatenation |
| DynamicInstancingRenderer.CompactNoneVisible | DynamicInstancingRenderer/DynamicInstancingRenderer.cs:58-84 | with no child visible compaction yields nothing |
| DynamicInstancingRenderer.Flags | DynamicInstancingRenderer/DynamicInstancingRenderer.cs:62 | the children's visibility flags position by position |
| DynamicInstancingRenderer.Chunks | DynamicInstancingRenderer/DynamicInstancingRenderer.cs:55-57 | the number of chunks of at most 1023 instances that n instances need |
| DynamicInstancingRenderer.ChunkSize | DynamicInstancingRenderer/DynamicInstancingRenderer.cs:57 | every chunk but the last holds 1023 instances; each chunk is non-empty and within n |
| DynamicInstancingRenderer.FromSlotZero | DynamicInstancingRenderer/DynamicInstancingRenderer.cs:52-116 | the as-written calls: one per chunk |
| DynamicInstancingRenderer.Batches | DynamicInstancingRenderer/DynamicInstancingRenderer.cs:52-116 | every batch holds between 1 and 1023 instances |
| DynamicInstancingRenderer.BatchesFlatten | DynamicInstancingRenderer/DynamicInstancingRenderer.cs:52-116 | the batches drawn in turn draw every instance once and in order |
| DynamicInstancingRenderer.BatchCalls | DynamicInstancingRenderer/DynamicInstancingRenderer.cs:55-115 | the loop cuts the instances into Batches |
| DynamicInstancingRenderer.CompactStep | DynamicInstancingRenderer/DynamicInstancingRenderer.cs:60-83 | one more matrix is appended exactly when its child is visible |
| DynamicInstancingRenderer.CompactInto | DynamicInstancingRenderer/DynamicInstancingRenderer.cs:58-84 | the loop copies the visible children's matrices to the front in order |
| DynamicInstancingRenderer.SlotZeroSkipsLastInstance | DynamicInstancingRenderer/DynamicInstancingRenderer.cs:52-116 | with 1024 instances the as-written calls draw slots 0 to 1022 and then slot 0 again; slot 1023 is never drawn |
| DynamicInstancingRenderer.Doubled | DynamicInstancingRenderer/DynamicInstancingRenderer.cs:25-31 | Array.Resize to double length keeps the old entries and fills the rest |
| DynamicInstancingRenderer.Children.constructor | DynamicInstancingRenderer/DynamicInstancingRenderer.cs:15-18 | the four arrays start with length 1 and nothing is held |
| DynamicInstancingRenderer.Children.Grow | DynamicInstancingRenderer/DynamicInstancingRenderer.cs:25-31 | all four arrays double and the held children and matrices are kept |
| DynamicInstancingRenderer.Children.Add | DynamicInstancingRenderer/DynamicInstancingRenderer.cs:23-36 | the arrays double when full; the child takes slot count with its matrix and its childrenID; count grows by one and the state is marked changed; a child that was in no list (childrenID -1) keeps every childrenID equal to its slot |
| DynamicInstancingRenderer.Children.Place | DynamicInstancingRenderer/DynamicInstancingRenderer.cs:32-35 | with a free slot the child is appended with its matrix and its slot as childrenID; a child with childrenID -1 keeps every childrenID equal to its slot |
| DynamicInstancingRenderer.Children.RemoveAt | DynamicInstancingRenderer/DynamicInstancingRenderer.cs:37-46 | the last child and matrix move into slot index with its childrenID; the removed child's childrenID becomes -1; count drops by one |
| DynamicInstancingRenderer.Children.UpdateTransform | DynamicInstancingRenderer/DynamicInstancingRenderer.cs:47-51 | the child's current matrix replaces its slot and the state is marked changed |
| DynamicInstancingRenderer.Children.CompactRange | DynamicInstancingRenderer/DynamicInstancingRenderer.cs:58-84 | the visible matrices of the range are copied in order to the front of sortedTransforms |
| DynamicInstancingRenderer.Children.Draw | DynamicInstancingRenderer/DynamicInstancingRenderer.cs:52-116 | as written: one call per chunk; without culling every call reads from slot 0; with culling every call draws the same compacted matrices |
| DynamicInstancingRenderer.Children.DrawChunk | DynamicInstancingRenderer/DynamicInstancingRenderer.cs:55-115 | one turn of Draw's loop |
| DynamicInstancingRenderer.Children.DrawCulledChunk | DynamicInstancingRenderer/DynamicInstancingRenderer.cs:58-85 | one culled turn: compaction only while the state is marked changed |
| DynamicInstancingRenderer.Children.DrawBatched | DynamicInstancingRenderer/DynamicInstancingRenderer.cs:52-116 | corrected draw: the instances (compacted once when culling a changed state) go out as Batches |
| DynamicInstancingRenderer.Children.CompactAll | DynamicInstancingRenderer/DynamicInstancingRenderer.cs:58-84 | every visible matrix compacted in order and the state marked unchanged |
| DynamicInstancingRenderer.Empty | DynamicInstancingRenderer/DynamicInstancingRenderer.cs:96-100 | a new renderer has no groups and no registrations and no culling group |
| DynamicInstancingRenderer.Unlinked | DynamicInstancingRenderer/DynamicInstancingRenderer.cs:167 | a child with childrenID -1 is in no group and not in the bounding list |
| DynamicInstancingRenderer.Registered | DynamicInstancingRenderer/DynamicInstancingRenderer.cs:150-186 | a registered child sits in its group and in the bounding list at its two ids |
| DynamicInstancingRenderer.LinkedSameMembers | DynamicInstancingRenderer/DynamicInstancingRenderer.cs:47-51 | changing only matrices or flags keeps the links |
| DynamicInstancingRenderer.LinkedAddGroup | DynamicInstancingRenderer/DynamicInstancingRenderer.cs:153-157 | a new resource starts with an empty group |
| DynamicInstancingRenderer.LinkedRegister | DynamicInstancingRenderer/DynamicInstancingRenderer.cs:167-181 | registering a child with childrenID -1 keeps the links |
| DynamicInstancingRenderer.Prepare | DynamicInstancingRenderer/DynamicInstancingRenderer.cs:152-162 | the resource gets an empty group if it has none and the culling group exists; other groups are kept |
| DynamicInstancingRenderer.PrepareValid | DynamicInstancingRenderer/DynamicInstancingRenderer.cs:152-162 | preparing keeps the invariant |
| DynamicInstancingRenderer.RegisterValid | DynamicInstancingRenderer/DynamicInstancingRenderer.cs:167-181 | registering keeps the invariant |
| DynamicInstancingRenderer.Join | DynamicInstancingRenderer/DynamicInstancingRenderer.cs:150-186 | a child without resources is ignored; an unregistered child is appended to its group and the bounding list; a registered one only gets its sphere refreshed |
| DynamicInstancingRenderer.JoinValid | DynamicInstancingRenderer/DynamicInstancingRenderer.cs:150-186 | Join keeps the invariant |
| DynamicInstancingRenderer.JoinKeepsOthers | DynamicInstancingRenderer/DynamicInstancingRenderer.cs:150-186 | Join leaves every other child's ids and sphere unchanged |
| DynamicInstancingRenderer.JoinKeepsIds | DynamicInstancingRenderer/DynamicInstancingRenderer.cs:150-186 | the ids half of JoinKeepsOthers |
| DynamicInstancingRenderer.JoinKeepsSphere | DynamicInstancingRenderer/DynamicInstancingRenderer.cs:150-186 | the sphere half of JoinKeepsOthers |
| DynamicInstancingRenderer.SwapRemoveMultiset | DynamicInstancingRenderer/DynamicInstancingRenderer.cs:37-46 | moving the last element into slot i and dropping the last slot removes exactly s[i] |
| DynamicInstancingRenderer.Quit | DynamicInstancingRenderer/DynamicInstancingRenderer.cs:187-196 | nothing happens for an unknown resource or a childrenID of -1 |
| DynamicInstancingRenderer.QuitKeepsInGroup | DynamicInstancingRenderer/DynamicInstancingRenderer.cs:187-196 | every other registered child stays in its group at its new childrenID |
| DynamicInstancingRenderer.QuitBoundLinks | DynamicInstancingRenderer/DynamicInstancingRenderer.cs:190-194 | Quit keeps the bounding-list links |
| DynamicInstancingRenderer.QuitGroupLinks | DynamicInstancingRenderer/DynamicInstancingRenderer.cs:189 | Quit keeps the group links |
| DynamicInstancingRenderer.QuitIdLinks | DynamicInstancingRenderer/DynamicInstancingRenderer.cs:189 | Quit keeps the childrenID links |
| DynamicInstancingRenderer.QuitValid | DynamicInstancingRenderer/DynamicInstancingRenderer.cs:187-196 | Quit keeps the invariant |
| DynamicInstancingRenderer.QuitUnregisters | DynamicInstancingRenderer/DynamicInstancingRenderer.cs:187-196 | afterwards the child has childrenID -1 and is in no group and not in the bounding list |
| DynamicInstancingRenderer.QuitRemovesOne | DynamicInstancingRenderer/DynamicInstancingRenderer.cs:187-196 | exactly that child leaves the bounding list and the resource keys are kept |
| DynamicInstancingRenderer.QuitKeepsOthers | DynamicInstancingRenderer/DynamicInstancingRenderer.cs:187-196 | every other registered child stays registered with its sphere |
| DynamicInstancingRenderer.QuitLast | DynamicInstancingRenderer/DynamicInstancingRenderer.cs:187-196 | quitting the last-registered child just drops the last entries |
| DynamicInstancingRenderer.JoinUnregistered | DynamicInstancingRenderer/DynamicInstancingRenderer.cs:167-181 | the shape of Join for an unregistered child |
| DynamicInstancingRenderer.UndoAppend | DynamicInstancingRenderer/DynamicInstancingRenderer.cs:187-196 | appending and then dropping the appended entries restores the lists and maps |
| DynamicInstancingRenderer.JoinQuitRoundTrip | DynamicInstancingRenderer/DynamicInstancingRenderer.cs:150-196 | Join of an unregistered child then Quit restores the bounding list and spheres and groups and every childrenID |
| DynamicInstancingRenderer.UpdateTransform | DynamicInstancingRenderer/DynamicInstancingRenderer.cs:197-202 | nothing happens for a child with childrenID -1 |
| DynamicInstancingRenderer.UpdateTransformEffect | DynamicInstancingRenderer/DynamicInstancingRenderer.cs:197-202 | keeps the invariant and the registrations; a registered child gets the new sphere and matrix; other spheres are kept |
| DynamicInstancingRenderer.OnVisibleStateChanged | DynamicInstancingRenderer/DynamicInstancingRenderer.cs:219-224 | an event at or past boundingCount is ignored |
| DynamicInstancingRenderer.OnVisibleStateChangedEffect | DynamicInstancingRenderer/DynamicInstancingRenderer.cs:219-224 | keeps the invariant; the reported child takes the visibility and its group is marked changed |
| DynamicInstancingHelper.ZeroMatrix | DynamicInstancingHelper/DynamicInstancingRenderer.cs:272 | the default Matrix4x4 has sixteen entries and every one is zero |
| DynamicInstancingHelper.EmptySlice | DynamicInstancingHelper/DynamicInstancingRenderer.cs:93 | a new slice of w matrices has length w and every matrix in it is the zero matrix |
| DynamicInstancingHelper.FlattenUniform | DynamicInstancingHelper/DynamicInstancingRenderer.cs:88-95 | slices that each hold w matrices hold slice count times w matrices when read one after another |
| DynamicInstancingHelper.FlattenAppend | DynamicInstancingHelper/DynamicInstancingRenderer.cs:143-153 | reading two runs of slices in turn reads the concatenation of what each run holds |
| DynamicInstancingHelper.FlattenSnoc | DynamicInstancingHelper/DynamicInstancingRenderer.cs:143-153 | one more slice adds exactly its matrices at the end of the row-major reading |
| DynamicInstancingHelper.SliceCount | DynamicInstancingHelper/DynamicInstancingRenderer.cs:62-66 | the slice count transforms.Length / batchCount + 1 is positive and its total capacity strictly exceeds the transform capacity |
| DynamicInstancingHelper.ResizeSlices | DynamicInstancingHelper/DynamicInstancingRenderer.cs:62-66 | Array.Resize then filling the new tail gives the old slices then empty slices up to n and keeps every slice of width w |
| DynamicInstancingHelper.Kept | DynamicInstancingHelper/DynamicInstancingRenderer.cs:105-112 | a child is kept exactly when it is visible and either the probability is at least 1 or its sample passes |
| DynamicInstancingHelper.KeptAll | DynamicInstancingHelper/DynamicInstancingRenderer.cs:105-112 | with visibleProbability at least 1 exactly the visible children are kept |
| DynamicInstancingHelper.CursorStep | DynamicInstancingHelper/DynamicInstancingRenderer.cs:113-130 | writing the next matrix at the slice cursor and moving it on (to the next slice when one is full) extends the written prefix by that matrix |
| DynamicInstancingHelper.CursorPrefix | DynamicInstancingHelper/DynamicInstancingRenderer.cs:113-130 | at the cursor the first n matrices read row-major are exactly the ones written |
| DynamicInstancingHelper.CursorRoom | DynamicInstancingHelper/DynamicInstancingRenderer.cs:113-130 | the slice index is still inside the slices exactly when fewer matrices were written than the slices hold |
| DynamicInstancingHelper.CompactedStep | DynamicInstancingHelper/DynamicInstancingRenderer.cs:105-130 | one step of the culling pass keeps the compaction invariant both for a dropped child and for a kept one |
| DynamicInstancingHelper.CompactIntoSlices | DynamicInstancingHelper/DynamicInstancingRenderer.cs:100-137 | the kept children's matrices are exactly the first n matrices of the slices read row-major and in child order and n is their number and every slice keeps its width |
| DynamicInstancingHelper.SliceCallsFlatten | DynamicInstancingHelper/DynamicInstancingRenderer.cs:143-153 | the corrected draw calls draw the first n instances read row-major once each and in order |
| DynamicInstancingHelper.DrawSlices | DynamicInstancingHelper/DynamicInstancingRenderer.cs:143-153 | the culled draw loop issues exactly the corrected calls (each call draws what is left and at most one slice) |
| DynamicInstancingHelper.AsWrittenDrawsStaleSlot | DynamicInstancingHelper/DynamicInstancingRenderer.cs:145-150 | over two slices of two matrices with three kept instances the as-written calls draw a and b and then c and the stale slot, four matrices in all, while the corrected calls draw the three kept ones |
| DynamicInstancingHelper.Children.constructor | DynamicInstancingHelper/DynamicInstancingRenderer.cs:44-54 | one child slot and one transform slot and one empty slice of batchCount matrices and no children and visibleCount 0 |
| DynamicInstancingHelper.Children.Grow | DynamicInstancingHelper/DynamicInstancingRenderer.cs:57-67 | both arrays double and keep their first count entries and the slices are resized to transforms.Length / batchCount + 1 |
| DynamicInstancingHelper.Children.Add | DynamicInstancingHelper/DynamicInstancingRenderer.cs:55-72 | the child is appended to the members with its matrix and childrenID equal to its slot and count grows by one and the state is marked changed; when the child had childrenID -1 every childrenID still equals its slot |
| DynamicInstancingHelper.Children.Place | DynamicInstancingHelper/DynamicInstancingRenderer.cs:68-71 | with a free slot the child is appended with its matrix and its slot as childrenID; a child with childrenID -1 keeps every childrenID equal to its slot |
| DynamicInstancingHelper.Children.RemoveAt | DynamicInstancingHelper/DynamicInstancingRenderer.cs:73-82 | swap-remove: the last child and its matrix move into slot index and count drops by one and the removed child's childrenID becomes -1 and the moved child's becomes index so every childrenID still equals its slot |
| DynamicInstancingHelper.Children.UpdateTransform | DynamicInstancingHelper/DynamicInstancingRenderer.cs:83-87 | only the stored matrix at index changes and it becomes that child's current matrix |
| DynamicInstancingHelper.Children.UpdateSortedTransform | DynamicInstancingHelper/DynamicInstancingRenderer.cs:88-96 | the slices become transforms.Length / batchCount + 1 empty slices of batchCount matrices whose capacity exceeds the transform capacity |
| DynamicInstancingHelper.Children.Recompact | DynamicInstancingHelper/DynamicInstancingRenderer.cs:100-137 | visibleCount becomes the number of kept children and the slices read row-major start with exactly their matrices in order and the state is marked unchanged |
| DynamicInstancingHelper.Children.Draw | DynamicInstancingHelper/DynamicInstancingRenderer.cs:97-161 | no calls without children and one call of all matrices without culling; with culling the corrected calls (each draws what is left, at most one slice) draw the first visibleCount slice matrices once each, recompacted first when the state changed; line 147 as written takes Min(slice length, visibleCount) with the total instead |
| DynamicInstancingHelper.Awake | DynamicInstancingHelper/DynamicInstancingRenderer.cs:306-313 | the renderer starts with no bounding entries and no groups and no registered child |
| DynamicInstancingHelper.GetCurrentMatrix | DynamicInstancingHelper/DynamicInstancingRenderer.cs:270-274 | an unregistered child (childrenID -1) gets the zero matrix |
| DynamicInstancingHelper.GetCurrentBoundingSphere | DynamicInstancingHelper/DynamicInstancingRenderer.cs:275-279 | the default sphere for an unknown resource or an unregistered child and otherwise the child's own sphere |
| DynamicInstancingHelper.JoinCurrent | DynamicInstancingHelper/DynamicInstancingRenderer.cs:220-254 | after Join a child with resources is registered and reads its new sphere and a new child reads the given matrix while a registered one keeps its matrix |
| DynamicInstancingHelper.QuitCurrent | DynamicInstancingHelper/DynamicInstancingRenderer.cs:255-263 | a registered child's resource always has a group (so guarding on childrenID alone is enough) and after Quit the child reads the zero matrix |
| DynamicInstancingHelper.UpdateTransformCurrent | DynamicInstancingHelper/DynamicInstancingRenderer.cs:264-279 | after UpdateTransform a registered child reads the new matrix and the new sphere |
| DynamicInstancingHelper.BoundGroup | DynamicInstancingHelper/DynamicInstancingRenderer.cs:295-303 | every bounding entry belongs to a group and its boundingID is its slot |
| DynamicInstancingHelper.BoundDistinct | DynamicInstancingHelper/DynamicInstancingRenderer.cs:295-303 | a bounding entry appears in no other bounding slot |
| DynamicInstancingHelper.FlippedStep | DynamicInstancingHelper/DynamicInstancingRenderer.cs:295-303 | looking at one more slot finds a flip in group k exactly when one was found before or that slot's child is in group k and flips |
| DynamicInstancingHelper.SyncStep | DynamicInstancingHelper/DynamicInstancingRenderer.cs:295-303 | one step of CullSync keeps the sync invariant |
| DynamicInstancingHelper.UntouchedVisibleKeeps | DynamicInstancingHelper/DynamicInstancingRenderer.cs:297-301 | a child still at its initial visible true that the culling job reports visible is no flip and changes nothing, while a report of invisible is one |
| DynamicInstancingHelper.CullSync | DynamicInstancingHelper/DynamicInstancingRenderer.cs:280-305 | nothing changes without a readable camera and otherwise every bounding child takes its culling result and a group is marked changed exactly when it was already or one of its children flipped, a child not yet synced counting as visible |
| LegacyAnimator.Find | Animation/LegacyAnimator.cs:279-286 | the index found is the first parameter with that name and None means no parameter has it |
| LegacyAnimator.FindSameTable | Animation/LegacyAnimator.cs:279-286 | lookups agree on two tables with the same names in the same order |
| LegacyAnimator.AssignedOnlyFirst | Animation/LegacyAnimator.cs:429-487 | an assignment by name keeps every name and type and changes only the first parameter with that name and changes nothing without a match |
| LegacyAnimator.Reset | Animation/LegacyAnimator.cs:298-303 | evaluating one condition keeps the table's names and types |
| LegacyAnimator.Consumed | Animation/LegacyAnimator.cs:276-338 | evaluating a list of conditions keeps the table's names and types |
| LegacyAnimator.ConjunctionAll | Animation/LegacyAnimator.cs:274-338 | the accumulated result is true exactly when every condition is satisfied against the table left by those before it |
| LegacyAnimator.MissingBound | Animation/LegacyAnimator.cs:287-291 | the not-found count is at most the number of conditions and equals it exactly when every condition names a missing parameter |
| LegacyAnimator.HoldsMeaning | Animation/LegacyAnimator.cs:272-343 | CheckCondition holds for an empty list and otherwise holds exactly when some parameter is found and every condition is satisfied |
| LegacyAnimator.CheckStep | Animation/LegacyAnimator.cs:276-338 | one more condition extends the table and the conjunction and the not-found count by that condition alone |
| LegacyAnimator.AllMissing | Animation/LegacyAnimator.cs:340-341 | a non-empty list whose every parameter is missing fails and resets nothing |
| LegacyAnimator.NoTriggers | Animation/LegacyAnimator.cs:293-338 | without triggers the table is unchanged and every condition is tested against the caller's table |
| LegacyAnimator.TriggersConsumed | Animation/LegacyAnimator.cs:298-303 | every trigger named by an If condition is false afterwards whether or not the list held |
| LegacyAnimator.OthersKept | Animation/LegacyAnimator.cs:276-338 | a parameter that no If condition names keeps its value |
| LegacyAnimator.TriggerReadOnce | Animation/LegacyAnimator.cs:298-303 | a set trigger satisfies one If condition on it but not two in one list |
| LegacyAnimator.Evaluated | Animation/LegacyAnimator.cs:242-247 | the table after looking at the first n transitions keeps its names and types |
| LegacyAnimator.FirstFiring | Animation/LegacyAnimator.cs:242-247 | the transition found has reached its exit time and its conditions hold and no earlier one fires and None means none fires |
| LegacyAnimator.NothingReached | Animation/LegacyAnimator.cs:244-245 | when no transition has reached its exit time nothing fires and no trigger is consumed |
| LegacyAnimator.FindRootBone | Animation/LegacyAnimator.cs:228-237 | the answer is the nearest bone or ancestor whose parent is this transform and None means there is none |
| LegacyAnimator.Animator.constructor | Animation/LegacyAnimator.cs:218-226 | the animator starts in the given state with the given parameter table and no transition in progress |
| LegacyAnimator.Animator.IndexOf | Animation/LegacyAnimator.cs:279-286 | the lookup loop finds the first parameter with that name |
| LegacyAnimator.Animator.Set | Animation/LegacyAnimator.cs:429-487 | with a controller the table becomes the assignment to the first parameter with that name and without one it is unchanged |
| LegacyAnimator.Animator.SetTrigger | Animation/LegacyAnimator.cs:429-442 | with a controller the first parameter with that name gets true and without one nothing changes |
| LegacyAnimator.Animator.SetInteger | Animation/LegacyAnimator.cs:444-457 | with a controller the first parameter with that name gets the integer and without one nothing changes |
| LegacyAnimator.Animator.SetBool | Animation/LegacyAnimator.cs:459-472 | with a controller the first parameter with that name gets the boolean and without one nothing changes |
| LegacyAnimator.Animator.SetFloat | Animation/LegacyAnimator.cs:474-487 | with a controller the first parameter with that name gets the float and without one nothing changes |
| LegacyAnimator.Animator.CheckOne | Animation/LegacyAnimator.cs:278-338 | for one condition: whether its parameter exists and whether it passes and the trigger reset applied to the table |
| LegacyAnimator.Animator.CheckCondition | Animation/LegacyAnimator.cs:272-343 | the result is Holds of the old table and the table becomes the one after evaluating every condition |
| LegacyAnimator.Animator.MakeTransition | Animation/LegacyAnimator.cs:239-270 | triggers are consumed up to the first firing transition and a new blend to its destination starts (nextState and offset set) only when the destination differs from nextState and an out-of-range destination throws |
| LegacyAnimator.SetBoolThenIf | Animation/LegacyAnimator.cs:459-472 | SetBool then an If condition on that parameter answers the value written |
| LegacyAnimator.SetTriggerThenIf | Animation/LegacyAnimator.cs:429-442 | SetTrigger then an If condition on it holds once and leaves the trigger reset |
| LowEndMaterialAdaptorEditor.TrimUnique | LowEndRenderingAdaptor/Editor/LowEndMaterialAdaptorEditor.cs:33 | Trim removes exactly the white space around a core that starts and ends with other characters |
| LowEndMaterialAdaptorEditor.TrimBlank | LowEndRenderingAdaptor/Editor/LowEndMaterialAdaptorEditor.cs:33 | Trim of a blank string is empty |
| LowEndMaterialAdaptorEditor.TrimPadded | LowEndRenderingAdaptor/Editor/LowEndMaterialAdaptorEditor.cs:33 | padding with white space on either side does not change what Trim keeps |
| LowEndMaterialAdaptorEditor.TrimEmptyIsBlank | LowEndRenderingAdaptor/Editor/LowEndMaterialAdaptorEditor.cs:33 | only a blank string trims to nothing |
| LowEndMaterialAdaptorEditor.GetMappingPair | LowEndRenderingAdaptor/Editor/LowEndMaterialAdaptorEditor.cs:26-39 | a null or blank line or one without "->" gives (null and null) and otherwise the pair is the trimmed text before the first "->" and the trimmed text after it |
| LowEndMaterialAdaptorEditor.MappingLineRoundTrip | LowEndRenderingAdaptor/Editor/LowEndMaterialAdaptorEditor.cs:26-39 | a line written as key -> value with no "->" in the key parses back to the trimmed key and the trimmed value |
| LowEndMaterialAdaptorEditor.AnySegmentNamed | LowEndRenderingAdaptor/Editor/LowEndMaterialAdaptorEditor.cs:45-52 | the scan over the segments answers true exactly when some trimmed segment equals the name |
| LowEndMaterialAdaptorEditor.IsMapping | LowEndRenderingAdaptor/Editor/LowEndMaterialAdaptorEditor.cs:40-54 | true exactly when the key is not null or blank and some '/'-separated trimmed segment equals the name |
| LowEndMaterialAdaptorEditor.NoMappingWithSlash | LowEndRenderingAdaptor/Editor/LowEndMaterialAdaptorEditor.cs:40-54 | a name containing '/' is never mapped |
| LowEndMaterialAdaptorEditor.MappingOfItself | LowEndRenderingAdaptor/Editor/LowEndMaterialAdaptorEditor.cs:40-54 | a key that is the name itself with no surrounding white space and no '/' maps that name |
| LowEndMaterialAdaptorEditor.FileName | LowEndRenderingAdaptor/Editor/LowEndMaterialAdaptorEditor.cs:264 | Path.GetFileName gives a suffix of the path with no '/' that the path's last '/' directly precedes |
| LowEndMaterialAdaptorEditor.LastDot | LowEndRenderingAdaptor/Editor/LowEndMaterialAdaptorEditor.cs:265 | the position found holds a '.' with no '.' after it and None means the name has no '.' |
| LowEndMaterialAdaptorEditor.WithoutExtension | LowEndRenderingAdaptor/Editor/LowEndMaterialAdaptorEditor.cs:265 | the stem is a prefix of the name that ends just before its last '.' and is the whole name without a '.' |
| LowEndMaterialAdaptorEditor.FileNameOfJoin | LowEndRenderingAdaptor/Editor/LowEndMaterialAdaptorEditor.cs:265 | the file name of a folder that is empty or ends in '/' joined with a name without '/' is that name |
| LowEndMaterialAdaptorEditor.LowEndMaterialPathParts | LowEndRenderingAdaptor/Editor/LowEndMaterialAdaptorEditor.cs:263-265 | the low-end material path keeps the material's folder and its file name is the stem followed by _low.mat |
| LowEndMaterialAdaptorEditor.PackSize | LowEndRenderingAdaptor/Editor/LowEndMaterialAdaptorEditor.cs:342-343 | the atlas side is a power of two in [4 and 4096] whose square holds all pixels unless it reached 4096 and it is the smallest such power |
| LowEndMaterialAdaptorEditor.IsModelPrefab | LowEndRenderingAdaptor/Editor/LowEndMaterialAdaptorEditor.cs:387-391 | true exactly when the lower-cased path ends with fbx or obj |
| LowEndMaterialAdaptorEditor.ModelExtensions | LowEndRenderingAdaptor/Editor/LowEndMaterialAdaptorEditor.cs:387-391 | any path ending in an fbx or obj extension in any letter case is a model |
| LowEndMaterialAdaptorEditor.ModelPathLength | LowEndRenderingAdaptor/Editor/LowEndMaterialAdaptorEditor.cs:387-391 | a model path has at least three characters |
| LowEndRenderingManager.Adaptor.constructor | LowEndRenderingAdaptor/LowEndRenderingAdaptor.cs:6-21 | a new adaptor has the validity IsValid answers and index 0 (the default int) and the normal look |
| LowEndRenderingManager.Adaptor.Active | LowEndRenderingAdaptor/LowEndRenderingAdaptor.cs:22-24 | the adaptor takes the low-end look and keeps its index |
| LowEndRenderingManager.Adaptor.Disactive | LowEndRenderingAdaptor/LowEndRenderingAdaptor.cs:25-27 | the adaptor takes the normal look and keeps its index |
| LowEndRenderingManager.Manager.constructor | LowEndRenderingAdaptor/LowEndRenderingManager.cs:9-12 | 5000 empty slots and no adaptors and lodThreshold 100 and lastLod 0 |
| LowEndRenderingManager.Manager.Grow | LowEndRenderingAdaptor/LowEndRenderingManager.cs:45 | the array doubles and the old slots are copied and the new ones are empty |
| LowEndRenderingManager.Manager.Store | LowEndRenderingAdaptor/LowEndRenderingManager.cs:41-42 | the adaptor takes slot count and index count and count grows by one |
| LowEndRenderingManager.Manager.Join | LowEndRenderingAdaptor/LowEndRenderingManager.cs:38-58 | an invalid adaptor changes nothing and a valid one is appended with index count and the storage doubles when it becomes full (so a free slot always remains) and an enabled manager gives it the look the LOD asks for |
| LowEndRenderingManager.Manager.Quit | LowEndRenderingAdaptor/LowEndRenderingManager.cs:59-66 | a null adaptor or an index outside [0 and count) is ignored and otherwise the last entry moves into the vacated slot and count drops by one and the adaptor's index becomes -1 while the moved adaptor keeps its old index |
| LowEndRenderingManager.Manager.QuitRepointing | LowEndRenderingAdaptor/LowEndRenderingManager.cs:59-66 | with the moved adaptor repointed: every index stays equal to its slot and a registered adaptor is removed and nothing else |
| LowEndRenderingManager.Manager.Update | LowEndRenderingAdaptor/LowEndRenderingManager.cs:17-37 | nothing changes when the LOD is the last one seen and otherwise lastLod is remembered and every registered adaptor takes the low-end look exactly when the LOD is at most lodThreshold |
| LowEndRenderingManager.StaleIndexAfterQuit | LowEndRenderingAdaptor/LowEndRenderingManager.cs:59-66 | two adaptors join and both quit yet the second stays registered with index 1 because its index was not repointed |
| LowEndRenderingManager.JoinTwo | LowEndRenderingAdaptor/LowEndRenderingManager.cs:38-58 | two fresh adaptors joining a fresh manager are registered in order with indexes equal to their slots |
| LowEndRenderingManager.RepointedQuitEmpties | LowEndRenderingAdaptor/LowEndRenderingManager.cs:59-66 | with the repointing Quit the same two quits leave nothing registered |
| PrefabProxy.IsChildOrSelf | PrefabProxy/PrefabProxyBase.cs:28-39 | false for a null trans and otherwise true exactly when test is trans or one of its ancestors |
| PrefabProxy.PrunedEmpty | PrefabProxy/PrefabProxyBase.cs:194-225 | when no list is left empty the containers are empty exactly when no instance is filed |
| PrefabProxy.AddedKeeps | PrefabProxy/PrefabProxyBase.cs:158-186 | filing keeps the containers free of empty lists and adds exactly the new instance |
| PrefabProxy.TakenKeeps | PrefabProxy/PrefabProxyBase.cs:194-225 | taking out an instance filed only under its parent removes exactly that instance and keeps the lists repeat-free and with pruning free of empty lists |
| PrefabProxy.DestroyUndoesInstantiate | PrefabProxy/PrefabProxyBase.cs:158-225 | Instantiate then Destroy of the same instance puts both containers back as they were |
| PrefabProxy.MovedLeavesEmptyList | PrefabProxy/PrefabProxyBase.cs:232-258 | moving the only instance under A to B and destroying it leaves no instance but an empty list under A so the containers are never empty again |
| PrefabProxy.MovedPrunedKeeps | PrefabProxy/PrefabProxyBase.cs:232-258 | the corrected move (pruning an emptied list) keeps the containers free of empty lists |
| PrefabProxy.Instance.constructor | PrefabProxy/PrefabProxyBase.cs:8-16 | a new instance has the given parent and is active |
| PrefabProxy.Instance.SetActive | PrefabProxy/PrefabProxyBase.cs:47-53 | activeSelf changes to the value given unless it already has it or the instance is stashed |
| PrefabProxy.Manager.constructor | PrefabProxy/PrefabProxyManager.cs:9-12 | no proxies and nothing stashed and new instances are not stashed |
| PrefabProxy.Manager.AddProxy | PrefabProxy/PrefabProxyManager.cs:13 | the proxy set gains the proxy |
| PrefabProxy.Manager.RemoveProxy | PrefabProxy/PrefabProxyManager.cs:14 | the proxy set loses the proxy |
| PrefabProxy.Manager.Stash | PrefabProxy/PrefabProxyManager.cs:22 | the stash gains the instance |
| PrefabProxy.Manager.DropStashed | PrefabProxy/PrefabProxyManager.cs:24-34 | as written the stash ends empty and no formerly stashed instance changes its active state |
| PrefabProxy.Manager.DropStashedActivating | PrefabProxy/PrefabProxyManager.cs:24-34 | the corrected order empties the stash first so with active every formerly stashed instance becomes active |
| PrefabProxy.Manager.Update | PrefabProxy/PrefabProxyManager.cs:15-21 | the instances updated are exactly the active instances of the registered proxies |
| PrefabProxy.ProxyBase.constructor | PrefabProxy/PrefabProxyBase.cs:154-157 | a new proxy has no instances and no destroy callback |
| PrefabProxy.ProxyBase.SetOnPrefabDestroy | PrefabProxy/PrefabProxyBase.cs:227-231 | a destroy callback is set |
| PrefabProxy.ProxyBase.File | PrefabProxy/PrefabProxyBase.cs:158-186 | the instance is filed under its parent's list or the root list and the instance set gains it |
| PrefabProxy.ProxyBase.Unfile | PrefabProxy/PrefabProxyBase.cs:194-225 | the instance is taken out of its parent's list (when the parent is a key) or the root list and the instance set loses it |
| PrefabProxy.ProxyBase.Instantiate | PrefabProxy/PrefabProxyBase.cs:158-186 | a fresh instance is filed under its parent and the first one registers the proxy and with stachNewInstance it starts inactive and stashed |
| PrefabProxy.ProxyBase.Destroy | PrefabProxy/PrefabProxyBase.cs:194-225 | the instance is taken out with an emptied list deleted and once both containers are empty the callback fires once and is cleared and the proxy leaves the manager |
| PrefabProxy.ProxyBase.SetInstanceParent | PrefabProxy/PrefabProxyBase.cs:232-258 | as written the instance moves to the list of trans and takes trans as parent and an emptied old list stays |
| PrefabProxy.ProxyBase.SetInstanceParentPruned | PrefabProxy/PrefabProxyBase.cs:232-258 | the corrected move deletes an emptied list so the containers stay free of empty lists |
| PrefabProxy.ProxyBase.Move | PrefabProxy/PrefabProxyBase.cs:232-258 | the instance is taken out of its old list and filed under trans and takes trans as parent |
| PrefabProxy.ProxyBase.UpdateInstancesComponent | PrefabProxy/PrefabProxyBase.cs:265-288 | the instances updated are exactly the active ones |
| PrefabProxy.ProxyBase.UpdateInstancesTransform | PrefabProxy/PrefabProxyBase.cs:289-302 | the instances updated are exactly those filed under root or a descendant of it and the root list is not visited |
| PrefabProxy.ProxyBase.SetListActive | PrefabProxy/PrefabProxyBase.cs:308-314 | every instance in the list under p that is not stashed takes the value and every other instance keeps its state |
| PrefabProxy.ProxyBase.SetInstancesActive | PrefabProxy/PrefabProxyBase.cs:303-316 | every unstashed instance filed under root or a descendant takes the value and every other instance keeps its state |
| PrefabLightmap.InsertPermutes | PrefabBaker/Editor/PrefabLightmap/PrefabLightmapExporter.cs:14-20 | inserting a texture into the area order adds exactly that texture |
| PrefabLightmap.InsertByArea | PrefabBaker/Editor/PrefabLightmap/PrefabLightmapExporter.cs:14-20 | inserting into an area-ordered sequence keeps it in non-increasing area order |
| PrefabLightmap.SortByAreaPermutes | PrefabBaker/Editor/PrefabLightmap/PrefabLightmapExporter.cs:14-20 | the area sort is a permutation of the textures |
| PrefabLightmap.SortByAreaSorted | PrefabBaker/Editor/PrefabLightmap/PrefabLightmapExporter.cs:14-20 | the area sort leaves the textures in non-increasing area order |
| PrefabLightmap.SortByAreaMembers | PrefabBaker/Editor/PrefabLightmap/PrefabLightmapExporter.cs:14-20 | the sorted textures are exactly the input textures |
| PrefabLightmap.Choose | PrefabBaker/Editor/PrefabLightmap/PrefabLightmapExporter.cs:28-40 | the candidate kept fits the atlas and costs no more than any fitting candidate and strictly less than any later one (a later one wins a tie) and None means nothing fits |
| PrefabLightmap.Packed | PrefabBaker/Editor/PrefabLightmap/PrefabLightmapExporter.cs:21-57 | the placement loop gives one offset per placed texture and leaves at least two candidate corners once something is placed |
| PrefabLightmap.PackedPrefix | PrefabBaker/Editor/PrefabLightmap/PrefabLightmapExporter.cs:21-57 | placing a prefix of the sorted textures gives the matching prefix of the offsets |
| PrefabLightmap.PackedFirstAtOrigin | PrefabBaker/Editor/PrefabLightmap/PrefabLightmapExporter.cs:12-26 | the first (largest) texture goes to (0 and 0) |
| PrefabLightmap.PackedLater | PrefabBaker/Editor/PrefabLightmap/PrefabLightmapExporter.cs:26-41 | every later texture goes to the corner Choose picks among at least two candidates or to the origin when none fits |
| PrefabLightmap.PackedCandidates | PrefabBaker/Editor/PrefabLightmap/PrefabLightmapExporter.cs:42-56 | after a placement the candidates are the old ones other than the chosen corner (every copy removed) followed by the corner above it and the corner to its right |
| PrefabLightmap.WithoutMembers | PrefabBaker/Editor/PrefabLightmap/PrefabLightmapExporter.cs:42-49 | removing every copy of a corner keeps exactly the other candidates |
| PrefabLightmap.IndexOf | PrefabBaker/Editor/PrefabLightmap/PrefabLightmapExporter.cs:53 | List.IndexOf gives the first position holding the texture |
| PrefabLightmap.LastIndexOf | PrefabBaker/Editor/PrefabLightmap/PrefabLightmapExporter.cs:53-54 | the last position holding the texture |
| PrefabLightmap.Rects | PrefabBaker/Editor/PrefabLightmap/PrefabLightmapExporter.cs:13 | the rect array has one entry per input texture |
| PrefabLightmap.RectsMeaning | PrefabBaker/Editor/PrefabLightmap/PrefabLightmapExporter.cs:53-54 | a repeated texture's later position keeps the empty rect and a first occurrence holds the rect of that texture's last placement or the empty rect when it was not placed |
| PrefabLightmap.PackedRects | PrefabBaker/Editor/PrefabLightmap/PrefabLightmapExporter.cs:10-59 | PackTextures gives one rect per input position |
| PrefabLightmap.BestPoint | PrefabBaker/Editor/PrefabLightmap/PrefabLightmapExporter.cs:28-41 | the scan over the candidates with its running minimum picks the corner Choose picks and the origin when none fits |
| PrefabLightmap.RemoveCopies | PrefabBaker/Editor/PrefabLightmap/PrefabLightmapExporter.cs:42-49 | the removal loop that steps back after each removal removes every copy of the corner and keeps the rest in order |
| PrefabLightmap.PackStep | PrefabBaker/Editor/PrefabLightmap/PrefabLightmapExporter.cs:22-57 | one turn of the placement loop places the next texture and writes its rect at the texture's IndexOf position and changes no other rect |
| PrefabLightmap.PlaceNext | PrefabBaker/Editor/PrefabLightmap/PrefabLightmapExporter.cs:24-56 | the loop body gives the candidates and offset of one placement step and writes that texture's rect at its IndexOf position and no other |
| PrefabLightmap.PackTextures | PrefabBaker/Editor/PrefabLightmap/PrefabLightmapExporter.cs:10-59 | the rect array returned is exactly the specification's rects for the textures placed in area order |
| PrefabLightmap.SideFor | PrefabBaker/Editor/PrefabLightmap/PrefabLightmapExporter.cs:107 | the smallest power of two whose square is at least the area |
| PrefabLightmap.AtlasSize | PrefabBaker/Editor/PrefabLightmap/PrefabLightmapExporter.cs:104-108 | the area is capped at maxAtlasSize squared and the side is 0 for an empty area and otherwise the smallest power of two whose square holds it |
| PrefabLightmap.AtlasSizeCapped | PrefabBaker/Editor/PrefabLightmap/PrefabLightmapExporter.cs:104-108 | when maxAtlasSize is a power of two the atlas side never exceeds it |
| UIParticleUpdater.UIParticle.constructor | UIParticle/UIParticle.cs:55-66 | a new particle has the given group and systems and no baked mesh state (no bits and no submeshes and not refreshed) |
| UIParticleUpdater.InsertById | UIParticle/UIParticleUpdater.cs:122-130 | inserting moves the key forward past the larger groups and adds one element |
| UIParticleUpdater.SortById | UIParticle/UIParticleUpdater.cs:117-132 | the insertion sort keeps the number of particles |
| UIParticleUpdater.InsertSorted | UIParticle/UIParticleUpdater.cs:122-130 | inserting into a group-ordered prefix keeps it ordered by meshSharingID |
| UIParticleUpdater.InsertMembers | UIParticle/UIParticleUpdater.cs:122-130 | insertion adds no particle other than the key |
| UIParticleUpdater.InsertPermutes | UIParticle/UIParticleUpdater.cs:122-130 | insertion adds exactly the key to the multiset |
| UIParticleUpdater.InsertByIdAt | UIParticle/UIParticleUpdater.cs:122-130 | the key lands right behind the last element whose group is not larger |
| UIParticleUpdater.InsertStable | UIParticle/UIParticleUpdater.cs:124 | insertion keeps the order within every group with the key last in its own (shifting only on strict less) |
| UIParticleUpdater.SortByIdSorted | UIParticle/UIParticleUpdater.cs:117-132 | SortParticles leaves meshSharingID non-decreasing |
| UIParticleUpdater.SortByIdPermutes | UIParticle/UIParticleUpdater.cs:117-132 | SortParticles only reorders the particles |
| UIParticleUpdater.SortByIdStable | UIParticle/UIParticleUpdater.cs:117-132 | SortParticles is stable: each group keeps its registration order |
| UIParticleUpdater.DisposalsMeaning | UIParticle/UIParticleUpdater.cs:28-36 | each native copy of the particle's systems is disposed once and exactly those that exist are disposed |
| UIParticleUpdater.ActiveCount | UIParticle/UIParticleUpdater.cs:447-457 | the count of active systems with particles is at most the number of systems and is zero exactly when none is active |
| UIParticleUpdater.TrailTotal | UIParticle/UIParticleUpdater.cs:475-519 | the number of baked trails is at most the number of systems |
| UIParticleUpdater.MaskBits | UIParticle/UIParticleUpdater.cs:673-690 | bit b of activeMeshIndices is set exactly when some baked system i has b = 2i or its trail is baked and b = 2i+1 |
| UIParticleUpdater.ScheduledCovers | UIParticle/UIParticleUpdater.cs:586-646 | a fresh bake fills every slot a later shared bake of the same systems reads and keeps the slots it had |
| UIParticleUpdater.ScheduledKeeps | UIParticle/UIParticleUpdater.cs:586-646 | slots a fresh bake does not write keep their counts |
| UIParticleUpdater.ScheduledSlot | UIParticle/UIParticleUpdater.cs:597-632 | after a fresh bake slot 2i holds system i's main counts and slot 2i+1 its trail counts when the trail is baked |
| UIParticleUpdater.SharedTotalMatches | UIParticle/UIParticleUpdater.cs:698-710 | a particle sharing the mesh of one whose fresh bake had the same systems reads back that bake's vertex total |
| UIParticleUpdater.CachedTotalSettles | UIParticle/UIParticleUpdater.cs:657-662 | the mesh is cleared exactly when there is no cached total or it exceeds the new one and after recording a total baking the same total again does not clear |
| UIParticleUpdater.Updater.constructor | UIParticle/UIParticleUpdater.cs:44-60 | after InitializeOnLoad there are no active particles and no native copies and no cached totals and no slots |
| UIParticleUpdater.Updater.Register | UIParticle/UIParticleUpdater.cs:18-22 | null is ignored and any other particle is appended |
| UIParticleUpdater.Updater.Unregister | UIParticle/UIParticleUpdater.cs:24-38 | null changes nothing and otherwise the first registration is removed and each existing native copy of its systems is disposed and forgotten and its cached total is dropped |
| UIParticleUpdater.Updater.InsertAt | UIParticle/UIParticleUpdater.cs:121-130 | one pass of the inner loop moves the element at i into the sorted prefix |
| UIParticleUpdater.Updater.SortParticles | UIParticle/UIParticleUpdater.cs:117-132 | the particle list becomes SortById of the old list (ordered and stable and a permutation by the lemmas) |
| UIParticleUpdater.Updater.CountActive | UIParticle/UIParticleUpdater.cs:447-456 | the loop counts the active systems with particles |
| UIParticleUpdater.Updater.PrepareNatives | UIParticle/UIParticleUpdater.cs:488-522 | a native copy is made for each baked system and the trail count is returned |
| UIParticleUpdater.Updater.ScheduleJobs | UIParticle/UIParticleUpdater.cs:586-646 | each baked system's counts go to its slots and the vertex total is their sum |
| UIParticleUpdater.Updater.ReadSharedTotal | UIParticle/UIParticleUpdater.cs:698-710 | the shared branch reads the vertex total back from the slots |
| UIParticleUpdater.Updater.MeshIndices | UIParticle/UIParticleUpdater.cs:673-690 | the submesh loop gives the active-mesh bits and whether anything was baked |
| UIParticleUpdater.Updater.CacheVertexTotal | UIParticle/UIParticleUpdater.cs:657-662 | the cache records the new total and the mesh is cleared exactly when there was no cached total or it was larger |
| UIParticleUpdater.Updater.BakeMeshPerformant | UIParticle/UIParticleUpdater.cs:443-744 | no active system (or a shared bake with a different system count) bakes nothing and changes nothing and otherwise a fresh bake writes the slots and native copies while a shared one (previous particle boosted and refreshed with the same positive group) reads them back and both record the total and submesh count and bits |
| UIParticleMesh.CsDiv | UIParticle/MeshJob.cs:400 | C# integer division truncates toward zero |
| UIParticleMesh.CsRem | UIParticle/MeshJob.cs:399-400 | C# remainder pairs with the truncating division and takes the sign of the dividend |
| UIParticleMesh.LastOfKind | UIParticle/MeshJob.cs:511-525 | the last active stream whose kind lies in the range and None means there is none |
| UIParticleMesh.LayoutMeaning | UIParticle/MeshJob.cs:506-528 | a custom stream is active exactly when the list holds a stream of its kind (Custom1X..Custom1XYZW = 31..34, Custom2X..Custom2XYZW = 35..38) and the last such stream sets its channels (starting after all earlier streams and spanning that stream's length) and otherwise the old channels stay |
| UIParticleMesh.CustomStreamKinds | UIParticle/MeshJob.cs:498-528 | Unity's numbering: a lone Custom1X stream (31) takes channel [0, 1) and a lone Custom2XYZW stream (38) channels [0, 4), while StableRandomX (23) and VaryingRandomX (27) activate no custom stream |
| UIParticleMesh.LayoutValid | UIParticle/MeshJob.cs:506-528 | CopyFrom always leaves channel ranges GetTexcoord can use |
| UIParticleMesh.CopyFrom | UIParticle/MeshJob.cs:506-528 | the single pass accumulating the offset gives exactly Layout: Custom1 and Custom2 take the channels of the last stream of kinds 31..34 and 35..38 |
| UIParticleMesh.CopyChannels | UIParticle/MeshJob.cs:531-539 | component i takes custom[texcoordStart + i - channelStart] exactly when channel texcoordStart + i lies in [channelStart and channelEnd) and keeps its value otherwise |
| UIParticleMesh.ChannelWindow | UIParticle/MeshJob.cs:531-537 | the clamped loop bounds pick out exactly the components whose channel the stream covers and read the matching custom component |
| UIParticleMesh.GetTexcoord | UIParticle/MeshJob.cs:529-552 | each component is custom2's when its channel is covered by Custom2 and else custom1's when covered by Custom1 and else unchanged |
| UIParticleMesh.ComponentFromLayout | UIParticle/MeshJob.cs:506-560 | for a layout built by CopyFrom channel ch shows the component of the last Custom2 stream (kinds 35..38) covering it and else of the last Custom1 stream (kinds 31..34) and else the input |
| UIParticleMesh.TileCountPositive | UIParticle/MeshJob.cs:363-385 | the tile range holds at least one tile |
| UIParticleMesh.TileInRange | UIParticle/MeshJob.cs:361-400 | the whole sheet spans nx times ny tiles from 0 and a row spans nx and the tile lies in [startTile and endTile) when the frame sum is not negative and truncating % puts it at or before startTile otherwise |
| UIParticleMesh.TileOnSheet | UIParticle/MeshJob.cs:361-400 | with a row on the sheet and a non-negative frame sum the tile is on the sheet |
| UIParticleMesh.TileOffsetInside | UIParticle/MeshJob.cs:360-401 | a tile on the sheet maps to a sub-rectangle of the unit square |
| UIParticleMesh.CornersDistinct | UIParticle/MeshJob.cs:694-699 | the four corners are the four distinct combinations of u and 1-u with v and 1-v |
| UIParticleMesh.SlotsDisjoint | UIParticle/MeshJob.cs:624-719 | distinct particles of one run write disjoint vertex and index slots |
| UIParticleMesh.MeshJob.constructor | UIParticle/MeshJob.cs:603-623 | the job holds the given particles and bases and streams and sheet and output buffers |
| UIParticleMesh.MeshJob.Execute | UIParticle/MeshJob.cs:624-720 | particle particleIndex + i writes its colour and texture coordinates at its four vertices and its two triangles at its six indices (pointing into its own quad) and the second texture coordinates only with a custom stream and nothing else changes |
| UIParticleMesh.MeshJob.WriteColors | UIParticle/MeshJob.cs:686 | the four vertices of the quad get the colour and nothing else changes |
| UIParticleMesh.MeshJob.WriteCorners | UIParticle/MeshJob.cs:694-699 | the four vertices get the scaled and offset corners (u and v) (u and 1-v) (1-u and 1-v) (1-u and v) and nothing else changes |
| UIParticleMesh.MeshJob.ApplyCustom | UIParticle/MeshJob.cs:700-712 | the custom streams are written over the four first texture coordinates and the four second ones take the custom-only texcoord1 and nothing else changes |
| UIParticleMesh.MeshJob.WriteQuadIndices | UIParticle/MeshJob.cs:713-719 | the six indices are v v+1 v+2 v+2 v+3 v and nothing else changes |
| UIParticleMesh.IndexJob.constructor | UIParticle/MeshJob.cs:749-754 | the job holds the index buffer and its offset and base |
| UIParticleMesh.IndexJob.Execute | UIParticle/MeshJob.cs:755-759 | index indexOffset + i gains vertexBase and nothing else changes |
| FbxRefiner.FbxMesh.constructor | FBXRefiner/dllmain.cpp:21 | the mesh holds the given UV and vertex-colour layer lists |
| FbxRefiner.FbxMesh.RemoveUVRange | FBXRefiner/dllmain.cpp:22-28 | the downward loop from min(count and uvEnd + 1) - 1 to uvStart leaves exactly the layers whose index is outside [uvStart and uvEnd] in their order |
| FbxRefiner.FbxMesh.RemoveVertexColors | FBXRefiner/dllmain.cpp:29-35 | every vertex-colour layer is removed |
| FbxRefiner.FbxMesh.Edit | FBXRefiner/dllmain.cpp:20-36 | one mesh attribute's edit applies the UV removal when pUV is set and the colour removal when pVertexColor is set |
| FbxRefiner.KeepOutside | FBXRefiner/dllmain.cpp:23-27 | the layers kept are never more than the input |
| FbxRefiner.KeepOutsideSplit | FBXRefiner/dllmain.cpp:23-27 | the kept layers are the ones before the clamped range followed by the ones after it |
| FbxRefiner.KeepOutsideIdempotent | FBXRefiner/dllmain.cpp:23-27 | when the range reaches the last layer a second removal takes nothing more |
| FbxRefiner.UVAfterAdd | FBXRefiner/dllmain.cpp:12-28 | a edits then b edits of the UV layers are a + b edits |
| FbxRefiner.ColorsAfterAdd | FBXRefiner/dllmain.cpp:29-35 | a edits then b edits of the colour layers are a + b edits |
| FbxRefiner.EditsOutside | FBXRefiner/dllmain.cpp:11-41 | a mesh outside a subtree is never edited by its walk |
| FbxRefiner.ChildEditsOutside | FBXRefiner/dllmain.cpp:38-40 | a mesh outside the children's subtrees is never edited by the children loop |
| FbxRefiner.EditNode | FBXRefiner/dllmain.cpp:12-37 | a node's mesh is edited once per mesh attribute when the name filter is null or matches exactly and otherwise not at all |
| FbxRefiner.Walk | FBXRefiner/dllmain.cpp:11-41 | every mesh of the subtree is edited once per mesh attribute of each matching node that reaches it (its own node and every descendant visited) |
| FbxRefiner.WalkChildren | FBXRefiner/dllmain.cpp:38-40 | each child's subtree is walked in order and a mesh is edited as many times as the children's walks reach it |
| FbxRefiner.WalkChild | FBXRefiner/dllmain.cpp:39 | one child's walk edits only meshes of its subtree and each as many times as that walk reaches it |
| FbxRefiner.ChildMeshesGrow | FBXRefiner/dllmain.cpp:38-40 | the meshes of the first j children's subtrees are among those of the first k for j at most k |
| FbxRefiner.ChildInMeshes | FBXRefiner/dllmain.cpp:38-40 | each child's subtree lies in the node's |
| FbxRefiner.RemoveGeometryLayerElement | FBXRefiner/dllmain.cpp:43-70 | FailedToInitalize when the importer fails and NoRootNode without a root and otherwise the root's children's subtrees are edited (never the root itself) and Success exactly when the exporter initialises |
| FbxRefiner.TwoMeshAttributesEditTwice | FBXRefiner/dllmain.cpp:12-28 | a node with two mesh attributes and range [0 and 0] is edited twice so layers a b c become c where one edit leaves b c |
| FbxRefiner.EditNodeOnce | FBXRefiner/dllmain.cpp:12-37 | the corrected node edit removes the UV range and the colours once when any attribute is a mesh and the name matches |

## Left out

- Text: character case and white space are ASCII only. The model covers `A`-`Z`/`a`-`z` for ToUpper/ToLowerInvariant and space, tab, CR, LF, VT and FF for Trim and IsWhiteSpace. The culture-invariant Unicode tables of .NET are not modelled.
- Integers are unbounded. The C# `int` (32-bit) overflow is not modelled in the pack-size doubling (LowEndMaterialAdaptorEditor.PackSize), the texture size arithmetic (AssetClearanceMethodUtils.PlatformTextureSize), the tile count numTilesX * numTilesY (UIParticleMesh) or the character-code sum (AssetClearanceReportTree.GetStringOrder). Wrap-around would take inputs far larger than any texture or name the tools meet.
- BuildRoot (AssetClearanceReportTree.BuildRoot): the report query is taken as already ordered. The LINQ OrderBy that sorts it in the source is not modelled.
- SortByArea (PrefabLightmap.SortByArea): .NET Array.Sort is not stable, and the model fixes one order, an insertion sort by descending area. Sortedness and being a permutation hold for every order Array.Sort may produce, but textures of equal area may come out in a different order there. In that case the packed rectangles differ from the ones stated here.
- Floating point: the `float` values that are modelled (colours, UVs, animator parameters, asset statistics) are `real`, with no rounding. The lightmap atlas rectangles are integer pixel offsets and sizes, not the normalised floats that the source divides out. The UI particle frame and start-frame terms, which the engine truncates from float curves, are integer parameters.
- Registry (DynamicInstancingRenderer.Registry): the heap of renderers and the per-child visibility are a value-level registry, not the Children class. DynamicInstancingHelper.SyncOne updates this registry on its own. It is not tied to a Children object's fields, and in-place update and aliasing between renderers are not captured.
- BakeMeshPerformant (UIParticleUpdater.Updater.BakeMeshPerformant): when meshes are shared, the model requires every baked system to have entries in bakedIndexMap. As written, a missing entry throws KeyNotFoundException at UIParticleUpdater.cs:703 and 708. The model does not represent that exception path.
- GetGroupRootID (AutoGroupingWindow.GetGroupRootID): the root walk stops after as many links as there are items and returns None. On a cycle of links the source loops forever, and GroupIDByName inherits the same cut-off.
- Kept (DynamicInstancingHelper.Kept): the visibleProbability test, which hashes each matrix through Mathf.Sin, enters as a parameter `sampled` (one boolean per child) and is not computed.
- DynamicInstancingHelper: LateUpdate's transform sync, UpdateMipmapLevel and the Burst CullJob are not modelled. The culling result comes in as a parameter, and the job's parallel execution is not represented.
- Unity engine calls (Graphics.DrawMeshInstanced, Mesh, Material, AssetDatabase, EditorGUI and file I/O) are not modelled. Draw calls are returned as sequences of matrix batches, and assets as values.
- The editor windows' GUI code (layout, drawing, menus, drag and drop) is not modelled. Only the data operations behind it are.
- UIParticleMesh: vertex positions, rotation and size-over-lifetime transforms are left out. The model covers the texture sheet tiles, UVs and colours written to the streams, not the geometry.
- UIParticleUpdater: the CanBakeMesh tests depend on renderer state (mesh, material and enabled flags), which the model takes as predicates on the inputs.
- LegacyAnimator: transitionSpeed, OnStateEnter, blend weights and root motion are not modelled. nextState is an index into the state list rather than a reference. IsInTransition is a predicate only.
- AtlasSize (PrefabLightmap.AtlasSize): the size is the least power of two whose square covers the capped area, computed exactly. The source's Pow(2, Ceil(Log(Sqrt(area), 2))) is computed in floats and can round differently near powers of two. Area 0 gives 0 in both. EXR export and file writing are left out.
- FbxRefiner: FBX SDK scene import and export, and the null check on GetMesh, are not modelled. pUVEnd + 1 is unbounded where the C++ `int` would overflow at INT_MAX.

## Findings

| source | as written | input that shows it | evidently intended | confidence | as-written member | corrected member |
|---|---|---|---|---|---|---|
| LowEndRenderingAdaptor/LowEndRenderingManager.cs:59-66 | Quit moves the last adaptor into the freed slot without updating that adaptor's index | adaptors A (index 0) and B (index 1) join, A quits, then B quits: B's stale index 1 is past the list, so B stays registered | the moved adaptor's index is set to its new slot, so each later Quit removes the right adaptor | not executed | LowEndRenderingManager.StaleIndexAfterQuit | LowEndRenderingManager.Manager.QuitRepointing |
| DynamicInstancingRenderer/DynamicInstancingRenderer.cs:52-116 | without culling, every batch passes the whole transforms array from slot 0 with count min(count - index, 1023) | 1024 instances whose last matrix differs from the first: the second call draws slot 0 again and slot 1023 is never drawn | batch k draws slots 1023k to 1023k + renderCount - 1 | not executed | DynamicInstancingRenderer.SlotZeroSkipsLastInstance | DynamicInstancingRenderer.Children.DrawBatched |
| DynamicInstancingHelper/DynamicInstancingRenderer.cs:143-153 | each culled call draws min(slice length, visibleCount) matrices, where visibleCount is the total and not what is left | two slices of two matrices holding three kept instances a, b, c: the first call draws a and b, the second draws c and the stale slot, four matrices in all | each call draws the kept instances of its own slice | not executed | DynamicInstancingHelper.AsWrittenDrawsStaleSlot | DynamicInstancingHelper.SliceCallsFlatten |
| FBXRefiner/dllmain.cpp:12-28 | the UV and colour removal runs once per mesh attribute of the node, not once per node | a node with two mesh attributes, UV layers a b c and range 0 to 0: layers a and then b are removed, leaving c | the node's mesh is edited once, leaving b c | not executed | FbxRefiner.TwoMeshAttributesEditTwice | FbxRefiner.EditNodeOnce |
| AssetClearance/Editor/AssetClearance.cs:393-423 | a rule's folder scope is tested with a plain string StartsWith | rules in "Assets/Fo" reach an asset in "Assets/Foo" | the folder's path components begin the asset directory's components | not executed | AssetClearance.SiblingFolderInScope | AssetClearance.InFolderByComponents |
| AssetClearance/Editor/AssetClearance.cs:424-428 | the ignorable-extension regex contains `.xml$` with an unescaped dot | "UI/a.uxml" matches because `.` matches the `u` | only the extension ".xml" is ignorable | not executed | AssetClearance.UxmlSkippedAsWritten | AssetClearance.IgnorableImpliesAsWritten |
| PrefabProxy/PrefabProxyBase.cs:232-258 | moving an instance to a new parent removes it from the old parent's list but leaves that list in the map when it empties | move the only instance under A to B and then destroy it: A's entry is an empty list for good | the emptied list is removed, so no container holds an empty list | not executed | PrefabProxy.MovedLeavesEmptyList | PrefabProxy.ProxyBase.SetInstanceParentPruned |
| PrefabProxy/PrefabProxyManager.cs:24-34 | DropStashed(true) calls SetActive(true) on each instance before it clears the stash, and SetActive returns early for a stashed instance (PrefabProxyBase.cs:47-53) | one inactive stashed instance and DropStashed(true): it stays inactive | the stash is cleared first, so every formerly stashed instance becomes active | not executed | PrefabProxy.Manager.DropStashed | PrefabProxy.Manager.DropStashedActivating |
