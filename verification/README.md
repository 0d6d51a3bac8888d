# A verified model of the Configuration Policy Controller

The Configuration Policy Controller compares objects of a Kubernetes cluster with the templates in
`ConfigurationPolicy` and `OperatorPolicy` resources, reports compliance, and when a policy is enforced
changes the cluster to match. This project models the part of it that decides: the merging and comparing of
JSON trees, and the state machines around it. It proves what those decisions guarantee, for every input, every
order in which a Go map may be visited, and every run.

`dafny verify dfyconfig.toml` checks everything. Each file holds the module of its name.

## How it is organised

**Merging and comparing** (`controllers/configurationpolicy_controller.go`, `controllers/configurationpolicy_utils.go`)

- `Json` has the untyped JSON values and the Go library calls made on them (`fmt.Sprint`, quantity parsing,
  sorting). Only their determinism and the stated laws are assumed: strings print, and are sorted, as themselves, and
  sorting sorts.
- `Compare` is the comparison, `Merge` the merge as functions, and `MergeInPlace` the merge as the source runs it,
  with loops over maps in any order and a template slice that is overwritten until an append moves it; it computes the
  functions of `Merge`. `CallersSlice` says what that leaves in the slice of the caller.
- `Greedy` and `Matching` say what the list matching guarantees without saying how it searches, `MergeAgain` what
  it does the second time.
- `Convergence` proves when merging keeps all of the template, and when merging twice is merging once; `Soundness`
  and `Verdicts` what "no update needed" means and when it is exact; `Limits` has inputs for which less is true
  than one may expect.
- `Namesakes` proves that elements with names are matched by name, and that lists of such elements are merged by name.
- `StringLists` proves, for templates whose lists are lists of strings, that enforcement settles and that the verdict is
  exact, from the template and the existing object alone.
- `ObjectKeys` is the comparison of whole objects, key by key, with the treatment of metadata, and `ObjectVerdict`
  what it means when it asks for no update; `ObjectExact` says when exactly it asks for none, and `OnlyMetadata`
  when metadata does with mustonlyhave; `SecondEvaluation` proves when an object that was written needs no further
  update; `EvaluationCache` that the cache of evaluated objects reports what evaluating anew would.
- `NameList` is which listed objects match a template without a name, and `TemplateReuse` has inputs for which a
  template that was overwritten by one comparison spoils the next.
- `Prune`, `Events`, `StatusText` and `Scheduling` are the related objects, the batches of events, the text of the
  status, and when a policy is evaluated; `StatusWording` says what the texts are.

**Operator policies** (`controllers/operatorpolicy_status.go`, `controllers/operatorpolicy_controller.go`)

- `OperatorStatus` is the status object and its updates, `StatusMeaning` what its parts mean, `StatusRuns` what every
  sequence of updates keeps.
- `InstallPlan` resolves the dependencies of a bundle, `Approval` decides which InstallPlans are approved.
- `Overlap` is how policies for one Subscription find each other, `Intervention` the timed intervention for a
  Subscription that cannot be resolved.

**Namespaces** (`pkg/common/namespace_selection.go`, `pkg/common/pattern_util.go`): `NamespaceSelection` and
`NamespaceCache`. `Sorting` has string order, sorting and permutations, `GoStd` pieces of Go's standard library.

## What was found

These are results about the code as it is; where a comment or a document promises more, the code was followed.

- An element of a template list can be lost. In `mergeArrays` the variable for the template element is shadowed by a
  type assertion, so where the existing element is a map and the template's is not, a nil map is compared and written
  instead of "the same logic as the default case" that the comment announces. A nil map equals an empty one, so an
  existing `{}` takes any template element that is no map: `{k: ["x"]}` accepts `{k: [{}]}` (`Limits.ScalarIsLost`).
  Any element that is no map can be lost so (`Limits.AnyScalarCanBeLost`). The merged value has all of the template if
  and only if no element is taken by a map without being one (`Convergence.MergeCovers`), and then what is sent is
  what was compared, and only then (`Convergence.SentIsMerged`). It is so when no existing list has `{}` where the
  template's list has anything but maps (`Convergence.NoEmptyMapsLoseNothing`). A nil map is sent as null: `["x",
  "y"]` enforced on `[{}]` stores `[null, "y"]`, and the next evaluation asks for another update
  (`Limits.NilMapIsStoredAsNull`).
- Enforcement need not converge when map elements of a list print alike: the template `[{a: 1}, {b: 2}, {a: 1}]`
  merged into `[{b: 2, c: 3}, {a: 1, b: 2}, {a: 1, b: 2}]` gives a list that the next evaluation changes again
  (`Limits.RepeatedKeysDiverge`). When they print uniquely in the merged lists it converges at once, and other
  elements may be repeated among the template's own (`Convergence.EnforcementConverges`); in a list outside other
  lists they may also be repeated by the existing list, and then only its order changes, which the comparison does
  not see (`Convergence.EnforcementSettles`). Templates all of whose lists are lists of strings always settle
  where the existing lists are that too (`StringLists.StringTemplateSettles`).
- `mergeArrays` overwrites the slice it is given only until an append moves it. So what the caller is left with has the
  merged elements whose groups come before the first append that does not fit, and the template's elsewhere
  (`CallersSlice.CallersListMeans`). The template `[{a: 1}]` stays as it is when it is merged into
  `[{z: 9}, {a: 1, b: 2}]` (`TemplateReuse.MovedSliceMissesElement`). An object is recreated from the template as it was
  left, and needs no update whichever elements were overwritten, if none was lost (`EvaluationCache.RecreatedSettles`).
- An overwritten template is used again. An object that has more than the template in an element of a top-level list
  can keep a later one out of the list of names that match it (`TemplateReuse.NamesDependOnOrder`), and after a
  conflict the retry can ask for an update of an object that is as the template wants it
  (`TemplateReuse.RetryMisjudges`). Neither happens where comparing leaves the template as it is. It does so if and
  only if every element that is overwritten before an append moves the slice is written back as it was
  (`CallersSlice.LeavesAloneExactly`), and always when the template's lists that are top-level keys have no maps in
  them and the object's no `{}`, or the template is `mustonlyhave` (`CallersSlice.SteadfastIsLeft`,
  `TemplateReuse.EmptyMapSpoilsList`): then exactly the matching objects are listed (`NameList.SelectedExactly`), and
  retries report what comparing anew would (`EvaluationCache.Evaluator.CheckAndUpdate`).
- Labels or annotations of a template that are neither maps of strings nor blank, such as `enabled: true`, are never
  stored: the update drops all of them, and every evaluation asks for it again (`Limits.BooleanLabelUnsettled`). This
  is the only way in which written metadata does not settle (`SecondEvaluation.MetadataSettles`). Such an object is
  reported compliant by the dry run that changes nothing (`EvaluationCache.UnstorableIsReportedCompliant`), and
  when it has to be created anew, it is deleted and not created (`EvaluationCache.Evaluator.Recreate`).
- The list matching is greedy, so it can ask for an update although every template element is satisfied by an
  element of its own (`Limits.GreedyIsIncomplete`). For lists of strings, at any depth of maps, the verdict is
  exact (`StringLists.StringTemplateExact`).
- A list that is itself a top-level key is compared with the arguments the other way round than inside a map. A
  `mustonlyhave` template `[{a: 1}]` accepts `[{b: 0}]` (`Limits.MustOnlyHaveListUnsound`): what is ensured is that the
  existing elements are satisfied by the template's, and the converse exactly where nothing but blank entries is
  missing (`Verdicts.MustOnlyHaveListMeans`, `Verdicts.MustOnlyHaveListExact`). With `musthave`, an element of the same
  name is absorbed without being compared (`Limits.SameNameListUnsound`); it is satisfied if that comparison would have
  passed and nothing inside it is lost, and if it has no lists in it, only then (`Soundness.ListVerdictSound`).
- `mustonlyhave` is described as an exact match, but only the number of keys is compared, so a zero value in the
  template can make room for a key it does not have (`Limits.MustOnlyHaveExtraKeys`, `Limits.MustOnlyHaveMapUnsound`,
  `Verdicts.MustOnlyHaveExact`).
- `getBundleDependencies` has a termination measure exactly when no package that the target requires, directly or not,
  is on a cycle (`InstallPlan.ResolvableExactly`). A bundle that cannot be read hides the requirements of the later ones
  of its package, and only theirs (`InstallPlan.DependenciesExact`, `InstallPlan.DeclaredIsFollowed`).
- `updateStatus` flaps exactly when objects had to be replaced and two of those reported have the same name but do
  not agree (`StatusRuns.RepeatSettles`).
- One round of reconciles does not show overlapping policies to each other; two always do
  (`Overlap.FirstReconcileMissesRivals`, `Overlap.TwoRoundsSettle`). A policy without cluster labels lists policies
  whose labels are empty, but they do not list it (`Overlap.RivalsAgree`).
- A status write that reaches the API server although every answer to the controller is an error leaves the
  controller refusing to evaluate the policy, until something other than an evaluation writes its status or it is
  deleted (`Scheduling.ConfigurationPolicyReconciler.AddForUpdate`, `ShouldEvaluatePolicy`, `ChangeByOthers`).
- A policy that is changed while a batch of its events is being written can have its new generation recorded as
  evaluated without being evaluated (`Scheduling.NewerGenerationRecorded`). It cannot happen when an evaluation writes
  its status once (`Scheduling.RecordedGenerationExact`). When it happens, cached verdicts on the old templates
  survive (`EvaluationCache.StaleEntrySurvives`, `EvaluationCache.Evaluator.Begin`).
- The intervention waits 30 seconds counted in whole seconds of the clock, because the API server keeps times to
  the second; unless the detection was at the beginning of a second, the wait can be short of 30 seconds by less
  than one (`Intervention.WaitIsCutShort`).

## Model

| member | source | states |
|---|---|---|
| MergeInPlace.MergeArraysInPlace | controllers/configurationpolicy_controller.go:2833-2930 | the nested loops with counters, `idxWritten`, nil maps and appends that may move the template slice return `Merge.MergedValues` of the original template, as it is compared and as it is marshalled, for every amount of room behind the slice; the caller's slice is left as `Merge.CallersValues` |
| MergeInPlace.MergeGroup | controllers/configurationpolicy_controller.go:2862-2927 | one group of equal-printing existing elements: after its scan and the appending of what is left over, the owners, the slice and the appended values are those of one more group of the assignment, and the slice has moved if the values no longer fit behind it |
| MergeInPlace.ScanTemplate | controllers/configurationpolicy_controller.go:2871-2919 | the scan for one group takes exactly the free matching positions that `Greedy.Absorb` does, and writes their merged values |
| MergeInPlace.MatchElement | controllers/configurationpolicy_controller.go:2879-2912 | an element matches if both have the same non-empty name or its merge equals the existing element; where the existing element is a map and the template's is not, a nil map stands for the latter |
| MergeInPlace.CountItems | controllers/configurationpolicy_controller.go:2847-2858 | one entry per printed text, with the first element that prints so and the number of those that do |
| MergeInPlace.MergeMaps | controllers/configurationpolicy_controller.go:2782-2798 | whatever the order of the existing keys, the template map ends as the merge of the two maps, as compared and as marshalled |
| MergeInPlace.MergeSpecsHelper | controllers/configurationpolicy_controller.go:2778-2824 | the recursive merge computes `Merge.MergeSpecs`, which is compared, and `Merge.SentSpecs`, which json.Marshal makes of it, for every template and existing value |
| CallersSlice.CallersListMeans | controllers/configurationpolicy_controller.go:2909-2925 | at each position the caller's slice has the result's element if the position's group comes before an append that does not fit, and the template's otherwise; so it has the first part of the result if everything appended fits |
| CallersSlice.CallersListCovers | controllers/configurationpolicy_controller.go:2909-2925 | whatever reaches the caller's slice, if nothing is lost it still has all of the template, and is sent as it is found |
| CallersSlice.LeavesAloneExactly | controllers/configurationpolicy_controller.go:2980-2984 | comparing leaves the template as it was if and only if every element that is overwritten before an append moves the slice is found again as it was |
| CallersSlice.SteadfastIsLeft | controllers/configurationpolicy_controller.go:2980-2984 | a template without maps in its top-level lists is left as it is by every object without empty maps there, and a mustonlyhave one by every object |
| Greedy.AssignIsSound | controllers/configurationpolicy_controller.go:2862-2927 | a position is only taken by a group that fits it |
| Greedy.AssignIsMaximal | controllers/configurationpolicy_controller.go:2862-2927 | no group has demand left while a free position fits it |
| Greedy.AssignConserves | controllers/configurationpolicy_controller.go:2862-2927 | for each group, positions taken and occurrences left over add up to its occurrences |
| Greedy.AssignTotal | controllers/configurationpolicy_controller.go:2862-2927 | all demands together are met by taken positions or left over |
| Greedy.AssignHomes | controllers/configurationpolicy_controller.go:2862-2927 | a position whose own group wants only it, and comes in the order of positions, is taken by that group whatever happens elsewhere |
| Matching.MergeArraysMatches | controllers/configurationpolicy_controller.go:2833-2930 | `mergeArrays` refines a declarative matching: the prefix keeps template order, an owned element is merged with a group it matches, each existing occurrence is absorbed once or appended once, what is appended matches no free element, and the length is template plus existing minus matched |
| MergeAgain.OwnPlaces | controllers/configurationpolicy_controller.go:2862-2927 | merging into a list that already has the template in front: every template element takes what it has become |
| MergeAgain.MergeArraysAgain | controllers/configurationpolicy_controller.go:2833-2930 | merging a template list into such a list again keeps its first part and the multiset of the rest, and changes nothing when the rest prints apart from the template |
| Namesakes.NamesDecide | controllers/configurationpolicy_controller.go:2895-2912 | elements with the same non-empty name match, and elements whose names are different strings never do, unless they spell the same quantity |
| Namesakes.OthersAreCompared | controllers/configurationpolicy_controller.go:2895-2912 | without a non-empty name in common, an element matches exactly if its merge equals the existing one |
| Namesakes.NameIsDemanded | controllers/configurationpolicy_controller.go:2895-2912 | an element with a name matches no existing map without one |
| Namesakes.UnmatchedStays | controllers/configurationpolicy_controller.go:2870-2926 | an existing element that no template element matches is appended as it is, as often as it occurs |
| Namesakes.StrangerStays | controllers/configurationpolicy_controller.go:2870-2926 | so is an existing element whose name none of the template's elements has, whatever stands beside it in the existing list |
| Namesakes.MergeByName | controllers/configurationpolicy_controller.go:2833-2930 | lists of named elements are merged by name: each template element with the existing one of its name and nothing else, and the existing ones that the template does not name are appended unchanged, in order |
| Compare.ListsMatchPairing | controllers/configurationpolicy_utils.go:304-346 | the sort-then-zip check pairs the elements of the lists one to one, each pair matching |
| Compare.ListsMatchIgnoresOrder | controllers/configurationpolicy_utils.go:304-346 | two orders of the same elements match when only equal elements sort alike |
| Compare.EqualObjReflexive | controllers/configurationpolicy_utils.go:151-274 | every value equals itself |
| Convergence.MergeCovers | controllers/configurationpolicy_controller.go:2778-2930 | the merged value has all of the template (scalars, map keys, and result[i] covers t[i] in lists) if and only if no list element that is no map is taken by a map |
| Convergence.SentIsMerged | controllers/configurationpolicy_controller.go:2885-2893 | what is marshalled is what was compared if and only if nothing is lost so |
| Convergence.ScalarMeetsMap | controllers/configurationpolicy_controller.go:2885-2912 | of all maps, a template element that is no map matches exactly the empty one |
| Convergence.NoEmptyMapsLoseNothing | controllers/configurationpolicy_controller.go:2885-2912 | nothing is lost when no existing list has an empty map where the template's list has anything but maps |
| Convergence.MergeKeepsRest | controllers/configurationpolicy_controller.go:2786-2799 | at every level of maps, keys that only the existing map has are kept as they are |
| Convergence.MergeSettles | controllers/configurationpolicy_controller.go:2778-2930 | a value that covers the template is a fixpoint of merging the template in, if in each of its lists the template elements print uniquely or are repeated only among themselves |
| Convergence.MergeSeenEqual | controllers/configurationpolicy_controller.go:2778-2930 | where template elements that are no maps also occur beyond the template, merging again changes at most the order of a list, which the comparison does not see |
| Convergence.EnforcementConverges | controllers/configurationpolicy_controller.go:2934-2947 | once an unambiguous merge that loses nothing has been sent and stored, merging again gives the same value, sends the same, and the comparison asks for no update |
| Convergence.EnforcementSettles | controllers/configurationpolicy_controller.go:2934-2947 | no second update is asked for either where repeated elements only change the order of a list, if nothing is lost |
| Convergence.MergeWithItself | controllers/configurationpolicy_controller.go:2778-2930 | a template that is unambiguous in itself, merged into itself, is itself |
| Convergence.NoRepeatsIsUnambiguous | controllers/configurationpolicy_controller.go:2847-2858 | a value none of whose lists has two elements that print alike is unambiguous for every template |
| Convergence.CoversItself | controllers/configurationpolicy_controller.go:2778-2824 | every template is covered by itself |
| Soundness.VerdictSound | controllers/configurationpolicy_utils.go:151-274 | if no list element is lost, no update needed for a map means every template key is satisfied at its path and every template list is placed one to one in the existing list |
| Soundness.VerdictExact | controllers/configurationpolicy_utils.go:151-274 | for templates without lists, whether or not absent entries count as zero (and then without nil entries), no update is needed if and only if the object satisfies the template |
| Soundness.ListVerdictSound | controllers/configurationpolicy_utils.go:304-346 | no update needed for a top-level list gives each template element an existing element of its own, which can only be an empty map where a map is taken for something else; otherwise it is satisfied by it if nothing inside is lost and the comparison spared to namesakes would pass, and if it has no lists in it, only then |
| Verdicts.StringListsExact | controllers/configurationpolicy_utils.go:304-346 | a musthave list of strings needs no update if and only if it has every string as often as the template |
| Verdicts.StringListsSettle | controllers/configurationpolicy_controller.go:2833-2930 | enforcing a list of strings settles at once, however often they are repeated |
| StringLists.StringTemplateSettles | controllers/configurationpolicy_controller.go:2778-2930 | if all lists of the template, and the existing ones in their places, are lists of strings, the merged value settles: no second update is asked for |
| StringLists.StringTemplateExact | controllers/configurationpolicy_utils.go:151-274 | for such templates (without nil entries where absent ones count as zero) no update is needed if and only if the object satisfies the template |
| StringLists.StringTemplateIsSafe | controllers/configurationpolicy_controller.go:3452-3532 | an object template of this kind is left as it is by comparing, and what an update or recreate writes settles; with storable labels and annotations nothing else need be known for `CheckAndUpdate` |
| Verdicts.MustOnlyHaveSound | controllers/configurationpolicy_utils.go:151-274 | an accepted mustonlyhave map satisfies the template |
| Verdicts.MustOnlyHaveExact | controllers/configurationpolicy_utils.go:194-274 | a mustonlyhave map without lists or nil entries in the template is accepted if and only if it satisfies the template and no map in it has more keys |
| Verdicts.MustOnlyHaveListMeans | controllers/configurationpolicy_utils.go:158-168 | an accepted top-level mustonlyhave list: as many elements, and each existing one, read as a template, is satisfied by a template element of its own |
| Verdicts.MustOnlyHaveListExact | controllers/configurationpolicy_utils.go:158-168 | each template element is satisfied by the existing one it is compared with if nothing of it is missing there but blank entries, and if it has no lists in it, only then |
| ObjectVerdict.NoUpdateMeans | controllers/configurationpolicy_controller.go:3452-3532 | an object for which handleKeys asks for no update satisfies every key of the template in which no list element is lost, and each list that is a key up to elements lost to an empty map |
| ObjectVerdict.NoUpdateMetadata | controllers/configurationpolicy_controller.go:3016-3025 | and if it is stored by the API server, its labels and annotations satisfy those of the template that are compared |
| ObjectExact.EntryExact | controllers/configurationpolicy_utils.go:151-192 | when a top-level key of a musthave template matches, for every kind of value: satisfied maps, inclusion of lists of strings, equal prints of scalars; with `zeroValueEqualsNil` nil and the zero value of a scalar match each other |
| ObjectExact.AbsentIsZero | controllers/configurationpolicy_utils.go:170-184 | where zero values print apart, an absent entry matches false, 0 and the empty string and nothing else, and only with `zeroValueEqualsNil` |
| ObjectExact.MetadataExact | controllers/configurationpolicy_utils.go:378-442 | metadata matches if and only if each label and annotation of the template, but the one that kubectl keeps, is there with the same text or quantity |
| ObjectExact.AcceptedExactly | controllers/configurationpolicy_controller.go:3452-3532 | for musthave templates of maps, scalars and lists of strings, nothing is asked of a stored object if and only if it satisfies every key but apiVersion and kind |
| ObjectExact.MatchesExactly | controllers/configurationpolicy_controller.go:2460-2475 | and a listed object matches an unnamed template if and only if it satisfies them with absent entries counting as zero |
| Limits.ScalarIsLost | controllers/configurationpolicy_controller.go:2885-2912 | an existing empty map is accepted in the place of any list element that is no map, which is then neither satisfied nor covered |
| Limits.AnyScalarCanBeLost | controllers/configurationpolicy_controller.go:2885-2912 | every element of a template list that is no map is lost to a list of empty maps |
| Limits.NilMapIsStoredAsNull | controllers/configurationpolicy_controller.go:2885-2912 | a lost element is stored as null, and the next evaluation asks for another update |
| Limits.RepeatedKeysDiverge | controllers/configurationpolicy_controller.go:2847-2927 | with elements that print alike a second merge changes the value and asks for another update |
| Limits.GreedyIsIncomplete | controllers/configurationpolicy_controller.go:2862-2927 | an update is asked for although each template element has a satisfying element of its own |
| Limits.MustOnlyHaveListUnsound | controllers/configurationpolicy_utils.go:158-168 | a top-level mustonlyhave list accepts an existing list that does not satisfy it |
| Limits.SameNameListUnsound | controllers/configurationpolicy_controller.go:2895-2912 | an element of the same name hides a value that does not satisfy the template |
| Limits.MustOnlyHaveExtraKeys | controllers/configurationpolicy_utils.go:194-210 | a map equal to the template has no more keys of its own than the template has zero entries it lacks, and none if it has all template keys |
| Limits.MustOnlyHaveMapUnsound | controllers/configurationpolicy_utils.go:194-210 | a zero value in the template lets any other key pass |
| Limits.BooleanLabelUnsettled | controllers/configurationpolicy_controller.go:3486-3496 | a template label that is a boolean drops all labels, and goes on asking for the same update |
| TemplateReuse.MovedSliceMissesElement | controllers/configurationpolicy_controller.go:2909-2925 | a template element that is merged after an append has moved the slice stays as it was for the caller |
| TemplateReuse.EmptyMapSpoilsList | controllers/configurationpolicy_controller.go:2885-2912 | a top-level template list of one element that is no map is found as an empty map, and sent as null, once it has met an empty map |
| TemplateReuse.NamesDependOnOrder | controllers/configurationpolicy_controller.go:2451-2482 | two objects that match a template are both listed in one order, and only one of them in the other |
| TemplateReuse.RetryMisjudges | controllers/configurationpolicy_controller.go:3220-3228 | an object that a fresh comparison leaves alone is to be updated when it is compared with the template that a conflicting attempt has left |
| NameList.BuildNameList | controllers/configurationpolicy_controller.go:2451-2482 | the names listed are those of the objects that match the template as the objects before them have left it |
| NameList.CompareListed | controllers/configurationpolicy_controller.go:2460-2475 | for every order of the keys, an object matches if every compared key does, and all top-level lists are overwritten even after a mismatch |
| NameList.SelectedExactly | controllers/configurationpolicy_controller.go:2451-2482 | a template that is left as it is selects exactly the objects that match it, as often as they are listed, if every listed object leaves the template as it is |
| NameList.OrderIsIrrelevant | controllers/configurationpolicy_controller.go:2451-2482 | and the order in which they are listed makes no difference |
| NameList.SteadfastInAnyList | controllers/configurationpolicy_controller.go:2451-2482 | every listed object leaves the template as it is if the template's top-level lists have no maps and the object's no empty maps, or with mustonlyhave |
| ObjectKeys.HandleKeys | controllers/configurationpolicy_controller.go:3452-3532 | for every order of the template's and the object's keys the same error, flags, rewritten object and overwritten template result; the keys outside the template stay or are dropped as the compliance type says |
| ObjectKeys.CompareKeys | controllers/configurationpolicy_controller.go:3461-3509 | the loop over the template's keys, which overwrites the template as it goes, fails if and only if some key has a type mismatch, and otherwise reports and rewrites all of them as if each were compared with the original template |
| ObjectKeys.RemoveKeys | controllers/configurationpolicy_controller.go:3511-3529 | mustonlyhave removes exactly the keys outside the template that are not exempt |
| OnlyMetadata.OnlyMetadataExact | controllers/configurationpolicy_utils.go:397-441 | with mustonlyhave, metadata needs no update exactly if the object has the labels and annotations of the template and no others but, on a v1 Namespace, those of OpenShift; the annotation of kubectl never counts |
| OnlyMetadata.OnlyMetadataWritten | controllers/configurationpolicy_controller.go:3487-3497 | what is sent has the labels and annotations of the template and the ones that stay with a namespace, a field that the template does not have is dropped, and all other metadata stays |
| ObjectKeys.MismatchMeans | controllers/configurationpolicy_controller.go:2979-3009 | the types do not match exactly when the template has a list or a map and the object something else that is not nil; against nil a map always differs, a list exactly when it is not empty; what is no list or map is sent as it is, and with mustonlyhave everything is |
| ObjectKeys.ResultOfOthers | controllers/configurationpolicy_controller.go:3511-3529 | keys outside the template stay as they are, but with mustonlyhave all are dropped except status, metadata, and the secrets and imagePullSecrets of a v1 ServiceAccount, and each dropped key asks for an update |
| SecondEvaluation.ValueSettles | controllers/configurationpolicy_controller.go:2951-3057 | a sent value of a key other than metadata that has all of the template and settles needs no update when compared again, and is not changed where it is unambiguous |
| SecondEvaluation.MetadataByField | controllers/configurationpolicy_utils.go:378-442 | the comparison of metadata is that of its labels and of its annotations, for any template |
| SecondEvaluation.FieldSettles | controllers/configurationpolicy_controller.go:3486-3496 | after one of the two was written, it differs again if and only if the template's is neither a map of strings nor blank, and the same is written again |
| SecondEvaluation.MetadataSettles | controllers/configurationpolicy_utils.go:378-442 | written metadata needs an update when compared again if and only if the template's labels or annotations cannot be stored; in any case the same would be written |
| SecondEvaluation.NothingLeftToRemove | controllers/configurationpolicy_controller.go:3511-3529 | the second evaluation removes no key |
| SecondEvaluation.ObjectSettles | controllers/configurationpolicy_controller.go:3452-3532 | after an update with sent values that have all of the template and settle, handleKeys on the stored object has no error and no mismatch, asks for an update if and only if the template's labels or annotations cannot be stored, and rewrites an unambiguous object to itself |
| EvaluationCache.WrittenCovers | controllers/configurationpolicy_controller.go:2980-3010 | what an update or a recreate sends for a key has all of the template if no list element is lost, or with mustonlyhave |
| EvaluationCache.RecreatedSettles | controllers/configurationpolicy_controller.go:3308-3378 | an object recreated from the template needs no update if what is sent has all of the template and settles, whichever elements of its top-level lists mergeArrays has overwritten before an append moved the slice |
| EvaluationCache.UpdatedIsCompliant | controllers/configurationpolicy_controller.go:3204-3294 | an object updated with values that have all of the template and settle is reported compliant by a fresh evaluation, where a dry run may depend on the stored object and the one sent |
| EvaluationCache.UnstorableIsReportedCompliant | controllers/configurationpolicy_controller.go:3283-3294 | with labels or annotations that cannot be stored it is so only because a dry run changes nothing, although the comparison asks for the same update again |
| EvaluationCache.DryRunDecides | controllers/configurationpolicy_controller.go:3214-3305 | what is reported after the dry run is the verdict of comparing anew, and a write without recreating follows only on an accepted dry run |
| EvaluationCache.NextIsAnswered | controllers/configurationpolicy_controller.go:3214-3356 | each answer to the dry run leads to its own report or write: an accepted change is updated in place unless the option is Always, an invalid one is created anew unless the option is Never |
| EvaluationCache.ConclusionIsAccounted | controllers/configurationpolicy_controller.go:3141-3395 | by induction over the conflicts: nothing is written unless enforced and different, the object is lost only to others or in a refused creation, and its content is one that was met or that is written for one that was met |
| EvaluationCache.StrippedMeans | controllers/configurationpolicy_controller.go:3534-3541 | the comparison with the dry run leaves out managedFields, generation and the annotation that kubectl keeps, and nothing else |
| EvaluationCache.StaleEntrySurvives | controllers/configurationpolicy_controller.go:275-278 | an entry made for the old templates is kept, and hit, if and only if the recorded generation is the new one |
| EvaluationCache.Evaluator.SetEvaluatedObject | controllers/configurationpolicy_controller.go:3545-3564 | the entry is stored for the object's UID and version, and every entry still tells what its object's comparison reports |
| EvaluationCache.Evaluator.Begin | controllers/configurationpolicy_controller.go:275-278 | entries are dropped exactly when the generation is not the recorded one; afterwards all are for the current templates if and only if they were dropped, the last evaluation was of this generation, or there are none, so always when the recorded generation was the evaluated one |
| EvaluationCache.Evaluator.Recreate | controllers/configurationpolicy_controller.go:3308-3346 | the object is deleted and created from the template as the comparison has left it, which fails if and only if its labels or annotations are no maps of strings |
| EvaluationCache.Evaluator.AlreadyEvaluated | controllers/configurationpolicy_controller.go:3567-3592 | a hit happens exactly at the cached version, and reports the verdict that comparing anew would give |
| EvaluationCache.Evaluator.Write | controllers/configurationpolicy_controller.go:3308-3393 | an enforced update stores the rewritten object, a recreate the template as it was left, and both are found compliant by a fresh evaluation; a refused creation leaves nothing and caches nothing |
| EvaluationCache.Evaluator.CheckAndUpdate | controllers/configurationpolicy_controller.go:3141-3395 | through any number of conflicts and retries with the template as it was left, compliant is only reported when the object the server has now is compliant; nothing is written unless enforced and different, what is written is the rewritten object or the template as it was left, and the object is lost only to others or in a refused creation; cached entries stay right; the server, the cache and the report are determined case by case: in place under the same UID, or anew under a new one, where an update in place meets the next conflict and the object that others have left is judged instead |
| EvaluationCache.Evaluator.Retry | controllers/configurationpolicy_controller.go:3220-3228 | after a conflict the object that others have stored is compared with the template as it was left, and what follows is what an evaluation of that object comes to; an object that is gone or cannot be read is noncompliant, and nothing is cached |
| Prune.ConfigurationPolicy.UpdatedRelatedObjects | controllers/configurationpolicy_controller.go:1879-1915 | the loops hand the creation record of the first old entry of the same object on to a new entry that did not create it |
| Prune.ConfigurationPolicy.CleanUpChildObjects | controllers/configurationpolicy_controller.go:543-698 | exactly the dropped objects are deleted that the behaviour asks for and, under DeleteIfCreated, whose live UID was recorded as created |
| Prune.ConfigurationPolicy.Evaluate | controllers/configurationpolicy_controller.go:1099-1108 | over every run: only enforced policies prune, nothing still reported is pruned, and under DeleteIfCreated only objects an earlier evaluation recorded as created |
| Prune.ConfigurationPolicy.HandleDeletion | controllers/configurationpolicy_controller.go:1213-1260 | deleting the policy prunes under the same conditions |
| Prune.PrunedMeans | controllers/configurationpolicy_controller.go:543-698 | an object is deleted exactly if the enforced policy has it among its related objects but no longer among the new ones, and deletes everything or calls the live object created by it |
| Prune.HandedOn | controllers/configurationpolicy_controller.go:1879-1915 | an entry that was not created now takes over the creation record and UID of the first old entry of its object; any other stays as it is |
| Prune.PlaceMeans | controllers/configurationpolicy_controller.go:1879-1915 | related objects are ordered by kind, namespace and name |
| Prune.UpdatedKeepsRecords | controllers/configurationpolicy_controller.go:1879-1915 | createdByPolicy and the UID travel together, so every claim of creation is a recorded one |
| Prune.UpdatedKeepsIds | controllers/configurationpolicy_controller.go:1879-1915 | the update keeps the reported objects, neither losing nor adding one |
| Events.BatchedEvents | controllers/configurationpolicy_controller.go:1846-1875 | for every order of the map the batches are the event lists aligned at their ends |
| Events.BatchesMeans | controllers/configurationpolicy_controller.go:1846-1875 | event i of m is in batch L - m + i, no batch is empty, the last one has every final event, and the batches are determined by the results |
| Events.CollectRelevant | controllers/configurationpolicy_utils.go:478-511 | the loop that starts over at the first noncompliant event keeps all events if all are compliant, and otherwise exactly the noncompliant ones, grouped by reason |
| StatusText.CreateStatus | controllers/configurationpolicy_utils.go:478-590 | compliance, reason and message are a function of the batch, whatever the orders of the maps |
| StatusText.GroupStatus | controllers/configurationpolicy_utils.go:633-741 | the part of one reason is that of its sorted names, namespaces and messages |
| StatusText.Combine | controllers/configurationpolicy_utils.go:601-629 | the consolidated messages are joined in the order of their formats |
| StatusText.OnlyRelevantMatters | controllers/configurationpolicy_utils.go:486-511 | once an event is noncompliant, the compliant ones make no difference to reason and message |
| StatusWording.WordingIs | controllers/configurationpolicy_utils.go:633-741 | the reason and message format for each known event reason, in the order in which they are reported |
| StatusWording.NamesMeans | controllers/configurationpolicy_utils.go:564-569 | the names of an event are those that were found, and else the name after the namespace in its key |
| StatusWording.MessageMeans | controllers/configurationpolicy_utils.go:610-627 | the sorted names stand in brackets after the kind, without names there are no brackets |
| StatusWording.MessagesMeans | controllers/configurationpolicy_utils.go:664-687 | messages of a reason without a wording follow each other in order, separated |
| StatusWording.SaidOnce | controllers/configurationpolicy_utils.go:478-741 | events of one known reason for objects of the same names are said once, with the names in brackets and the sorted namespaces |
| StatusWording.SaidVerbatim | controllers/configurationpolicy_utils.go:633-741 | events of another reason are said with their own messages, in the order of the objects' keys |
| Scheduling.RefusalIsExact | controllers/configurationpolicy_controller.go:405-538 | a refusal with a delay is refused at all times before now plus the delay and accepted from then on; one without stands for ever |
| Scheduling.RequeueIsInTime | controllers/configurationpolicy_controller.go:336-394 | coming back after the requeue delay of an evaluation is never too early |
| Scheduling.ForcedMeans | controllers/configurationpolicy_controller.go:405-538 | what makes a policy be evaluated whatever the time is |
| Scheduling.ReadyMeans | controllers/configurationpolicy_controller.go:405-538 | until when a policy that nothing forces is left alone |
| Scheduling.DecideMeans | controllers/configurationpolicy_controller.go:405-470 | an outdated copy of the policy is refused for a second, and a cleanup only asks for finalizers |
| Scheduling.NewStatusMeans | controllers/configurationpolicy_controller.go:3609-3670 | the state, time and generation that an evaluation writes |
| Scheduling.RequeueMeans | controllers/configurationpolicy_controller.go:336-394 | when a reconcile comes back by itself |
| Scheduling.ConfigurationPolicyReconciler.ShouldEvaluatePolicy | controllers/configurationpolicy_controller.go:405-538 | over every run, an evaluation that is no cleanup starts from a status reading like the last one written, so from an older one only within the same second, and unless forced not before the interval has passed since the beginning of the second of that write |
| Scheduling.ConfigurationPolicyReconciler.FindsTimeout | controllers/configurationpolicy_controller.go:448-459 | the loops find a recreate timeout if and only if some condition reports one |
| Scheduling.ConfigurationPolicyReconciler.UpdatePolicyStatus | controllers/configurationpolicy_controller.go:3671-3724 | up to three attempts with a re-read each; versions added carry the status, and without an error the last version is the one written |
| Scheduling.ConfigurationPolicyReconciler.AddForUpdate | controllers/configurationpolicy_controller.go:3609-3667 | the state is that of the details, the cache takes the time over exactly without an error, and the versions written block evaluations if and only if the server stored them in spite of an error and the cache is of another second |
| Scheduling.ConfigurationPolicyReconciler.ChangeByOthers | controllers/configurationpolicy_controller.go:416-424 | other changes of the policy keep the invariants and do not lift a block |
| Scheduling.WriteExtends | controllers/configurationpolicy_controller.go:3689-3721 | however the attempts end, stored versions are only added to, all with the new status |
| Scheduling.LostAnswer | controllers/configurationpolicy_controller.go:3689-3721 | a write whose answer is lost, with two refused retries, is stored and reported as an error |
| Scheduling.RecordedGenerationExact | controllers/configurationpolicy_controller.go:3643-3701 | for any number of status writes in an evaluation, the recorded generation is the evaluated one if and only if the version held before the last write was of it: always with one write, and after a successful write if and only if the policy had not been changed |
| Scheduling.NewerGenerationRecorded | controllers/configurationpolicy_controller.go:3643-3701 | a policy changed before the first of two status writes has its new generation recorded as evaluated, and with interval never it is never evaluated |
| OperatorStatus.OperatorPolicy.UpdateStatus | controllers/operatorpolicy_status.go:34-138 | one call is a step of the relation on conditions, related objects, state, generation and the returned flag |
| OperatorStatus.OperatorPolicy.SetCondition | controllers/operatorpolicy_status.go:41-55 | the condition is replaced or added, kept sorted by type, and reported as changed exactly when it differs in more than its time |
| OperatorStatus.OperatorPolicy.UpdateRelated | controllers/operatorpolicy_status.go:61-125 | the objects of the reported kind are replaced, with creation records carried over, exactly when some of them changed |
| OperatorStatus.CompareRelated | controllers/operatorpolicy_status.go:67-100 | for every order of the previous objects: a change is seen if and only if the lists differ in length or a previous object has no agreeing one of its name; records are carried over |
| OperatorStatus.OperatorPolicy.CalculateComplianceCondition | controllers/operatorpolicy_status.go:183-322 | compliant exactly when all required conditions are present with the right polarity and the deprecation clause holds |
| OperatorStatus.OperatorPolicy.UpdateComplianceCondition | controllers/operatorpolicy_status.go:142-162 | the Compliant condition and the state are those of the other conditions |
| StatusMeaning.CompliantMeans | controllers/operatorpolicy_status.go:183-322 | the policy is compliant if and only if the first condition of each named type is true, that of the catalog sources false, and that of deprecations true where they count |
| StatusMeaning.MissingMeans | controllers/operatorpolicy_status.go:183-322 | what is said of each part without a condition, in order |
| StatusMeaning.SetMeans | controllers/operatorpolicy_status.go:42-58 | setting a condition changes nothing exactly if the one of its type has the same message, reason and status |
| StatusMeaning.UnchangedMeans | controllers/operatorpolicy_status.go:61-100 | related objects count as unchanged exactly if there are as many, under the same names, and no pair of a name differs in compliance, reason or UID |
| StatusMeaning.CarriedMeans | controllers/operatorpolicy_status.go:78-85 | who created an object is carried over from one of the same name and UID, and nothing else is |
| StatusRuns.StepKeepsInvariant | controllers/operatorpolicy_status.go:34-138 | a call keeps condition types strictly sorted and related objects sorted, and makes state, Compliant condition and generation current |
| StatusRuns.EveryRunKeepsInvariant | controllers/operatorpolicy_status.go:34-138 | so does every sequence of calls from an empty status |
| StatusRuns.RefreshedConditions | controllers/operatorpolicy_status.go:142-162 | every condition is the one just set, the new Compliant one, or as before |
| StatusRuns.RepeatSettles | controllers/operatorpolicy_status.go:61-138 | repeating a call changes only timestamps, and asks for an event if and only if objects were replaced and two reported ones of the same name disagree |
| StatusRuns.OtherKindsKept | controllers/operatorpolicy_status.go:61-128 | related objects of other kinds are kept, in order |
| StatusRuns.CreationSurvives | controllers/operatorpolicy_status.go:78-85 | createdByPolicy survives while the object is reported under the same name and UID |
| InstallPlan.GetBundleDependencies | controllers/operatorpolicy_controller.go:2222-2290 | the recursion without a visited set terminates when the required packages are ranked, and returns the specified set |
| InstallPlan.DependenciesAreReachable | controllers/operatorpolicy_controller.go:2222-2290 | everything returned is reachable through the required packages of bundles that are read |
| InstallPlan.ReachableIsFound | controllers/operatorpolicy_controller.go:2222-2290 | the end of every chain of required packages is returned |
| InstallPlan.DependenciesExact | controllers/operatorpolicy_controller.go:2222-2290 | exactly the reachable packages are returned, also when some bundles cannot be read |
| InstallPlan.RankedExactly | controllers/operatorpolicy_controller.go:2222-2290 | a termination measure on a set of packages exists if and only if the set is closed and has no cycle |
| InstallPlan.ResolvableExactly | controllers/operatorpolicy_controller.go:2222-2290 | resolving a target has a termination measure if and only if no package that it requires, directly or not, is on a cycle |
| InstallPlan.DeclaredIsFollowed | controllers/operatorpolicy_controller.go:2239-2263 | a requirement that is followed is declared by a bundle of the package, and every declared one is followed if all bundles can be read |
| InstallPlan.TargetsRequirements | controllers/operatorpolicy_controller.go:2231-2263 | the requirements of a target CSV are those of the bundles of that very name, all of them if they can be read |
| InstallPlan.OwnPackage | controllers/operatorpolicy_controller.go:2236-2238 | a name `<package>.v<version>` belongs to its own package and to no other |
| Approval.GetApprovedCSVs | controllers/operatorpolicy_controller.go:2149-2217 | the CSVs one policy approves through one Subscription: exactly the permitted current CSV, and those of the plan whose package it requires, directly or not, on initial install or with automatic upgrades |
| Approval.ApprovedByPackage | controllers/operatorpolicy_controller.go:2149-2217 | a CSV of the plan named `<package>.v<version>` is approved if and only if the policy may approve the permitted current CSV, and it is that CSV or its own package is required |
| Approval.RequiredByOwnBundle | controllers/operatorpolicy_controller.go:2236-2263 | what a package requires is declared by the bundles named after that package |
| Approval.MatchMeans | controllers/operatorpolicy_controller.go:1859-1890 | whether a plan mentions neither CSV, or the current one before the installed one |
| Approval.PreferredMeans | controllers/operatorpolicy_controller.go:1859-1916 | which plans are preferred, and which are candidates |
| Approval.DueMeans | controllers/operatorpolicy_controller.go:1957-2035 | approval is due for a waiting plan of an enforced policy that is to install, or to upgrade automatically to another CSV |
| Approval.CurrentIsAllowed | controllers/operatorpolicy_controller.go:2172-2200 | the current CSV is permitted if and only if no versions are listed, or it is one of them or the starting CSV |
| Approval.GetRemainingCSVApprovals | controllers/operatorpolicy_controller.go:2067-2145 | the sorted CSVs that nobody entitled to has approved |
| Approval.NothingRemainsMeans | controllers/operatorpolicy_controller.go:2067-2145 | nothing remains if and only if somebody entitled to approves every CSV |
| Approval.RemainingShrinks | controllers/operatorpolicy_controller.go:2067-2145 | the remaining CSVs do not depend on the order of the Subscriptions, and more Subscriptions only shrink them |
| Approval.SelectInstallPlan | controllers/operatorpolicy_controller.go:1859-1916 | the first InstallPlan with the current CSV in the preferred form is chosen, otherwise the first of the highest generation among the candidates |
| Approval.MusthaveInstallPlan | controllers/operatorpolicy_controller.go:1936-2065 | a plan is approved if and only if approval is due and every CSV in it is approved by somebody entitled to; otherwise the report is determined, with the sorted CSVs that remain |
| Overlap.PolicyStore.CheckSubOverlap | controllers/operatorpolicy_controller.go:540-612 | one reconcile writes exactly the label and the sorted list of the policies it can see, and withholds accordingly |
| Overlap.PolicyStore.CollectOverlappers | controllers/operatorpolicy_controller.go:575-589 | the loop lists the policy itself and those others of its label and cluster that are enforced, in any order |
| Overlap.TextInjective | controllers/operatorpolicy_controller.go:575-589 | different policies have different texts |
| Overlap.TwoRoundsSettle | controllers/operatorpolicy_controller.go:540-612 | after two rounds in any orders every policy lists exactly its rivals and itself, or nobody |
| Overlap.SettledIsFixpoint | controllers/operatorpolicy_controller.go:540-612 | a settled state does not change, and exactly policies with rivals are withheld |
| Overlap.RivalsAgree | controllers/operatorpolicy_controller.go:540-612 | a policy and a rival it sees list the identical set if and only if the policy has both cluster labels |
| Overlap.ListedMeans | controllers/operatorpolicy_controller.go:540-575 | a policy looks for its own cluster labels, and for empty ones where it has none |
| Overlap.FirstReconcileMissesRivals | controllers/operatorpolicy_controller.go:540-612 | one round is not enough |
| Intervention.OperatorPolicyReconciler.ConsiderResolutionFailed | controllers/operatorpolicy_controller.go:1608-1742 | for each situation and time, whether the time is left, cleared or set, or the Subscription's status rewritten |
| Intervention.OperatorPolicyReconciler.HandleSubscription | controllers/operatorpolicy_controller.go:1339-1442 | a missing, unwanted or mismatched Subscription drops the time, an expired one is dropped once matched |
| Intervention.OperatorPolicyReconciler.Reconcile | controllers/operatorpolicy_controller.go:246-305 | over every run the status is rewritten only for a stored time that has passed and not expired, at least 30 clock seconds after its detection and after every other stored time or clearing before it |
| Intervention.EffectIsDetermined | controllers/operatorpolicy_controller.go:1608-1742 | at one instant, situation and stored time decide what is done |
| Intervention.EffectMeans | controllers/operatorpolicy_controller.go:1608-1742 | at one instant: dropped without a Subscription to fix or when expired, set when the message names a culprit, and the status rewritten once the time has come and the CSV is alone |
| Intervention.StoredWait | api/v1beta1/operatorpolicy_types.go:284-291 | a stored time has come if and only if the clock shows 30 seconds more than at its detection |
| Intervention.WaitedLongEnough | api/v1beta1/operatorpolicy_types.go:274-291 | an unexpired stored time has come if and only if the clock shows 30 seconds more than at its detection and than when anything else was stored before it |
| Intervention.WaitIsCutShort | controllers/operatorpolicy_controller.go:1674-1675 | the full 30 seconds always pass if and only if the detection was at the beginning of a second |
| NamespaceSelection.MatchPatterns | pkg/common/pattern_util.go:25-57 | the first pattern that matches or is malformed decides |
| NamespaceSelection.Matches | pkg/common/pattern_util.go:14-67 | the names selected before the first malformed pattern is met, and whether one was |
| NamespaceSelection.ChosenMeans | pkg/common/pattern_util.go:14-67 | with valid patterns exactly the names that an include matches, if there are any, and no exclude |
| NamespaceSelection.FilterMeans | pkg/common/namespace_selection.go:306-337 | a well-formed target selects, sorted, exactly the namespaces its labels, includes and excludes ask for |
| NamespaceSelection.SelectsMeans | pkg/common/namespace_selection.go:306-337 | what a target asks for, by selector, includes and excludes |
| NamespaceSelection.NothingIsSelected | pkg/common/namespace_selection.go:306-320 | an empty target selects nothing, and a malformed selector fails |
| NamespaceCache.ReconcileIsFresh | pkg/common/namespace_selection.go:96-158 | a well-formed entry lists what its own target selects now, and is marked if and only if that was news |
| NamespaceCache.ReconcileOfMalformed | pkg/common/namespace_selection.go:96-158 | an entry whose target cannot be used fails, and is marked exactly if it had not failed before |
| NamespaceCache.HitMeans | pkg/common/namespace_selection.go:161-175 | a cached list is used again only for a target of the same text |
| NamespaceCache.NamespaceSelectorReconciler.Get | pkg/common/namespace_selection.go:161-251 | a hit returns the cached list and clears its mark, a miss stores and returns what filter computes |
| NamespaceCache.NamespaceSelectorReconciler.Reconcile | pkg/common/namespace_selection.go:96-158 | every entry's list becomes the filter of the current namespaces |
| NamespaceCache.NamespaceSelectorReconciler.HasUpdate | pkg/common/namespace_selection.go:255-261 | without an update, the cached list is the one Get returned last |
| NamespaceCache.NamespaceSelectorReconciler.Stop | pkg/common/namespace_selection.go:263-268 | exactly the entry of the policy is dropped |
| NamespaceCache.NextKeepsInvariant | pkg/common/namespace_selection.go:96-304 | each lock section keeps every entry the filter of its own target over some past namespaces |
| NamespaceCache.EveryRunKeepsInvariant | pkg/common/namespace_selection.go:96-304 | so does every interleaving of lock sections |

## Left out

- Convergence.EnforcementConverges: that the merge is unambiguous is sufficient, and not shown to be necessary: some lists with map elements that print alike converge too.
- Convergence.EnforcementSettles: lists inside the elements of a list, whose order changes because the existing list repeats a template element, and lists with different elements that are sorted alike (a number and a string of the same text, say), are not covered.
- Verdicts.MustOnlyHaveListExact: for template elements that have lists in them, only that filled elements are satisfied; the partner of a nested element is not unique.
- Soundness.VerdictExact: where absent entries count as zero, a nil in the template is not covered.
- EvaluationCache.Evaluator.CheckAndUpdate: assumes one template for each object, that the values written settle, and that an attempt that meets a conflict has left the template as it was, since otherwise the cached verdict can be wrong (`TemplateReuse.RetryMisjudges`), depending on what others have stored; two templates for one object overwrite each other's entries in the source. If the template's labels or annotations cannot be stored, the values must be unambiguous, since the verdict then depends on a dry run.
- EvaluationCache.Evaluator.Recreate: apart from labels and annotations, the creation succeeds.
- Soundness.VerdictSound: an accepted template may be satisfied although an element was lost, when another existing element has the same; that it is not lost is exact for the merged value only.
- NameList.SelectedExactly: when some object overwrites the template otherwise than as it was, whether a name is missing depends on the objects after it; the comparison of the one object that matched, which follows with the same template, is like a retry.
- Approval.GetApprovedCSVs: plans in which the current CSV requires a package that is on a cycle, for which the recursion of the source does not end.
- Approval.GetRemainingCSVApprovals: API errors, and the parsing of the managed-by annotation, are results handed in.
- OperatorStatus.OperatorPolicy.CalculateComplianceCondition: the source's unrolled blocks, one for each kind, are a loop over a table of the required conditions; the message text is opaque.
- StatusRuns.StepKeepsInvariant: conditions of the type Compliant are only set by the status itself, as in the source.
- Scheduling.ConfigurationPolicyReconciler.UpdatePolicyStatus: changes by others between two attempts of one update show as refusals, and a policy deleted and created again in between is another policy.
- Scheduling.ConfigurationPolicyReconciler.ChangeByOthers: others leave the time of the last evaluation alone.
- Intervention.OperatorPolicyReconciler.Reconcile: one policy, whose reconciles do not overlap, as the work queue ensures.
- NamespaceCache.EveryRunKeepsInvariant: says nothing about freshness while Get and Reconcile interleave, about a stored error when the list is unchanged, or about a Stop that races a Reconcile, because the source does not ensure these.
- Prune.ConfigurationPolicy.Evaluate: live UIDs are taken to be non-empty, and "recorded as created" is what the source records by a change of UID, which is not always a creation by the policy.
- The difference between integer and floating-point numbers, and deep copies of JSON: numbers are one kind of value, and the `mergeSpecs` copy of the template through JSON is the identity.
- Nil slices and maps, which print and compare like empty ones here; of the nil maps that `mergeArrays` itself makes, the model has that they are marshalled as null and copied as such (`Merge.Value`).
- MergeInPlace.MergeArraysInPlace: the loops are run on a template slice without nil maps of an earlier comparison; such a slice is compared again as `Merge.Found` has it.
- Decoding a Secret's `stringData` before comparing.
- Approval.SelectInstallPlan: the reports made before it when the Subscription names no CSV or no InstallPlan is listed.
- Sharing of the Properties pointers of related objects between old and new lists.
- Kubernetes clients, watches, retries with sleeps, the list order of caches, OLM's own behaviour: parameters or arbitrary results. Times and durations do not overflow.
- Go templates, hub templates, encryption, OpenAPI validation, YAML diffs, custom compliance messages: they depend on libraries that are not modelled.
- `determineDesiredObjects`, which is mostly template and API calls.
- Logging, metrics, events sent to the parent policy, the dry-run command line, the uninstall trigger, and the constructors of conditions and related objects.
