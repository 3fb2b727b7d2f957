# template-extract in Dafny

A model of the placeholder extractor in `template.go`. The extractor takes a
parsed Go `text/template` and builds three views of the placeholders in it:

- **raw placeholders**: the rendered text of every action node, met in a
  pre-order, left-to-right walk that descends only into list nodes. Repeats
  are kept.
- **clean placeholders**: derived from a de-duplicated copy of the raw ones
  (`cRaw`). Each entry that splits on `.` into exactly two parts contributes
  the second part, with white space trimmed first and one trailing `}}`
  removed afterwards.
- **placeholder map**: every clean placeholder as a key, each with the
  empty value.

Layout, one module per file:

| file | module | contents |
|---|---|---|
| `wrappers.dfy` | `Wrappers` | `Option` and `Result` |
| `seqs.dfy` | `Seqs` | `IndexOf` and `NoDuplicates` on sequences |
| `strings.dfy` | `GoStrings` | Go's `strings.Split` (one-character separator), `TrimSpace` (with `unicode.IsSpace`), `TrimSuffix` |
| `tree.dfy` | `Parse` | the parse tree and `listTemplateNodes` |
| `placeholders.dfy` | `Placeholders` | `clean` and `populatePlaceHoldersMap` |
| `extractor.dfy` | `TemplateExtract` | the extractor state, `NewTemplateDataExtractor`, `ExtractPlaceHolders` and the getters |
| `scenarios.dfy` | `Scenarios` | the cases of `template_test.go`, for any field and variable names |

The Go extractor is a `*templateDataExtractor` whose methods mutate it. Here
the state is an immutable `Extractor` value, and `ExtractPlaceHolders` is a
function from the state before a call to the state after it.

The Go loops are also written as methods with loop invariants. These are
`ListTemplateNodes`, `UniqueCopy`, `AppendCleaned`, `Clean`,
`PopulatePlaceHoldersMap` and `RunExtractPlaceHolders`. Each method is
proved equal to the functional definition.

The tree is `Action(text) | List(children) | Other(nested)`.
- `Other` stands for every node that is neither an action nor a list: text
  runs, and also `if`, `range` and `with` nodes, whose bodies the Go walk
  never enters.
- So an action written inside `{{if}}` is never extracted. This is shown by
  `Scenarios.ActionUnderIfIsMissed`.

Where the code and the comments or names around it suggest different
behaviour, the model follows the code:
- The raw placeholders are not de-duplicated; only the local copy `cRaw`
  is. The comment above `clean` speaks of removing duplicates.
  `template_test.go:29` expects four raw entries.
- White space is trimmed before `}}` is removed (`template.go:82`). The
  order shows only on a text with white space right before `}}`: there the
  space stays in the clean placeholder (`Scenarios.SpaceBeforeClosingKept`).
  `String()` never renders an action that way, because it prints nothing
  between the pipeline and `}}`. So the template `{{.a }}` renders as
  `{{.a}}` and yields `a`. For every text rendered without that space, the
  two orders give the same result (`Placeholders.TrimOrderAgrees`).
- An assignment such as `{{$Name := .Name}}` holds exactly one `.`, so it
  contributes `Name`. A bare variable `{{$Name}}` holds none and
  contributes nothing.
- The clean placeholders are not de-duplicated again. Repeats collapse
  only as map keys.

## Model

| member | source | states |
|---|---|---|
| TemplateExtract.NewTemplateDataExtractor | template.go:36-48 | an absent template is rejected with the "nil template" error and only then; otherwise the extractor holds the template and all three views are empty |
| TemplateExtract.NewIsConsistent | template.go:36-48 | a new extractor satisfies the views' invariant: every clean placeholder comes from a raw one, the map keys are exactly the clean placeholders, every value is empty |
| TemplateExtract.WalkTemplate | template.go:52 | the raw placeholders of one walk from the template's root list node, `Tree.Root`; what that walk yields is stated by `Parse.WalkIsPreOrder` and `Parse.WalkMembership` |
| TemplateExtract.Extractor.GetRawData | template.go:96-98 | returns the raw placeholders held in the state; `FreshExtraction` and `ExtractTwice` state what they are |
| TemplateExtract.Extractor.GetCleanData | template.go:101-103 | returns the clean placeholders held in the state; `FreshExtraction` and `ExtractTwice` state what they are |
| TemplateExtract.Extractor.GetMapData | template.go:106-108 | returns the placeholder map held in the state; `FreshExtraction` and `ExtractTwice` state what it is |
| TemplateExtract.ExtractPlaceHolders | template.go:51-55 | a pass keeps the template, appends the walk's output to the raw placeholders, adds at most one clean placeholder per distinct raw one, and makes the map keys the old keys plus the clean placeholders |
| TemplateExtract.RunExtractPlaceHolders | template.go:51-55 | walking, cleaning and populating in sequence, as the three Go methods do, yields exactly the state of one functional pass |
| TemplateExtract.ExtractPreservesConsistent | template.go:51-55 | every pass, the first or a repeated one, keeps the invariant that each clean placeholder comes from some raw one, the map keys are the clean placeholders and all values are empty |
| TemplateExtract.CleanFromRaw | template.go:70-85 | every clean placeholder derived from the raw placeholders is the clean form of one of them |
| TemplateExtract.FreshExtraction | template.go:51-55 | after one pass over a new extractor: raw is the walk, clean is derived from its de-duplicated copy, \|clean\| ≤ \|cRaw\| ≤ \|raw\|, the map keys are exactly the clean placeholders and every value is empty |
| TemplateExtract.ActionFreeTemplate | template.go:58-67 | a template with no action node anywhere in its tree yields empty raw, clean and map views |
| TemplateExtract.ExtractTwice | template.go:51-55 | a second pass on the same extractor appends the walk's output to raw again and the same clean placeholders to clean again, and leaves the map as it was |
| TemplateExtract.ExtractAgain | template.go:51-55 | from a once-extracted state, a pass doubles raw and clean and changes neither the template nor the map |
| Parse.Walk | template.go:58-67 | what one `listTemplateNodes(n)` call appends: an action's text, a list's children walked in order, nothing for any other node; its partner is `Parse.WalkIsPreOrder` |
| Parse.WalkAll | template.go:63-65 | the walks of sibling nodes, concatenated left to right; its partner is `Parse.WalkAllIsPreOrder` |
| Parse.ListTemplateNodes | template.go:58-67 | the recursive Go walk appends exactly `Walk(n)` to the raw placeholders it is given |
| Parse.WalkIsPreOrder | template.go:58-67 | the walk's output is the texts of the action nodes in the pre-order listing of the tree, where the listing descends only into list nodes |
| Parse.WalkAllIsPreOrder | template.go:62-66 | the same for a sequence of sibling nodes, left to right |
| Parse.WalkMembership | template.go:58-67 | a text is a raw placeholder of a node exactly when an action node carrying it is reached by the walk |
| Parse.WalkAllAppend | template.go:63-65 | walking two runs of siblings gives the first run's output followed by the second's |
| Parse.ActionTextsMembership | template.go:59-61 | a text is among the action texts of a node list exactly when an action node with that text is in the list |
| Parse.ActionFreeWalk | template.go:58-67 | a node with no action node anywhere below it contributes no raw placeholder |
| Placeholders.Dedup | template.go:71-78 | the copy `cRaw`: never longer than raw; `Placeholders.DedupIsFirstOccurrences` and `Placeholders.DedupUnique` characterise it completely |
| Placeholders.UniqueCopy | template.go:71-78 | the first loop of `clean`, with its set of seen texts, builds exactly `Dedup(raw)` |
| Placeholders.DedupIsFirstOccurrences | template.go:71-78 | `cRaw` has no repeats, holds exactly the texts of raw, and lists them in the order of their first occurrence in raw |
| Placeholders.DedupUnique | template.go:71-78 | any sequence with those three properties is `Dedup(raw)`, so they define `cRaw` completely |
| Placeholders.DedupDistinct | template.go:71-78 | raw placeholders without repeats are copied unchanged |
| Placeholders.DedupAbsorb | template.go:71-78 | appending texts already present to raw leaves `cRaw` unchanged |
| Placeholders.CleanEntry | template.go:80-84 | the clean placeholder one entry of `cRaw` yields, if any; `Placeholders.CleanEntryMeaning` states which entries yield one and what it is |
| Placeholders.CleanAll | template.go:79-85 | the clean placeholders the second loop appends for `cRaw`: no more than `cRaw` has entries; `Placeholders.CleanAllFromSources` and `Placeholders.CleanAllMembership` state which they are |
| Placeholders.CleanEntryMeaning | template.go:80-84 | an entry yields a clean placeholder exactly when it holds exactly one `.`; the placeholder is the text after that dot, white space trimmed, then one `}}` removed, and holds no dot |
| Placeholders.CleanEntryField | template.go:80-84 | a dot-free prefix, a `.`, a dot-free name not starting with white space, then `}}`, yields exactly that name |
| Placeholders.TrimOrderAgrees | template.go:82 | for a text ending in `}}` with no white space right before it, as `String()` renders actions, trimming white space before or after removing `}}` gives the same result |
| Placeholders.CleanEntryNoDot | template.go:80-81 | an entry with no `.` contributes nothing |
| Placeholders.SourcesContribute | template.go:79-85 | the entries of `cRaw` that contribute are exactly those whose split gives two parts |
| Placeholders.CleanAllFromSources | template.go:79-85 | the clean placeholders are, one for one and in order, the clean forms of the contributing entries of `cRaw` |
| Placeholders.CleanAllMembership | template.go:79-85 | a text is a clean placeholder exactly when some entry of `cRaw` yields it |
| Placeholders.AppendCleaned | template.go:79-85 | the second loop of `clean` appends exactly the clean placeholders derived from `cRaw`, to whatever clean placeholders were already there |
| Placeholders.Clean | template.go:70-86 | `clean` appends the clean placeholders derived from the de-duplicated raw placeholders |
| Placeholders.PopulateMap | template.go:89-93 | the map's keys become the old keys plus every clean placeholder; those keys hold the empty value and every other key keeps its value |
| Placeholders.PopulateMapAgain | template.go:89-93 | populating a map whose keys already hold the empty value for every clean placeholder changes nothing |
| Placeholders.PopulatePlaceHoldersMap | template.go:89-93 | the Go loop over the clean placeholders builds exactly `PopulateMap` |
| GoStrings.Split | template.go:80 | `strings.Split` on a one-character separator: always at least one part; `GoStrings.SplitPieces`, `GoStrings.JoinSplit` and `GoStrings.SplitJoin` relate it to its inverse `Join` |
| GoStrings.SplitPieces | template.go:80 | `strings.Split` on `.` gives one more part than there are dots, and no part holds a dot |
| GoStrings.JoinSplit | template.go:80 | re-joining the parts of a split with the separator gives back the text |
| GoStrings.SplitJoin | template.go:80 | splitting the join of separator-free parts gives back those parts |
| GoStrings.SplitOneSep | template.go:80-81 | a text with exactly one separator splits into the text before it and the text after it |
| GoStrings.TrimLeftDrops | template.go:82 | left trimming keeps a suffix, drops only white space and stops at a character that is not white space |
| GoStrings.TrimRightDrops | template.go:82 | right trimming keeps a prefix, drops only white space and stops at a character that is not white space |
| GoStrings.TrimSpace | template.go:82 | `strings.TrimSpace`: never longer than its input; `GoStrings.TrimSpaceTrims` states what it removes and what remains |
| GoStrings.TrimLeftAppend | template.go:82 | left trimming stops at a text that starts with a character other than white space, so it leaves a trailing `}}` in place |
| GoStrings.TrimSpaceTrims | template.go:82 | `strings.TrimSpace` leaves a slice of the text with only white space around it, and the slice neither starts nor ends with white space |
| GoStrings.TrimSpaceKeeps | template.go:82 | a text with no white space at either end is left as it is |
| GoStrings.TrimSpaceIdempotent | template.go:82 | trimming twice is trimming once |
| GoStrings.TrimsKeepOut | template.go:82 | trimming white space and then a suffix never introduces a character |
| GoStrings.TrimSuffix | template.go:82 | `strings.TrimSuffix` removes the suffix exactly when the text ends with it, and otherwise returns the text unchanged |
| GoStrings.TrimSuffixAppend | template.go:82 | appending a suffix and trimming it gives back the text |
| Scenarios.TwoFields | template_test.go:19-25 | for `Hello, {{.a}}! Your number is {{.b}}.`, raw is the two actions, clean is `[a, b]`, and the map has keys a and b with empty values |
| Scenarios.RepeatedFields | template_test.go:26-32 | with both actions repeated, raw keeps all four, while clean is still `[a, b]` and the map is unchanged |
| Scenarios.Assignments | template_test.go:33-39 | with two assignments and two bare variables, raw holds all four actions, clean is `[a, b]` (from the assignments), and the map has keys a and b |
| Scenarios.NoPlaceholder | template_test.go:40-46 | a template of text only yields empty raw, clean and map views |
| Scenarios.ActionUnderIfIsMissed | template.go:62-66 | an action inside an `if` node is never reached, because only list nodes are descended into |
| Scenarios.SpaceBeforeClosingKept | template.go:82 | since white space is trimmed before `}}` is removed, a text ending in `a }}` (which `String()` does not render) yields `a ` with the space |
| Scenarios.AssignmentsDistinct | template_test.go:36 | the four raw placeholders of the assignment case are pairwise distinct |
| Scenarios.AssignActionClean | template_test.go:35-37 | an assignment `{{$v := .name}}` yields `name` |
| Scenarios.VarActionClean | template_test.go:35-37 | a bare variable `{{$v}}` yields nothing |

## Left out

- The `text/template` parser and `parse.Node.String()`, which are outside
  this repository. The tree is an input value, and each action carries its
  rendered text as a given string.
- A `*template.Template` that is not nil but has a nil `Tree`. The Go code
  dereferences it and panics; here a template always has a root.
- The map's value type `interface{}`. The value is the string `""`
  (`Placeholders.Unset`).
- Go map iteration order, and the aliasing of the slices and map that the
  getters return. The views are plain values here.
- The template as a shared, mutable object. Go keeps a `*template.Template`
  and reads `Tree.Root` through it on every call (`template.go:52`), so a
  caller that replaces the exported `Tree` between two calls gets the new
  tree walked. Here the template is a value stored in the state.
  `TemplateExtract.ExtractPlaceHolders` holds for any state, so a tree
  swapped in as `e.(tmpl := t')` is walked on the next pass. But
  `TemplateExtract.ExtractTwice` and `TemplateExtract.ExtractAgain` speak
  only of a tree left unchanged between the two calls.
- Strings are sequences of Unicode code points. Go's byte-level handling of
  invalid UTF-8 in `Split` and `TrimSpace` is not modelled.
- The concrete names `Name` and `Number` from the test table. The
  scenarios are stated for any names that hold no `.` and do not start
  with white space, which covers them.
- The `TemplateDataExtractor` interface and the `*templateDataExtractor` receiver. The
  getters are member functions of the `Extractor` value.
