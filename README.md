# vscode-ex-task in Dafny

A model of the logic behind a VS Code extension that keeps a per-workspace task list in the
file `.vscode/patch-test.json`. The file holds a `version` and a list of task records. Each
record has an `id`, a `label`, a type, a command with arguments, optional group, presentation,
problem matcher and options, and an optional `resource` list of URI strings. A task whose `id`
is -1 has not been submitted to the (simulated) remote service yet.

The model covers:

- the brace-counting scanner that "show task details" uses to find a task's block in the file
  text (`SpanScanner`), and the plain label-line search of "edit task";
- the label-keyed edits the commands make to the parsed file (`TaskList`):
  - submitting (set the remote id);
  - deleting;
  - replacing the resource list;
  - appending a task made from a template;
  - the unsubmitted filter;
  - generating the default file;
- the resource-list actions of "manage task resources" and the parse of a typed comma list
  (`ResourceEdits`);
- the content-type → extension → editor-language tables used when a network resource is opened
  (`ContentTypes`), with `path.basename`/`path.extname` on `/`-separated names (`Paths`);
- the built-in templates, the default configuration and the template manager (`TaskTypes`);
- the tree-view nodes and `getChildren` (`ViewNodes`).

JavaScript built-ins the code relies on are written out:

- in `Strings`: `trim` with the ECMAScript whitespace set, `includes`, `startsWith`, `split`
  and `join`;
- in `Sequences`: `findIndex`/`find`, `splice`, `filter` and `map`.

Where the code changes things in place, the model does too:

- `TaskTypes.TemplateManager` is a class whose `templates` field `AddTemplate` and
  `RemoveTemplate` update;
- `TaskList.ParsedConfig` holds the parsed file, and its methods make the edits the commands
  make before writing back;
- the scanner and the label search are methods with loops.

Each method is proved against a specification function, and the properties are lemmas about
those functions. Dialog answers and the random remote id are parameters.

The `resource` field is read by the code (src/commands.ts:116, src/viewProviders.ts:51). It is
not declared in the `TaskDefinition` interface (src/taskTypes.ts:10-22). The model adds it as
`Option<seq<string>>`.

## Model

| member | source | states |
|---|---|---|
| Strings.TrimSpec | src/commands.ts:52 | `trim` removes only whitespace, from both ends. It keeps the inside untouched, and the result starts and ends with a non-whitespace character. |
| Strings.TrimBlank | src/commands.ts:654 | A string trims to empty exactly when it is all whitespace. |
| Strings.TrimTwice | src/commands.ts:654 | Trimming is idempotent. |
| Strings.ContainsIff | src/commands.ts:55 | `includes` holds exactly when the needle occurs at some index. |
| Strings.LastIndexOfChar | src/commands.ts:722 | Gives -1 exactly when the character is absent. Otherwise it gives an index holding the character, with no occurrence after it. |
| Strings.Split | src/commands.ts:654 | `split` gives at least one piece, no piece holds the separator, and joining the pieces gives the input back. |
| Strings.SplitJoin | src/commands.ts:654 | Splitting a join of separator-free pieces gives the pieces back. |
| Strings.SplitConcat | src/commands.ts:654 | Splitting around one separator is the concatenation of the two splits. |
| Sequences.FirstIndex | src/commands.ts:186 | `findIndex`: -1 exactly when nothing passes. Otherwise it is the smallest passing index. |
| Sequences.Find | src/taskTypes.ts:240 | `find`: none exactly when nothing passes. Otherwise it is the element at the first passing index. |
| Sequences.RemoveAt | src/commands.ts:554 | `splice(k, 1)`: one shorter, the order is kept around the gap, and the multiset loses exactly that element. |
| Sequences.FilterSpec | src/commands.ts:288 | Every element kept by `filter` comes from the input and passes the test. Every passing element of the input is kept. |
| Sequences.FilterConcat | src/commands.ts:288 | `filter` distributes over concatenation, so file order is kept. |
| Sequences.Map | src/viewProviders.ts:93 | `map` keeps the length and maps index by index. |
| Paths.LastSegment | src/viewProviders.ts:12 | The part after the last `/` is a suffix of the name holding no `/`. It is the name itself when the name has no `/`. |
| Paths.TrimTrailingSlashes | src/viewProviders.ts:12 | The result is a prefix that does not end in `/`, and only slashes were removed. |
| Paths.Basename | src/viewProviders.ts:12 | `path.basename` holds no `/`, and a name without `/` is its own basename. |
| Paths.Extname | src/commands.ts:722 | `path.extname` is empty, or a `.` followed by text with no `.` and no `/`. |
| TaskTypes.DefaultTemplatesWellFormed | src/taskTypes.ts:70-220 | There are seven built-in templates, each unsubmitted (`id` -1), and their names are pairwise distinct. |
| TaskTypes.DefaultConfigShape | src/taskTypes.ts:223-229 | The default configuration has version `2.0.0` and exactly templates 0 and 1 (npm-build, npm-test), in that order, all unsubmitted. |
| TaskTypes.DefaultTemplateLabelsCollide | src/taskTypes.ts:70-220 | npm-build and yarn-build have distinct names but the same task label. |
| TaskTypes.TemplateByName | src/taskTypes.ts:239-241 | `getTemplateByName` gives none exactly when no template has the name. Otherwise it gives the first template with that name. |
| TaskTypes.InstantiateTemplate | src/taskTypes.ts:243-255 | Gives null for an unknown name. Otherwise it gives a copy of the template's task: equal field for field without custom args, and differing only in `args`, which are the custom args, with them. |
| TaskTypes.TemplateManager.constructor | src/taskTypes.ts:233 | The manager starts with the built-in templates. |
| TaskTypes.TemplateManager.GetTemplates | src/taskTypes.ts:235-237 | Gives the current list. |
| TaskTypes.TemplateManager.GetTemplateByName | src/taskTypes.ts:239-241 | Gives none exactly when no template has the name. Otherwise it gives the template at the first index with that name. |
| TaskTypes.TemplateManager.CreateTaskFromTemplate | src/taskTypes.ts:243-255 | Its result is `InstantiateTemplate` of the current list. |
| TaskTypes.TemplateManager.AddTemplate | src/taskTypes.ts:257-259 | The old list is a prefix and the new template is last. |
| TaskTypes.TemplateManager.RemoveTemplate | src/taskTypes.ts:261-268 | Returns true exactly when some template has the name. It then removes the first such template; otherwise the list is unchanged. |
| TaskTypes.AddThenRemoveRestores | src/taskTypes.ts:257-268 | Adding a template with a new name and then removing it by name gives the old list back. |
| SpanScanner.FirstMatchIn | src/commands.ts:78-84 | Gives the first line in the range whose trimmed text contains `"label"` and the quoted label, or -1 exactly when none does. |
| SpanScanner.Step | src/commands.ts:51-89 | One line of the scan. A reported span ends at this line, starts where the open block started (or here), and its label line is the block's first match. |
| SpanScanner.ScanFromShape | src/commands.ts:44-95 | A found span lies in the file, with start ≤ label line ≤ end and the label line being the block's first match. |
| SpanScanner.FoundSpanShape | src/commands.ts:76-84 | When found: start ≤ label line ≤ end, the trimmed label line contains `"label"` and `"<label>"`, and no earlier line of the block does. |
| SpanScanner.HeaderLineSkipped | src/commands.ts:55-58 | A line that contains `"tasks"` and `[` only switches into the array, leaving depth and block start alone. |
| SpanScanner.OutsideArrayLineSkipped | src/commands.ts:61-63 | Before the array is entered, any other line leaves the state unchanged. |
| SpanScanner.NoHeaderNotFound | src/commands.ts:44-63 | A file with no header line gives -1 in all three results. |
| SpanScanner.SkipToHeader | src/commands.ts:51-63 | The scan up to the first header line is a fresh scan starting after it. |
| SpanScanner.BeforeHeaderIrrelevant | src/commands.ts:44-63 | Lines before the first header line never affect the result. |
| SpanScanner.StepAgree | src/commands.ts:65-84 | A step reads only its own line and the lines of the open block. |
| SpanScanner.ScanPrefix | src/commands.ts:51-94 | Scanning a prefix finds the same span when the span closes inside the prefix, and nothing otherwise. |
| SpanScanner.StopsAtFirstMatchingBlock | src/commands.ts:78-94 | The scan stops at the first completed block holding a match; later lines never matter. |
| SpanScanner.EditLineNotAfterSpanLabel | src/commands.ts:497-504 | The unscoped "edit task" search finds a line at or before the scanner's label line. It finds nothing only when the scanner does too. |
| SpanScanner.SearchLabelLine | src/commands.ts:78-84 | The search loop gives `FirstMatchIn` of the trimmed lines. |
| SpanScanner.EditTaskLine | src/commands.ts:497-504 | The "edit task" line is the first matching line of the whole file, or -1. |
| SpanScanner.ScanLine | src/commands.ts:52-84 | The loop body for one line, with its `continue`s and its inner search, does exactly what `Step` says. |
| SpanScanner.ShowTaskDetailsScan | src/commands.ts:44-95 | The loop, stopping at its `break`, reports exactly `FindTaskSpan` of the lines. |
| TaskList.LabelIndex | src/commands.ts:186 | `findIndex` by label: -1 exactly when no task has the label. Otherwise it is the first task with it. |
| TaskList.WithIdOfLabel | src/commands.ts:186-188 | Only the `id` of the first task with the label changes: the same length, every other task and field unchanged, and the new id stored. |
| TaskList.WithResourceOfLabel | src/commands.ts:682-684 | Only the `resource` of the first task with the label changes, and it becomes the new list. |
| TaskList.WithoutLabel | src/commands.ts:552-554 | No match leaves the list unchanged. Otherwise it drops exactly the first match: one shorter, the order kept, the multiset less that task. |
| TaskList.UnsubmittedSpec | src/commands.ts:288 | The unsubmitted filter keeps exactly the tasks with id -1, and is empty exactly when none has. |
| TaskList.UnsubmittedConcat | src/commands.ts:288 | The unsubmitted filter keeps file order. |
| TaskList.PendingLabels | src/commands.ts:296 | The quick pick offers, in file order, the label of each unsubmitted task: entry `j` is the label of unsubmitted task `j`. |
| TaskList.SubmitRemovesFromPending | src/commands.ts:354-356 | Submitting the first task with a label, when it is pending, removes exactly that task from the unsubmitted list, in order. |
| TaskList.SubmitOfSubmittedKeepsPending | src/commands.ts:186-188 | When the first task with the label is already submitted, resubmitting leaves the unsubmitted list as it was, even if a later task with that label is pending. |
| TaskList.EditsKeepLabels | src/commands.ts:186-188 | Id and resource edits keep every label, and a repeated id edit changes nothing more. |
| TaskList.DeleteRemovesOneWithLabel | src/commands.ts:552-554 | Deleting cuts out the first match, and the number of tasks with that label drops by one. |
| TaskList.GeneratedConfig | src/commands.ts:227-238 | Writes nothing exactly when the file exists and overwriting is not confirmed. Otherwise it writes the default configuration. |
| TaskList.GeneratedTasksAllPending | src/commands.ts:238 | In a generated file both tasks are unsubmitted and offered, in order. |
| TaskList.ParsedConfig.FromConfig | src/commands.ts:284-285 | The parsed file holds the read version and tasks. |
| TaskList.ParsedConfig.Fresh | src/commands.ts:444-452 | With no file, the configuration starts as version `2.0.0` with no tasks. |
| TaskList.ParsedConfig.ToConfig | src/commands.ts:188-191 | What is written back is the current version and tasks. |
| TaskList.ParsedConfig.SetIdOfLabel | src/commands.ts:186-188 | Reports whether a task has the label. The tasks become `WithIdOfLabel` and the version is unchanged. |
| TaskList.ParsedConfig.SetResourceOfLabel | src/commands.ts:682-684 | Reports whether a task has the label. The tasks become `WithResourceOfLabel`. |
| TaskList.ParsedConfig.DeleteLabel | src/commands.ts:552-554 | Reports whether a task has the label. The tasks become `WithoutLabel`. |
| TaskList.ParsedConfig.PushTask | src/commands.ts:456 | The task is appended and the earlier tasks are unchanged. |
| TaskList.ParsedConfig.SubmitSingleTask | src/commands.ts:147-188 | Already submitted exactly when the task's id is not -1. Cancelled exactly when the description is dismissed or empty. Otherwise the remote id goes to the first task with the label, and nothing changes in the other cases. |
| TaskList.ParsedConfig.SubmitTaskToRemote | src/commands.ts:288-356 | "All submitted" exactly when no task is pending; cancelled exactly when the pick or the description is missing or empty. Otherwise the id goes to the first task with the picked label. |
| TaskList.ParsedConfig.CreateTaskFromTemplate | src/commands.ts:397-456 | Created exactly when a known template is picked and a label entered. The new task is the template's task with that label, appended last. An unknown name reports the template missing. |
| TaskList.ParsedConfig.DeleteTask | src/commands.ts:538-554 | Does nothing without confirmation. Otherwise it deletes the first task with the label, or reports not found. |
| TaskList.ParsedConfig.UpdateTaskResources | src/commands.ts:680-684 | Reports whether a task has the label. The tasks become `WithResourceOfLabel`. |
| TaskList.PickedLabelIsInFile | src/commands.ts:296-317 | A picked pending label belongs to some task of the file. |
| ResourceEdits.NewResourceList | src/commands.ts:608-655 | Viewing writes nothing. File and network additions keep the old list as a prefix and append the chosen items, exactly when the dialog gave some. Clearing gives the empty list exactly when confirmed. Editing gives the parse exactly when the box was not dismissed. |
| ResourceEdits.ParseBlank | src/commands.ts:654 | A blank or whitespace-only input parses to the empty list. |
| ResourceEdits.ParseWellFormed | src/commands.ts:654 | Every parsed entry is trimmed, non-empty and free of commas. |
| ResourceEdits.ParseConcat | src/commands.ts:654 | The parse of `a,b` is the parse of `a` followed by the parse of `b`, so entries keep the order of the pieces. |
| ResourceEdits.ParseUnguarded | src/commands.ts:654 | The blank-input guard only short-cuts the split. |
| ResourceEdits.ParseJoin | src/commands.ts:651-654 | Parsing a comma-join of a well-formed list gives the list back. |
| ResourceEdits.ParseIdempotent | src/commands.ts:651-654 | Re-parsing the comma-join of a parse gives the same list. |
| ResourceEdits.PrefillEmptyCases | src/commands.ts:590-651 | The edit box starts empty exactly when the list is empty or is the single entry `无`. |
| ResourceEdits.PrefillRoundTrip | src/commands.ts:589-654 | Accepting the prefilled box unchanged keeps a well-formed list, except `["无"]`, which is cleared. |
| ResourceEdits.ManageTaskResources | src/commands.ts:589-655 | A dismissed pick, or an action giving no list, changes nothing. Otherwise the new list goes to the first task with the label. |
| ContentTypes.ExtensionForType | src/commands.ts:727-741 | The table value for a key in the table, and `.txt` for every other string. |
| ContentTypes.GetFileExtension | src/commands.ts:720-742 | `""` exactly when the file name already has an extension. Otherwise it is the exact-key lookup. |
| ContentTypes.GetLanguageId | src/commands.ts:780-793 | Defined exactly when the extension is in the language table, and then it is the table's value. |
| ContentTypes.TableExtensionsHaveLanguages | src/commands.ts:727-739 | Every extension the table yields, and `.txt`, has a language; `""` has none. |
| ContentTypes.LanguageIffExtension | src/commands.ts:762-768 | A language is set exactly when `getFileExtension` added an extension. |
| ContentTypes.ParameterizedTypeFallsBack | src/commands.ts:741-760 | `application/json; charset=utf-8` for the file name `data` gives `.txt`, `plaintext` and the document name `data.txt`. |
| ContentTypes.MediaType | src/commands.ts:727-741 | Part of the corrected lookup of the finding below, not of the code as written: the media type is the text before the first `;`. |
| ContentTypes.GetFileExtensionByMediaType | src/commands.ts:720-742 | The corrected lookup: `""` exactly when the name has an extension. Otherwise it is the table value of the media type. |
| ContentTypes.MediaTypeLookupSpec | src/commands.ts:727-741 | A table type with any parameters gets its table extension. On a bare type it agrees with the exact lookup. |
| ContentTypes.MediaTypeLanguageIffExtension | src/commands.ts:762-768 | With the corrected lookup, a language is still set exactly when an extension was added. |
| ContentTypes.ExtensionForTypeIsPlain | src/commands.ts:727-741 | Every extension the lookup yields is a dot with non-empty text holding no dot or slash. |
| ContentTypes.DocumentNameHasExtension | src/commands.ts:756-760 | With the lookup as written, the read-only document's name `fileName + fileExtension` always carries an extension: its own, or one that has a language. |
| ContentTypes.DocumentNameByMediaTypeHasExtension | src/commands.ts:756-760 | The same holds for the name built with the corrected media-type lookup. |
| ViewNodes.MakeResourceItem | src/viewProviders.ts:7-41 | The label is the basename; the tooltip and description are the URI. A network URI opens with `patch-test.openNetworkResource` and the URI as its only argument; any other URI opens with `vscode.open` and the parsed URI. |
| ViewNodes.MakeTaskItem | src/viewProviders.ts:44-71 | Expandable exactly when `resource` is present and non-empty. The context value is `pendingTask` exactly when `id` is -1 and `submittedTask` otherwise; the tooltip is label, command and args. |
| ViewNodes.Children | src/viewProviders.ts:86-117 | A resource has no children. A task has one resource node per resource, in order. The root has one task node per task, in order, and none when the tasks are missing. |
| ViewNodes.SameCommandIffSameKind | src/viewProviders.ts:20-66 | Two resource nodes carry the same command exactly when both or neither are network resources. Two task nodes carry the same context value exactly when both or neither are pending. |
| ViewNodes.ExpandableIffHasChildren | src/viewProviders.ts:51-93 | A task node is expandable exactly when it has children. |
| ViewNodes.FilterMapTasks | src/viewProviders.ts:117 | Filtering the root nodes for pending ones is mapping the unsubmitted tasks. |
| ViewNodes.PendingRootNodes | src/viewProviders.ts:117 | The pending nodes under the root are the nodes of the unsubmitted tasks, in file order. |
| ViewNodes.ExpandableAfterResourceUpdate | src/viewProviders.ts:51-53 | After a resource update the edited task's node is expandable exactly when the new list is non-empty. |
| ViewNodes.SubmittedAfterSubmission | src/viewProviders.ts:60-66 | After submission with a remote id the edited task shows as submitted. |

## Left out

- All editor UI: quick picks, input boxes, warnings, progress notifications, editor selection and reveal, the tree refresh event and the webview. The answers of dialogs are parameters (`Option` for a dismissible one, `bool` for a yes/no confirmation).
- The workspace-folder checks and the "file not found" error paths before a file is read. The model starts from a parsed file or none.
- File-system access and JSON text: reading, writing, `JSON.parse` and `JSON.stringify`. The file is an already-parsed `TaskConfig`, and the scanner takes the text already split at `\n`.
- A malformed file, a read error and the `catch` blocks that show them.
- The random remote id `Math.floor(Math.random() * 10000) + 1`. It is a parameter in `[1, 10000]`.
- `setTimeout` delays and async sequencing.
- "Submit task to remote" offering to generate a missing file first (src/commands.ts:271-281). `GeneratedConfig` and `GeneratedTasksAllPending` state what that file holds.
- `fetch`, `new URL`, response headers, the default `text/plain` content type, and the `patchtest-net` content provider and its registration flag: network I/O.
- The info message of "show task details" and the "view details" message after submission. Both only format text.
- `src/extension.ts` is not part of this model. It repeats the generate and submit flows against another file name and builds a webview.
- TaskTypes.TemplateManager.constructor: the field is initialised with the `DEFAULT_TASK_TEMPLATES` array itself, so `addTemplate`/`removeTemplate` also change the exported constant. The model copies the value and does not capture that aliasing.
- TaskTypes.InstantiateTemplate: the copy is shallow, so the new task shares `args` and nested records with the template. With values this sharing is invisible.
- ContentTypes.ExtensionForType: a JavaScript object used as a table also answers keys inherited from `Object.prototype` (such as `constructor`). The model's table holds only the eleven listed keys.
- ViewNodes.MakeResourceItem: `vscode.Uri.parse` normalisation is not modelled. The parsed URI is kept as its source text.
- Paths.Extname: trailing slashes are not dropped first as Node does, so `a.b/` gives `""` where Node gives `.b`.
- Problem matchers are kept as strings, and icon colours are not modelled.
- Every label-keyed edit acts on the first task with the label, as the code does. The label box of "create task from template" (src/commands.ts:423-427) starts with the template's label and accepts any label. Two tasks made from npm-build and yarn-build whose prefilled labels were kept share a label, and the second of them is then unreachable for these edits (`DefaultTemplateLabelsCollide`, `SubmitOfSubmittedKeepsPending`).
- Strings are sequences of Unicode scalar values, while JavaScript strings are UTF-16 code units. They agree on the ASCII needles and the whitespace set used here, but a lone surrogate in the file cannot be represented.

## Findings

| source | as written | input that shows it | evidently intended | confidence | as-written member | corrected member |
|---|---|---|---|---|---|---|
| src/commands.ts:727-741 | the extension is looked up by the whole `content-type` header value | a server answering `application/json; charset=utf-8` for `/data` gives `data.txt` in plain text | look up the media type before the parameters (`MediaType`, `GetFileExtensionByMediaType`, `DocumentNameByMediaType`), giving `data.json` and JSON | not executed; medium (a header with parameters is common, the key set suggests bare types were expected) | ContentTypes.ParameterizedTypeFallsBack | ContentTypes.MediaTypeLookupSpec |
