# Claude Web Runner — a verified model of its core

Claude Web Runner puts a web and chat front end in front of the `claude`
command-line tool. A *project* is a folder. A *thread* is a JSON file under
the project's `.threads/` directory, with a `threads.json` index beside it.
A message sent to a thread goes through four stages:

- an asynchronous *job*, queued by the Flask back end;
- a single background worker, which runs the CLI in the project folder, resuming the thread's CLI session when one exists;
- parsing of the CLI output;
- a rewrite of the thread's metadata with the two new messages.

A file viewer, a template manager for new projects, and a Chainlit chat front end complete the system.

This project models the deterministic core of that system in Dafny and proves
what each piece promises.

| file | module | what it models |
|---|---|---|
| `common.dfy` | `Common` | `Option` |
| `json.dfy` | `JsonValue` | JSON values (integral numbers), Python truthiness, `dict.get` |
| `strings.dfy` | `Strings` | Python `str` operations used by the core: `in`, `find`, `split` (with `maxsplit`), `join`, `replace`, `strip`, ASCII `lower`, decimal `str(int)`, lexicographic `<` |
| `jobs.dfy` | `JobQueue` | the job-status dictionary, the FIFO job queue, the one worker, job ids, the status route (`src/app.py`, duplicated line for line in `app.py`) |
| `viewer.dfy` | `Viewer` | the extension-to-language table, extension extraction, binary detection, the viewer's page choice, the gzip decision (`src/app.py`) |
| `wrapper.dfy` | `ClaudeWrapper` | project-name sanitising and de-conflicting, the CLI command line, output parsing, the metadata update, `send_message`, `get_messages`, `get_thread_status`, `delete_thread`, `list_threads` (`src/claude_wrapper.py`) |
| `templates.dfy` | `Templates` | placeholder replacement, template variables, custom instructions, the recursive `deep_update` (`src/template_manager.py`) |
| `frontend.dfy` | `Frontend` | `format_file_tree`, action values and their parsing, the two navigation screens, the polling loop (`chainlit_app.py`) |

The model follows the source's shape. Code that updates state in place becomes a method:

- the job-status dictionary and queue are fields of the class `JobManager`;
- the projects directory is a field of `ProjectsDir`;
- a project's files are a field of `ProjectFiles`;
- the conflict-resolution loop, the placeholder loop, `deep_update`, `format_file_tree`, the navigation loops and the polling loop are methods with loops.

Each method is proved equal to a pure specification function, and the properties are proved about that function. The disk becomes maps from file names to contents. The subprocess call becomes a function parameter `run` from command line to process result. `json.loads` and `json.dumps` are parameters `decode` and `encode`. The job-id clock is a natural number of milliseconds, `nowMs`. The metadata and template timestamps and `uuid4` are string parameters. `str.isalnum` and `str.isprintable` are character predicates passed in.

The code has one FIFO queue and a single worker thread; as a consequence jobs start in submission order and at most one job is `running`.

## Model

| member | source | states |
|---|---|---|
| JobQueue.CheckMessage | app.py:181-185 | a body is accepted iff it is a dict holding `message`, which is then the job's message; a missing or falsy body is "Message is required", and a dict without `message` is refused the same way |
| JobQueue.JobId | app.py:188 | the job id is `job_{ms}_{project}_{thread}` |
| JobQueue.JobIdShape | src/app.py:379 | the id starts with `job_`, then the decimal milliseconds, which parse back to the same number |
| JobQueue.JobIdDistinctTimes | src/app.py:379 | two submissions to the same thread at different milliseconds get different ids |
| JobQueue.StatusView | src/app.py:515-519 | the status body is `success: true`, `job_id` and every key of the stored record, with `status`, `response` and `error` as stored |
| JobQueue.Terminal | src/app.py:250-273 | a success is `done` with the project, thread, the wrapper's response and its metadata; a failed call is `failed` with the wrapper's message; an exception in the worker is `failed` with only its text |
| JobQueue.TerminalReported | src/app.py:250-273 | a status request for a finished job shows exactly those keys: `response` and `metadata` after a success, `error` holding the wrapper's message or the exception text otherwise |
| JobQueue.ProcessedRecords | app.py:55-82 | after the worker has processed a run of jobs, each of them holds a `done`/`failed` record, the last job with a given id holds the record of its own outcome, and every other record is unchanged |
| JobQueue.ProcessedLast | app.py:55-82 | the record of a job that no later job shares an id with is the one its own outcome gave |
| JobQueue.JobManager.Submit | src/app.py:371-397 | a rejected body changes nothing; an accepted one stores `queued` for the new id, appends the job to the queue and replies with that id |
| JobQueue.JobManager.StartNext | src/app.py:237-246 | the worker takes the head of the queue and marks it `running`; an empty queue changes nothing |
| JobQueue.JobManager.Finish | src/app.py:248-273 | the current job's record is overwritten with its terminal record, and nothing else changes |
| JobQueue.JobManager.RunWorker | app.py:44-82 | jobs are taken in queue order; the final map is the function `Processed` of the jobs taken |
| JobQueue.JobManager.Lookup | src/app.py:510-519 | an unknown id gives "Job not found"; a known id gives exactly the stored record; the state is read, never written |
| JobQueue.AtMostOneRunning | src/app.py:230-237 | at most one record is `running`, and it belongs to the job the worker holds |
| JobQueue.StartedInSubmissionOrder | src/app.py:276-277 | the worker starts jobs in exactly the order they were submitted |
| Viewer.Language | src/app.py:22-118 | a listed extension maps to its table value, any other input to `text` |
| Viewer.ExtensionShape | src/app.py:654 | no dot gives `''`; otherwise the result is the lower-cased text after the last dot, and it holds no dot |
| Viewer.NonPrintableCount | src/app.py:636-640 | the non-printable positions of the sample number `len(sample) - printable_chars` |
| Viewer.BinaryIff | src/app.py:633-645 | content is binary iff it has a NUL or more than 30% of its first 1000 characters are non-printable (`10*np > 3*len`) |
| Viewer.ThirtyPercentIsText | src/app.py:638-645 | exactly 30% non-printable, or less, without NUL, is text; so is an empty sample |
| Viewer.PageChoice | src/app.py:598-666 | each page kind appears iff its condition holds: no path, missing file, binary, highlighted (the table gives a language other than `text`), plain |
| Viewer.GzipListedAnywhere | src/app.py:149-156 | a 200 response of more than 500 bytes, not passthrough, is compressed whenever the header lists `gzip` anywhere |
| Viewer.NoGzipWithoutToken | src/app.py:149-152 | a missing Accept-Encoding, or one not containing `gzip`, means nothing is compressed |
| Viewer.NoGzipOtherwise | src/app.py:149-156 | a status other than 200, a direct-passthrough response or a body of at most 500 bytes is never compressed |
| Viewer.NoLetterNoToken | src/app.py:149 | a header without the letter `g` does not contain `gzip` |
| Viewer.CompressibleFamilies | src/app.py:222-224 | content types that mention `text/`, `application/javascript` or `application/json` pass the gate |
| ClaudeWrapper.KeepChars | src/claude_wrapper.py:31 | only alphanumerics, space, `-` and `_` survive, and nothing is added; a name of kept characters is unchanged, and one with none of them becomes empty |
| ClaudeWrapper.KeepCharsAppend | src/claude_wrapper.py:31 | filtering a concatenation is the concatenation of the filtered parts |
| ClaudeWrapper.Cleaned | src/claude_wrapper.py:31-32 | the cleaned name has no space, only kept characters, and no white space at either end; it is the filtered name with all white space cut from its two ends, and nothing else, and every space turned into `-` |
| ClaudeWrapper.DashedSlice | src/claude_wrapper.py:31-32 | stripping then replacing spaces keeps the slice of the filtered name from its first to its last non-space character, with spaces turned into `-` |
| ClaudeWrapper.DashedCoreUnique | src/claude_wrapper.py:31-32 | that description has at most one solution, so it fixes the cleaned name |
| ClaudeWrapper.Sanitize | src/claude_wrapper.py:31-35 | a non-empty cleaned name is used as is; an empty one becomes `project-` plus the first 8 characters of the uuid |
| ClaudeWrapper.SuffixedInjective | src/claude_wrapper.py:43 | `base-k` names differ for different `k` |
| ClaudeWrapper.ResolvedUnique | src/claude_wrapper.py:40-45 | the conflict rule (free; the base if free, else `base-k` for the least free `k >= 1`) picks one name |
| ClaudeWrapper.ResolveName | src/claude_wrapper.py:40-45 | the loop ends, with the name the conflict rule picks |
| ClaudeWrapper.NewIndex | src/claude_wrapper.py:60-65 | the new project index holds `name`, `sanitized_name`, `created` and an empty `threads` |
| ClaudeWrapper.ModeOf | src/claude_wrapper.py:216-235 | a falsy session id starts a fresh session; a truthy string resumes it |
| ClaudeWrapper.BuildCommand | src/claude_wrapper.py:226-235 | the command starts `[claude, --dangerously-skip-permissions]`, ends `-p msg --output-format json`, and has 8 elements when resuming, 6 otherwise |
| ClaudeWrapper.CommandRoundTrip | src/claude_wrapper.py:226-235 | the command line determines executable, mode and message, and every parsable command is one that is built |
| ClaudeWrapper.ParseOutput | src/claude_wrapper.py:252-262 | the response is `result`, else `content`, else raw stdout; unparsable output gives raw stdout, `{"content": stdout}` and no session |
| ClaudeWrapper.RawOutputFallback | src/claude_wrapper.py:259-262 | unparsable output yields the raw text and no new session id |
| ClaudeWrapper.AddOne | src/claude_wrapper.py:289 | `message_count + 1` is defined for numbers (and booleans) only |
| ClaudeWrapper.UpdateMetadata | src/claude_wrapper.py:264-290 | two messages are appended with one timestamp, the count goes up by one, `last_activity` is set, `session_id` is replaced only by a truthy new one, other keys stay |
| ClaudeWrapper.HistoryGrowsByTwo | src/claude_wrapper.py:272-287 | the old history is a prefix of the new, followed by the user then the assistant message |
| ClaudeWrapper.Exchange | src/claude_wrapper.py:214-310 | every path has its exact result: success with the parsed reply, the data and the updated metadata on exit 0 with object output and a successful update; a missing CLI, a timeout, a non-zero exit, a launch failure, non-object output, a failed update, and a truthy non-string session id or a non-string message (which `subprocess.run` rejects with a `TypeError`) give their error texts |
| ClaudeWrapper.LoadThread | src/claude_wrapper.py:198-213 | missing project, missing thread file, corrupt file and loaded metadata are told apart exactly |
| ClaudeWrapper.Send | src/claude_wrapper.py:192-310 | each not-found or invalid case returns its error and no metadata; for a loaded thread, a successful exchange gives the reply and its updated metadata, and a failed one gives its error and no metadata |
| ClaudeWrapper.GetMessages | src/claude_wrapper.py:344-377 | `None` iff the thread cannot be loaded; one system message iff the stored history is empty and `session_id` is truthy, else the stored history |
| ClaudeWrapper.ThreadStatus | src/claude_wrapper.py:468-503 | the status names each case; a missing project or thread gives exactly `status`, `project_name` and `thread_id`; an invalid file adds `error` with "Invalid thread metadata"; a loaded thread reports its fields with the source's defaults |
| ClaudeWrapper.NullSessionReported | src/claude_wrapper.py:493 | a stored null `session_id` is reported as null, not as "No session started" |
| ClaudeWrapper.RemoveThread | src/claude_wrapper.py:532-541 | only the thread's key leaves the index's `threads`; every other key stays |
| ClaudeWrapper.Delete | src/claude_wrapper.py:505-549 | errors for a missing project or thread; otherwise the thread file goes, a missing or corrupt index is left alone and succeeds, an object index is rewritten as `RemoveThread` gives, and a failed removal is "Error deleting thread" with the index unchanged; the deletion succeeds iff no removal failed |
| ClaudeWrapper.DeleteUnlistsThread | src/claude_wrapper.py:521-544 | with a well-formed index the deletion succeeds and unlists just that thread |
| ClaudeWrapper.SummariesAppend | src/claude_wrapper.py:174-189 | the listing keeps readable thread files in directory order, skipping `threads.json` and corrupt files |
| ClaudeWrapper.SortDesc | src/claude_wrapper.py:190 | sorting is a permutation |
| ClaudeWrapper.SortDescSorted | src/claude_wrapper.py:190 | the result is in descending order of `created` |
| ClaudeWrapper.SortDescStable | src/claude_wrapper.py:190 | summaries with equal `created` keep their relative order (Python's sort is stable) |
| ClaudeWrapper.ListThreads | src/claude_wrapper.py:162-190 | no project gives `[]`; a listing is a stable descending permutation of the summaries; mixed key types raise |
| ClaudeWrapper.ProjectsDir.CreateProject | src/claude_wrapper.py:25-72 | the new project gets the resolved free name and its index; other projects are untouched |
| ClaudeWrapper.ProjectsDir.SendMessage | src/claude_wrapper.py:192-310 | the thread file is rewritten only on success, with the updated metadata |
| ClaudeWrapper.ProjectsDir.DeleteThread | src/claude_wrapper.py:505-549 | the directory becomes the one `Delete` describes |
| Templates.ReplaceEveryOccurrence | src/template_manager.py:107-108 | `replace` substitutes every occurrence: the pieces between occurrences are joined with the replacement |
| Templates.SubstituteAbsent | src/template_manager.py:107-108 | content with no placeholder is left as is |
| Templates.SubstituteSplit | src/template_manager.py:107-108 | the variables are applied one after the other, in order |
| Templates.ApplyVariables | src/template_manager.py:104-108 | the loop computes the sequential substitution |
| Templates.ReplaceInFiles | src/template_manager.py:94-108 | only existing `README.md`, `.claude/settings.json` and `CLAUDE.md` are rewritten |
| Templates.TemplateVariables | src/template_manager.py:44-48 | name, description (default "A project created with Claude Code") and date, in that order |
| Templates.WithInstructions | src/template_manager.py:141-142 | the old content is a prefix, followed by the custom-instructions section |
| Templates.InstructionsAccumulate | src/template_manager.py:141-142 | a second call appends a second section after the first |
| Templates.Merge | src/template_manager.py:178-183 | the merged keys are the base's plus the update's |
| Templates.MergeAt | src/template_manager.py:179-183 | two dicts at a key merge recursively; otherwise the update's value wins; keys outside the update keep their values |
| Templates.MergeKeepsLeaves | src/template_manager.py:180-183 | every non-dict leaf of the update is found at its path afterwards |
| Templates.MergeKeepsUntouched | src/template_manager.py:179 | a base value on a path the update does not reach is unchanged |
| Templates.MergeIdempotent | src/template_manager.py:178-183 | applying the same update twice is applying it once |
| Templates.MergeSelf | src/template_manager.py:178-183 | merging a settings tree into itself changes nothing |
| Templates.DeepUpdate | src/template_manager.py:178-183 | the in-place loop with recursion computes `Merge` |
| Templates.SettingsAfter | src/template_manager.py:165-188 | no settings file means no write; an object file is rewritten as the deep merge |
| Templates.ProjectFiles.ReplaceTemplateVariables | src/template_manager.py:88-117 | the files become `ReplaceInFiles` of the old ones |
| Templates.ProjectFiles.InitializeClaudeProject | src/template_manager.py:22-58 | success iff the templates exist; then the copied files get the template variables |
| Templates.ProjectFiles.AddCustomInstructions | src/template_manager.py:119-152 | success iff `CLAUDE.md` exists; then only it changes, by the appended section |
| Templates.ProjectFiles.UpdateProjectSettings | src/template_manager.py:154-195 | success iff a merged settings text exists; then only `settings.json` changes |
| Frontend.RenderAllAppend | chainlit_app.py:124-125 | children render one after the other, in order |
| Frontend.FormatNode | chainlit_app.py:116-127 | the recursive loop computes `Render`: the node's line, then each child with the prefix extended by two spaces |
| Frontend.FormatFileTree | chainlit_app.py:118-119 | a null node renders as `""` |
| Frontend.RenderShape | chainlit_app.py:118-122 | a nameless node prints nothing; a named one starts with `prefix + icon + " " + name + "\n"` |
| Frontend.RenderLineCount | chainlit_app.py:116-127 | with no line break in names, the output has one line per shown node |
| Frontend.TaggedRoundTrip | chainlit_app.py:329 | `split(":", 1)[1]` of `tag:p` is exactly `p`, colons included |
| Frontend.ProjectValuesRoundTrip | chainlit_app.py:145-163 | `select:p`, `create_thread:p` and `view_files:p` decode back to `p` |
| Frontend.ThreadValueRoundTrip | chainlit_app.py:366-370 | `select_thread:p:t` decodes to `(p, t)` iff `p` has no colon |
| Frontend.ProjectNavigation | chainlit_app.py:134-149 | 3 fixed actions, then one action per project for at most 5, each decoding to its project |
| Frontend.ThreadNavigation | chainlit_app.py:161-176 | 3 fixed actions, then one per thread for at most 5; the id, name and count are shown with `str()` whatever their JSON type, and each action decodes to `(project, str(id))`, which is the id itself when it is a string |
| Frontend.ThreadScreenDecodes | chainlit_app.py:162-163 | the create-thread and view-files actions hand back the project |
| Frontend.WaitForClaudeResponse | chainlit_app.py:187-217 | the loop ends as `Outcome` says, a missing or empty answer ending it without a status; at most 150 polls; it times out iff 150 polls were all pending |
| Frontend.AnsweredIff | chainlit_app.py:193-214 | the response comes back iff some poll before the 150th says `done` and every earlier one was pending |
| Frontend.PendingTimesOut | chainlit_app.py:210-217 | 150 pending polls end in a time-out |

## Left out

- File-system effects are left out: folders, `mkdir`, `unlink`, `rmtree`, `glob` order, and the `resolve().relative_to` containment check. Directories are maps from file names to contents, and listing order is an input sequence.
- `subprocess.run` and its 300-second timeout are left out. So is `_find_claude_executable`, which depends on PATH and the OS. The process result and the located executable are parameters.
- `ClaudeWrapper.Exchange`: the `ValueError` that `subprocess.run` raises for an argument holding a NUL character is not modelled; `run` receives every string argument.
- `json.loads` and `json.dumps` are the parameters `decode` and `encode`. JSON numbers are integers, booleans are kept apart, and floats are not modelled.
- Thread and index files are either corrupt or a JSON object. A file whose top level is valid JSON but not an object is not modelled.
- Python dicts keep insertion order; the model's maps do not.
  - As a result, placeholder replacement takes its variables as a sequence in dict order.
  - Listing and sorting use the `glob` order passed in.
- `Templates.DeepUpdate`: the model does not capture that Python's `deep_update` mutates nested dicts the caller still holds. It builds the merged value.
- `str.isalnum` and `str.isprintable` follow Unicode tables; they are parameters.
- `str.lower` is modelled for ASCII letters only.
- Python exceptions inside the template methods' `try` blocks are not modelled, beyond the missing-file cases.
- `str()` of a list or dict, in the system message of `get_messages` and in the thread actions of the chat front end, is the `show` parameter.
- `ClaudeWrapper.ListThreads`: whenever at least two summaries exist and some `created` is not a string, the model reports `SortError`. Python would sort a listing whose `created` values are all integers, and raises whenever two values are not mutually orderable.
- `Viewer.PageChoice` conditions highlighting on the table value not being `text`. It does not prove that no table value is `text`, because the 72-entry table is not unfolded by the verifier.
- `Viewer.BinaryIff` states the 30% ratio as the integer comparison `10*np > 3*len`, not as the floating-point division of the source.
- `html.escape`, the viewer's HTML template and the actual gzip compression are left out; only the decisions are modelled.
- Threads and timing are left out: the worker threads, `asyncio.sleep`, and collisions of equal job ids submitted in the same millisecond.
  - The worker is modelled as explicit sequential steps.
  - The polling loop takes the status answers as a function of the poll number.
- Flask routing, CORS, ProxyFix, the header middleware and the Chainlit message sending are left out.
  - The HTTP client of the chat front end is also left out.
  - `create_thread`, `list_projects`, `get_file_tree`, file read/write and `delete_project` are not part of this model.
- `JobQueue.JobManager.Submit`: the 500 reply for a body where Python's `in` or subscript raises is modelled without its exception text.
