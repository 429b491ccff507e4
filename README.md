# A verified model of the `todo` task list core

`todo` is a small command-line to-do list manager written in Rust. Its library
(`src/lib.rs`) keeps a `List` of pending `tasks` and `finished` tasks. Each
`Task` has a name and an optional description. The library provides three
in-place list edits (`finish_task`, `add_task`, `clear_finished`), the `Task`
constructors and setters, the one-line `Display` format of a task, the
parser of command names (`Command::from_str`), and the `or_error` helper that
turns any failure into the crate's string error.

This project models those pieces in Dafny and proves what they promise:

- `wrappers.dfy` (module `Wrappers`): `Option` and `Result`, as in Rust.
- `message.dfy` (module `Message`): `or_error` for `Result` and for `Option`.
- `task.dfy` (module `Tasks`): `Task`, `From<String>`, `with_description`,
  `set_description`, `set_name` and `Display`.
- `task_list.dfy` (module `TaskLists`): `List` as the class `TaskList`. It has
  two `seq<Task>` fields that its methods reassign. Each method's new state is
  tied to a pure transition (`AfterFinish`, `AfterAdd`, `AfterClear`) on the
  value `Lists`. The lemmas about these transitions state conservation, order
  and the match/no-match cases. The `position` search of `finish_task` is the
  loop method `Position`.
- `command.dfy` (module `Commands`): `Command`, its name table and `from_str`
  exactly as written. It also holds a corrected variant (see Findings).

The program's help text (src/lib.rs:56-69) advertises `done [INDEX/NAME...]`,
`reset`, `restore`, `sort` and `raw`. The `Command` enum has none of them: it
has only Add, Finish, List, Clear and Help. The model follows the code.
Parsing follows the enum and its table, and `finish_task` matches a task by
its exact name only, never by position.

## Model

| member | source | states |
|---|---|---|
| `Message.OrErrorResult` | src/lib.rs:209-213 | The result is Ok exactly when the input is Ok, with the same value. Every error becomes the given text. |
| `Message.OrErrorOption` | src/lib.rs:215-219 | The result is Ok exactly when the option is Some, with the same value. None becomes the given text. |
| `Message.OrErrorForgetsCause` | src/lib.rs:212 | Two different original errors give the same labelled error: the cause is discarded. |
| `Message.OrErrorAgrees` | src/lib.rs:209-219 | Labelling a Result equals labelling its `.ok()` Option: the two implementations agree. |
| `Message.OrErrorLastWins` | src/lib.rs:212 | Labelling twice keeps only the last message. |
| `Tasks.FromName` | src/lib.rs:221-225 | A task made from a name has that name and no description. |
| `Tasks.WithDescription` | src/lib.rs:126-131 | The name is kept and the description is always `Some(d)`, whether or not one existed. |
| `Tasks.SetDescription` | src/lib.rs:133-136 | The name never changes, and whether a description exists never changes. An existing description becomes the new text. A task without one is returned unchanged. |
| `Tasks.SetName` | src/lib.rs:138 | The name becomes the new text and the description is untouched. |
| `Tasks.Display` | src/lib.rs:198-206 | The line starts with `* ` followed by the name. Without a description nothing follows, so there is no period. With description `d` the rest is exactly `: `, then `d`, then a final `.`. |
| `Tasks.SetDescriptionNeverAdds` | src/lib.rs:133-136 | No sequence of `set_description` calls gives a task built from a name a description; only `with_description` can. |
| `Tasks.SetDescriptionReplaces` | src/lib.rs:126-136 | On a task that has a description, `set_description(d)` gives the same task as `with_description(d)`. |
| `Tasks.SettersCommute` | src/lib.rs:133-138 | Setting the name and setting the description commute. |
| `Tasks.DisplayDeterminesDescription` | src/lib.rs:198-206 | For two tasks of the same name, the displayed lines are equal iff the descriptions are equal (both directions). |
| `Tasks.DisplayIsAmbiguous` | src/lib.rs:200-205 | A name may contain `: `, so `a` described as `b` and an undescribed task named `a: b.` display the same line. |
| `Tasks.DisplayPeriodSeparates` | src/lib.rs:200-205 | A described task's line ends in `.`, so an undescribed task whose name does not end in `.` never displays like a described one. |
| `TaskLists.FirstIndexOf` | src/lib.rs:158-161 | Gives the index of a task with exactly that name, with no such task before it. Gives None iff no pending task has that name. |
| `TaskLists.Position` | src/lib.rs:158-161 | The front-to-back search loop returns the first matching index, or None. |
| `TaskLists.RemoveAt` | src/lib.rs:167 | Removing index `i` shortens the vector by one and removes exactly one copy of the element at `i`. Elements before `i` stay in place, and later ones shift left by one in order. |
| `TaskLists.AfterFinish` | src/lib.rs:157-169 | Finishing conserves the multiset of all tasks and the total count. `finished` keeps its old contents as a prefix and grows by at most one. |
| `TaskLists.AfterAdd` | src/lib.rs:171-175 | The task becomes the new last pending task. Earlier pending tasks and `finished` are unchanged, and the multiset gains exactly that task. |
| `TaskLists.AfterClear` | src/lib.rs:177-181 | `finished` becomes empty and `tasks` is unchanged. |
| `TaskLists.FinishMovesFirstMatch` | src/lib.rs:157-169 | Suppose the first pending task named `identifier` is at `p`. Then it becomes the last finished task. Pending tasks before `p` stay in place, and those after `p` shift down by one. |
| `TaskLists.FinishWithoutMatch` | src/lib.rs:158-161 | When no pending task has the name, both sequences are unchanged. |
| `TaskLists.FinishMovesIffMatch` | src/lib.rs:157-169 | The list changes iff some pending task has the name (both directions). |
| `TaskLists.FinishPreservesOrder` | src/lib.rs:162-168 | The remaining pending tasks are a subsequence of the old ones. The old finished tasks are a prefix of the new ones. |
| `TaskLists.AddThenFinish` | src/lib.rs:157-175 | Suppose no pending task has the new task's name. Adding it and then finishing it by that name leaves `tasks` as before and appends the task to `finished`. |
| `TaskLists.ClearIdempotent` | src/lib.rs:177-181 | Clearing twice gives the same list as clearing once. |
| `TaskLists.TaskList.constructor` | src/lib.rs:29-37 | `List::default()` holds no pending and no finished tasks. |
| `TaskLists.TaskList.FinishTask` | src/lib.rs:157-169 | The object's new contents are `AfterFinish` of its old contents. |
| `TaskLists.TaskList.AddTask` | src/lib.rs:171-175 | The object's new contents are `AfterAdd` of its old contents. |
| `TaskLists.TaskList.ClearFinished` | src/lib.rs:177-181 | The object's new contents are `AfterClear` of its old contents. |
| `Commands.ToLower` | src/lib.rs:231 | Lower-casing keeps the length and lower-cases each ASCII letter in place. |
| `Commands.ToLowerIdempotent` | src/lib.rs:231 | Lower-casing twice equals lower-casing once. |
| `Commands.AnyPrefixInIff` | src/lib.rs:235-236 | The scan over `lo..hi` succeeds iff the text is a prefix of the name whose length lies in `lo..hi`. |
| `Commands.Accepts` | src/lib.rs:235-236 | With the range `0..len`, an entry accepts exactly the proper prefixes of its name. With `0..=len` it accepts all prefixes. |
| `Commands.FindVariant` | src/lib.rs:232-238 | The search gives None iff no entry accepts the text. Otherwise it gives the variant of the first accepting entry: no earlier entry accepts. |
| `Commands.FromStr` | src/lib.rs:230-240 | The only error `from_str` returns is `NO-MATCHING-COMMAND`. |
| `Commands.FromStrSpec` | src/lib.rs:230-240 | Gives the first of Add, Finish, List, Clear, Help whose name has the lower-cased input as a proper prefix. Otherwise gives `Err("NO-MATCHING-COMMAND")`. |
| `Commands.FromStrIgnoresCase` | src/lib.rs:231 | An input and its lower-cased form parse alike. |
| `Commands.EmptySelectsAdd` | src/lib.rs:232-236 | `""`, `"a"` and `"ad"` all parse as Add. |
| `Commands.FromStrAcceptsExactly` | src/lib.rs:230-240 | After lower-casing, the accepted inputs are exactly the 18 proper prefixes of the five names. |
| `Commands.FullNamesRejected` | src/lib.rs:235-236 | Each full command name (`add`, `finish`, `list`, `clear`, `help`) is rejected with `NO-MATCHING-COMMAND`. |
| `Commands.FromStrInclusive` | src/lib.rs:230-240 | With the range made inclusive, the only error is still `NO-MATCHING-COMMAND`. |
| `Commands.FromStrInclusiveSpec` | src/lib.rs:230-240 | The corrected parser gives the first variant whose name has the lower-cased input as a prefix, full name included. |
| `Commands.FullNamesAccepted` | src/lib.rs:235-236 | With the inclusive range, every full command name parses to its own variant. |
| `Commands.InclusiveExtendsAsWritten` | src/lib.rs:230-240 | The correction gives the same result on every input that the code as written already accepts. |
| `Commands.InclusiveAddsOnlyFullNames` | src/lib.rs:230-240 | Every input that only the correction accepts lower-cases to one of the five full names. |

## Findings

| source | as written | input that shows it | evidently intended | confidence | as-written member | corrected member |
|---|---|---|---|---|---|---|
| src/lib.rs:235-236 | `(0..command.len())` ranges over proper prefixes only, so the full command name never matches | `add` (also `finish`, `list`, `clear`, `help`) gives `Err("NO-MATCHING-COMMAND")` | `0..=command.len()`, so that a full name and every abbreviation select the command | not executed; high (the help text shows full names as the commands to type) | `Commands.FullNamesRejected` | `Commands.FullNamesAccepted` |

`FromStr` is the code as written and `FromStrInclusive` is the correction.
`InclusiveExtendsAsWritten` shows that the correction changes no result
the code already gives. `InclusiveAddsOnlyFullNames` shows that the only
inputs it newly accepts are the five full names. The correction still maps
the empty string to Add.

## Left out

- `Todo::new` (src/lib.rs:73-108): it searches the current directory for a file whose name contains `todo`. This is filesystem I/O.
- `Todo::save` (src/lib.rs:110-122) and `List::new` (src/lib.rs:142-155): they open, truncate, read and write files and encode TOML through the `toml`/`serde` crates. Neither the I/O nor the encoding is visible here, so there is no load/save round trip.
- `List::list` (src/lib.rs:183-195) and `help` (src/lib.rs:56-69): terminal printing only. (`list` prints the heading `FINISHED` above both groups.)
- Tasks.Display: a failure of the underlying formatter (`fmt::Error`) is not modelled. The line is built as a string.
- Commands.ToLower: Unicode lower-casing is not modelled. Only ASCII `A`-`Z` are mapped, and every other character is kept. Rust's `to_lowercase` can change non-ASCII characters and even the length of the text.
- Tasks.SetDescription and Tasks.SetName: they are functions that return the updated `Task`, not in-place updates through `&mut self`. A `Task` is an owned value with no aliasing, so the value afterwards is the same.
- The `impl Display` arguments of `with_description`, `set_description`, `set_name` and `or_error` are taken as already rendered strings.
- The derived `Default` of `Command` (`#[default] Help`, src/lib.rs:47) and of `Task` are not modelled. No operation of the core uses them.
