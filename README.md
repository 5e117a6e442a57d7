# Console todo application — a verified model

The todo application (`todo.py`) keeps todo items in memory. Each `Task` has an
id, a description and a done/not-done status. A `TaskService` files tasks in a
dictionary keyed by id and hands out ids from a counter, 1, 2, 3, .... The
counter only goes forward, so a deleted id is never issued again. A menu-driven
`CLI` reads a menu choice, then asks for a description or a task id. It
refuses blank descriptions, and it asks again on non-numeric or non-positive
ids. The view lists the tasks in id order as `<id>. [X] <description>`.

The model has five modules:

- `Wrappers` holds `Option` and `Result`. A raised `ValueError` becomes a
  `Failure`, and a Python `None` becomes `None`.
- `Text` models `str.strip()` over the ASCII whitespace characters (space, tab,
  line feed, vertical tab, form feed, carriage return and the separators
  `\x1c` to `\x1f`). It proves that blank text
  strips to nothing and that only surrounding whitespace is removed. It also
  proves that stripping is idempotent and that it undoes any padding.
- `Numerals` models `int(text)` for an optional sign followed by decimal
  digits, and `str(n)`. It proves that `int` accepts exactly those texts, that
  leading zeros and a sign read as expected, and that parsing the printed form
  of an integer gives the integer back.
- `Tasks` holds the `Task` value, and `TaskService` as a class whose `store`
  (a `map<int, Task>`) and `nextId` fields its methods update. Its invariant
  `Valid()` says that every stored id is below the counter, that it is the id
  of its task, and that every description is non-empty and trimmed. Every
  method keeps the invariant. The module also has scenario methods that follow
  the service tests.
- `Cli` holds the menu-choice and task-id retry loops, the routing table from
  choice to handler, and the rendering of the task list. It also has a
  `Console` class whose handlers and run loop drive a `TaskService`. Console
  input is a finite sequence of lines. Each handler reports a `Report` value
  in place of the message it would print. Each retry loop is specified by a
  function of the input lines (`MenuPrompt`, `IdPrompt`). Each handler is
  specified by an outcome function (`AddOutcome`, `UpdateOutcome`,
  `DeleteOutcome`, `ToggleOutcome`, `ChoiceOutcome`). An outcome fixes the
  report, the lines read, and the store and counter after the action. The
  whole menu loop is the function `Session`, which works through the lines one
  menu choice and one action at a time. `Console.Run` is proved to compute
  exactly `Session`. Lemmas then prove what every session does with its
  choices, its lines, its reports and the store.

## Model

| member | source | states |
|---|---|---|
| Text.Strip | todo.py:30 | the stripped text neither starts nor ends with whitespace and is no longer than the input |
| Text.StripIsEmptyIffBlank | todo.py:27 | stripping leaves nothing exactly when the text is all whitespace (both directions) |
| Text.StripRemovesOnlySurroundingSpace | todo.py:30 | the result is a contiguous piece of the input with only whitespace before and after it |
| Text.StripIdempotent | todo.py:130 | stripping an already stripped text changes nothing (the CLI strips, then the service strips again) |
| Text.StripPadded | todo.py:109 | a trimmed text with any whitespace around it strips back to exactly that text |
| Text.StripOfTrimmed | todo.py:46 | a text without surrounding whitespace is left as it is |
| Numerals.NatToDigits | todo.py:148 | the decimal numeral of `n` is a non-empty run of digits, without a leading zero, whose value is `n` |
| Numerals.IntToString | todo.py:148 | `str(n)` is non-empty, starts with a sign or a digit, and ends with a digit |
| Numerals.ParseInt | todo.py:202 | `int(s)` succeeds exactly when `s` is an optional `+` or `-` followed by one or more digits |
| Numerals.LeadingZeroIgnored | todo.py:202 | a leading zero does not change the value of a run of digits |
| Numerals.ParseIntOfSignedDigits | todo.py:202 | a run of digits reads as its value, the same with a `+` in front, and negated with a `-` |
| Numerals.ParseIntSignExamples | todo.py:202 | `int("+5")` is 5 and `int("-0")` is 0 |
| Numerals.ParseIntLeadingZerosExample | todo.py:202 | `int("007")` is 7 |
| Numerals.ParseIntOfIntToString | todo.py:202 | `int(str(n)) == n` for every integer `n` |
| Tasks.AddKeepsInvariant | todo.py:30-31 | filing a clean task under the counter and advancing the counter keeps the store invariant, and the counter was not yet a key |
| Tasks.ReplaceKeepsInvariant | todo.py:45-46 | replacing a stored task by a clean task with the same id keeps the store invariant |
| Tasks.SortedKeys | todo.py:36 | a set of ids in strictly ascending order: same size, same members |
| Tasks.SortedById | todo.py:36 | a listing of the tasks of a map: each task exactly once, nothing else, in strictly ascending id order |
| Tasks.ListingUnique | todo.py:36 | there is only one such listing: any two listings of the same tasks are equal, so `sorted` by id is fully determined |
| Tasks.TaskService.constructor | todo.py:21-23 | the service starts over the given (empty) store with the counter at 1, satisfying the invariant |
| Tasks.TaskService.GenerateId | todo.py:69-73 | returns the old counter and advances it by one |
| Tasks.TaskService.AddTask | todo.py:25-32 | a blank description fails before an id is drawn and changes nothing; otherwise the result is the task (old counter, stripped description, not done), filed under an id not in use and above every stored id, every other entry unchanged, the counter advanced by one |
| Tasks.TaskService.GetAllTasks | todo.py:34-36 | the result is a listing of the stored tasks: exactly the stored tasks, one per entry, in strictly ascending id order |
| Tasks.TaskService.UpdateTask | todo.py:38-47 | an unknown id gives `None` before the description is checked; a blank description then fails; otherwise only that task's description changes, to the stripped text, and id, status, other entries and counter stay |
| Tasks.TaskService.DeleteTask | todo.py:49-51 | true exactly when the id was stored; afterwards exactly that id is gone and the counter is unchanged |
| Tasks.TaskService.MarkComplete | todo.py:53-55 | a stored task's status becomes true and nothing else changes; `None` and no change for an unknown id |
| Tasks.TaskService.MarkIncomplete | todo.py:57-59 | a stored task's status becomes false and nothing else changes; `None` and no change for an unknown id |
| Tasks.TaskService.UpdateStatus | todo.py:61-67 | sets only the status of the given stored task; `None` and no change for an unknown id |
| Tasks.DeletedIdIsNotReused | phase-i/tests/test_service.py:175-181 | after two adds and the deletion of task 1, the next adds get ids 3 and 4, and id 1 stays absent |
| Tasks.ListedInIdOrder | phase-i/tests/test_service.py:57-66 | three tasks added in turn are listed in the order they were added, for any three non-empty trimmed descriptions |
| Tasks.CompleteThenIncomplete | phase-i/tests/test_service.py:153-164 | complete then incomplete leaves the task not done; marking an unknown id gives `None` |
| Cli.MenuTokensAreMenuChoices | todo.py:110 | a single digit from 1 to 7 is exactly a member of the menu set |
| Cli.MenuToken | todo.py:109-110 | a line is accepted exactly when its stripped text is a single digit from 1 to 7 (any other stripped text is rejected), and the token is that stripped text |
| Cli.MenuTokenOfPadded | todo.py:109-110 | a menu token with any whitespace around it is accepted as that token |
| Cli.MenuPrompt | todo.py:106-112 | the menu prompt's result as a function of the input lines: an answer is a menu token and uses between 1 and all of the lines |
| Cli.MenuPromptAnswersAt | todo.py:106-112 | the prompt answers at the first line that strips to a menu token, with that token, after all earlier lines |
| Cli.MenuPromptRunsOut | todo.py:106-112 | the prompt runs out when no line strips to a menu token |
| Cli.MenuPromptAnswers | todo.py:106-112 | the last line the prompt read holds the token it returned |
| Cli.GetMenuChoice | todo.py:106-112 | the retry loop returns exactly the menu prompt's result: a choice from "1" to "7" taken from the first accepted line, every earlier line rejected; with no accepted line the input runs out |
| Cli.ClassifyIdEntry | todo.py:199-206 | the entry is "no id" exactly when the line strips to nothing; an accepted id is positive |
| Cli.ClassifyIdEntryParses | todo.py:199-208 | a non-blank line is "not a number" exactly when its stripped text is not a signed numeral (the `ValueError` path); "not positive" exactly when it is a numeral of value 0 or less; an accepted id is the numeral's value |
| Cli.ClassifyTypedId | todo.py:199-206 | a decimal id with any whitespace around it is accepted as that id when positive, and refused as not positive otherwise |
| Cli.IdAnswerUnique | todo.py:197-208 | the id prompt is answered at one line at most, and never when every line asked again |
| Cli.IdPrompt | todo.py:195-208 | the id prompt's result as a function of the input lines; an answer uses between 1 and all of the lines |
| Cli.IdPromptStops | todo.py:197-208 | the prompt answers at the first line that is blank (no id) or a positive number (that id), after every earlier line asked again; it runs out exactly when every line asks again |
| Cli.IdPromptAnswersAt | todo.py:197-208 | a line that answers the prompt after every earlier line asked again gives the prompt's result: no id for a blank line, the typed id otherwise |
| Cli.GetValidTaskId | todo.py:195-208 | the retry loop returns exactly the id prompt's result |
| Cli.Route | todo.py:114-126 | a choice has a handler exactly when it is a menu token other than the exit token "7" |
| Cli.RouteMatchesMenu | todo.py:116-123 | the number shown for each action routes to that action, and only that number does |
| Cli.ParseLineOfParts | todo.py:148 | a line made of a numeral, the bracketed marker and a description reads back as that numeral's value, that description and done exactly for `X` |
| Cli.ParseRenderedLine | todo.py:147-148 | a task line (`RenderLine`: id, `StatusMarker`'s `[X]` or `[ ]`, description) reads back as the same id, status and description |
| Cli.ViewReadsBack | todo.py:138-148 | the view (`RenderView`) is the empty notice exactly for no tasks; otherwise it has one line per task, and each line reads back as its task |
| Cli.AddOutcome | todo.py:128-136 | an add reads at most the lines there are and keeps the store invariant |
| Cli.UpdateOutcome | todo.py:150-165 | an update reads at most the lines there are, never moves the counter and keeps the store invariant |
| Cli.DeleteOutcome | todo.py:167-176 | a delete reads at most the lines there are, never moves the counter and keeps the store invariant |
| Cli.ToggleOutcome | todo.py:178-193 | a status change reads at most the lines there are, never moves the counter and keeps the store invariant |
| Cli.ChoiceOutcome | todo.py:114-126 | a routed action keeps the store invariant, gives one of its handler's reports, and changes store and counter only as the report says: only an add files a new id, under the old counter, and advances the counter; only a delete removes an id |
| Cli.Console.constructor | todo.py:79-80 | the console is bound to the given service |
| Cli.Console.HandleAdd | todo.py:128-136 | the handler's report, lines read, store and counter are exactly `AddOutcome` of the lines and the old store: no line left reads nothing; a blank line is refused before the service is called and changes nothing; otherwise the stripped text is filed under the old counter, a fresh id, which advances by one |
| Cli.Console.HandleView | todo.py:138-148 | the report is exactly `RenderView` of the sorted listing of the store: the empty notice exactly for an empty store, otherwise one line per stored task in id order, each reading back as its task |
| Cli.Console.HandleUpdate | todo.py:150-165 | exactly `UpdateOutcome`: the id prompt runs out, or answers with no id (abandoned, no change), or with an id; then no line left, or a blank line (refused, no change), or the task under the id gets the stripped text as description and is reported updated, or the id is reported not found and nothing changes |
| Cli.Console.HandleDelete | todo.py:167-176 | exactly `DeleteOutcome`: the id prompt runs out or answers with no id, and nothing changes; otherwise exactly the typed id is removed, reported deleted when it was stored and not found otherwise |
| Cli.Console.HandleToggle | todo.py:178-193 | exactly `ToggleOutcome`: the id prompt runs out or answers with no id, and nothing changes; otherwise only the status of the task under the typed id becomes `complete`, or the id is reported not found and nothing changes |
| Cli.Console.HandleChoice | todo.py:114-126 | a choice without a handler reads nothing and changes nothing; otherwise the routed handler runs, and the report, lines read, store and counter are exactly `ChoiceOutcome` of that handler |
| Cli.SessionStep | todo.py:85-93 | a session whose menu prompt reads a choice other than "7" gives that choice, its action's report, and then the session on the lines after the action, from the store the action left |
| Cli.SessionRunsOut | todo.py:85-87 | a session whose menu prompt runs out reads every line and changes nothing |
| Cli.SessionExits | todo.py:87-91 | a session whose menu prompt reads "7" stops there with no report and nothing changed |
| Cli.SessionChoices | todo.py:85-93 | every choice a session reads is a menu token; it exits exactly when its last choice is "7", and no earlier choice is "7" |
| Cli.SessionEnds | todo.py:85-93 | a session that exits read "7" on the last line it consumed; one that does not exit consumed every line |
| Cli.SessionReports | todo.py:85-93 | a session gives one report per choice other than a final "7"; each such choice routes to a handler and its report is one that handler can give |
| Cli.SessionPrepend | todo.py:89-93 | one accounted action followed by an accounted session is an accounted session |
| Cli.SessionAccounts | todo.py:85-93 | over a whole session the counter never goes back; the ids reported as added strictly increase and are exactly the ids the counter moved past; an id entered the store only by a reported add and left it only by a reported delete |
| Cli.Console.Run | todo.py:82-93 | the reports, exit flag, choices read, lines consumed, and the store and counter left are exactly those of `Session` on the input lines and the old store (so `SessionChoices`, `SessionEnds`, `SessionReports` and `SessionAccounts` hold of every run), and the service invariant is kept |

## Left out

- Printing is not modelled: the banner, `_display_menu`'s text, the prompts and the wording of every message. Each handler returns a `Report` value in its place, and the view returns its lines.
- `str.strip()` is modelled for the ASCII whitespace characters only (space, tab, line feed, vertical tab, form feed, carriage return and `\x1c` to `\x1f`). Python also strips non-ASCII whitespace such as `\x85`, `\xa0` and the Unicode space separators; those are not modelled.
- `int()` is modelled for an optional `+` or `-` sign followed by ASCII digits. Underscores between digits and non-ASCII digits, which Python also accepts, are not modelled.
- Numerals.ParseInt: accepts numerals of any length; since Python 3.11 (and 3.10.7) `int()` raises `ValueError` for a decimal text of more than 4300 digits, and that limit is not modelled.
- End of input: Python's `input()` would raise `EOFError`. The model reads from a finite sequence of lines and reports `OutOfInput` or `NoMoreInput` when the lines run out; the menu loop, which in Python goes on until the exit choice, also stops at the end of the lines.
- Tasks.TaskService.constructor: requires an empty initial store. The source accepts any dictionary but always starts the counter at 1, so a task already filed under 1 would be overwritten by the first add. `main` and the test fixtures both pass an empty dictionary.
- Tasks are immutable values replaced in the map. Python mutates the `Task` object in place, so a caller holding a returned task sees later changes; that aliasing is not modelled.
- Dataclass-generated equality, `__repr__` and the default `status=False` argument are not modelled; the model always states the status.
- `main` only wires an empty store, a service and a console together, and is not modelled separately.
