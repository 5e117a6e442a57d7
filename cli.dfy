/**
 * The console front end of the todo application (`CLI` in todo.py) without
 * its printing: the menu-choice and task-id retry loops, the routing from a
 * choice to its handler, the task lines of the view, the handlers themselves
 * and the menu loop. Console input is a finite sequence of lines; running out
 * of lines ends a loop with `OutOfInput`.
 */
module Cli {
  import opened Wrappers
  import opened Text
  import opened Numerals
  import opened Tasks

  // ---------------------------------------------------------------- reading input

  /** What a retry loop read: its value and how many input lines it used, or nothing left to read. */
  datatype ReadOutcome<T> = Got(value: T, used: nat) | OutOfInput

  /** The menu tokens, "1" to "7". */
  const MenuChoices: set<string> := {"1", "2", "3", "4", "5", "6", "7"}

  /** The token that ends the session. */
  const ExitChoice: string := "7"

  /** A single digit from 1 to 7. */
  predicate IsMenuToken(t: string) {
    |t| == 1 && '1' <= t[0] <= '7'
  }

  /** The digit test picks out exactly the menu tokens. */
  lemma MenuTokensAreMenuChoices(t: string)
    ensures IsMenuToken(t) <==> t in MenuChoices
  {
    if IsMenuToken(t) {
      assert t == [t[0]];
    }
  }

  /** One pass of `_get_menu_choice`'s loop body: the stripped line if it is a menu token. */
  function MenuToken(line: string): (t: Option<string>)
    ensures t.Some? <==> IsMenuToken(Strip(line))
    ensures t.Some? ==> t.value == Strip(line)
  {
    var choice := Strip(line);
    if IsMenuToken(choice) then Some(choice) else None
  }

  /** A menu token typed with any whitespace around it is accepted as that token. */
  lemma MenuTokenOfPadded(w1: string, t: string, w2: string)
    requires IsBlank(w1) && IsBlank(w2) && t in MenuChoices
    ensures MenuToken(w1 + t + w2) == Some(t)
  {
    MenuTokensAreMenuChoices(t);
    StripPadded(w1, t, w2);
  }

  /**
   * `_get_menu_choice`: reads lines until one strips to a menu token and
   * returns that token; every line before it was rejected.
   */
  method GetMenuChoice(inputs: seq<string>) returns (r: ReadOutcome<string>)
    ensures r.Got? ==> 1 <= r.used <= |inputs|
    ensures r.Got? ==> r.value in MenuChoices && MenuToken(inputs[r.used - 1]) == Some(r.value)
    ensures r.Got? ==> forall j :: 0 <= j < r.used - 1 ==> MenuToken(inputs[j]) == None
    ensures r.OutOfInput? ==> forall j :: 0 <= j < |inputs| ==> MenuToken(inputs[j]) == None
    ensures r == MenuPrompt(inputs)
  {
    var i := 0;
    while i < |inputs|
      invariant 0 <= i <= |inputs|
      invariant forall j :: 0 <= j < i ==> MenuToken(inputs[j]) == None
    {
      var token := MenuToken(inputs[i]);
      if token.Some? {
        MenuTokensAreMenuChoices(token.value);
        MenuPromptAnswersAt(inputs, i);
        return Got(token.value, i + 1);
      }
      i := i + 1;
    }
    MenuPromptRunsOut(inputs);
    return OutOfInput;
  }

  /** How one line typed at a task-id prompt is taken. */
  datatype IdEntry =
    | Blank               // nothing typed: the action is abandoned
    | NotANumber          // `int()` refused it: ask again
    | NotPositive         // zero or negative: ask again
    | Positive(id: int)   // a usable id

  {
    /** The entries the prompt answers by asking again. */
    predicate AsksAgain() {
      NotANumber? || NotPositive?
    }
  }

  /** One pass of `_get_valid_task_id`'s loop body. */
  function ClassifyIdEntry(line: string): (e: IdEntry)
    ensures e == Blank <==> Strip(line) == []
    ensures e.Positive? ==> e.id > 0
  {
    var s := Strip(line);
    if s == [] then Blank
    else match ParseInt(s)
      case None => NotANumber
      case Some(n) => if n <= 0 then NotPositive else Positive(n)
  }

  /**
   * How `int()` decides an id entry: a non-blank line that is not a signed
   * numeral is not a number; a numeral of value zero or less is not positive;
   * otherwise the id is the numeral's value.
   */
  lemma ClassifyIdEntryParses(line: string)
    ensures ClassifyIdEntry(line).NotANumber? <==> !IsBlank(line) && !IsNumeral(Strip(line))
    ensures ClassifyIdEntry(line).NotPositive? <==> IsNumeral(Strip(line)) && ParseInt(Strip(line)).value <= 0
    ensures ClassifyIdEntry(line).Positive? ==> ParseInt(Strip(line)) == Some(ClassifyIdEntry(line).id)
  {
    StripIsEmptyIffBlank(line);
  }

  /** A positive id typed in decimal, with any whitespace around it, is accepted as that id; zero or less is refused. */
  lemma ClassifyTypedId(w1: string, n: int, w2: string)
    requires IsBlank(w1) && IsBlank(w2)
    ensures ClassifyIdEntry(w1 + IntToString(n) + w2) == if n > 0 then Positive(n) else NotPositive
  {
    var t := IntToString(n);
    assert IsTrimmed(t) by {
      assert !IsSpace(t[0]) && !IsSpace(t[|t| - 1]);
    }
    StripPadded(w1, t, w2);
    ParseIntOfIntToString(n);
  }

  /** Every one of the first `n` lines was refused at the id prompt and asked again. */
  predicate AskedAgainBefore(inputs: seq<string>, n: int) {
    n <= |inputs| && forall j :: 0 <= j < n ==> ClassifyIdEntry(inputs[j]).AsksAgain()
  }

  /** The id prompt stopped at line `at`: that line is blank or a positive id, and every earlier line asked again. */
  predicate IdAnswered(inputs: seq<string>, at: int) {
    0 <= at < |inputs| && !ClassifyIdEntry(inputs[at]).AsksAgain() && AskedAgainBefore(inputs, at)
  }

  /** The id prompt never stopped: every line asked again. */
  predicate NoIdAnswer(inputs: seq<string>) {
    AskedAgainBefore(inputs, |inputs|)
  }

  /** The id prompt stops at one line at most, and never when it ran out of lines. */
  lemma IdAnswerUnique(inputs: seq<string>, a: int, b: int)
    requires IdAnswered(inputs, a)
    ensures !NoIdAnswer(inputs)
    ensures IdAnswered(inputs, b) ==> a == b
  {
  }

  /**
   * `_get_valid_task_id` as a function of the input lines: a blank line gives
   * no id, a positive number gives that id, and any other line asks again.
   * `used` counts the lines read, the answering one included.
   */
  function IdPrompt(inputs: seq<string>): (r: ReadOutcome<Option<int>>)
    ensures r.Got? ==> 1 <= r.used <= |inputs|
    decreases |inputs|
  {
    if inputs == [] then OutOfInput
    else match ClassifyIdEntry(inputs[0])
      case Blank => Got(None, 1)
      case Positive(id) => Got(Some(id), 1)
      case _ =>
        match IdPrompt(inputs[1..])
        case OutOfInput => OutOfInput
        case Got(v, u) => Got(v, u + 1)
  }

  /**
   * The id prompt answers at the first line that is blank (no id) or a
   * positive number (that id), after every earlier line asked again; it runs
   * out exactly when every line asks again.
   */
  lemma {:induction false} IdPromptStops(inputs: seq<string>)
    ensures IdPrompt(inputs).Got? ==>
      && IdAnswered(inputs, IdPrompt(inputs).used - 1)
      && ClassifyIdEntry(inputs[IdPrompt(inputs).used - 1])
         == if IdPrompt(inputs).value.None? then Blank else Positive(IdPrompt(inputs).value.value)
    ensures IdPrompt(inputs).OutOfInput? <==> NoIdAnswer(inputs)
    decreases |inputs|
  {
    if inputs != [] && ClassifyIdEntry(inputs[0]).AsksAgain() {
      var tail := inputs[1..];
      IdPromptStops(tail);
      forall n | 0 <= n <= |tail|
        ensures AskedAgainBefore(inputs, n + 1) <==> AskedAgainBefore(tail, n)
      {
        assert forall j :: 0 <= j < n ==> inputs[j + 1] == tail[j];
        if AskedAgainBefore(tail, n) {
          forall j | 0 <= j < n + 1 ensures ClassifyIdEntry(inputs[j]).AsksAgain() {
            if j > 0 {
              assert ClassifyIdEntry(tail[j - 1]).AsksAgain();
            }
          }
        }
      }
    }
  }

  /** Once a line answers the id prompt, it gives the prompt's result: no id for a blank line, the typed id otherwise. */
  lemma IdPromptAnswersAt(inputs: seq<string>, at: int)
    requires IdAnswered(inputs, at)
    ensures IdPrompt(inputs)
      == Got(if ClassifyIdEntry(inputs[at]).Blank? then None else Some(ClassifyIdEntry(inputs[at]).id), at + 1)
  {
    var r := IdPrompt(inputs);
    IdPromptStops(inputs);
    IdAnswerUnique(inputs, at, r.used - 1);
    assert r.Got? && r.used == at + 1;
    var e := ClassifyIdEntry(inputs[at]);
    assert e == if r.value.None? then Blank else Positive(r.value.value);
  }

  /** `_get_valid_task_id`'s loop: reads lines until the id prompt is answered. */
  method GetValidTaskId(inputs: seq<string>) returns (r: ReadOutcome<Option<int>>)
    ensures r == IdPrompt(inputs)
  {
    var i := 0;
    while i < |inputs|
      invariant 0 <= i <= |inputs|
      invariant AskedAgainBefore(inputs, i)
    {
      var entry := ClassifyIdEntry(inputs[i]);
      if !entry.AsksAgain() {
        IdPromptAnswersAt(inputs, i);
        return Got(if entry.Blank? then None else Some(entry.id), i + 1);
      }
      i := i + 1;
    }
    IdPromptStops(inputs);
    return OutOfInput;
  }

  // ---------------------------------------------------------------- routing

  /** The action handlers of `_handle_choice`. */
  datatype Handler = AddHandler | ViewHandler | UpdateHandler | DeleteHandler | ToggleHandler(complete: bool)

  /** `_handle_choice`'s table: "1" to "6" each have a handler; anything else, the exit token included, has none. */
  function Route(choice: string): (h: Option<Handler>)
    ensures h.Some? <==> IsMenuToken(choice) && choice != ExitChoice
  {
    if |choice| != 1 then None
    else match choice[0]
      case '1' => Some(AddHandler)
      case '2' => Some(ViewHandler)
      case '3' => Some(UpdateHandler)
      case '4' => Some(DeleteHandler)
      case '5' => Some(ToggleHandler(true))
      case '6' => Some(ToggleHandler(false))
      case _ => None
  }

  /** The number the menu shows in front of each action. */
  function MenuNumber(h: Handler): string {
    match h
    case AddHandler => "1"
    case ViewHandler => "2"
    case UpdateHandler => "3"
    case DeleteHandler => "4"
    case ToggleHandler(complete) => if complete then "5" else "6"
  }

  /** Typing the number the menu shows for an action routes to that action, and every routed token is that number. */
  lemma RouteMatchesMenu(h: Handler, choice: string)
    ensures Route(MenuNumber(h)) == Some(h)
    ensures Route(choice) == Some(h) ==> choice == MenuNumber(h)
  {
  }

  // ---------------------------------------------------------------- the view

  /** `[X]` for a completed task, `[ ]` otherwise. */
  function StatusMarker(done: bool): string {
    if done then "[X]" else "[ ]"
  }

  /** One line of the task list: `<id>. [X] <description>`. */
  function RenderLine(t: Task): string {
    IntToString(t.id) + ". " + StatusMarker(t.status) + " " + t.description
  }

  /** Reads a task back from a line in the form `RenderLine` writes for a non-negative id. */
  function ParseLine(line: string): Option<Task> {
    var n := DigitRun(line);
    var rest := line[n..];
    if 0 < n && |rest| >= 6 && rest[0] == '.' && rest[1] == ' ' && rest[2] == '['
       && (rest[3] == 'X' || rest[3] == ' ') && rest[4] == ']' && rest[5] == ' '
    then Some(Task(DigitsValue(line[..n]), rest[6..], rest[3] == 'X'))
    else None
  }

  /** A line made of a numeral, the marker in brackets and a description is read as those three parts. */
  lemma ParseLineOfParts(d: string, mark: char, description: string)
    requires d != [] && AllDigits(d)
    requires mark == 'X' || mark == ' '
    ensures ParseLine(d + ['.', ' ', '[', mark, ']', ' '] + description) == Some(Task(DigitsValue(d), description, mark == 'X'))
  {
    var rest := ['.', ' ', '[', mark, ']', ' '] + description;
    var line := d + rest;
    assert line == d + ['.', ' ', '[', mark, ']', ' '] + description;
    DigitRunOfNumeral(d, rest);
    assert line[..|d|] == d && line[|d|..] == rest;
    assert rest[6..] == description;
  }

  /** A task line loses nothing: id, status and description can all be read back from it. */
  lemma ParseRenderedLine(t: Task)
    requires t.id >= 0
    ensures ParseLine(RenderLine(t)) == Some(t)
  {
    var mark := if t.status then 'X' else ' ';
    assert RenderLine(t) == NatToDigits(t.id) + ['.', ' ', '[', mark, ']', ' '] + t.description;
    ParseLineOfParts(NatToDigits(t.id), mark, t.description);
  }

  /** What `_handle_view` shows: a notice for an empty store, otherwise one line per task. */
  datatype View = EmptyState | Listing(lines: seq<string>)

  function RenderView(tasks: seq<Task>): View {
    if tasks == [] then EmptyState
    else Listing(seq(|tasks|, i requires 0 <= i < |tasks| => RenderLine(tasks[i])))
  }

  /** The view of a task list is empty exactly for no tasks, and otherwise each line reads back as its task. */
  lemma ViewReadsBack(tasks: seq<Task>)
    requires forall i :: 0 <= i < |tasks| ==> tasks[i].id >= 0
    ensures RenderView(tasks).EmptyState? <==> tasks == []
    ensures RenderView(tasks).Listing? ==>
      |RenderView(tasks).lines| == |tasks| &&
      forall i :: 0 <= i < |tasks| ==> ParseLine(RenderView(tasks).lines[i]) == Some(tasks[i])
  {
    forall i | 0 <= i < |tasks| ensures ParseLine(RenderLine(tasks[i])) == Some(tasks[i]) {
      ParseRenderedLine(tasks[i]);
    }
  }

  // ---------------------------------------------------------------- handlers

  /** The outcome of one action, in place of the message printed for it. */
  datatype Report =
    | Added(id: int)                    // "Task added (ID: n)"
    | Listed(view: View)
    | Updated(id: int)                  // "Task updated."
    | Deleted(id: int)                  // "Task deleted."
    | Marked(id: int, complete: bool)   // "Task marked as complete/incomplete."
    | NotFound(id: int)                 // "Error: Task n not found."
    | EmptyDescription                  // "Error: ... description cannot be empty."
    | Abandoned                         // blank id: the action ends silently
    | NoMoreInput                       // the input ended inside the action

  /** The reports each action can give. */
  predicate ReportFits(h: Handler, rep: Report) {
    match h
    case AddHandler => rep.Added? || rep == EmptyDescription || rep == NoMoreInput
    case ViewHandler => rep.Listed?
    case UpdateHandler => rep.Updated? || rep.NotFound? || rep in {EmptyDescription, Abandoned, NoMoreInput}
    case DeleteHandler => rep.Deleted? || rep.NotFound? || rep in {Abandoned, NoMoreInput}
    case ToggleHandler(complete) =>
      (rep.Marked? && rep.complete == complete) || rep.NotFound? || rep in {Abandoned, NoMoreInput}
  }

  /** What one action did: its report, the input lines it read, and the store and counter after it. */
  datatype Outcome = Outcome(rep: Report, used: nat, store: map<int, Task>, next: int)

  /**
   * `_handle_add`: a blank line is refused; otherwise the stripped text is
   * filed under the counter, which moves on by one.
   */
  function AddOutcome(inputs: seq<string>, store: map<int, Task>, next: int): (o: Outcome)
    requires StoreInvariant(store, next)
    ensures o.used <= |inputs| && StoreInvariant(o.store, o.next)
  {
    if inputs == [] then Outcome(NoMoreInput, 0, store, next)
    else if IsBlank(inputs[0]) then Outcome(EmptyDescription, 1, store, next)
    else
      var t := Task(next, Strip(inputs[0]), false);
      StripIsEmptyIffBlank(inputs[0]);
      AddKeepsInvariant(store, next, t);
      Outcome(Added(next), 1, store[next := t], next + 1)
  }

  /**
   * `_handle_update`: after an id, one more line is read; a blank one is
   * refused, otherwise the task under the id gets the stripped text as its
   * description, or the id is reported as not found.
   */
  function UpdateOutcome(inputs: seq<string>, store: map<int, Task>, next: int): (o: Outcome)
    requires StoreInvariant(store, next)
    ensures o.used <= |inputs| && o.next == next && StoreInvariant(o.store, o.next)
  {
    match IdPrompt(inputs)
    case OutOfInput => Outcome(NoMoreInput, |inputs|, store, next)
    case Got(None, u) => Outcome(Abandoned, u, store, next)
    case Got(Some(id), u) =>
      if u == |inputs| then Outcome(NoMoreInput, u, store, next)
      else if IsBlank(inputs[u]) then Outcome(EmptyDescription, u + 1, store, next)
      else if id in store then
        var t := store[id].(description := Strip(inputs[u]));
        StripIsEmptyIffBlank(inputs[u]);
        ReplaceKeepsInvariant(store, next, t);
        Outcome(Updated(id), u + 1, store[id := t], next)
      else Outcome(NotFound(id), u + 1, store, next)
  }

  /**
   * `_handle_delete`: the id prompt runs out, or answers with no id (the
   * action is abandoned), or with an id, whose task is removed if there is one
   * and reported as not found otherwise.
   */
  function DeleteOutcome(inputs: seq<string>, store: map<int, Task>, next: int): (o: Outcome)
    requires StoreInvariant(store, next)
    ensures o.used <= |inputs| && o.next == next && StoreInvariant(o.store, o.next)
  {
    match IdPrompt(inputs)
    case OutOfInput => Outcome(NoMoreInput, |inputs|, store, next)
    case Got(None, u) => Outcome(Abandoned, u, store, next)
    case Got(Some(id), u) => Outcome(if id in store then Deleted(id) else NotFound(id), u, store - {id}, next)
  }

  /**
   * `_handle_toggle(complete)`: as for a delete, except that the task under
   * the id gets status `complete` and is otherwise unchanged.
   */
  function ToggleOutcome(complete: bool, inputs: seq<string>, store: map<int, Task>, next: int): (o: Outcome)
    requires StoreInvariant(store, next)
    ensures o.used <= |inputs| && o.next == next && StoreInvariant(o.store, o.next)
  {
    match IdPrompt(inputs)
    case OutOfInput => Outcome(NoMoreInput, |inputs|, store, next)
    case Got(None, u) => Outcome(Abandoned, u, store, next)
    case Got(Some(id), u) =>
      if id in store then
        var t := store[id].(status := complete);
        ReplaceKeepsInvariant(store, next, t);
        Outcome(Marked(id, complete), u, store[id := t], next)
      else Outcome(NotFound(id), u, store, next)
  }

  /** One action's trace on the store and counter: only an add files a new id and moves the counter, only a delete removes an id. */
  predicate StepAccounted(store1: map<int, Task>, next1: int, store2: map<int, Task>, next2: int, rep: Report) {
    && (if rep.Added? then rep.id == next1 && next2 == next1 + 1 else next2 == next1)
    && (forall id :: id in store2 && id !in store1 ==> rep == Added(id))
    && (forall id :: id in store1 && id !in store2 ==> rep == Deleted(id))
  }

  /**
   * `_handle_choice` for a routed choice: the outcome of its handler, which
   * keeps the store invariant, gives one of that handler's reports, and
   * changes the store and counter only as its report says.
   */
  function ChoiceOutcome(h: Handler, inputs: seq<string>, store: map<int, Task>, next: int): (o: Outcome)
    requires StoreInvariant(store, next)
    ensures o.used <= |inputs| && StoreInvariant(o.store, o.next)
    ensures ReportFits(h, o.rep)
    ensures StepAccounted(store, next, o.store, o.next, o.rep)
  {
    match h
    case AddHandler => AddOutcome(inputs, store, next)
    case ViewHandler => Outcome(Listed(RenderView(SortedById(store))), 0, store, next)
    case UpdateHandler => UpdateOutcome(inputs, store, next)
    case DeleteHandler => DeleteOutcome(inputs, store, next)
    case ToggleHandler(complete) => ToggleOutcome(complete, inputs, store, next)
  }

  // ---------------------------------------------------------------- the session

  /**
   * `_get_menu_choice` as a function of the input lines: the token of the
   * first line that strips to a menu token, and the lines read up to it.
   */
  function MenuPrompt(inputs: seq<string>): (r: ReadOutcome<string>)
    ensures r.Got? ==> 1 <= r.used <= |inputs| && IsMenuToken(r.value)
    decreases |inputs|
  {
    if inputs == [] then OutOfInput
    else match MenuToken(inputs[0])
      case Some(t) => Got(t, 1)
      case None =>
        match MenuPrompt(inputs[1..])
        case OutOfInput => OutOfInput
        case Got(t, u) => Got(t, u + 1)
  }

  /** The menu prompt answers at the first line that strips to a menu token, with that token. */
  lemma {:induction false} MenuPromptAnswersAt(inputs: seq<string>, at: nat)
    requires at < |inputs| && MenuToken(inputs[at]).Some?
    requires forall j :: 0 <= j < at ==> MenuToken(inputs[j]) == None
    ensures MenuPrompt(inputs) == Got(MenuToken(inputs[at]).value, at + 1)
    decreases at
  {
    if at > 0 {
      assert MenuToken(inputs[0]) == None;
      assert forall j :: 0 <= j < at - 1 ==> inputs[1..][j] == inputs[j + 1];
      MenuPromptAnswersAt(inputs[1..], at - 1);
    }
  }

  /** The menu prompt runs out when no line strips to a menu token. */
  lemma {:induction false} MenuPromptRunsOut(inputs: seq<string>)
    requires forall j :: 0 <= j < |inputs| ==> MenuToken(inputs[j]) == None
    ensures MenuPrompt(inputs) == OutOfInput
    decreases |inputs|
  {
    if inputs != [] {
      assert MenuToken(inputs[0]) == None;
      assert forall j :: 0 <= j < |inputs| - 1 ==> inputs[1..][j] == inputs[j + 1];
      MenuPromptRunsOut(inputs[1..]);
    }
  }

  /** What a run of the menu loop did, and the store and counter it left. */
  datatype SessionResult =
    SessionResult(reports: seq<Report>, exited: bool, choices: seq<string>, consumed: nat,
                  store: map<int, Task>, next: int)

  /**
   * `run` as a function of the input lines: a menu choice, then, unless it is
   * the exit token, its action and the rest of the run, until the exit token
   * or the end of the lines. `choices` are the tokens read, `reports` the
   * actions' reports and `consumed` the lines read.
   */
  function Session(inputs: seq<string>, store: map<int, Task>, next: int): SessionResult
    requires StoreInvariant(store, next)
    decreases |inputs|, 1
  {
    match MenuPrompt(inputs)
    case OutOfInput => SessionResult([], false, [], |inputs|, store, next)
    case Got(choice, u) =>
      if choice == ExitChoice then SessionResult([], true, [choice], u, store, next)
      else Resumed([], [choice], u, Act(choice, inputs[u..], store, next))
  }

  /** The action of a routed menu choice, run on the lines after the choice, then the rest of the session. */
  function Act(choice: string, inputs: seq<string>, store: map<int, Task>, next: int): SessionResult
    requires StoreInvariant(store, next) && Route(choice).Some?
    decreases |inputs|, 2
  {
    var o := ChoiceOutcome(Route(choice).value, inputs, store, next);
    Resumed([o.rep], [], o.used, Session(inputs[o.used..], o.store, o.next))
  }

  /**
   * A session that reads a choice other than the exit token runs that
   * choice's action, then goes on after the lines the action read.
   */
  lemma {:induction false} SessionStep(inputs: seq<string>, store: map<int, Task>, next: int, c: string, u: nat,
                                       rep: Report, used: nat, store': map<int, Task>, next': int, rest: SessionResult)
    requires StoreInvariant(store, next)
    requires MenuPrompt(inputs) == Got(c, u) && c != ExitChoice
    requires Outcome(rep, used, store', next') == ChoiceOutcome(Route(c).value, inputs[u..], store, next)
    requires rest == Session(inputs[u + used..], store', next')
    ensures Session(inputs, store, next) == Resumed([rep], [c], u + used, rest)
  {
    assert inputs[u..][used..] == inputs[u + used..];
    assert Act(c, inputs[u..], store, next) == Resumed([rep], [], used, rest);
    assert [] + ([rep] + rest.reports) == [rep] + rest.reports;
    assert [c] + ([] + rest.choices) == [c] + rest.choices;
  }

  /** A session whose menu prompt runs out reads every line and does nothing. */
  lemma {:induction false} SessionRunsOut(inputs: seq<string>, store: map<int, Task>, next: int)
    requires StoreInvariant(store, next) && MenuPrompt(inputs).OutOfInput?
    ensures Session(inputs, store, next) == SessionResult([], false, [], |inputs|, store, next)
  {
  }

  /** A session whose menu prompt reads the exit token stops there. */
  lemma {:induction false} SessionExits(inputs: seq<string>, store: map<int, Task>, next: int)
    requires StoreInvariant(store, next)
    requires MenuPrompt(inputs).Got? && MenuPrompt(inputs).value == ExitChoice
    ensures Session(inputs, store, next) == SessionResult([], true, [ExitChoice], MenuPrompt(inputs).used, store, next)
  {
  }

  /** A session's first reports and choices, over its first `consumed` lines, followed by the rest of it. */
  function Resumed(reports: seq<Report>, choices: seq<string>, consumed: nat, rest: SessionResult): SessionResult {
    SessionResult(reports + rest.reports, rest.exited, choices + rest.choices, consumed + rest.consumed,
                  rest.store, rest.next)
  }

  /** Resuming twice is resuming once after both stretches. */
  lemma {:induction false} ResumedTwice(reports1: seq<Report>, choices1: seq<string>, consumed1: nat,
                     reports2: seq<Report>, choices2: seq<string>, consumed2: nat, rest: SessionResult)
    ensures Resumed(reports1, choices1, consumed1, Resumed(reports2, choices2, consumed2, rest))
         == Resumed(reports1 + reports2, choices1 + choices2, consumed1 + consumed2, rest)
  {
    assert reports1 + (reports2 + rest.reports) == (reports1 + reports2) + rest.reports;
    assert choices1 + (choices2 + rest.choices) == (choices1 + choices2) + rest.choices;
  }

  /**
   * The choices of a run are menu tokens, and it exited exactly when the last
   * one is the exit token; no earlier token is.
   */
  predicate ChoicesEndAtExit(r: SessionResult) {
    && (forall i :: 0 <= i < |r.choices| ==> IsMenuToken(r.choices[i]))
    && (r.exited <==> r.choices != [] && r.choices[|r.choices| - 1] == ExitChoice)
    && (forall i :: 0 <= i < |r.choices| - 1 ==> r.choices[i] != ExitChoice)
  }

  /** A run that exited read the exit token from the last line it consumed; otherwise it read every line. */
  predicate EndsAtExitOrEnd(inputs: seq<string>, r: SessionResult) {
    && (r.exited ==> 1 <= r.consumed <= |inputs| && MenuToken(inputs[r.consumed - 1]) == Some(ExitChoice))
    && (!r.exited ==> r.consumed == |inputs|)
  }

  /**
   * Every choice of a run but a final exit token was routed to a handler and
   * gave one report, one that handler can give.
   */
  predicate ReportsFitChoices(r: SessionResult) {
    && |r.reports| == |r.choices| - (if r.exited then 1 else 0)
    && (forall i :: 0 <= i < |r.reports| ==>
          Route(r.choices[i]).Some? && ReportFits(Route(r.choices[i]).value, r.reports[i]))
  }

  /** A session reads menu tokens only, and it exits exactly at the first exit token. */
  lemma {:induction false} SessionChoices(inputs: seq<string>, store: map<int, Task>, next: int)
    requires StoreInvariant(store, next)
    ensures ChoicesEndAtExit(Session(inputs, store, next))
    decreases |inputs|
  {
    match MenuPrompt(inputs)
    case OutOfInput =>
    case Got(choice, u) =>
      if choice != ExitChoice {
        var o := ChoiceOutcome(Route(choice).value, inputs[u..], store, next);
        var later := inputs[u + o.used..];
        SessionStep(inputs, store, next, choice, u, o.rep, o.used, o.store, o.next, Session(later, o.store, o.next));
        SessionChoices(later, o.store, o.next);
        ChoicesPrepend(o.rep, choice, u + o.used, Session(later, o.store, o.next));
      }
  }

  /** A token other than the exit token, read before a run, keeps its choices well formed. */
  lemma {:induction false} ChoicesPrepend(rep: Report, choice: string, consumed: nat, rest: SessionResult)
    requires IsMenuToken(choice) && choice != ExitChoice && ChoicesEndAtExit(rest)
    ensures ChoicesEndAtExit(Resumed([rep], [choice], consumed, rest))
  {
    var r := Resumed([rep], [choice], consumed, rest);
    assert forall i :: 0 <= i < |rest.choices| ==> r.choices[i + 1] == rest.choices[i];
  }

  /** A session that exits read the exit token from the last line it consumed; otherwise it read every line. */
  lemma {:induction false} SessionEnds(inputs: seq<string>, store: map<int, Task>, next: int)
    requires StoreInvariant(store, next)
    ensures EndsAtExitOrEnd(inputs, Session(inputs, store, next))
    decreases |inputs|
  {
    match MenuPrompt(inputs)
    case OutOfInput =>
    case Got(choice, u) =>
      if choice == ExitChoice {
        MenuPromptAnswers(inputs);
      } else {
        var o := ChoiceOutcome(Route(choice).value, inputs[u..], store, next);
        var later := inputs[u + o.used..];
        SessionStep(inputs, store, next, choice, u, o.rep, o.used, o.store, o.next, Session(later, o.store, o.next));
        SessionEnds(later, o.store, o.next);
        EndsPrepend(inputs, u + o.used, [o.rep], [choice], Session(later, o.store, o.next));
      }
  }

  /** Lines read before a run shift where it ends. */
  lemma {:induction false} EndsPrepend(inputs: seq<string>, consumed: nat, reports: seq<Report>, choices: seq<string>, rest: SessionResult)
    requires consumed <= |inputs| && EndsAtExitOrEnd(inputs[consumed..], rest)
    ensures EndsAtExitOrEnd(inputs, Resumed(reports, choices, consumed, rest))
  {
    if rest.exited {
      assert inputs[consumed..][rest.consumed - 1] == inputs[consumed + rest.consumed - 1];
    }
  }

  /** Every choice of a session but a final exit token was routed to a handler and gave one report that handler can give. */
  lemma {:induction false} SessionReports(inputs: seq<string>, store: map<int, Task>, next: int)
    requires StoreInvariant(store, next)
    ensures ReportsFitChoices(Session(inputs, store, next))
    decreases |inputs|
  {
    match MenuPrompt(inputs)
    case OutOfInput =>
    case Got(choice, u) =>
      if choice != ExitChoice {
        var o := ChoiceOutcome(Route(choice).value, inputs[u..], store, next);
        var later := inputs[u + o.used..];
        SessionStep(inputs, store, next, choice, u, o.rep, o.used, o.store, o.next, Session(later, o.store, o.next));
        SessionReports(later, o.store, o.next);
        ReportsPrepend(o.rep, choice, u + o.used, Session(later, o.store, o.next));
      }
  }

  /** A routed choice and a report its handler can give, before a run, keep the reports fitting the choices. */
  lemma {:induction false} ReportsPrepend(rep: Report, choice: string, consumed: nat, rest: SessionResult)
    requires Route(choice).Some? && ReportFits(Route(choice).value, rep) && ReportsFitChoices(rest)
    ensures ReportsFitChoices(Resumed([rep], [choice], consumed, rest))
  {
    var r := Resumed([rep], [choice], consumed, rest);
    forall i | 0 <= i < |r.reports|
      ensures Route(r.choices[i]).Some? && ReportFits(Route(r.choices[i]).value, r.reports[i])
    {
      if i > 0 {
        assert r.choices[i] == rest.choices[i - 1] && r.reports[i] == rest.reports[i - 1];
      }
    }
  }

  /** The line the menu prompt answered at holds the token it returned. */
  lemma {:induction false} MenuPromptAnswers(inputs: seq<string>)
    ensures MenuPrompt(inputs).Got? ==> MenuToken(inputs[MenuPrompt(inputs).used - 1]) == Some(MenuPrompt(inputs).value)
    decreases |inputs|
  {
    if inputs != [] && MenuToken(inputs[0]).None? {
      MenuPromptAnswers(inputs[1..]);
    }
  }

  /**
   * The reports of a session account for every change from the store and
   * counter at its start: the added ids strictly increase and are exactly the
   * ids the counter moved past; an id was filed only by a reported add and
   * removed only by a reported delete.
   */
  predicate SessionAccounted(store0: map<int, Task>, next0: int, store: map<int, Task>, next: int, reports: seq<Report>) {
    && next0 <= next
    && (forall i :: 0 <= i < |reports| && reports[i].Added? ==> next0 <= reports[i].id < next)
    && (forall i, j :: 0 <= i < j < |reports| && reports[i].Added? && reports[j].Added? ==> reports[i].id < reports[j].id)
    && (forall id :: next0 <= id < next ==> Added(id) in reports)
    && (forall id :: id in store && id !in store0 ==> Added(id) in reports)
    && (forall id :: id in store0 && id !in store ==> Deleted(id) in reports)
  }

  /** An accounted action followed by an accounted session is an accounted session. */
  lemma {:induction false} SessionPrepend(store0: map<int, Task>, next0: int, store1: map<int, Task>, next1: int,
                       store: map<int, Task>, next: int, rep: Report, reports: seq<Report>)
    requires StepAccounted(store0, next0, store1, next1, rep)
    requires SessionAccounted(store1, next1, store, next, reports)
    ensures SessionAccounted(store0, next0, store, next, [rep] + reports)
  {
    var all := [rep] + reports;
    forall i | 0 <= i < |all| && all[i].Added? ensures next0 <= all[i].id < next {
      if i > 0 {
        assert all[i] == reports[i - 1];
      }
    }
    forall i, j | 0 <= i < j < |all| && all[i].Added? && all[j].Added? ensures all[i].id < all[j].id {
      assert all[j] == reports[j - 1];
      if i > 0 {
        assert all[i] == reports[i - 1];
      }
    }
    forall id | next0 <= id < next ensures Added(id) in all {
      if id == next0 && rep.Added? {
        assert all[0] == Added(id);
      } else {
        assert Added(id) in reports;
      }
    }
    forall id | id in store && id !in store0 ensures Added(id) in all {
      if id in store1 {
        assert all[0] == Added(id);
      }
    }
    forall id | id in store0 && id !in store ensures Deleted(id) in all {
      if id !in store1 {
        assert all[0] == Deleted(id);
      }
    }
  }

  /** A whole session accounts for its changes to the store and counter. */
  lemma {:induction false} SessionAccounts(inputs: seq<string>, store: map<int, Task>, next: int)
    requires StoreInvariant(store, next)
    ensures var r := Session(inputs, store, next); SessionAccounted(store, next, r.store, r.next, r.reports)
    decreases |inputs|
  {
    match MenuPrompt(inputs)
    case OutOfInput =>
    case Got(choice, u) =>
      if choice != ExitChoice {
        var o := ChoiceOutcome(Route(choice).value, inputs[u..], store, next);
        var later := inputs[u + o.used..];
        SessionStep(inputs, store, next, choice, u, o.rep, o.used, o.store, o.next, Session(later, o.store, o.next));
        SessionAccounts(later, o.store, o.next);
        var rest := Session(later, o.store, o.next);
        SessionPrepend(store, next, o.store, o.next, rest.store, rest.next, o.rep, rest.reports);
      }
  }

  /** The console, bound to one task service. */
  class Console {
    const service: TaskService

    constructor (service: TaskService)
      ensures this.service == service
    {
      this.service := service;
    }

    /**
     * `_handle_add`: a blank line is refused here, before the service sees it;
     * otherwise the stripped text is added under the next id.
     */
    method HandleAdd(inputs: seq<string>) returns (rep: Report, used: nat)
      requires service.Valid()
      modifies service
      ensures service.Valid()
      ensures Outcome(rep, used, service.store, service.nextId) == AddOutcome(inputs, old(service.store), old(service.nextId))
      ensures rep.Added? ==> rep.id !in old(service.store)
    {
      if inputs == [] {
        return NoMoreInput, 0;
      }
      StripIsEmptyIffBlank(inputs[0]);
      var description := Strip(inputs[0]);
      if description == [] {
        return EmptyDescription, 1;
      }
      StripIdempotent(inputs[0]);
      var r := service.AddTask(description);
      return Added(r.value.id), 1;
    }

    /** `_handle_view`: the tasks in id order, each as one line. */
    method HandleView() returns (rep: Report)
      requires service.Valid()
      ensures rep == Listed(RenderView(SortedById(service.store)))
      ensures rep.view.EmptyState? <==> service.store == map[]
      ensures rep.view.Listing? ==>
        var tasks := SortedById(service.store);
        |rep.view.lines| == |tasks| == |service.store| &&
        forall i :: 0 <= i < |tasks| ==> ParseLine(rep.view.lines[i]) == Some(tasks[i])
    {
      var tasks := service.GetAllTasks();
      ListingUnique(service.store, tasks, SortedById(service.store));
      ViewReadsBack(tasks);
      rep := Listed(RenderView(tasks));
    }

    /**
     * `_handle_update`: an id, then a description. A blank id abandons the
     * action; a blank description is refused before the service is asked; an
     * unknown id is reported.
     */
    method HandleUpdate(inputs: seq<string>) returns (rep: Report, used: nat)
      requires service.Valid()
      modifies service
      ensures service.Valid()
      ensures Outcome(rep, used, service.store, service.nextId) == UpdateOutcome(inputs, old(service.store), old(service.nextId))
    {
      var entry := GetValidTaskId(inputs);
      if entry.OutOfInput? {
        return NoMoreInput, |inputs|;
      }
      used := entry.used;
      if entry.value.None? {
        return Abandoned, used;
      }
      var id := entry.value.value;
      if used == |inputs| {
        return NoMoreInput, used;
      }
      StripIsEmptyIffBlank(inputs[used]);
      var description := Strip(inputs[used]);
      used := used + 1;
      if description == [] {
        return EmptyDescription, used;
      }
      StripIdempotent(inputs[used - 1]);
      var r := service.UpdateTask(id, description);
      rep := if r.value.Some? then Updated(id) else NotFound(id);
    }

    /** `_handle_delete`: an id; the task goes if it was there, otherwise it is reported as not found. */
    method HandleDelete(inputs: seq<string>) returns (rep: Report, used: nat)
      requires service.Valid()
      modifies service
      ensures service.Valid()
      ensures Outcome(rep, used, service.store, service.nextId) == DeleteOutcome(inputs, old(service.store), old(service.nextId))
    {
      var entry := GetValidTaskId(inputs);
      if entry.OutOfInput? {
        return NoMoreInput, |inputs|;
      }
      used := entry.used;
      if entry.value.None? {
        return Abandoned, used;
      }
      var id := entry.value.value;
      var deleted := service.DeleteTask(id);
      rep := if deleted then Deleted(id) else NotFound(id);
    }

    /** `_handle_toggle`: an id; that task's status is set to `complete`, or the id is reported as not found. */
    method HandleToggle(complete: bool, inputs: seq<string>) returns (rep: Report, used: nat)
      requires service.Valid()
      modifies service
      ensures service.Valid()
      ensures Outcome(rep, used, service.store, service.nextId)
        == ToggleOutcome(complete, inputs, old(service.store), old(service.nextId))
    {
      var entry := GetValidTaskId(inputs);
      if entry.OutOfInput? {
        return NoMoreInput, |inputs|;
      }
      used := entry.used;
      if entry.value.None? {
        return Abandoned, used;
      }
      var id := entry.value.value;
      var r: Option<Task>;
      if complete {
        r := service.MarkComplete(id);
      } else {
        r := service.MarkIncomplete(id);
      }
      rep := if r.Some? then Marked(id, complete) else NotFound(id);
    }

    /**
     * `_handle_choice`: runs the handler the choice routes to, with that
     * handler's outcome; a choice without a handler does nothing.
     */
    method HandleChoice(choice: string, inputs: seq<string>) returns (rep: Option<Report>, used: nat)
      requires service.Valid()
      modifies service
      ensures service.Valid()
      ensures Route(choice).None? ==>
        rep.None? && used == 0 && service.store == old(service.store) && service.nextId == old(service.nextId)
      ensures Route(choice).Some? ==>
        && rep.Some?
        && Outcome(rep.value, used, service.store, service.nextId)
           == ChoiceOutcome(Route(choice).value, inputs, old(service.store), old(service.nextId))
    {
      var handler := Route(choice);
      if handler.None? {
        return None, 0;
      }
      var report: Report;
      match handler.value {
        case AddHandler =>
          report, used := HandleAdd(inputs);
        case ViewHandler =>
          report := HandleView();
          used := 0;
        case UpdateHandler =>
          report, used := HandleUpdate(inputs);
        case DeleteHandler =>
          report, used := HandleDelete(inputs);
        case ToggleHandler(complete) =>
          report, used := HandleToggle(complete, inputs);
      }
      rep := Some(report);
    }

    /**
     * `run`: menu choice, then its action, until the exit token or the end of
     * the input. `choices` are the menu choices read, `consumed` the number of
     * lines read; the whole run, and the store and counter it leaves, are
     * those of `Session`.
     */
    method Run(inputs: seq<string>) returns (reports: seq<Report>, exited: bool, choices: seq<string>, consumed: nat)
      requires service.Valid()
      modifies service
      ensures service.Valid()
      ensures SessionResult(reports, exited, choices, consumed, service.store, service.nextId)
        == Session(inputs, old(service.store), old(service.nextId))
    {
      ghost var whole := Session(inputs, service.store, service.nextId);
      reports := [];
      choices := [];
      var pos := 0;
      var left := inputs;
      while left != []
        invariant pos + |left| == |inputs|
        invariant service.Valid()
        invariant whole == Resumed(reports, choices, pos, Session(left, service.store, service.nextId))
        decreases |left|
      {
        ghost var store, next := service.store, service.nextId;
        var read := GetMenuChoice(left);
        if read.OutOfInput? {
          SessionRunsOut(left, store, next);
          return reports, false, choices, |inputs|;
        }
        var u := read.used;
        if read.value == ExitChoice {
          SessionExits(left, store, next);
          return reports, true, choices + [ExitChoice], pos + u;
        }
        var rep, used := HandleChoice(read.value, left[u..]);
        ghost var rest := Session(left[u + used..], service.store, service.nextId);
        SessionStep(left, store, next, read.value, u, rep.value, used, service.store, service.nextId, rest);
        ResumedTwice(reports, choices, pos, [rep.value], [read.value], u + used, rest);
        reports := reports + [rep.value];
        choices := choices + [read.value];
        pos := pos + u + used;
        left := left[u + used..];
      }
      SessionRunsOut(left, service.store, service.nextId);
      return reports, false, choices, pos;
    }
  }
}
