/** The page controller of script.js: the task store together with the
    selected filter, the id waiting for delete confirmation (`toDeleteId`)
    and whether the confirmation modal is open, driven by the user's
    events one at a time. */
module Controller {
  import opened Wrappers
  import opened Text
  import opened Store
  import Filter

  /** The text of the example task the page starts with, exactly as the
      source file stores it (its dash is three mis-decoded characters). */
  const SeedText: string := "Welcome \U{00E2}\U{20AC}\U{201D} try adding, editing, filtering"
  const AddAlert: string := "Please enter a task."
  const EditAlert: string := "Task cannot be empty."

  datatype State = State(tasks: seq<Task>, filter: string, pending: Option<int>, modalOpen: bool)

  /** A handler's outcome: the next state and the blocking notice it
      raised, if any. */
  datatype Reply = Reply(state: State, alert: Option<string>)

  /** One user action on the page. `now` stands for the `Date.now()` the
      add handler reads; `onBackdrop` tells a click on the modal's backdrop
      from a click inside its content. */
  datatype Event =
    | AddSubmitted(now: int, input: string)
    | CheckToggled(id: int)
    | EditSaved(id: int, input: string)
    | EditEscaped(id: int)
    | DeleteRequested(id: int)
    | DeleteConfirmed
    | DeleteCancelled
    | ModalClicked(onBackdrop: bool)
    | FilterChosen(filter: string)

  predicate Valid(st: State) {
    Store.Valid(st.tasks)
  }

  /** The page at load time (`seedExample`): one pending example task with
      id `now + 1`, filter `all`, nothing pending, modal closed. */
  function Init(now: int): (st: State)
    ensures |st.tasks| == 1 && st.tasks[0].id == now + 1 && !st.tasks[0].completed
    ensures st.tasks[0].text == SeedText && st.filter == "all"
    ensures Valid(st)
    ensures Filter.Shown(st.filter, st.tasks) == st.tasks
    ensures st.pending.None? && !st.modalOpen
  {
    var st := State([Task(now + 1, SeedText, false)], "all", None, false);
    Filter.ShowsEverything(st.filter, st.tasks);
    st
  }

  /** `onAdd`: a blank input raises the notice and changes nothing;
      otherwise the new task goes on top. */
  function OnAdd(st: State, now: int, input: string): (r: Reply)
    ensures Blank(input) ==> r.state == st && r.alert == Some(AddAlert)
    ensures !Blank(input) ==> r.alert.None? && r.state == st.(tasks := r.state.tasks)
    ensures !Blank(input) ==> |r.state.tasks| == |st.tasks| + 1
    ensures !Blank(input) ==> r.state.tasks[1..] == st.tasks
    ensures !Blank(input) ==> r.state.tasks[0] == Task(now, Trim(input), false)
  {
    match Add(st.tasks, now, input)
    case None => Reply(st, Some(AddAlert))
    case Some(ts) => Reply(st.(tasks := ts), None)
  }

  /** `saveEdit` (Enter or loss of focus in the edit field): a blank value
      raises the notice and keeps the old text; otherwise the first task
      with that id takes the trimmed value. */
  function OnEditSave(st: State, id: int, input: string): (r: Reply)
    ensures Blank(input) ==> r.state == st && r.alert == Some(EditAlert)
    ensures !Blank(input) ==> r.alert.None? && r.state == st.(tasks := r.state.tasks)
    ensures !Blank(input) ==> |r.state.tasks| == |st.tasks|
    ensures !Blank(input) ==> r.state.tasks == Edit(st.tasks, id, input).value
  {
    match Edit(st.tasks, id, input)
    case None => Reply(st, Some(EditAlert))
    case Some(ts) => Reply(st.(tasks := ts), None)
  }

  /** `promptDelete`: remember the id and open the modal; nothing is
      deleted yet. */
  function OnDeleteRequested(st: State, id: int): (r: State)
    ensures r.tasks == st.tasks && r.filter == st.filter
    ensures r.pending == Some(id) && r.modalOpen
  {
    st.(pending := Some(id), modalOpen := true)
  }

  /** The modal's confirm button: remove the first task with the pending
      id and forget it; with nothing pending only the modal closes. */
  function OnDeleteConfirmed(st: State): (r: State)
    ensures !r.modalOpen && r.pending.None? && r.filter == st.filter
    ensures st.pending.None? ==> r.tasks == st.tasks
    ensures st.pending.Some? ==> r.tasks == RemoveById(st.tasks, st.pending.value)
  {
    match st.pending
    case None => st.(modalOpen := false)
    case Some(id) => st.(tasks := RemoveById(st.tasks, id), pending := None, modalOpen := false)
  }

  /** The modal's cancel button and a click on its backdrop only close the
      modal: the store and the pending id are left alone. A click inside
      the modal's content does nothing. */
  function OnModalDismissed(st: State, onBackdrop: bool): (r: State)
    ensures r.tasks == st.tasks && r.pending == st.pending && r.filter == st.filter
    ensures r.modalOpen <==> st.modalOpen && !onBackdrop
  {
    if onBackdrop then st.(modalOpen := false) else st
  }

  /** `setFilter`: only the selected filter changes; the store never does. */
  function OnFilterChosen(st: State, filter: string): (r: State)
    ensures r.tasks == st.tasks && r.pending == st.pending && r.modalOpen == st.modalOpen
    ensures r.filter == filter
  {
    st.(filter := filter)
  }

  /** Dispatch one event to its handler. The cancel button behaves like a
      backdrop click; Escape in the edit field drops the draft untouched. */
  function Step(st: State, e: Event): (r: Reply)
    ensures e.CheckToggled? ==> r == Reply(st.(tasks := Toggle(st.tasks, e.id)), None)
    ensures e.EditEscaped? ==> r == Reply(st, None)
    ensures e.DeleteCancelled? ==> r.state == st.(modalOpen := false) && r.alert.None?
    ensures r.state.filter == if e.FilterChosen? then e.filter else st.filter
    ensures r.state.pending == match e
      case DeleteRequested(id) => Some(id)
      case DeleteConfirmed => None
      case _ => st.pending
  {
    match e
    case AddSubmitted(now, input) => OnAdd(st, now, input)
    case CheckToggled(id) => Reply(st.(tasks := Toggle(st.tasks, id)), None)
    case EditSaved(id, input) => OnEditSave(st, id, input)
    case EditEscaped(_) => Reply(st, None)
    case DeleteRequested(id) => Reply(OnDeleteRequested(st, id), None)
    case DeleteConfirmed => Reply(OnDeleteConfirmed(st), None)
    case DeleteCancelled => Reply(OnModalDismissed(st, true), None)
    case ModalClicked(onBackdrop) => Reply(OnModalDismissed(st, onBackdrop), None)
    case FilterChosen(filter) => Reply(OnFilterChosen(st, filter), None)
  }

  /** The state after a sequence of events, first event first. */
  function Run(st: State, es: seq<Event>): State
    decreases |es|
  {
    if es == [] then st else Run(Step(st, es[0]).state, es[1..])
  }

  /** Every handler keeps every stored text non-empty and trimmed. */
  lemma StepPreservesValid(st: State, e: Event)
    requires Valid(st)
    ensures Valid(Step(st, e).state)
  {
  }

  /** From the page's first state, no sequence of events ever stores an
      empty or untrimmed text. */
  lemma {:induction false} RunPreservesValid(st: State, es: seq<Event>)
    requires Valid(st)
    ensures Valid(Run(st, es))
    decreases |es|
  {
    if es != [] {
      StepPreservesValid(st, es[0]);
      RunPreservesValid(Step(st, es[0]).state, es[1..]);
    }
  }

  /** A notice appears exactly when an add or an edit is submitted blank,
      and a rejected submission leaves the whole state as it was. */
  lemma AlertOnlyOnBlankInput(st: State, e: Event)
    ensures Step(st, e).alert.Some? <==>
      (e.AddSubmitted? || e.EditSaved?) && Blank(e.input)
    ensures Step(st, e).alert.Some? ==> Step(st, e).state == st
  {
  }

  /** Only adding, toggling, editing and confirming a delete touch the
      store; the modal, Escape and the filter buttons never do. */
  lemma OnlyDataEventsChangeTasks(st: State, e: Event)
    requires !(e.AddSubmitted? || e.CheckToggled? || e.EditSaved? || e.DeleteConfirmed?)
    ensures Step(st, e).state.tasks == st.tasks
  {
  }

  /** Requesting a delete and confirming it removes exactly the first task
      with that id and clears the pending id. */
  lemma RequestThenConfirm(st: State, id: int)
    ensures var r := Run(st, [DeleteRequested(id), DeleteConfirmed]);
      r.tasks == RemoveById(st.tasks, id) && r.pending.None? && !r.modalOpen
  {
    var s1 := Step(st, DeleteRequested(id)).state;
    assert [DeleteRequested(id), DeleteConfirmed][1..] == [DeleteConfirmed];
    assert Run(st, [DeleteRequested(id), DeleteConfirmed]) == Run(s1, [DeleteConfirmed]);
    assert [DeleteConfirmed][1..] == [];
  }

  /** Requesting a delete and then dismissing the modal (cancel button or
      backdrop) keeps every task; the id stays pending, as in the source. */
  lemma RequestThenDismiss(st: State, id: int, dismiss: Event)
    requires dismiss == DeleteCancelled || dismiss == ModalClicked(true)
    ensures var r := Run(st, [DeleteRequested(id), dismiss]);
      r.tasks == st.tasks && r.pending == Some(id) && !r.modalOpen
  {
    var s1 := Step(st, DeleteRequested(id)).state;
    assert [DeleteRequested(id), dismiss][1..] == [dismiss];
    assert [dismiss][1..] == [];
    assert Run(st, [DeleteRequested(id), dismiss]) == Run(s1, [dismiss]);
    assert Run(s1, [dismiss]) == Step(s1, dismiss).state;
  }

  /** Clicking a task's check twice gives back the same state. */
  lemma ToggleTwiceRestores(st: State, id: int)
    ensures Run(st, [CheckToggled(id), CheckToggled(id)]) == st
  {
    var s1 := Step(st, CheckToggled(id)).state;
    assert [CheckToggled(id), CheckToggled(id)][1..] == [CheckToggled(id)];
    assert [CheckToggled(id)][1..] == [];
    ToggleTwice(st.tasks, id);
    assert Run(st, [CheckToggled(id), CheckToggled(id)]) == Run(s1, [CheckToggled(id)]);
  }

  /** Adding a task and deleting the new one with confirmation restores
      the store, even when an older task carries the same id. */
  lemma AddThenDeleteRestores(st: State, now: int, input: string)
    requires !Blank(input)
    ensures Run(st, [AddSubmitted(now, input), DeleteRequested(now), DeleteConfirmed]).tasks == st.tasks
  {
    var es := [AddSubmitted(now, input), DeleteRequested(now), DeleteConfirmed];
    var s1 := Step(st, es[0]).state;
    assert s1.tasks == Add(st.tasks, now, input).value;
    assert es[1..] == [DeleteRequested(now), DeleteConfirmed];
    assert Run(st, es) == Run(s1, es[1..]);
    RequestThenConfirm(s1, now);
    RemoveUndoesAdd(st.tasks, now, input);
  }

  /** Opening the edit field pre-fills it with the task's text; saving it
      unchanged leaves the state as it was. */
  lemma SaveUnchangedEdit(st: State, id: int)
    requires Valid(st) && Find(st.tasks, id).Some?
    ensures Step(st, EditSaved(id, Find(st.tasks, id).value.text)) == Reply(st, None)
  {
    var ts := st.tasks;
    var k := IndexOf(ts, id);
    assert Find(ts, id).value == ts[k];
    TrimClean(ts[k].text);
    assert ts[k := ts[k].(text := ts[k].text)] == ts;
  }
}
