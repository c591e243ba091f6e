/** The ordered task collection of script.js (`tasks`) and the operations
    the page's handlers perform on it. Ids are not assumed unique: every
    lookup, like JavaScript's `find` and `findIndex`, takes the first task
    with the requested id. */
module Store {
  import opened Wrappers
  import opened Text

  /** One entry of the list: `{ id, text, completed }`. */
  datatype Task = Task(id: int, text: string, completed: bool)

  /** Every stored text is non-empty and already trimmed. */
  predicate Valid(ts: seq<Task>) {
    forall i :: 0 <= i < |ts| ==> Clean(ts[i].text)
  }

  /** `tasks.findIndex(x => x.id === id)`: the position of the first task
      with that id, or -1 when there is none. */
  function IndexOf(ts: seq<Task>, id: int): (r: int)
    ensures -1 <= r < |ts|
    ensures r == -1 <==> forall i :: 0 <= i < |ts| ==> ts[i].id != id
    ensures 0 <= r ==> ts[r].id == id && forall i :: 0 <= i < r ==> ts[i].id != id
    decreases |ts|
  {
    if |ts| == 0 then -1
    else if ts[0].id == id then 0
    else
      var k := IndexOf(ts[1..], id);
      if k == -1 then -1 else k + 1
  }

  /** `tasks.find(x => x.id === id)`: the first task with that id. */
  function Find(ts: seq<Task>, id: int): (r: Option<Task>)
    ensures r.None? <==> forall i :: 0 <= i < |ts| ==> ts[i].id != id
    ensures r.Some? ==> r.value.id == id
    ensures r.Some? ==>
      exists k :: 0 <= k < |ts| && ts[k] == r.value && forall i :: 0 <= i < k ==> ts[i].id != id
  {
    var k := IndexOf(ts, id);
    if k == -1 then None else Some(ts[k])
  }

  /** `onAdd`: trim the input, reject it when nothing is left, otherwise
      put a new pending task in front of all the others. */
  function Add(ts: seq<Task>, id: int, input: string): (r: Option<seq<Task>>)
    ensures r.None? <==> Blank(input)
    ensures r.Some? ==> |r.value| == |ts| + 1 && r.value[1..] == ts
    ensures r.Some? ==> r.value[0].id == id && !r.value[0].completed
    ensures r.Some? ==> Clean(r.value[0].text) && Trim(input) == r.value[0].text
    ensures r.Some? && Valid(ts) ==> Valid(r.value)
  {
    var txt := Trim(input);
    if txt == [] then None else Some([Task(id, txt, false)] + ts)
  }

  /** `toggleComplete`: flip the flag of the first task with that id; ids,
      texts, order and every other flag stay as they were. */
  function Toggle(ts: seq<Task>, id: int): (r: seq<Task>)
    ensures |r| == |ts|
    ensures forall i :: 0 <= i < |ts| ==> r[i].id == ts[i].id && r[i].text == ts[i].text
    ensures forall i :: 0 <= i < |ts| ==>
      (r[i].completed != ts[i].completed <==> i == IndexOf(ts, id))
    ensures IndexOf(ts, id) == -1 ==> r == ts
    ensures Valid(ts) ==> Valid(r)
  {
    var k := IndexOf(ts, id);
    if k == -1 then ts else ts[k := ts[k].(completed := !ts[k].completed)]
  }

  /** Give the first task with that id the text `txt`; nothing else
      changes, and nothing at all when no task has that id. */
  function Retext(ts: seq<Task>, id: int, txt: string): (r: seq<Task>)
    ensures |r| == |ts|
    ensures forall i :: 0 <= i < |ts| ==> r[i].id == ts[i].id && r[i].completed == ts[i].completed
    ensures forall i :: 0 <= i < |ts| ==> (r[i].text != ts[i].text ==> i == IndexOf(ts, id))
    ensures IndexOf(ts, id) >= 0 ==> r[IndexOf(ts, id)].text == txt
    ensures Valid(ts) && Clean(txt) ==> Valid(r)
  {
    var k := IndexOf(ts, id);
    if k == -1 then ts else ts[k := ts[k].(text := txt)]
  }

  /** `saveEdit`: trim the edited value and reject it when nothing is left;
      otherwise only the text of the first task with that id changes (and
      nothing does when no task has that id). */
  function Edit(ts: seq<Task>, id: int, input: string): (r: Option<seq<Task>>)
    ensures r.None? <==> Blank(input)
    ensures r.Some? ==> |r.value| == |ts|
    ensures r.Some? ==> forall i :: 0 <= i < |ts| ==>
      r.value[i].id == ts[i].id && r.value[i].completed == ts[i].completed
    ensures r.Some? ==> forall i :: 0 <= i < |ts| ==>
      (r.value[i].text != ts[i].text ==> i == IndexOf(ts, id))
    ensures r.Some? && IndexOf(ts, id) >= 0 ==> r.value[IndexOf(ts, id)].text == Trim(input)
    ensures r.Some? && Valid(ts) ==> Valid(r.value)
  {
    var txt := Trim(input);
    if txt == [] then None else Some(Retext(ts, id, txt))
  }

  /** `removeTaskById`: splice out the first task with that id; a missing
      id leaves the collection alone. */
  function RemoveById(ts: seq<Task>, id: int): (r: seq<Task>)
    ensures IndexOf(ts, id) == -1 ==> r == ts
    ensures IndexOf(ts, id) >= 0 ==> |r| == |ts| - 1
    ensures forall i :: 0 <= i < |r| && (IndexOf(ts, id) == -1 || i < IndexOf(ts, id)) ==> r[i] == ts[i]
    ensures forall i :: 0 <= IndexOf(ts, id) <= i < |r| ==> r[i] == ts[i + 1]
    ensures Valid(ts) ==> Valid(r)
  {
    var k := IndexOf(ts, id);
    if k == -1 then ts else ts[..k] + ts[k + 1..]
  }

  /** Removal only loses the one task it targets: putting that task back
      where it was gives the original collection. */
  lemma RemoveThenReinsert(ts: seq<Task>, id: int)
    requires IndexOf(ts, id) >= 0
    ensures var k := IndexOf(ts, id); var r := RemoveById(ts, id);
      r[..k] + [ts[k]] + r[k..] == ts
  {
    var k := IndexOf(ts, id);
    assert RemoveById(ts, id) == ts[..k] + ts[k + 1..];
    SpliceBack(ts, k);
  }

  lemma SpliceBack<T>(s: seq<T>, k: int)
    requires 0 <= k < |s|
    ensures var r := s[..k] + s[k + 1..]; r[..k] + [s[k]] + r[k..] == s
  {
    var r := s[..k] + s[k + 1..];
    assert r[..k] == s[..k];
    assert r[k..] == s[k + 1..];
  }

  /** As a bag, the collection loses exactly the removed task. */
  lemma RemoveMultiset(ts: seq<Task>, id: int)
    requires IndexOf(ts, id) >= 0
    ensures multiset(RemoveById(ts, id)) + multiset{ts[IndexOf(ts, id)]} == multiset(ts)
  {
    var k := IndexOf(ts, id);
    var r := RemoveById(ts, id);
    RemoveThenReinsert(ts, id);
    assert multiset(r[..k] + [ts[k]] + r[k..]) == multiset(r[..k]) + multiset{ts[k]} + multiset(r[k..]);
    assert r == r[..k] + r[k..];
  }

  /** Adding a task and then removing its id gives back the old collection:
      the new task sits in front, so it is the first match even when an
      older task carries the same id. */
  lemma RemoveUndoesAdd(ts: seq<Task>, id: int, input: string)
    requires !Blank(input)
    ensures RemoveById(Add(ts, id, input).value, id) == ts
  {
    var us := Add(ts, id, input).value;
    assert IndexOf(us, id) == 0;
    assert us[1..] == ts;
  }

  /** Toggling the same id twice restores the collection. */
  lemma ToggleTwice(ts: seq<Task>, id: int)
    ensures Toggle(Toggle(ts, id), id) == ts
  {
    var us := Toggle(ts, id);
    SameIdsSameIndex(ts, us, id);
  }

  /** Editing a task back to the text it had restores the collection. */
  lemma EditRestores(ts: seq<Task>, id: int, input: string)
    requires IndexOf(ts, id) >= 0 && Clean(ts[IndexOf(ts, id)].text) && !Blank(input)
    ensures Edit(Edit(ts, id, input).value, id, ts[IndexOf(ts, id)].text) == Some(ts)
  {
    var prior := ts[IndexOf(ts, id)].text;
    var us := Retext(ts, id, Trim(input));
    TrimClean(prior);
    assert Edit(us, id, prior) == Some(Retext(us, id, prior));
    RetextTwice(ts, id, Trim(input), prior);
    RetextSame(ts, id);
  }

  /** A second rename of the same id overrides the first. */
  lemma RetextTwice(ts: seq<Task>, id: int, a: string, b: string)
    ensures Retext(Retext(ts, id, a), id, b) == Retext(ts, id, b)
  {
    var us := Retext(ts, id, a);
    SameIdsSameIndex(ts, us, id);
  }

  /** Renaming a task to the text it has changes nothing. */
  lemma RetextSame(ts: seq<Task>, id: int)
    requires IndexOf(ts, id) >= 0
    ensures Retext(ts, id, ts[IndexOf(ts, id)].text) == ts
  {
    var k := IndexOf(ts, id);
    assert ts[k := ts[k].(text := ts[k].text)] == ts;
  }

  /** Lookup by id sees only ids, so operations that keep every id in
      place keep every lookup's answer. */
  lemma SameIdsSameIndex(ts: seq<Task>, us: seq<Task>, id: int)
    requires |ts| == |us|
    requires forall i :: 0 <= i < |ts| ==> ts[i].id == us[i].id
    ensures IndexOf(ts, id) == IndexOf(us, id)
  {
  }
}
