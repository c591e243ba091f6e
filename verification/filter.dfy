/** The filter pass of script.js (`applyFilter`): which rows stay visible
    under the selected filter. It reads the store and never changes it. */
module Filter {
  import opened Store

  /** The hide rule for one row: `completed` hides pending rows, `pending`
      hides completed rows, and any other filter value (`all` among them)
      hides nothing. */
  function Visible(filter: string, completed: bool): (r: bool)
    ensures filter == "completed" ==> (r <==> completed)
    ensures filter == "pending" ==> (r <==> !completed)
    ensures filter != "completed" && filter != "pending" ==> r
  {
    var hidden := (filter == "completed" && !completed) || (filter == "pending" && completed);
    !hidden
  }

  /** The rows left on screen after the filter pass, top to bottom: each
      task the filter admits as often as the store holds it, and no other. */
  function Shown(filter: string, ts: seq<Task>): (r: seq<Task>)
    ensures |r| <= |ts|
    ensures forall t :: multiset(r)[t] == if Visible(filter, t.completed) then multiset(ts)[t] else 0
    decreases |ts|
  {
    if ts == [] then []
    else
      var rest := Shown(filter, ts[1..]);
      assert ts == [ts[0]] + ts[1..];
      assert multiset(ts) == multiset{ts[0]} + multiset(ts[1..]);
      if Visible(filter, ts[0].completed) then
        var r := [ts[0]] + rest;
        assert multiset(r) == multiset{ts[0]} + multiset(rest);
        r
      else rest
  }

  /** Read as sets: a task is on screen exactly when it is stored and the
      filter admits it. */
  lemma ShownMembers(filter: string, ts: seq<Task>)
    ensures forall t :: t in Shown(filter, ts) <==> t in ts && Visible(filter, t.completed)
  {
    var r := Shown(filter, ts);
    forall t
      ensures t in r <==> t in ts && Visible(filter, t.completed)
    {
      assert t in r <==> multiset(r)[t] > 0;
      assert t in ts <==> multiset(ts)[t] > 0;
    }
  }

  /** The pass goes through the rows in order: the rows shown from a list
      made of two parts are those shown from the first part, followed by
      those shown from the second. */
  lemma {:induction false} ShownAppend(filter: string, a: seq<Task>, b: seq<Task>)
    ensures Shown(filter, a + b) == Shown(filter, a) + Shown(filter, b)
    decreases |a|
  {
    if a == [] {
      assert a + b == b;
    } else {
      assert (a + b)[0] == a[0];
      assert (a + b)[1..] == a[1..] + b;
      ShownAppend(filter, a[1..], b);
    }
  }

  /** A single row is shown exactly when the filter admits it. */
  lemma ShownOne(filter: string, t: Task)
    ensures Shown(filter, [t]) == if Visible(filter, t.completed) then [t] else []
  {
    assert [t][1..] == [];
  }

  /** Under `all`, and under any value that is neither `completed` nor
      `pending`, every row is shown, in store order. */
  lemma {:induction false} ShowsEverything(filter: string, ts: seq<Task>)
    requires filter != "completed" && filter != "pending"
    ensures Shown(filter, ts) == ts
    decreases |ts|
  {
    if ts != [] {
      assert ts == [ts[0]] + ts[1..];
      ShownAppend(filter, [ts[0]], ts[1..]);
      ShownOne(filter, ts[0]);
      ShowsEverything(filter, ts[1..]);
    }
  }

  /** `pending` shows exactly the rows `completed` hides: together the two
      views hold every task once. */
  lemma {:induction false} CompletedAndPendingPartition(ts: seq<Task>)
    ensures multiset(Shown("completed", ts)) + multiset(Shown("pending", ts)) == multiset(ts)
  {
    var c := multiset(Shown("completed", ts));
    var p := multiset(Shown("pending", ts));
    forall t
      ensures (c + p)[t] == multiset(ts)[t]
    {
      assert c[t] == if t.completed then multiset(ts)[t] else 0;
      assert p[t] == if t.completed then 0 else multiset(ts)[t];
    }
    assert c + p == multiset(ts);
  }
}
