/**
 * The task list beside the pomodoro timer: tasks are added from a text box,
 * ticked off and removed, and the list is kept in browser storage.
 *
 * Task ids are `Date.now().toString()`; the clock reading is a parameter.
 * Decoding the stored list is a parameter that returns `None` when
 * `JSON.parse` would throw.
 */
module TaskList {
  import opened Common
  import opened Seqs
  import opened Text

  datatype Task = Task(id: string, text: string, completed: bool)

  /** The tasks and the text box. */
  datatype Tasks = Tasks(tasks: seq<Task>, draft: string)

  /** `loadInitialTasks`: nothing stored, or a value that does not parse, gives no tasks. */
  function Load(saved: Option<string>, parse: string -> Option<seq<Task>>): (r: seq<Task>)
    ensures saved.None? || saved == Some("") ==> r == []
    ensures saved.Some? && saved.value != "" && parse(saved.value).None? ==> r == []
    ensures saved.Some? && saved.value != "" && parse(saved.value).Some? ==> r == parse(saved.value).value
  {
    if saved.None? || saved.value == "" then []
    else match parse(saved.value)
      case None => []
      case Some(tasks) => tasks
  }

  /**
   * `addTask`: a draft that is blank after trimming is ignored; otherwise
   * one open task with the untrimmed text is appended and the box is cleared.
   */
  function Add(s: Tasks, now: nat): (r: Tasks)
    ensures IsBlank(s.draft) ==> r == s
    ensures !IsBlank(s.draft) ==>
      r.tasks == s.tasks + [Task(NatToDecimal(now), s.draft, false)] && r.draft == ""
  {
    TrimEmptyIffBlank(s.draft);
    if Trim(s.draft) == "" then s
    else Tasks(s.tasks + [Task(NatToDecimal(now), s.draft, false)], "")
  }

  /** The Enter key in the text box adds; other keys do nothing. */
  function KeyUp(s: Tasks, key: string, now: nat): (r: Tasks)
    ensures key == "Enter" ==> r == Add(s, now)
    ensures key != "Enter" ==> r == s
  {
    if key == "Enter" then Add(s, now) else s
  }

  function Flip(t: Task): Task {
    t.(completed := !t.completed)
  }

  /** `toggleTask`: flips `completed` on the tasks with that id and nothing else. */
  function Toggle(tasks: seq<Task>, id: string): (r: seq<Task>)
    ensures |r| == |tasks|
    ensures forall i :: 0 <= i < |tasks| ==>
      && r[i].id == tasks[i].id && r[i].text == tasks[i].text
      && (r[i].completed <==> (if tasks[i].id == id then !tasks[i].completed else tasks[i].completed))
  {
    seq(|tasks|, i requires 0 <= i < |tasks| => if tasks[i].id == id then Flip(tasks[i]) else tasks[i])
  }

  /** Ticking the same task twice restores the list. */
  lemma ToggleTwice(tasks: seq<Task>, id: string)
    ensures Toggle(Toggle(tasks, id), id) == tasks
  {
    var r := Toggle(Toggle(tasks, id), id);
    assert forall i :: 0 <= i < |tasks| ==> r[i] == tasks[i];
  }

  /** An id no task has leaves the list as it is. */
  lemma ToggleUnknown(tasks: seq<Task>, id: string)
    requires forall i :: 0 <= i < |tasks| ==> tasks[i].id != id
    ensures Toggle(tasks, id) == tasks
  {
    assert forall i :: 0 <= i < |tasks| ==> Toggle(tasks, id)[i] == tasks[i];
  }

  function HasOtherId(id: string): Task -> bool {
    (t: Task) => t.id != id
  }

  /** `removeTask`: drops exactly the tasks with that id and keeps the others in order. */
  function Remove(tasks: seq<Task>, id: string): (r: seq<Task>)
    ensures forall t :: t in r <==> t in tasks && t.id != id
    ensures forall t :: multiset(r)[t] == if t.id != id then multiset(tasks)[t] else 0
    ensures IsSubsequence(r, tasks)
  {
    FilterIsSubsequence(tasks, HasOtherId(id));
    Filter(tasks, HasOtherId(id))
  }

  /** Removing a task just added, on a list whose ids are all older, gives back the list. */
  lemma RemoveUndoesAdd(s: Tasks, now: nat)
    requires !IsBlank(s.draft)
    requires forall i :: 0 <= i < |s.tasks| ==> s.tasks[i].id != NatToDecimal(now)
    ensures Remove(Add(s, now).tasks, NatToDecimal(now)) == s.tasks
  {
    var id := NatToDecimal(now);
    FilterAppend(s.tasks, [Task(id, s.draft, false)], HasOtherId(id));
    FilterKeepsAll(s.tasks, HasOtherId(id));
    assert Filter([Task(id, s.draft, false)], HasOtherId(id)) == [];
  }

  /** Tasks with distinct ids stay distinct through every edit. */
  predicate DistinctIds(tasks: seq<Task>) {
    forall i, j :: 0 <= i < j < |tasks| ==> tasks[i].id != tasks[j].id
  }

  lemma AddKeepsIdsDistinct(s: Tasks, now: nat)
    requires DistinctIds(s.tasks)
    requires forall i :: 0 <= i < |s.tasks| ==> s.tasks[i].id != NatToDecimal(now)
    ensures DistinctIds(Add(s, now).tasks)
  {
    var r := Add(s, now).tasks;
    if !IsBlank(s.draft) {
      forall i, j | 0 <= i < j < |r| ensures r[i].id != r[j].id {
        assert r[i] == s.tasks[i];
      }
    }
  }

  lemma ToggleKeepsIdsDistinct(tasks: seq<Task>, id: string)
    requires DistinctIds(tasks)
    ensures DistinctIds(Toggle(tasks, id))
  {
  }

  lemma {:induction false} RemoveKeepsIdsDistinct(tasks: seq<Task>, id: string)
    requires DistinctIds(tasks)
    ensures DistinctIds(Filter(tasks, HasOtherId(id)))
    ensures DistinctIds(Remove(tasks, id))
    decreases |tasks|
  {
    if |tasks| > 0 {
      var t := tasks[1..];
      DistinctTail(tasks);
      RemoveKeepsIdsDistinct(t, id);
      FilterCons(tasks, HasOtherId(id));
      if HasOtherId(id)(tasks[0]) {
        var other := (x: Task) => x.id != tasks[0].id;
        FilterAll(t, HasOtherId(id), other);
        DistinctCons(tasks[0], Filter(t, HasOtherId(id)));
      }
    }
  }

  lemma DistinctTail(tasks: seq<Task>)
    requires |tasks| > 0 && DistinctIds(tasks)
    ensures DistinctIds(tasks[1..]) && forall i :: 0 <= i < |tasks[1..]| ==> tasks[1..][i].id != tasks[0].id
  {
    var t := tasks[1..];
    forall i, j | 0 <= i < j < |t| ensures t[i].id != t[j].id {
      assert t[i] == tasks[i + 1] && t[j] == tasks[j + 1];
    }
    forall i | 0 <= i < |t| ensures t[i].id != tasks[0].id {
      assert t[i] == tasks[i + 1];
    }
  }

  lemma DistinctCons(x: Task, rest: seq<Task>)
    requires DistinctIds(rest) && forall i :: 0 <= i < |rest| ==> rest[i].id != x.id
    ensures DistinctIds([x] + rest)
  {
    var r := [x] + rest;
    forall i, j | 0 <= i < j < |r| ensures r[i].id != r[j].id {
      assert r[j] == rest[j - 1];
      if i > 0 { assert r[i] == rest[i - 1]; }
    }
  }
}
