/**
  The in-memory to-do list (`struct List` in src/lib.rs): pending `tasks` and
  `finished` tasks, each in order, and the three operations that edit them in
  place. The class TaskList is the mutable object; Lists is its value, and
  AfterFinish, AfterAdd and AfterClear say what each operation makes of it.
 */
module TaskLists {
  import opened Wrappers
  import opened Tasks

  /** The contents of a `List`: both vectors, as values. */
  datatype Lists = Lists(tasks: seq<Task>, finished: seq<Task>)

  /** Total number of tasks held, pending or finished. */
  function Size(l: Lists): nat
  {
    |l.tasks| + |l.finished|
  }

  /** Every task held, pending or finished, with multiplicity. */
  function AllTasks(l: Lists): multiset<Task>
  {
    multiset(l.tasks) + multiset(l.finished)
  }

  /**
    `tasks.iter().position(|t| t.name == identifier)`: the index of the first
    task whose name is exactly `identifier`, if any.
   */
  function FirstIndexOf(tasks: seq<Task>, identifier: string): (r: Option<nat>)
    ensures r.Some? ==> r.value < |tasks| && tasks[r.value].name == identifier
    ensures r.Some? ==> forall j :: 0 <= j < r.value ==> tasks[j].name != identifier
    ensures r.None? <==> forall j :: 0 <= j < |tasks| ==> tasks[j].name != identifier
  {
    if tasks == [] then None
    else if tasks[0].name == identifier then Some(0)
    else match FirstIndexOf(tasks[1..], identifier)
      case None => None
      case Some(k) => Some(k + 1)
  }

  /** The search of `finish_task`, as the iterator runs it: front to back, stopping at the first match. */
  method Position(tasks: seq<Task>, identifier: string) returns (p: Option<nat>)
    ensures p == FirstIndexOf(tasks, identifier)
  {
    var i := 0;
    while i < |tasks|
      invariant i <= |tasks|
      invariant forall j :: 0 <= j < i ==> tasks[j].name != identifier
    {
      if tasks[i].name == identifier {
        return Some(i);
      }
      i := i + 1;
    }
    return None;
  }

  /** `Vec::remove(i)`: the sequence without its element at `i`. */
  function RemoveAt(s: seq<Task>, i: nat): (r: seq<Task>)
    requires i < |s|
    ensures |r| == |s| - 1
    ensures multiset(r) + multiset{s[i]} == multiset(s)
    ensures forall j :: 0 <= j < i ==> r[j] == s[j]
    ensures forall j :: i <= j < |r| ==> r[j] == s[j + 1]
  {
    assert s == s[..i] + [s[i]] + s[i + 1..];
    s[..i] + s[i + 1..]
  }

  /**
    The state after `finish_task(identifier)`: the first pending task named
    `identifier` moves to the end of `finished`; with no such task nothing
    changes. No task is lost or created.
   */
  function AfterFinish(l: Lists, identifier: string): (r: Lists)
    ensures AllTasks(r) == AllTasks(l)
    ensures Size(r) == Size(l)
    ensures |r.finished| == |l.finished| || |r.finished| == |l.finished| + 1
    ensures r.finished[..|l.finished|] == l.finished
  {
    match FirstIndexOf(l.tasks, identifier)
    case None => l
    case Some(p) => Lists(RemoveAt(l.tasks, p), l.finished + [l.tasks[p]])
  }

  /** The state after `add_task(task)`: the task is appended to the pending tasks. */
  function AfterAdd(l: Lists, task: Task): (r: Lists)
    ensures AllTasks(r) == AllTasks(l) + multiset{task}
    ensures |r.tasks| == |l.tasks| + 1 && r.finished == l.finished
    ensures r.tasks[..|l.tasks|] == l.tasks && r.tasks[|l.tasks|] == task
  {
    Lists(l.tasks + [task], l.finished)
  }

  /** The state after `clear_finished()`: finished tasks are dropped, pending ones kept. */
  function AfterClear(l: Lists): (r: Lists)
    ensures r.finished == [] && r.tasks == l.tasks
    ensures AllTasks(r) == multiset(l.tasks)
  {
    Lists(l.tasks, [])
  }

  /** `a` is `b` with some elements left out, the rest in the same order. */
  ghost predicate IsSubsequence(a: seq<Task>, b: seq<Task>)
    decreases |b|
  {
    if a == [] then true
    else if b == [] then false
    else (a[0] == b[0] && IsSubsequence(a[1..], b[1..])) || IsSubsequence(a, b[1..])
  }

  lemma {:induction false} SubsequenceOfSelf(s: seq<Task>)
    ensures IsSubsequence(s, s)
    decreases |s|
  {
    if s != [] {
      SubsequenceOfSelf(s[1..]);
    }
  }

  /** Prepending the same task to both sides keeps a subsequence. */
  lemma SubsequenceCons(t: Task, a: seq<Task>, b: seq<Task>)
    requires IsSubsequence(a, b)
    ensures IsSubsequence([t] + a, [t] + b)
  {
  }

  /** Dropping the head of the larger side keeps a subsequence. */
  lemma SubsequenceSkip(t: Task, a: seq<Task>, b: seq<Task>)
    requires IsSubsequence(a, b)
    ensures IsSubsequence(a, [t] + b)
  {
  }

  lemma {:induction false} RemoveAtIsSubsequence(s: seq<Task>, i: nat)
    requires i < |s|
    ensures IsSubsequence(RemoveAt(s, i), s)
    decreases i
  {
    assert s == [s[0]] + s[1..];
    if i == 0 {
      SubsequenceOfSelf(s[1..]);
      SubsequenceSkip(s[0], s[1..], s[1..]);
      assert RemoveAt(s, 0) == s[1..];
    } else {
      RemoveAtIsSubsequence(s[1..], i - 1);
      SubsequenceCons(s[0], RemoveAt(s[1..], i - 1), s[1..]);
      assert RemoveAt(s, i) == [s[0]] + RemoveAt(s[1..], i - 1);
    }
  }

  /**
    When the first pending task named `identifier` is at `p`, finishing removes
    exactly that task, keeps every other pending task in place and order, and
    makes it the last finished task.
   */
  lemma FinishMovesFirstMatch(l: Lists, identifier: string, p: nat)
    requires p < |l.tasks| && l.tasks[p].name == identifier
    requires forall j :: 0 <= j < p ==> l.tasks[j].name != identifier
    ensures AfterFinish(l, identifier).finished == l.finished + [l.tasks[p]]
    ensures |AfterFinish(l, identifier).tasks| == |l.tasks| - 1
    ensures forall j :: 0 <= j < p ==> AfterFinish(l, identifier).tasks[j] == l.tasks[j]
    ensures forall j :: p <= j < |l.tasks| - 1 ==> AfterFinish(l, identifier).tasks[j] == l.tasks[j + 1]
  {
  }

  /** With no pending task named `identifier`, finishing changes nothing. */
  lemma FinishWithoutMatch(l: Lists, identifier: string)
    requires forall j :: 0 <= j < |l.tasks| ==> l.tasks[j].name != identifier
    ensures AfterFinish(l, identifier) == l
  {
  }

  /** Finishing moves a task only when some pending task carries the identifier. */
  lemma FinishMovesIffMatch(l: Lists, identifier: string)
    ensures AfterFinish(l, identifier) != l <==> exists j :: 0 <= j < |l.tasks| && l.tasks[j].name == identifier
  {
  }

  /**
    Finishing preserves order: the pending tasks left are a subsequence of the
    old ones, and the old finished tasks are a prefix of the new ones.
   */
  lemma FinishPreservesOrder(l: Lists, identifier: string)
    ensures IsSubsequence(AfterFinish(l, identifier).tasks, l.tasks)
    ensures AfterFinish(l, identifier).finished[..|l.finished|] == l.finished
  {
    match FirstIndexOf(l.tasks, identifier)
    case None => SubsequenceOfSelf(l.tasks);
    case Some(p) => RemoveAtIsSubsequence(l.tasks, p);
  }

  /**
    Adding a task whose name no pending task has and then finishing it by name
    leaves the pending tasks as they were and appends the task to `finished`.
   */
  lemma AddThenFinish(l: Lists, task: Task)
    requires forall j :: 0 <= j < |l.tasks| ==> l.tasks[j].name != task.name
    ensures AfterFinish(AfterAdd(l, task), task.name) == Lists(l.tasks, l.finished + [task])
  {
  }

  /** Clearing twice is clearing once. */
  lemma ClearIdempotent(l: Lists)
    ensures AfterClear(AfterClear(l)) == AfterClear(l)
  {
  }

  /** `struct List` as the object that the commands update in place. */
  class TaskList {
    var tasks: seq<Task>
    var finished: seq<Task>

    /** The list's current contents as a value. */
    function Model(): Lists
      reads this
    {
      Lists(tasks, finished)
    }

    /** `List::default()`: no pending and no finished tasks. */
    constructor ()
      ensures Model() == Lists([], [])
    {
      tasks, finished := [], [];
    }

    /** `List::finish_task`. */
    method FinishTask(identifier: string)
      modifies this
      ensures Model() == AfterFinish(old(Model()), identifier)
    {
      var position := Position(tasks, identifier);
      match position
      case None =>
      case Some(p) =>
        var task := tasks[p];
        tasks := RemoveAt(tasks, p);
        finished := finished + [task];
    }

    /** `List::add_task`. */
    method AddTask(task: Task)
      modifies this
      ensures Model() == AfterAdd(old(Model()), task)
    {
      tasks := tasks + [task];
    }

    /** `List::clear_finished`. */
    method ClearFinished()
      modifies this
      ensures Model() == AfterClear(old(Model()))
    {
      finished := [];
    }
  }
}
