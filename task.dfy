/**
  A task of the to-do list (`struct Task` in src/lib.rs): a name and an
  optional description, with its constructors, setters and `Display` format.
 */
module Tasks {
  import opened Wrappers

  datatype Task = Task(name: string, description: Option<string>)

  /** `From<String> for Task`: a task named `name` with no description. */
  function FromName(name: string): (t: Task)
    ensures t.name == name && t.description == None
  {
    Task(name, None)
  }

  /** `Task::with_description`: consumes the task and attaches a description. */
  function WithDescription(t: Task, description: string): (r: Task)
    ensures r.name == t.name
    ensures r.description == Some(description)
  {
    Task(t.name, Some(description))
  }

  /**
    `Task::set_description`: overwrites an existing description; a task that
    has none is left as it is.
   */
  function SetDescription(t: Task, text: string): (r: Task)
    ensures r.name == t.name
    ensures r.description.Some? <==> t.description.Some?
    ensures t.description.Some? ==> r.description == Some(text)
    ensures t.description.None? ==> r == t
  {
    match t.description
    case None => t
    case Some(_) => Task(t.name, Some(text))
  }

  /** `Task::set_name`: replaces the name and keeps the description. */
  function SetName(t: Task, text: string): (r: Task)
    ensures r.name == text && r.description == t.description
  {
    Task(text, t.description)
  }

  /**
    `impl Display for Task`: `* name`, followed by `: description.` when there
    is a description. Without one the early return skips the final period.
   */
  function Display(t: Task): (s: string)
    ensures |s| >= 2 + |t.name|
    ensures s[..2] == "* " && s[2..2 + |t.name|] == t.name
    ensures t.description.None? ==> |s| == 2 + |t.name|
    ensures t.description.Some? ==>
              |s| == 2 + |t.name| + 2 + |t.description.value| + 1
              && s[2 + |t.name|..2 + |t.name| + 2] == ": "
              && s[2 + |t.name| + 2..|s| - 1] == t.description.value
              && s[|s| - 1] == '.'
  {
    match t.description
    case None => "* " + t.name
    case Some(d) => "* " + t.name + ": " + d + "."
  }

  /** Only `with_description` can give a task a description: `set_description` never does. */
  lemma SetDescriptionNeverAdds(name: string, updates: seq<string>)
    ensures ApplyDescriptions(FromName(name), updates) == FromName(name)
  {
  }

  /** Applies `set_description` with each text of `updates` in turn. */
  function ApplyDescriptions(t: Task, updates: seq<string>): (r: Task)
    ensures r.name == t.name
    ensures r.description.Some? <==> t.description.Some?
    ensures updates != [] && t.description.Some? ==> r.description == Some(updates[|updates| - 1])
    decreases |updates|
  {
    if updates == [] then t else ApplyDescriptions(SetDescription(t, updates[0]), updates[1..])
  }

  /** On a task that has a description, `set_description(d)` is `with_description(d)`. */
  lemma SetDescriptionReplaces(t: Task, d: string)
    requires t.description.Some?
    ensures SetDescription(t, d) == WithDescription(t, d)
  {
  }

  /** The name and description can be changed independently, in either order. */
  lemma SettersCommute(t: Task, name: string, d: string)
    ensures SetName(SetDescription(t, d), name) == SetDescription(SetName(t, name), d)
  {
  }

  /**
    Two tasks of the same name display identically exactly when their
    descriptions are equal.
   */
  lemma DisplayDeterminesDescription(t1: Task, t2: Task)
    requires t1.name == t2.name
    ensures Display(t1) == Display(t2) <==> t1.description == t2.description
  {
  }

  /**
    A name may itself contain `: `, so a described task and an undescribed
    one can display the same line.
   */
  lemma DisplayIsAmbiguous()
    ensures Display(Task("a", Some("b"))) == Display(FromName("a: b."))
  {
  }

  /**
    A described task's line always ends in `.`. So an undescribed task whose
    name does not end in `.` never displays like a described one.
   */
  lemma DisplayPeriodSeparates(plain: Task, described: Task)
    requires plain.description.None? && described.description.Some?
    requires plain.name == [] || plain.name[|plain.name| - 1] != '.'
    ensures Display(plain) != Display(described)
  {
    var s := Display(plain);
    assert s[|s| - 1] == if plain.name == [] then ' ' else plain.name[|plain.name| - 1];
  }
}
