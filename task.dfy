/** The to-do item: an immutable record with value equality and copy-with-update. */
module Tasks {

  /** One task. `id` is assigned by the store; `isCompleted` defaults to false. */
  datatype Task = Task(id: int, title: string, description: string, isCompleted: bool)

  /** `Task(id, title, description)`: the record built with the completion flag at its default. */
  function NewTask(id: int, title: string, description: string): (t: Task)
    ensures t.id == id && t.title == title && t.description == description
    ensures !t.isCompleted
  {
    Task(id, title, description, false)
  }

  /** `t.copy(isCompleted = c)`: a new record that differs from `t` at most in its flag. */
  function WithCompleted(t: Task, c: bool): (r: Task)
    ensures r.id == t.id && r.title == t.title && r.description == t.description
    ensures r.isCompleted == c
  {
    t.(isCompleted := c)
  }

  /** Copying twice is the same as copying once with the last flag. */
  lemma CopyTwice(t: Task, c: bool, c': bool)
    ensures WithCompleted(WithCompleted(t, c), c') == WithCompleted(t, c')
  {
  }

  /** Copying with the flag the task already has gives back an equal task. */
  lemma CopySame(t: Task)
    ensures WithCompleted(t, t.isCompleted) == t
  {
  }

  /** Two tasks are equal exactly when all four fields are equal. */
  lemma TaskEquality(a: Task, b: Task)
    ensures a == b <==>
      (a.id == b.id && a.title == b.title && a.description == b.description && a.isCompleted == b.isCompleted)
  {
  }
}
