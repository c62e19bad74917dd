/** The record shape of one to-do item, as the application stores it. */
module TaskTypes {

  /** The three priority levels a task can have. */
  datatype Priority = Low | Medium | High

  /** One task. `dateTime` and `deadline` are kept as opaque text (the
      application stores ISO strings and never parses them in the store);
      `userId` names the owner. */
  datatype Task = Task(
    id: string,
    title: string,
    description: string,
    dateTime: string,
    deadline: string,
    priority: Priority,
    completed: bool,
    userId: string)

  /** The task with its completion flag flipped and every other field kept. */
  function Toggled(t: Task): (r: Task)
    ensures r.completed == !t.completed
    ensures r.id == t.id && r.title == t.title && r.description == t.description
    ensures r.dateTime == t.dateTime && r.deadline == t.deadline
    ensures r.priority == t.priority && r.userId == t.userId
  {
    t.(completed := !t.completed)
  }

  lemma ToggledTwice(t: Task)
    ensures Toggled(Toggled(t)) == t
  {
  }
}
