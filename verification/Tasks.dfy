/** Task identifiers. The source writes a task as one string, the recipe file name,
    a colon and the task name; here the two halves are kept apart. */
module Tasks {

  datatype Tid = Tid(fn: string, task: string)

  /** What the setscene variant of a task adds to its name. */
  const SETSCENE := "_setscene"

  datatype Option<T> = None | Some(value: T)
}
