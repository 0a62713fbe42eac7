/**
  Task statuses and the status registry. Status.ts and StatusRegistry.ts are not part of this
  model: a status is a value with an indicator and a completed classification, and the registry
  is a parameter supplying the two lookups the modelled code calls.
*/
module Statuses {

  datatype Status = Status(indicator: string, name: string, nextIndicator: string, completed: bool)

  /** `Status.TODO`, the constructor's default status. */
  const Todo := Status(" ", "Todo", "x", false)

  /** `Status.DONE`, the status the `done` / `not done` query lines compare with. */
  const Done := Status("x", "Done", " ", true)

  /** `Status.EMPTY`, the registry's answer for an indicator it does not know. */
  const Empty := Status("", "EMPTY", "", false)

  /**
    `StatusRegistry.getInstance()`: `byIndicator` maps an indicator to its configured status (or
    `Empty`), `next` is `getNextStatus`.
  */
  datatype Registry = Registry(byIndicator: string -> Status, next: Status -> Status)
}
