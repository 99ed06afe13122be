/** The values that flow through the whole program: one probe result, and an optional value. */
module Checker {

  datatype Option<+T> = None | Some(value: T)

  const STATUS_UP := "up"
  const STATUS_DOWN := "down"

  /** One probe result. Times and durations are integers. */
  datatype Result = Result(target: string, status: string, latency: int, errorType: string, timestamp: int)
}
