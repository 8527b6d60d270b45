/** The errors the component returns, and the panics it raises, as values. */
module Errors {

  /** The store commands issued by the admission path. */
  datatype Command = LLEN | LPOP | HEXISTS | HGET | ZADD | ZCOUNT

  datatype Error =
    // sentinel errors of component/activity.go
    | ActivityExisted
    | ActivityNotExist
    | WorkerIsWorking
    | WorkerHasBeenStopped
    // an ad-hoc `errors.New(text)` (component/redis.go)
    | Message(text: string)
    // a reply error from the store for one command
    | StoreFailure(command: Command)
    // the `redis.Nil` reply: the key or field does not exist
    | NilReply
    // Go runtime panics: nil pointer dereference, integer division by zero, index out of range
    | NilClient
    | DivideByZero
    | IndexOutOfRange
}
