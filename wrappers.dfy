/** Small value wrappers shared by every module of the model. */
module Wrappers {

  /** JavaScript's `null`/`undefined`/`NaN` versus a present value. */
  datatype Option<+T> = None | Some(value: T)

  /** What an awaited call into the backend gives back: a value, or a thrown error. */
  datatype Outcome<+T> = Returned(value: T) | Threw(error: string)
}
