/** Option and Result values shared by the model. `None` stands for a Go nil
    result; a returned Go error is an `Option<string>`, `None` when nil; `Err`
    is a log.Fatal exit. Messages are the ones the source prints. */
module Wrappers {

  datatype Option<+T> = None | Some(value: T)

  datatype Result<+T> = Ok(value: T) | Err(message: string) {
    predicate IsOk() { Ok? }
  }
}
