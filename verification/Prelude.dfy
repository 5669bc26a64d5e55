/** Small types shared by the whole model. */
module Prelude {
  datatype Option<+T> = None | Some(value: T)

  /** A hash stands for the bytes it was computed from: SHA-256 is taken to be collision-free. */
  type Sha = nat

  /** One goroutine serving a request, or one worker of the server. */
  type Tid = nat
}
