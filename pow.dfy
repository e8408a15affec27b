/** The proof-of-work stamp exchanged between client and server. */
module Pow {
  import opened Basics

  /**
   * `pow.HashcashData`: the fields a client hashes when it solves a
   * challenge. `rand` carries the server's token as base64 text; `counter`
   * is the candidate the client claims meets the difficulty. Go's `int`
   * is 64 bits wide on the targets the server runs on.
   */
  datatype Stamp = Stamp(
    version: int64,
    zerosCount: int64,
    date: int64,
    resource: string,
    rand: string,
    counter: int64)

  /**
   * The verdict of `HashcashData.ComputeHashcash(maxIter)` on a stamp:
   * true when it returns no error. The hashing code lives outside this
   * model, so the verdict is a parameter of every operation that needs it.
   */
  type Verifier = (Stamp, int64) -> bool
}
