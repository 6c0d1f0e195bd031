/** Shared value types: optional values, fallible results and the crate's error kinds. */
module Prelude {

  datatype Option<+T> = None | Some(value: T)

  /** The kinds of `TlsError` the modelled code returns (src/error.rs); the texts carry no behaviour. */
  datatype Error =
    | Params
    | Proof
    | ProofInvalid
    | Chain
    | Pem
    | Sign
    | Generate
    | Fingerprint
    | Certificate
    | Io
    | Negotiation
    | Decrypt
    | OversizedRecord
    | IllegalInnerPlaintext

  datatype Result<+T> = Ok(value: T) | Err(error: Error) {
    predicate IsFailure() { Err? }

    function PropagateFailure<U>(): Result<U>
      requires Err?
    {
      Err(error)
    }

    function Extract(): T
      requires Ok?
    {
      value
    }
  }

  /** Returned where the source returns `Result<(), TlsError>`. */
  datatype Unit = Unit

  type Byte = x: int | 0 <= x < 256

  type Bytes = seq<Byte>
}
