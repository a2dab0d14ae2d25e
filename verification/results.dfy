/** The outcomes of the toolchain's stages. Each Python exception the core can
    raise becomes an `Err` carrying the kind of failure and the text involved. */
module Results {

  datatype Option<T> = None | Some(value: T)

  datatype Error =
    /** `SyntaxError`: a `while` header or a loop condition the patterns reject. */
    | SyntaxError(text: string)
    /** `KeyError`: a mnemonic or operator missing from its fixed table. */
    | UnknownKey(table: string, key: string)
    /** `ValueError` from unpacking a split with the wrong number of parts. */
    | Unpack(text: string)
    /** `NotImplementedError`: an arithmetic operator with no lowering. */
    | NotImplemented(op: string)

  datatype Result<T> = Ok(value: T) | Err(error: Error) {
    predicate IsFailure()
    {
      Err?
    }

    function PropagateFailure<U>(): Result<U>
      requires Err?
    {
      Err(error)
    }

    function Extract(): T
      requires Ok?
    {
      value
    }
  }
}
