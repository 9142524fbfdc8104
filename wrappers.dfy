/** Option, Result and Error: the values the model returns where the program
    raises an exception or finds nothing. */
module Wrappers {

  datatype Option<+T> = None | Some(value: T)

  datatype Result<+T, +E> = Ok(value: T) | Err(error: E)

  /** The exceptions the modelled code raises: `KeyError` in preprocessing.py and
      MelodyGenerator.py, `IndexError` and `ValueError` in MelodyGenerator.py. */
  datatype Error =
    | KeyError(key: string)     // a symbol missing from the mapping
    | IndexError                // a drawn index that no symbol maps to
    | ValueError(text: string)  // a symbol `int()` cannot read
}
