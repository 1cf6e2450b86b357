/** The result codes every cipher shares (BaseLib/CipherBase.h). */
module CipherBase {

  /** A pointer that may be NULL. */
  datatype Option<T> = None | Some(value: T)

  const NULL_CIPHER_KEY := -10
  const INVALID_KEY_LENGTH := -7
  const INVALID_INPUTDATA_LENGTH := -6
  const NULL_INPUTDATA := -5
  const INVALID_OUTPUTDATA_SIZE := -4
  const NULL_OUTPUTDATA := -3
  const CIPHER_SUCCESS := 1

  const BUFFER_SIZE := 1024
}
