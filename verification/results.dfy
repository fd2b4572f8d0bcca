/** Outcomes shared by the whole model: optional values, and the two ways a
    binding function can end -- with a value, or by raising a Lua error. */
module Results {

  datatype Option<+T> = None | Some(value: T)

  /** The errors the binding raises through the Lua C API. */
  datatype Error =
    | ArgError(arg: int, msg: string)        // luaL_argerror / luaL_argcheck
    | TypeError(arg: int, expected: string)  // luaL_checktype / luaL_checkinteger
    | RuntimeError(msg: string)              // luaL_error

  datatype Result<+T> = Ok(value: T) | Err(error: Error)
}
