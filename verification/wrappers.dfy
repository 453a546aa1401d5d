/** The optional value used wherever the script's Python code would raise. */
module Wrappers {
  datatype Option<+T> = None | Some(value: T)
  {
    /** The value, or `default` when there is none. */
    function GetOr(default: T): T
    {
      if Some? then value else default
    }
  }
}
