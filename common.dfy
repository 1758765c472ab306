/** Small helpers shared by the integration script and the dashboard. */
module Common {

  /** A value that may be missing, as a Python `dict.get` without a default returns it. */
  datatype Option<T> = None | Some(value: T) {

    /** The value, or `default` when it is missing (`dict.get(key, default)`). */
    function GetOr(default: T): T {
      match this
      case Some(v) => v
      case None => default
    }
  }
}
