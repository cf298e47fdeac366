/** Optional values: `None` stands for JavaScript's `undefined` (an absent
    property, a missing query parameter, a cancelled prompt). */
module Wrappers {

  datatype Option<+T> = None | Some(value: T) {

    /** The wrapped value, or `default` when absent. */
    function GetOr(default: T): T {
      match this
      case Some(v) => v
      case None => default
    }
  }
}
