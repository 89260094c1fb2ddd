/** Optional values and the platform's integer bound, shared by every module. */
module Wrappers {
  datatype Option<+T> = None | Some(value: T)

  /** The largest integer that the platform's numbers represent exactly with all its predecessors. */
  const MAX_SAFE_INTEGER := 0x1F_FFFF_FFFF_FFFF
}
