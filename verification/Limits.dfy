/** Sizes shared by several layers (include/rtnc/frame.h, include/rtnc/fragmentation.h). */
module Limits {
  const MAX_PAYLOAD: nat := 128
  const LINK_MIN_MTU: nat := 500
  const LINK_MAX_MTU: nat := 16256
}
