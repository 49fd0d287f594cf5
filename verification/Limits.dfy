/** Limits of the protocol: wireguard-go/device/constants.go, line 16. */
module Limits {
  const REJECT_AFTER_MESSAGES: nat := 0x1_0000_0000_0000_0000 - 0x2000 - 1
}
