module Keys {
  /** A WireGuard public key, as the base64 text that the daemon passes around. */
  type Key = string
}
