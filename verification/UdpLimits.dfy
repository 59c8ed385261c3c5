/** The two limits of `UDPStream` that its models share. */
module UdpLimits {
  const MAX_READ_BUFFER := 4096
  const ATTEMPTS := 5
}
