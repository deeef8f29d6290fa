/** Names shared by the two Wi-Fi HAL registries. */
module WifiTypes {
  /** A function or object pointer; 0 is NULL. */
  type Address = nat

  const NULL: Address := 0

  datatype WifiError = WIFI_SUCCESS | WIFI_ERROR_OUT_OF_MEMORY | WIFI_ERROR_INVALID_ARGS
}
