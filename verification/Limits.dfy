/** The capacities of the default build, and the lengths a key type stands for. */
module Limits {
  import opened Bytes

  const MAX_APPS: nat := 28
  const MAX_FILES: nat := 32
  const MAX_KEYS: nat := 14
  const MAX_KEY_SETS: nat := 16
  const MIN_KEY_SETS: nat := 2
  const MAX_FILE_DATA: nat := 2048
  const KEY_POOL_SIZE: nat := 4096
  const FILE_POOL_SIZE: nat := 8192
  const CHAIN_BUFFER_SIZE: nat := 2080
  /** The owner index of a file that belongs to the PICC rather than an application. */
  const PICC_OWNER: nat := 255

  /** The octets a stored key of this length takes. */
  function Stride(keyLength: nat): nat
  {
    if keyLength == 24 then 24 else 16
  }

  /** The key length the type bits of an application's or the PICC's settings give. */
  function KeyLength(settings2: byte): nat
  {
    if settings2 / 64 == 1 then 24 else 16
  }

  /** The key length of a key set's type; zero for an unknown type. */
  function SetKeyLength(kind: byte): nat
  {
    if kind == 1 then 24 else if kind == 0 || kind == 2 then 16 else 0
  }
}
