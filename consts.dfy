/** The transport constants the chunked-upload core depends on. */
module Consts {
  /** Size of one transfer block: 1 MiB. */
  const BlockSize: nat := 1024 * 1024

  /** The only token CreatePath honours. */
  const CREATE: string := "CREATE"

  /** Values of StatResponse's Type field. */
  const TypeDirectory: string := "Directory"
  const TypeFile: string := "File"
}
