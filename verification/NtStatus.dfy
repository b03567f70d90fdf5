/** The NTSTATUS codes the modelled handlers answer with. */
module NtStatus {
  import opened Bytes

  const STATUS_SUCCESS: u32 := 0
  const STATUS_NO_MORE_FILES: u32 := 0x8000_0006
  const STATUS_INVALID_INFO_CLASS: u32 := 0xC000_0003
  const STATUS_INVALID_PARAMETER: u32 := 0xC000_000D
  const STATUS_MORE_PROCESSING_REQUIRED: u32 := 0xC000_0016
  const STATUS_ACCESS_DENIED: u32 := 0xC000_0022
  const STATUS_OBJECT_NAME_INVALID: u32 := 0xC000_0033
  const STATUS_LOGON_FAILURE: u32 := 0xC000_006D
  const STATUS_NOT_SUPPORTED: u32 := 0xC000_00BB
  const STATUS_NETWORK_NAME_DELETED: u32 := 0xC000_00C9
  const STATUS_BAD_NETWORK_NAME: u32 := 0xC000_00CC
  const STATUS_FILE_CLOSED: u32 := 0xC000_0128
  const STATUS_USER_SESSION_DELETED: u32 := 0xC000_015C
}
