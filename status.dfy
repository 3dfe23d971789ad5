/**
 * Status codes the modelled functions return. Their numeric values come from
 * the Win32 and virtual-channel headers, which are not part of this model;
 * they are the standard published values.
 */
module Win32 {
  import opened Bytes

  const CHANNEL_RC_OK: u32 := 0
  const CHANNEL_RC_BAD_PROC: u32 := 11
  const CHANNEL_RC_NO_MEMORY: u32 := 12
  const ERROR_INVALID_DATA: u32 := 13
  const ERROR_INVALID_PARAMETER: u32 := 87
  const ERROR_INTERNAL_ERROR: u32 := 1359

  // COM result codes (HRESULT, as unsigned 32-bit values).
  const S_OK: u32 := 0
  const S_FALSE: u32 := 1
  const E_FAIL: u32 := 0x8000_4005
  const E_INVALIDARG: u32 := 0x8007_0057
  const E_OUTOFMEMORY: u32 := 0x8007_000E
  const STG_E_ACCESSDENIED: u32 := 0x8003_0005
}
