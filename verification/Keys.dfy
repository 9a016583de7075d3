/** Bytes, result values and the primary-key rule shared by the storage modules. */
module Keys {

  type Byte = b: int | 0 <= b < 256
  type Bytes = seq<Byte>

  const MAX_UINT64: nat := 0xFFFF_FFFF_FFFF_FFFF
  const MAX_PRIMARY_KEY_BYTES: nat := 64 * 1024
  const MAX_DOCUMENT_PAYLOAD_SIZE: nat := 64 * 1024 * 1024

  datatype Result<+T, +E> = Ok(value: T) | Err(error: E)

  predicate Continuation(b: Byte) {
    0x80 <= b <= 0xBF
  }

  /** Width of the UTF-8 sequence at the front of `s`; 0 when there is none. */
  function RuneWidth(s: Bytes): (width: nat)
    ensures width <= |s|
    ensures width <= 4
  {
    if s == [] then 0
    else if s[0] < 0x80 then 1
    else if 0xC2 <= s[0] <= 0xDF then
      if |s| >= 2 && Continuation(s[1]) then 2 else 0
    else if 0xE0 <= s[0] <= 0xEF then
      if |s| >= 3 && Continuation(s[1]) && Continuation(s[2])
         && (s[0] == 0xE0 ==> 0xA0 <= s[1]) && (s[0] == 0xED ==> s[1] <= 0x9F)
      then 3 else 0
    else if 0xF0 <= s[0] <= 0xF4 then
      if |s| >= 4 && Continuation(s[1]) && Continuation(s[2]) && Continuation(s[3])
         && (s[0] == 0xF0 ==> 0x90 <= s[1]) && (s[0] == 0xF4 ==> s[1] <= 0x8F)
      then 4 else 0
    else 0
  }

  predicate ValidUtf8(s: Bytes)
    decreases |s|
  {
    s == [] || (RuneWidth(s) > 0 && ValidUtf8(s[RuneWidth(s)..]))
  }

  predicate ValidPrimaryKey(key: Bytes) {
    0 < |key| <= MAX_PRIMARY_KEY_BYTES && ValidUtf8(key)
  }
}
