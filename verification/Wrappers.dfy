// Results of fallible operations, and the machine integers the sources use.
module Wrappers {
  datatype Option<+T> = None | Some(value: T)

  datatype Result<+T> = Ok(value: T) | Err

  type U8 = x: int | 0 <= x < 0x100
  type U16 = x: int | 0 <= x < 0x1_0000
  type U32 = x: int | 0 <= x < 0x1_0000_0000
  type U64 = x: int | 0 <= x < 0x1_0000_0000_0000_0000

  const MAX_U16 := 0xFFFF
  const MAX_U32 := 0xFFFF_FFFF
  const MAX_USIZE := 0xFFFF_FFFF_FFFF_FFFF // 64-bit hosts

  // One external command that would change `current` into `next`. It may fail before or after
  // it took effect.
  method RunCommand<T>(current: T, next: T) returns (ok: bool, state: T)
    ensures state == next || (!ok && state == current)
  {
    var effect: bool := *;
    ok := *;
    if effect {
      state := next;
    } else {
      ok, state := false, current;
    }
  }
}
