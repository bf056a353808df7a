/** Types shared by every component of the model. */
module Commun {

  datatype Option<+T> = None | Some(value: T)

  /** The source's `Result<T, &'static str>`: an error carries its reason. */
  datatype Result<+T> = Ok(value: T) | Err(raison: string)

  datatype Famille = Ipv4 | Ipv6

  type u8 = n: nat | n < 0x100
  type u16 = n: nat | n < 0x1_0000
  type u32 = n: nat | n < 0x1_0000_0000
  type u64 = n: nat | n < 0x1_0000_0000_0000_0000

  const U32_MAX: u32 := 0xffff_ffff
  const U64_MAX: u64 := 0xffff_ffff_ffff_ffff

  /** An element that is listed under a condition. */
  function Si<T>(present: bool, x: T): seq<T> { if present then [x] else [] }

  predicate SansDoublon<T(==)>(s: seq<T>) { forall i, j :: 0 <= i < j < |s| ==> s[i] != s[j] }
}
