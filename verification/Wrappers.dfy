/** Option and Result, with the error kinds of src/db/error.rs that the modelled code distinguishes. */
module Wrappers {
  datatype Option<+T> = None | Some(value: T)

  datatype Result<+T> = Ok(value: T) | Err(error: DbError) {
    function ToOption(): Option<T> { if Ok? then Some(value) else None }
  }

  datatype DbError =
    | CollectionNotFound
    | BsoNotFound
    | BatchNotFound
    | Conflict
    | TooLarge
    | Integrity
    | Internal
    | Sql

  type I32 = x: int | -0x8000_0000 <= x < 0x8000_0000
  type U32 = x: int | 0 <= x < 0x1_0000_0000
  type I64 = x: int | -0x8000_0000_0000_0000 <= x < 0x8000_0000_0000_0000
  type U64 = x: int | 0 <= x < 0x1_0000_0000_0000_0000

  /** `as i64`. */
  function AsI64(u: U64): int { if u < 0x8000_0000_0000_0000 then u else u - 0x1_0000_0000_0000_0000 }

  /** The value stored under a key, if any. */
  function Lookup<K, V>(m: map<K, V>, k: K): (r: Option<V>)
    ensures r.Some? <==> k in m
  {
    if k in m then Some(m[k]) else None
  }
}
