/** The hash that spreads keys over shards, in the cache and in the connection pool. */
module Hash {
  import opened Text

  const OFFSET_BASIS: bv32 := 2166136261
  const PRIME: bv32 := 16777619

  /** One byte, or any other value, mixed into the state: 32 bits, wrapping. */
  function Mix(h: bv32, v: bv32): bv32 {
    (h ^ v) * PRIME
  }

  /** FNV-1a over the bytes of a name, from a given state. */
  function Fnv(name: Str, h: bv32): bv32
    decreases |name|
  {
    if name == [] then h else Fnv(name[1..], Mix(h, name[0] as bv32))
  }
}
