/** Types shared by every part of the model. */
module Common {
  const U64_MAX: nat := 0xFFFF_FFFF_FFFF_FFFF

  type u64 = n: int | 0 <= n <= U64_MAX

  /** `x += 1` in a release build. */
  function WrapInc(x: u64): u64 {
    if x == U64_MAX then 0 else x + 1
  }

  /** `x.saturating_add(1)`. */
  function SatInc(x: u64): u64 {
    if x == U64_MAX then x else x + 1
  }

  function Max(a: u64, b: u64): u64 {
    if a < b then b else a
  }

  datatype Option<+T> = None | Some(value: T)

  datatype Result<+T, +E> = Ok(value: T) | Err(error: E)

  /**
   What is decided by libraries outside the model: whether libp2p parses a string
   as a PeerId, and SHA-256, whose 32-byte output is read as a big-endian number so
   that comparing digests byte by byte is comparing numbers.
   */
  datatype Env = Env(validPeer: string -> bool, digest: string -> nat)

  function ToSet(xs: seq<string>): (s: set<string>)
    ensures forall x :: x in s <==> x in xs
  {
    set x | x in xs
  }

  predicate ValidPeers(env: Env, peers: seq<string>) {
    forall p :: p in peers ==> env.validPeer(p)
  }
}
