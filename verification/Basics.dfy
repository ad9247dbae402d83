/** Types shared by every part of the model. */
module Basics {

  newtype byte = x: int | 0 <= x < 256

  /** A Go string: a sequence of bytes, compared byte by byte. */
  type text = seq<byte>

  datatype Option<+T> = None | Some(value: T)

  datatype Result<+T, +E> = Ok(value: T) | Err(error: E)

  /** A 32-byte key: an Ed25519 lock key or a WireGuard key. */
  type Key32 = k: seq<byte> | |k| == 32 witness seq(32, _ => 0)

  type Signature = s: seq<byte> | |s| == 64 witness seq(64, _ => 0)

  /** The library functions the program calls and this model leaves
      uninterpreted: Ed25519 verification, the base64 text forms, and the
      trimming of names typed by a person. */
  datatype Lib = Lib(
    verify: (Key32, seq<byte>, Signature) -> bool,
    parseWgKey: text -> Option<Key32>,
    parseLockKey: text -> Option<Key32>,
    parseSignature: text -> Option<Signature>,
    showLockKey: Key32 -> text,
    showSignature: Signature -> text,
    trimSpace: text -> text,
    stripZone: text -> text)

  /** The one law of the text forms some results need: printing a lock key
      or a signature and parsing it back gives the same value. */
  ghost predicate TextRoundTrips(lib: Lib) {
    && (forall k: Key32 :: lib.parseLockKey(lib.showLockKey(k)) == Some(k))
    && (forall s: Signature :: lib.parseSignature(lib.showSignature(s)) == Some(s))
  }

  /** Times and durations are whole nanoseconds. */
  const SECOND := 1_000_000_000

  /** The name and the id of the hub, "hub"; no peer may take the name. */
  const HUB: text := [104, 117, 98]

  /** Indexing a Go map of lists: the empty list for a missing key. */
  function Lookup<T>(m: map<text, seq<T>>, k: text): seq<T> {
    if k in m then m[k] else []
  }
}
