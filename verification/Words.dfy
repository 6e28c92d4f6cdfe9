/** Machine words, results and opaque identities shared by the whole model. */
module Words {

  const U32: int := 0x1_0000_0000

  newtype uint32 = x: int | 0 <= x < 0x1_0000_0000
  type byte = x: int | 0 <= x < 256

  datatype Option<+T> = None | Some(value: T)

  /** `Err` stands for a thrown exception. */
  datatype Result<+T, +E> = Ok(value: T) | Err(error: E)

  /** A capability client: an opaque identity, or a forwarder wrapped around another one. */
  datatype Cap = Client(identity: nat) | Forwarder(inner: Cap)

  /** No element occurs twice. */
  ghost predicate Distinct<T>(s: seq<T>) {
    forall i, j | 0 <= i < j < |s| :: s[i] != s[j]
  }

  /** The elements of a sequence. */
  ghost function Elems<T>(s: seq<T>): set<T> {
    set x | x in s
  }
}
