/**
 * The host and utility functions the insertion points call but whose code is
 * not part of this model (Burp's extension helpers and the extension's own
 * Utilities class). Each is a field of function type, so every lemma holds for
 * every behaviour they might have.
 */
module Host {

  newtype byte = x: int | 0 <= x < 256

  /** Java's Integer.MAX_VALUE and Integer.MIN_VALUE. */
  const IntMax: int := 0x7fff_ffff
  const IntMin: int := -0x8000_0000

  /** The values of a Java int. */
  type JavaInt = x: int | IntMin <= x <= IntMax

  /** Java's `n + 1` on an int: Integer.MAX_VALUE wraps to Integer.MIN_VALUE. */
  function JavaSucc(n: int): (r: int)
    ensures n != IntMax ==> r == n + 1
    ensures n == IntMax ==> r < 0
  {
    if n == IntMax then IntMin else n + 1
  }

  /** A parameter as built by the host's buildParameter: name, value and location kind. */
  datatype Param = Param(name: string, value: string, kind: int)

  /** The exceptions the JSON builder can raise besides the ClassCastException it catches. */
  datatype Fault = NullPointer | IndexOutOfBounds | NegativeCapacity

  datatype Result<T> = Ok(value: T) | Err(fault: Fault)

  datatype Option<T> = None | Some(value: T)

  /**
   * The external helpers, left uninterpreted:
   *  - toCanary, invert, encodeParam, parseArrayIndex, unparseParam: Utilities/Keysmith;
   *  - generateCanary(k): the fresh canary drawn for list position k;
   *  - updateParameter: the host's update-or-insert of a parameter in a request.
   */
  datatype Helpers = Helpers(
    toCanary: string -> string,
    invert: string -> string,
    encodeParam: string -> string,
    parseArrayIndex: string -> JavaInt,
    generateCanary: nat -> string,
    updateParameter: (seq<byte>, Param) -> seq<byte>,
    unparseParam: string -> string)
}
