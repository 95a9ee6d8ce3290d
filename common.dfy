/**
 * Small shared vocabulary: optional values and bytes.
 */
module Common {

  /** A value that may be missing (JavaScript's `undefined` / `null`). */
  datatype Option<+T> = None | Some(value: T) {
    /** The value, or `default` when there is none (JavaScript's `x ?? d`). */
    function GetOr(default: T): T {
      match this
      case Some(v) => v
      case None => default
    }
  }

  /** An octet, as held in a Node `Buffer`. */
  type byte = x: int | 0 <= x < 256

  /** Concatenation of a list of byte chunks (Node's `Buffer.concat`). */
  function Concat(chunks: seq<seq<byte>>): (r: seq<byte>)
    ensures |r| == TotalLength(chunks)
  {
    if chunks == [] then [] else Concat(chunks[..|chunks| - 1]) + chunks[|chunks| - 1]
  }

  /** The sum of the lengths of the chunks. */
  function TotalLength(chunks: seq<seq<byte>>): nat
  {
    if chunks == [] then 0 else TotalLength(chunks[..|chunks| - 1]) + |chunks[|chunks| - 1]|
  }

  /** A prefix of the chunks is no longer than all of them. */
  lemma {:induction false} TotalLengthPrefix(chunks: seq<seq<byte>>, i: nat)
    requires i <= |chunks|
    ensures TotalLength(chunks[..i]) <= TotalLength(chunks)
    decreases |chunks| - i
  {
    if i < |chunks| {
      var init := chunks[..|chunks| - 1];
      assert init[..i] == chunks[..i];
      TotalLengthPrefix(init, i);
    } else {
      assert chunks[..i] == chunks;
    }
  }
}
