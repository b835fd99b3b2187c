/** Bytes, C strings and the ASCII case folding of strcasecmp. */
module Bytes {

  type byte = x: int | 0 <= x < 256
  type text = seq<byte>

  const DOT: text := [46]
  const LOCAL: text := [108, 111, 99, 97, 108]
  const ARPA: text := [97, 114, 112, 97]
  const IP6: text := [105, 112, 54]
  const IN_ADDR: text := [105, 110, 45, 97, 100, 100, 114]
  const SUB: text := [95, 115, 117, 98]
  const UNDERSCORE: byte := 95

  /** A 16-bit value in network order. */
  function U16Bytes(v: nat): (r: seq<byte>)
    ensures |r| == 2
  {
    [v / 256 % 256, v % 256]
  }

  function Lower(c: byte): byte {
    if 65 <= c <= 90 then c + 32 else c
  }

  /** strcasecmp(a, b) == 0, for the values of two C strings. */
  predicate SameText(a: text, b: text) {
    |a| == |b| && forall i | 0 <= i < |a| :: Lower(a[i]) == Lower(b[i])
  }

  predicate NulFree(s: text) {
    forall i | 0 <= i < |s| :: s[i] != 0
  }

  /** The C string that starts at a buffer holding s and a terminator: s up to its first NUL. */
  function CString(s: text): (r: text)
    ensures NulFree(r) && r <= s
    ensures NulFree(s) ==> r == s
    ensures |r| < |s| ==> s[|r|] == 0
  {
    if s == [] || s[0] == 0 then [] else [s[0]] + CString(s[1..])
  }

  /** strlcat into a buffer of the given size. */
  function Strlcat(dst: text, src: text, size: nat): text {
    if |dst| + 1 >= size then dst
    else if |dst| + |src| + 1 <= size then dst + src
    else dst + src[..size - 1 - |dst|]
  }
}
