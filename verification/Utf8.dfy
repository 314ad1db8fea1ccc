// The byte form of code points that idna.c reads and writes: UTF-8 of RFC 3629 for
// scalar values, its generalisation WTF-8 for surrogates as well.
module Utf8 {

  predicate Bytes(s: seq<nat>) { forall i :: 0 <= i < |s| ==> s[i] < 256 }

  // Section 3 of RFC 3629, without its exclusion of surrogates.
  function Encode(c: nat): (s: seq<nat>)
    requires c < 0x11_0000
    ensures |s| > 0 && Bytes(s) && (c > 0 ==> forall i :: 0 <= i < |s| ==> s[i] > 0)
  {
    if c < 0x80 then [c]
    else if c < 0x800 then [0xC0 + c / 64, 0x80 + c % 64]
    else if c < 0x1_0000 then [0xE0 + c / 0x1000, 0x80 + c / 64 % 64, 0x80 + c % 64]
    else [0xF0 + c / 0x4_0000, 0x80 + c / 0x1000 % 64, 0x80 + c / 64 % 64, 0x80 + c % 64]
  }

  lemma Sextets(c: nat)
    ensures c / 0x1000 == c / 64 / 64 && c / 0x4_0000 == c / 0x1000 / 64
    ensures c == c / 64 * 64 + c % 64
    ensures c == c / 0x1000 * 0x1000 + c / 64 % 64 * 64 + c % 64
    ensures c == c / 0x4_0000 * 0x4_0000 + c / 0x1000 % 64 * 0x1000 + c / 64 % 64 * 64 + c % 64
  {
  }
}
