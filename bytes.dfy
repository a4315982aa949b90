/** Byte strings as the C++ code holds them: the contents of a std::string or a
    std::vector<uint8_t>, and the C string view `strlen` takes of them. */
module Bytes {

  /** One octet: a `uint8_t`, or a `char` read as `unsigned char`. */
  type uint8 = x: int | 0 <= x < 256

  type Bytes = seq<uint8>

  /** `strlen(s.c_str())`: the length of the longest prefix of `s` without a NUL
      byte (c_str() appends a terminating NUL, so the scan always stops). */
  function CStrLen(s: Bytes): (n: nat)
    ensures n <= |s|
    ensures forall i :: 0 <= i < n ==> s[i] != 0
    ensures n < |s| ==> s[n] == 0
  {
    if s == [] || s[0] == 0 then 0 else 1 + CStrLen(s[1..])
  }

  /** The bytes a C string routine sees of `s`: everything before its first NUL. */
  function UpToNul(s: Bytes): (r: Bytes)
    ensures r <= s && 0 !in r
    ensures 0 !in s ==> r == s
    ensures 0 in s ==> |r| < |s| && s[|r|] == 0
  {
    s[..CStrLen(s)]
  }
}
