/** Byte strings as the C code sees them, and the small string helpers
    (`find`, `isspace`, the trailing-whitespace trim) that the tokenizer,
    the tree builder and the entity codec share. */
module Bytes {

  /** A C `char` taken as an unsigned byte. Characters are used so that
      literals such as "<![CDATA[" can be written as they appear in C. */
  type Byte = c: char | c as int < 256
  type Bytes = seq<Byte>

  const NUL: Byte := '\0'

  /** The C string functions (`strstr`, `strlen`, `strcmp`) stop at NUL, so
      every buffer the core works on is taken to be free of it. */
  predicate NoNul(s: Bytes) {
    forall k :: 0 <= k < |s| ==> s[k] != NUL
  }

  /** C `isspace` in the "C" locale: space, \t, \n, \v, \f, \r. */
  predicate IsSpace(c: Byte) {
    c == ' ' || c == '\t' || c == '\n' || c == '\U{000B}' || c == '\U{000C}' || c == '\r'
  }

  /** The four bytes the tokenizer's `switch` treats as separators; a
      strict subset of `isspace` (vertical tab and form feed are missing). */
  predicate IsSeparator(c: Byte) {
    c == ' ' || c == '\r' || c == '\n' || c == '\t'
  }

  predicate IsDigit(c: Byte) {
    '0' <= c <= '9'
  }

  /** Lua's `%x` class (C `isxdigit`). */
  predicate IsHexDigit(c: Byte) {
    IsDigit(c) || 'a' <= c <= 'f' || 'A' <= c <= 'F'
  }

  /** `pat` occurs in `s` at position `k`. */
  predicate OccursAt(s: Bytes, pat: Bytes, k: nat) {
    k + |pat| <= |s| && s[k..k + |pat|] == pat
  }

  /** `find` (LuaXML_lib.c:56-59): the position of the first occurrence of
      `pat` at or after `start`, or the length of `s` when there is none
      (`strstr` returning NULL makes `find` answer `strlen(s)`). */
  function Find(s: Bytes, pat: Bytes, start: nat): (r: nat)
    requires |pat| > 0 && start <= |s|
    ensures start <= r <= |s|
    ensures r < |s| ==> OccursAt(s, pat, r)
    ensures forall k :: start <= k < r ==> !OccursAt(s, pat, k)
    ensures r == |s| ==> forall k :: start <= k <= |s| ==> !OccursAt(s, pat, k)
    decreases |s| - start
  {
    if start + |pat| > |s| then |s|
    else if s[start..start + |pat|] == pat then start
    else Find(s, pat, start + 1)
  }

  /** The trim loop of LuaXML_lib.c:287-288: drop trailing `isspace`
      bytes. */
  function TrimRight(t: Bytes): (r: Bytes)
    ensures |r| <= |t| && r == t[..|r|]
    ensures r == [] || !IsSpace(r[|r| - 1])
    ensures forall k :: |r| <= k < |t| ==> IsSpace(t[k])
  {
    if t != [] && IsSpace(t[|t| - 1]) then TrimRight(t[..|t| - 1]) else t
  }
}
