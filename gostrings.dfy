/** Go strings as byte sequences.

    A Go `string` is an immutable sequence of bytes and `len` counts bytes.  Dafny's
    `string` is a sequence of Unicode scalar values, so here every element of a
    `GoString` is a `char` below 256 that stands for one byte. */
module GoStrings {

  /** One byte of a Go string. */
  type Byte = c: char | c as int < 256 witness '\0'

  /** The bytes of a Go string; `|s|` is Go's `len(s)`. */
  type GoString = seq<Byte>

  /** The ASCII white-space bytes that `strings.TrimSpace` removes. */
  predicate IsAsciiSpace(c: Byte) {
    c == ' ' || c == '\t' || c == '\n' || c == '\U{B}' || c == '\U{C}' || c == '\r'
  }

  predicate IsDigit(c: Byte) {
    '0' <= c <= '9'
  }

  /** `s` with its leading white space removed. */
  function TrimLeft(s: GoString): (r: GoString)
    ensures |r| <= |s| && r == s[|s| - |r|..]
    ensures r == [] || !IsAsciiSpace(r[0])
    ensures forall i :: 0 <= i < |s| - |r| ==> IsAsciiSpace(s[i])
  {
    if s == [] || !IsAsciiSpace(s[0]) then s else TrimLeft(s[1..])
  }

  /** `s` with its trailing white space removed. */
  function TrimRight(s: GoString): (r: GoString)
    ensures |r| <= |s| && r == s[..|r|]
    ensures r == [] || !IsAsciiSpace(r[|r| - 1])
    ensures forall i :: |r| <= i < |s| ==> IsAsciiSpace(s[i])
  {
    if s == [] || !IsAsciiSpace(s[|s| - 1]) then s else TrimRight(s[..|s| - 1])
  }

  /** `strings.TrimSpace` restricted to ASCII white space. */
  function TrimSpace(s: GoString): GoString {
    TrimRight(TrimLeft(s))
  }

  /** A line is blank when trimming leaves nothing, that is, exactly when every byte is white space. */
  lemma TrimSpaceEmptyIffAllSpace(s: GoString)
    ensures TrimSpace(s) == [] <==> forall i :: 0 <= i < |s| ==> IsAsciiSpace(s[i])
  {
    var l := TrimLeft(s);
    if TrimSpace(s) == [] {
      forall i | 0 <= i < |s| ensures IsAsciiSpace(s[i]) {
        if i >= |s| - |l| {
          assert s[i] == l[i - (|s| - |l|)];
        }
      }
    } else {
      var r := TrimSpace(s);
      assert !IsAsciiSpace(r[0]) by {
        if |r| < |l| {
          assert l != [] && r[0] == l[0];
        }
      }
      assert r[0] == s[|s| - |l|];
    }
  }

  /** `strings.Contains(s, p)`: `p` occurs in `s` as a contiguous run of bytes. */
  predicate HasSubstring(s: GoString, p: GoString) {
    exists i :: 0 <= i <= |s| && OccursAt(s, p, i)
  }

  /** `p` occurs in `s` starting at byte `i`. */
  predicate OccursAt(s: GoString, p: GoString, i: int) {
    0 <= i <= |s| - |p| && s[i..i + |p|] == p
  }
}
