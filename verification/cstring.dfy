/** NUL-terminated byte strings and the C library's strcmp on them. */
module CString {

  /** A byte of a C string: an unsigned char other than the terminating NUL. */
  type Byte = b: int | 1 <= b < 256 witness 1

  /** The bytes of a NUL-terminated string, without the terminator. */
  type CStr = seq<Byte>

  /** The conventional optional value; `None` stands for a NULL pointer. */
  datatype Option<+T> = None | Some(value: T)

  /**
   * The sign of strcmp(a, b) (section 7.24.4.2 of ISO/IEC 9899:2011): bytes are
   * compared as unsigned char, and the terminating NUL of the shorter string
   * compares below any byte of the longer one.
   */
  function Strcmp(a: CStr, b: CStr): (r: int)
    ensures -1 <= r <= 1
    ensures r == 0 <==> a == b
  {
    if a == [] && b == [] then 0
    else if a == [] then -1
    else if b == [] then 1
    else if a[0] < b[0] then -1
    else if a[0] > b[0] then 1
    else
      var r := Strcmp(a[1..], b[1..]);
      assert a == [a[0]] + a[1..] && b == [b[0]] + b[1..];
      r
  }

  /** strcmp(a, b) < 0 */
  predicate Less(a: CStr, b: CStr) {
    Strcmp(a, b) < 0
  }

  /** Lexicographic order on byte strings, stated without recursion. */
  ghost predicate LexLess(a: CStr, b: CStr) {
    (|a| < |b| && a == b[..|a|]) ||
    exists i :: 0 <= i < |a| && i < |b| && a[..i] == b[..i] && a[i] < b[i]
  }

  lemma {:induction false} StrcmpAntisymmetric(a: CStr, b: CStr)
    ensures Strcmp(a, b) == -Strcmp(b, a)
    decreases |a|
  {
    if a != [] && b != [] && a[0] == b[0] {
      StrcmpAntisymmetric(a[1..], b[1..]);
    }
  }

  lemma {:induction false} LessTransitive(a: CStr, b: CStr, c: CStr)
    requires Less(a, b) && Less(b, c)
    ensures Less(a, c)
    decreases |a|
  {
    if a != [] && b != [] && c != [] && a[0] == b[0] && b[0] == c[0] {
      LessTransitive(a[1..], b[1..], c[1..]);
    }
  }

  /** strcmp orders strings exactly as the lexicographic order does. */
  lemma {:induction false} StrcmpIsLexicographic(a: CStr, b: CStr)
    ensures Less(a, b) <==> LexLess(a, b)
    decreases |a|
  {
    if a == [] {
      assert b != [] ==> a == b[..|a|];
    } else if b == [] {
    } else if a[0] < b[0] {
      assert a[..0] == b[..0];
    } else if a[0] > b[0] {
    } else {
      var a', b' := a[1..], b[1..];
      StrcmpIsLexicographic(a', b');
      if LexLess(a', b') {
        if |a'| < |b'| && a' == b'[..|a'|] {
          assert a == b[..|a|];
        } else {
          var i :| 0 <= i < |a'| && i < |b'| && a'[..i] == b'[..i] && a'[i] < b'[i];
          assert a[..i + 1] == [a[0]] + a'[..i] && b[..i + 1] == [b[0]] + b'[..i];
          assert a[i + 1] < b[i + 1];
        }
      }
      if LexLess(a, b) {
        if |a| < |b| && a == b[..|a|] {
          assert a' == b'[..|a'|];
        } else {
          var i :| 0 <= i < |a| && i < |b| && a[..i] == b[..i] && a[i] < b[i];
          assert i > 0;
          assert a'[..i - 1] == a[..i][1..] && b'[..i - 1] == b[..i][1..];
          assert a'[i - 1] < b'[i - 1];
        }
      }
    }
  }
}
