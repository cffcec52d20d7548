/**
 * Shared vocabulary: optional values, results, and the handful of
 * java.lang.String / java.lang.Integer behaviours the framework relies on,
 * written out so that the rest of the model can use them as plain functions.
 */
module Common {

  datatype Option<T> = None | Some(value: T)

  datatype Result<T, E> = Ok(value: T) | Err(error: E)

  // ---------------------------------------------------------------------
  // Strings (String.startsWith, endsWith, indexOf, toLowerCase, ...)
  // ---------------------------------------------------------------------

  predicate StartsWith(s: string, prefix: string)
  {
    |prefix| <= |s| && s[..|prefix|] == prefix
  }

  predicate EndsWith(s: string, suffix: string)
  {
    |suffix| <= |s| && s[|s| - |suffix|..] == suffix
  }

  /** Does `piece` occur in `s` starting exactly at position `k`? */
  predicate OccursAt(s: string, piece: string, k: int)
  {
    0 <= k && k + |piece| <= |s| && s[k..k + |piece|] == piece
  }

  /**
   * String.indexOf(piece, from): the least position at or after `from`
   * where `piece` occurs, or -1 when there is none.
   */
  function IndexOf(s: string, piece: string, from: nat): (r: int)
    ensures r == -1 || (from <= r && OccursAt(s, piece, r))
    ensures r == -1 ==> forall k :: from <= k ==> !OccursAt(s, piece, k)
    ensures r != -1 ==> forall k :: from <= k < r ==> !OccursAt(s, piece, k)
    decreases |s| - from
  {
    if from + |piece| > |s| then -1
    else if s[from..from + |piece|] == piece then from
    else IndexOf(s, piece, from + 1)
  }

  /** Character.toLowerCase, restricted to the ASCII letters. */
  function LowerChar(c: char): char
  {
    if 'A' <= c <= 'Z' then (c as int + 32) as char else c
  }

  function Lower(s: string): (r: string)
    ensures |r| == |s|
    ensures forall i :: 0 <= i < |s| ==> r[i] == LowerChar(s[i])
  {
    seq(|s|, i requires 0 <= i < |s| => LowerChar(s[i]))
  }

  /** String.equalsIgnoreCase (ASCII case folding). */
  predicate EqualsIgnoreCase(a: string, b: string)
  {
    Lower(a) == Lower(b)
  }

  /**
   * Character.isWhitespace for the characters it accepts: the ASCII
   * controls TAB, LF, VT, FF, CR, FS, GS, RS, US and the Unicode space,
   * line and paragraph separators other than the no-break spaces.
   */
  predicate IsWhitespace(c: char)
  {
    var n := c as int;
    (9 <= n <= 13) || (0x1C <= n <= 0x20) || n == 0x1680
    || (0x2000 <= n <= 0x2006) || (0x2008 <= n <= 0x200A)
    || n == 0x2028 || n == 0x2029 || n == 0x205F || n == 0x3000
  }

  // ---------------------------------------------------------------------
  // Java int arithmetic
  // ---------------------------------------------------------------------

  const INT_MIN: int := -0x8000_0000
  const INT_MAX: int := 0x7FFF_FFFF

  type int32 = x: int | INT_MIN <= x <= INT_MAX

  /** Two's-complement wrap-around of a mathematical integer to 32 bits. */
  function Wrap32(x: int): (r: int32)
    ensures INT_MIN <= x <= INT_MAX ==> r == x
    ensures (r - x) % 0x1_0000_0000 == 0
  {
    var m := x % 0x1_0000_0000;
    if m <= INT_MAX then m else m - 0x1_0000_0000
  }

  /** Java's `/` on int: truncates toward zero (Dafny's `/` is Euclidean). */
  function JavaDiv(a: int, b: int): int
    requires b != 0
  {
    if a >= 0 then a / b
    else -((-a) / b)
  }

  /** Math.abs(int): note that Math.abs(Integer.MIN_VALUE) is MIN_VALUE. */
  function JavaAbs(a: int32): int32
  {
    if a >= 0 then a else Wrap32(-(a as int))
  }

  /** String.hashCode: s[0]*31^(n-1) + ... + s[n-1], in int arithmetic. */
  function JavaStringHash(s: string): int32
    decreases |s|
  {
    if s == [] then 0
    else Wrap32(31 * JavaStringHash(s[..|s| - 1]) + s[|s| - 1] as int)
  }

  /** Sequence concatenation regrouped. */
  lemma ConcatAssoc<T>(a: seq<T>, b: seq<T>, c: seq<T>)
    ensures a + (b + c) == (a + b) + c
  {
  }
}
