/** Small definitions shared by the whole project. */
module Prelude {

  datatype Option<+T> = None | Some(value: T)

  /** A pointer value; NULL is the null pointer. */
  type Address = nat

  const NULL: Address := 0

  /** The character that ends a C string. */
  const NUL := '\0'

  /** Where a part of a text is (rapp/rapp_httprequest.h). */
  datatype MemoryRange = MemoryRange(offset: nat, length: nat)

  function Lower(c: char): char { if 'A' <= c <= 'Z' then c - 'A' + 'a' else c }

  /** strcasecmp says equal. */
  predicate SameIgnoringCase(a: string, b: string) {
    |a| == |b| && forall i :: 0 <= i < |a| ==> Lower(a[i]) == Lower(b[i])
  }

  /** At most n elements from the front. */
  function Front<T>(s: seq<T>, n: nat): (r: seq<T>)
    ensures r <= s && |r| <= n && (|r| < n ==> r == s)
  {
    if |s| < n then s else s[..n]
  }

  /** A natural number in decimal, as %d and %lu print it. */
  function Decimal(n: nat): string {
    if n < 10 then [Digit(n)] else Decimal(n / 10) + [Digit(n % 10)]
  }

  function Digit(d: nat): (c: char)
    requires d < 10
    ensures '0' <= c <= '9'
  {
    '0' + d as char
  }

  /** The characters are the two cases of one letter. */
  predicate CasesOfOneLetter(c: char, d: char) {
    exists k :: 0 <= k < 26 && ((c == UPPERCASE[k] && d == LOWERCASE[k]) || (c == LOWERCASE[k] && d == UPPERCASE[k]))
  }

  const UPPERCASE := "ABCDEFGHIJKLMNOPQRSTUVWXYZ"

  const LOWERCASE := "abcdefghijklmnopqrstuvwxyz"

  lemma Alphabet()
    ensures |UPPERCASE| == |LOWERCASE| == 26
    ensures forall k :: 0 <= k < 26 ==> UPPERCASE[k] == 'A' + k as char && LOWERCASE[k] == 'a' + k as char
  {
  }

  lemma LowerExactly(c: char, d: char)
    ensures Lower(c) == Lower(d) <==> c == d || CasesOfOneLetter(c, d)
  {
    Alphabet();
    if Lower(c) == Lower(d) && c != d {
      var k := (Lower(c) - 'a') as int;
      assert 0 <= k < 26 && Lower(c) == LOWERCASE[k];
      assert {c, d} == {UPPERCASE[k], LOWERCASE[k]};
    }
  }

  /** Texts agree ignoring case exactly if they differ only in the cases of letters. */
  lemma SameIgnoringCaseExactly(a: string, b: string)
    ensures SameIgnoringCase(a, b) <==> |a| == |b| && forall i :: 0 <= i < |a| ==> a[i] == b[i] || CasesOfOneLetter(a[i], b[i])
  {
    hide Lower, CasesOfOneLetter;
    forall i | 0 <= i < |a| && i < |b| ensures Lower(a[i]) == Lower(b[i]) <==> a[i] == b[i] || CasesOfOneLetter(a[i], b[i]) {
      LowerExactly(a[i], b[i]);
    }
  }
}
