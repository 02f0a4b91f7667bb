/** What several components share: optional values, and the few octet-string operations they rely on. */
module Common {

  datatype Option<T> = None | Some(value: T)

  type Byte = b: int | 0 <= b < 256 witness 0

  /** How much a condition counts. */
  function One(b: bool): nat { if b then 1 else 0 }

  predicate IsBlank(c: char) { c == ' ' || ('\t' <= c && c <= '\r') }

  predicate IsDigit(c: char) { '0' <= c && c <= '9' }

  /** octstr_search_char: the first c at or after from, or -1. */
  function Find(s: string, c: char, from: nat): (r: int)
    requires from <= |s|
    ensures r == -1 || (from <= r < |s| && s[r] == c)
    ensures forall i :: from <= i < (if r < 0 then |s| else r) ==> s[i] != c
    decreases |s| - from
  {
    if from == |s| then -1 else if s[from] == c then from else Find(s, c, from + 1)
  }
}
