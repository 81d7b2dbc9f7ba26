/** Trimming of white space. */
module Text {
  /** White space, as Unicode classifies it. */
  predicate IsSpace(c: char) {
    c in "\t\n\r \U{000B}\U{000C}\U{0085}\U{00A0}\U{1680}\U{2028}\U{2029}\U{202F}\U{205F}\U{3000}" || '\U{2000}' <= c <= '\U{200A}'
  }

  function TrimLeft(s: string): string {
    if s != "" && IsSpace(s[0]) then TrimLeft(s[1..]) else s
  }

  function TrimRight(s: string): string {
    if s != "" && IsSpace(s[|s| - 1]) then TrimRight(s[..|s| - 1]) else s
  }

  function TrimSpace(s: string): string {
    TrimRight(TrimLeft(s))
  }

  predicate AllSpace(s: string, i: int, j: int) {
    forall k :: 0 <= i <= k < j <= |s| ==> IsSpace(s[k])
  }

  /** `s[i..j]` has white space before and after it and none at its ends. */
  predicate TrimmedAt(s: string, i: nat, j: nat) {
    && i <= j <= |s| && AllSpace(s, 0, i) && AllSpace(s, j, |s|)
    && (i < j ==> !IsSpace(s[i]) && !IsSpace(s[j - 1]))
  }

  lemma {:induction false} TrimLeftDrops(s: string) returns (i: nat)
    ensures i <= |s| && TrimLeft(s) == s[i..] && AllSpace(s, 0, i) && (i < |s| ==> !IsSpace(s[i]))
  {
    i := 0;
    if s != "" && IsSpace(s[0]) {
      var k := TrimLeftDrops(s[1..]);
      i := k + 1;
      assert s[1..][k..] == s[i..];
      assert forall n :: 0 < n < i ==> s[n] == s[1..][n - 1];
    }
  }

  lemma {:induction false} TrimRightDrops(s: string) returns (j: nat)
    ensures j <= |s| && TrimRight(s) == s[..j] && AllSpace(s, j, |s|) && (0 < j ==> !IsSpace(s[j - 1]))
  {
    j := |s|;
    if s != "" && IsSpace(s[|s| - 1]) {
      var init := s[..|s| - 1];
      j := TrimRightDrops(init);
      assert init[..j] == s[..j];
      assert forall n :: 0 <= n < |init| ==> s[n] == init[n];
    }
  }

  /** Trimming takes off the white space at both ends and nothing else. */
  lemma TrimSpaceIsExact(s: string) returns (i: nat, j: nat)
    ensures TrimmedAt(s, i, j) && TrimSpace(s) == s[i..j]
  {
    i := TrimLeftDrops(s);
    var t := s[i..];
    var n := TrimRightDrops(t);
    j := i + n;
    assert t[..n] == s[i..j];
    assert forall k :: i <= k < |s| ==> s[k] == t[k - i];
  }

  /** There is one such part, so the trimmed string is determined. */
  lemma TrimmingIsUnique(s: string, i: nat, j: nat, i': nat, j': nat)
    requires TrimmedAt(s, i, j) && TrimmedAt(s, i', j')
    ensures s[i..j] == s[i'..j']
  {
    assert i < j ==> i' <= i && j <= j';
    assert i' < j' ==> i <= i' && j' <= j;
  }
}
