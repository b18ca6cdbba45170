/** Fixed-width machine numbers, and facts about sequences that several components share. */
module Words {

  const WORD := 0x1_0000_0000

  type uint32 = x: nat | x < WORD
  type int32 = x: int | -0x8000_0000 <= x < 0x8000_0000
  type uint8 = x: int | 0 <= x < 0x100

  lemma Twice<T>(s: seq<T>, i: nat, j: nat)
    requires i < j < |s| && s[i] == s[j]
    ensures multiset(s)[s[i]] >= 2
  {
    assert s == s[..i] + [s[i]] + s[i+1..j] + [s[j]] + s[j+1..];
  }

  /** Where everything is after an insertion at position `k`. */
  lemma InsertedAt<T>(s: seq<T>, x: T, k: nat)
    requires k <= |s| && x !in s && forall i, j :: 0 <= i < j < |s| ==> s[i] != s[j]
    ensures var r := s[..k] + [x] + s[k..];
      && |r| == |s| + 1 && r[k] == x
      && (forall i :: 0 <= i < k ==> r[i] == s[i])
      && (forall i :: k < i < |r| ==> r[i] == s[i-1])
      && (forall i, j :: 0 <= i < j < |r| ==> r[i] != r[j])
  {
  }
}
