/** Which falling kana the Enter key destroys. */
module Targeting {
  import opened KanaData

  /** Some kana on screen has the typed reading and has fallen below y = -1. */
  predicate HasCandidate(ks: seq<Kana>, buffer: string) {
    exists j :: 0 <= j < |ks| && ks[j].romaji == buffer && ks[j].y > -1
  }

  /** `i` is the kana Enter destroys: it has the typed reading, lies strictly
      below y = -1, no kana with that reading lies lower, and every kana with
      that reading before it in the list lies strictly higher (ties go to the
      lowest index). */
  predicate IsTarget(ks: seq<Kana>, buffer: string, i: int) {
    && 0 <= i < |ks|
    && ks[i].romaji == buffer
    && ks[i].y > -1
    && (forall j :: 0 <= j < |ks| && ks[j].romaji == buffer ==> ks[j].y <= ks[i].y)
    && (forall j :: 0 <= j < i && ks[j].romaji == buffer ==> ks[j].y < ks[i].y)
  }

  /** The scan of the Enter branch: keep the index of the matching kana with
      the greatest y seen so far, starting from y = -1 and replacing only on a
      strictly greater y. Returns -1 when nothing qualifies. */
  method FindTarget(ks: seq<Kana>, buffer: string) returns (index: int)
    ensures index == -1 <==> !HasCandidate(ks, buffer)
    ensures index != -1 ==> IsTarget(ks, buffer, index)
    ensures forall j :: 0 <= j < |ks| && ks[j].y <= -1 ==> index != j
  {
    index := -1;
    var lowestY := -1;
    for i := 0 to |ks|
      invariant -1 <= index < i
      invariant index == -1 ==> lowestY == -1
      invariant index != -1 ==> ks[index].romaji == buffer && ks[index].y == lowestY && lowestY > -1
      invariant forall j :: 0 <= j < i && ks[j].romaji == buffer ==> ks[j].y <= lowestY
      invariant forall j :: 0 <= j < index && ks[j].romaji == buffer ==> ks[j].y < lowestY
    {
      if ks[i].romaji == buffer {
        if ks[i].y > lowestY {
          lowestY := ks[i].y;
          index := i;
        }
      }
    }
  }

  /** At most one kana is the target. */
  lemma TargetUnique(ks: seq<Kana>, buffer: string, i: int, j: int)
    requires IsTarget(ks, buffer, i) && IsTarget(ks, buffer, j)
    ensures i == j
  {
  }

  /** `splice(i, 1)`: the list without its element `i`, the others in their
      original order. */
  function RemoveAt<T>(s: seq<T>, i: nat): (r: seq<T>)
    requires i < |s|
    ensures |r| == |s| - 1
    ensures forall j :: 0 <= j < i ==> r[j] == s[j]
    ensures forall j :: i <= j < |r| ==> r[j] == s[j + 1]
    ensures multiset(r) + multiset{s[i]} == multiset(s)
  {
    assert s == s[..i] + [s[i]] + s[i + 1..];
    s[..i] + s[i + 1..]
  }

  /** Removing an element keeps a property that held of every element. */
  lemma RemoveAtKeeps(s: seq<Kana>, i: nat)
    requires i < |s|
    requires forall k :: k in s ==> WellFormed(k)
    ensures forall k :: k in RemoveAt(s, i) ==> WellFormed(k)
  {
  }

  /** An empty buffer never matches a kana whose reading can be typed. */
  lemma EmptyBufferNeverMatches(ks: seq<Kana>)
    requires forall k :: k in ks ==> WellFormed(k)
    ensures !HasCandidate(ks, "")
  {
    forall j | 0 <= j < |ks| ensures ks[j].romaji != "" {
      assert ks[j] in ks;
    }
  }
}
