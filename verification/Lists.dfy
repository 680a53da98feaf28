/** Facts about sequences that several parts need. */
module Lists {
  /** Taking one element out of a list takes it out of its multiset. */
  lemma RemoveAt<T>(s: seq<T>, k: nat)
    requires k < |s|
    ensures multiset(s[..k] + s[k + 1..]) == multiset(s) - multiset{s[k]}
  {
    assert s == s[..k] + [s[k]] + s[k + 1..];
  }

  /** A rearrangement stays one when the same element is taken out on both sides. */
  lemma SameWithout<T>(a: seq<T>, i: nat, b: seq<T>, k: nat)
    requires multiset(a) == multiset(b) && i < |a| && k < |b| && a[i] == b[k]
    ensures multiset(a[..i] + a[i + 1..]) == multiset(b[..k] + b[k + 1..])
  {
    RemoveAt(a, i);
    RemoveAt(b, k);
  }

  /** Where an element of a list is in a rearrangement of it. */
  ghost function Find<T>(a: seq<T>, b: seq<T>, k: nat): (j: nat)
    requires multiset(a) == multiset(b) && k < |a|
    ensures j < |b| && b[j] == a[k]
  {
    assert a[k] in multiset(b);
    var j: nat :| j < |b| && b[j] == a[k];
    j
  }

  /** Two positions of a list have two positions in any rearrangement of it. */
  lemma TwoPositions<T>(a: seq<T>, b: seq<T>, i: nat, j: nat) returns (i': nat, j': nat)
    requires multiset(a) == multiset(b) && i < j < |b|
    ensures i' < |a| && j' < |a| && i' != j' && a[i'] == b[i] && a[j'] == b[j]
  {
    i' := Find(b, a, i);
    var rest := a[..i'] + a[i' + 1..];
    SameWithout(a, i', b, i);
    assert b[j] == (b[..i] + b[i + 1..])[j - 1];
    assert b[j] in multiset(b[..i] + b[i + 1..]);
    var k :| 0 <= k < |rest| && rest[k] == b[j];
    j' := if k < i' then k else k + 1;
  }
}
