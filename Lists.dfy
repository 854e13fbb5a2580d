/** The deduplicated lists of the browser (history, bookmarks): Python's
    `if x not in xs: xs.append(x)`. */
module Lists {

  ghost predicate NoDuplicates<T>(s: seq<T>) {
    forall i, j :: 0 <= i < j < |s| ==> s[i] != s[j]
  }

  /** Number of times `x` is stored in `s`. */
  function Count<T(==)>(s: seq<T>, x: T): nat {
    multiset(s)[x]
  }

  /** Append `x` unless it is already present. The result holds exactly the old
      entries and `x`, keeps the old entries in their order in front, and gains
      no duplicate. */
  function AppendIfAbsent<T(==)>(s: seq<T>, x: T): (r: seq<T>)
    ensures |s| <= |r| <= |s| + 1 && r[..|s|] == s
    ensures x in r && forall k :: |s| <= k < |r| ==> r[k] == x
    ensures x in s <==> r == s
    ensures NoDuplicates(s) ==> NoDuplicates(r)
  {
    if x in s then s else s + [x]
  }

  /** A list without duplicates stores each of its members exactly once. */
  lemma {:induction false} NoDuplicatesCountOne<T>(s: seq<T>, x: T)
    requires NoDuplicates(s) && x in s
    ensures Count(s, x) == 1
  {
    if s[|s| - 1] == x {
      assert x !in s[..|s| - 1];
      assert s == s[..|s| - 1] + [x];
    } else {
      assert s == s[..|s| - 1] + [s[|s| - 1]];
      NoDuplicatesCountOne(s[..|s| - 1], x);
    }
  }

  /** Adding the same entry twice is the same as adding it once. */
  lemma AppendIfAbsentTwice<T>(s: seq<T>, x: T)
    ensures AppendIfAbsent(AppendIfAbsent(s, x), x) == AppendIfAbsent(s, x)
  {
  }

  /** After adding `x` to a duplicate-free list, `x` is stored exactly once,
      however many times it was added. */
  lemma AppendIfAbsentStoresOnce<T>(s: seq<T>, x: T)
    requires NoDuplicates(s)
    ensures Count(AppendIfAbsent(s, x), x) == 1
  {
    NoDuplicatesCountOne(AppendIfAbsent(s, x), x);
  }
}
