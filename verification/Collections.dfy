/** Vocabulary for finite sets, sequences and numbers. */
module Collections {
  function Max(a: int, b: int): (m: int)
    ensures m >= a && m >= b && (m == a || m == b)
  {
    if a < b then b else a
  }

  function Min(a: int, b: int): (m: int)
    ensures m <= a && m <= b && (m == a || m == b)
  {
    if a < b then a else b
  }

  ghost predicate NoDuplicates<T>(s: seq<T>) {
    forall i, j | 0 <= i < j < |s| :: s[i] != s[j]
  }

  ghost predicate Ascending(s: seq<nat>) {
    forall i, j | 0 <= i < j < |s| :: s[i] < s[j]
  }

  function Members<T(==)>(s: seq<T>): set<T> {
    set x | x in s
  }

  lemma MembersStep<T>(s: seq<T>, i: nat)
    requires i < |s|
    ensures Members(s[..i + 1]) == Members(s[..i]) + {s[i]}
    ensures s[i] in Members(s)
    ensures NoDuplicates(s) ==> s[i] !in Members(s[..i])
  {
    assert s[..i + 1] == s[..i] + [s[i]];
  }

  lemma Subset<T>(a: set<T>, b: set<T>)
    requires a <= b
    ensures |a| <= |b|
  {
    assert b == a + (b - a);
  }

  /** Two ways of cutting one set in two. */
  lemma Halves<T>(a: set<T>, b: set<T>, c: set<T>, d: set<T>)
    requires a + b == c + d && a !! b && c !! d
    ensures a == c <==> b == d
  {
    assert b == (a + b) - a && d == (c + d) - c;
    assert a == (a + b) - b && c == (c + d) - d;
  }
}
