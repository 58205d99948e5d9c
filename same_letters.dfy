/** The `have_same_letters_as` matcher: a string has the same letters as
    another when their characters, sorted, are equal. */
module SameLetters {

  /** Characters in non-decreasing order. */
  predicate IsSorted(s: string) {
    forall i, j :: 0 <= i < j < |s| ==> s[i] <= s[j]
  }

  /** A character no greater than the head of a sorted string can go in front of it. */
  lemma SortedCons(x: char, t: string)
    requires IsSorted(t) && (t == [] || x <= t[0])
    ensures IsSorted([x] + t)
  {
    var s := [x] + t;
    forall i, j | 0 <= i < j < |s| ensures s[i] <= s[j] {
      if i == 0 {
        assert t[0] <= t[j - 1];
      } else {
        assert s[i] == t[i - 1] && s[j] == t[j - 1];
      }
    }
  }

  /** The tail of a sorted string is sorted. */
  lemma SortedTail(a: string)
    requires IsSorted(a) && a != []
    ensures IsSorted(a[1..])
  {
    forall i, j | 0 <= i < j < |a| - 1 ensures a[1..][i] <= a[1..][j] {
      assert a[1..][i] == a[i + 1] && a[1..][j] == a[j + 1];
    }
  }

  /** Puts `ch` into its place in a sorted string. */
  function Insert(ch: char, s: string): (r: string)
    requires IsSorted(s)
    ensures IsSorted(r)
    ensures multiset(r) == multiset(s) + multiset{ch}
    ensures r[0] == if s == [] || ch <= s[0] then ch else s[0]
  {
    if s == [] || ch <= s[0] then
      SortedCons(ch, s);
      [ch] + s
    else
      SortedTail(s);
      var rest := Insert(ch, s[1..]);
      InsertBehindHead(ch, s, rest);
      [s[0]] + rest
  }

  /** Inserting behind a smaller head: the head stays in front of the
      insertion into the tail. */
  lemma InsertBehindHead(ch: char, s: string, rest: string)
    requires IsSorted(s) && s != [] && s[0] < ch
    requires IsSorted(rest) && multiset(rest) == multiset(s[1..]) + multiset{ch}
    requires rest[0] == if s[1..] == [] || ch <= s[1] then ch else s[1]
    ensures IsSorted([s[0]] + rest)
    ensures multiset([s[0]] + rest) == multiset(s) + multiset{ch}
  {
    assert |s| > 1 ==> s[0] <= s[1];
    SortedCons(s[0], rest);
    assert s == [s[0]] + s[1..];
    assert multiset([s[0]] + rest) == multiset{s[0]} + multiset(rest);
  }

  /** `sorted_characters`: the characters of `word` in ascending order
      (`word.chars.sort.join`). */
  function SortedCharacters(word: string): (sorted: string)
    ensures IsSorted(sorted)
    ensures multiset(sorted) == multiset(word)
  {
    if word == [] then []
    else
      assert word == [word[0]] + word[1..];
      Insert(word[0], SortedCharacters(word[1..]))
  }

  /** The head of a sorted string is its least character. */
  lemma SortedHeadIsLeast(a: string, x: char)
    requires IsSorted(a) && x in multiset(a)
    ensures a[0] <= x
  {
    var k :| 0 <= k < |a| && a[k] == x;
    if k > 0 {
      assert a[0] <= a[k];
    }
  }

  /** Removing equal heads from strings with the same characters leaves tails
      with the same characters. */
  lemma SameHeadSameTail(a: string, b: string)
    requires a != [] && b != [] && a[0] == b[0] && multiset(a) == multiset(b)
    ensures multiset(a[1..]) == multiset(b[1..])
  {
    assert a == [a[0]] + a[1..] && b == [b[0]] + b[1..];
    assert multiset(a) == multiset{a[0]} + multiset(a[1..]);
    assert multiset(b) == multiset{b[0]} + multiset(b[1..]);
    assert multiset(a[1..]) == multiset(a) - multiset{a[0]};
    assert multiset(b[1..]) == multiset(b) - multiset{b[0]};
  }

  /** Two sorted strings with the same characters are the same string. */
  lemma {:induction false} SortedIsUnique(a: string, b: string)
    requires IsSorted(a) && IsSorted(b) && multiset(a) == multiset(b)
    ensures a == b
    decreases |a|
  {
    if a == [] || b == [] {
      assert |multiset(a)| == |a| && |multiset(b)| == |b|;
    } else {
      assert a[0] in multiset(a) && b[0] in multiset(b);
      SortedHeadIsLeast(a, b[0]);
      SortedHeadIsLeast(b, a[0]);
      SameHeadSameTail(a, b);
      SortedTail(a);
      SortedTail(b);
      SortedIsUnique(a[1..], b[1..]);
    }
  }

  /** A sorted string is its own sorted characters. */
  lemma {:induction false} SortedCharactersOfSorted(s: string)
    requires IsSorted(s)
    ensures SortedCharacters(s) == s
  {
    SortedIsUnique(SortedCharacters(s), s);
  }

  /** Sorting is idempotent. */
  lemma {:induction false} SortedCharactersIdempotent(s: string)
    ensures SortedCharacters(SortedCharacters(s)) == SortedCharacters(s)
  {
    SortedCharactersOfSorted(SortedCharacters(s));
  }

  /** The matcher's `match`: `actual` has the same letters as `expected`. */
  predicate HaveSameLettersAs(actual: string, expected: string): (same: bool)
    ensures same ==> multiset(actual) == multiset(expected)
  {
    SortedCharacters(expected) == SortedCharacters(actual)
  }

  /** Same letters means same characters, each as often: the strings are
      permutations of each other. */
  lemma {:induction false} SameLettersIffPermutation(actual: string, expected: string)
    ensures HaveSameLettersAs(actual, expected) <==> multiset(actual) == multiset(expected)
  {
    if multiset(actual) == multiset(expected) {
      SortedIsUnique(SortedCharacters(expected), SortedCharacters(actual));
    }
  }

  /** Every string has the same letters as itself. */
  lemma SameLettersIsReflexive(s: string)
    ensures HaveSameLettersAs(s, s)
  {
  }

  /** Swapping the two strings does not change the answer. */
  lemma SameLettersIsSymmetric(a: string, b: string)
    ensures HaveSameLettersAs(a, b) == HaveSameLettersAs(b, a)
  {
  }

  /** Reordering the characters of either string does not change the answer. */
  lemma {:induction false} SameLettersIgnoresOrder(a: string, a': string, b: string)
    requires multiset(a) == multiset(a')
    ensures HaveSameLettersAs(a, b) == HaveSameLettersAs(a', b)
    ensures HaveSameLettersAs(b, a) == HaveSameLettersAs(b, a')
  {
    SameLettersIffPermutation(a, b);
    SameLettersIffPermutation(a', b);
    SameLettersIffPermutation(b, a);
    SameLettersIffPermutation(b, a');
  }

  /** Strings with the same letters have the same length. */
  lemma {:induction false} SameLettersSameLength(actual: string, expected: string)
    requires HaveSameLettersAs(actual, expected)
    ensures |actual| == |expected|
  {
    SameLettersIffPermutation(actual, expected);
    assert |multiset(actual)| == |multiset(expected)|;
  }
}
