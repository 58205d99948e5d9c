/** The `have_same_letters_as_one_of` matcher: a string matches a list when
    some element of the list has the same letters as it. */
module SameLettersOneOf {
  import opened Wrappers
  import opened SameLetters

  /** Some element of `expected` has the same letters as `actual`. */
  ghost predicate SomeElementMatches(expected: seq<string>, actual: string) {
    exists i :: 0 <= i < |expected| && HaveSameLettersAs(actual, expected[i])
  }

  /** A list matches when its head does or its tail does. */
  lemma SomeElementMatchesCons(expected: seq<string>, actual: string)
    requires expected != []
    ensures SomeElementMatches(expected, actual) <==>
      HaveSameLettersAs(actual, expected[0]) || SomeElementMatches(expected[1..], actual)
  {
    if SomeElementMatches(expected, actual) && !HaveSameLettersAs(actual, expected[0]) {
      var i :| 0 <= i < |expected| && HaveSameLettersAs(actual, expected[i]);
      assert expected[1..][i - 1] == expected[i];
    }
    if SomeElementMatches(expected[1..], actual) {
      var i :| 0 <= i < |expected[1..]| && HaveSameLettersAs(actual, expected[1..][i]);
      assert expected[i + 1] == expected[1..][i];
    }
  }

  /** The matcher's `match`: `expected.any?` with the sorted-characters test. */
  function AnyHasSameLetters(expected: seq<string>, actual: string): (found: bool)
    ensures found <==> SomeElementMatches(expected, actual)
  {
    if expected == [] then false
    else
      SomeElementMatchesCons(expected, actual);
      HaveSameLettersAs(actual, expected[0]) || AnyHasSameLetters(expected[1..], actual)
  }

  /** Element `i` is the first element with the same letters as `actual`. */
  ghost predicate IsFirstMatch(expected: seq<string>, actual: string, i: int) {
    0 <= i < |expected| && HaveSameLettersAs(actual, expected[i]) &&
    forall j :: 0 <= j < i ==> !HaveSameLettersAs(actual, expected[j])
  }

  /** Behind a head that does not match, the first match moves one place back. */
  lemma FirstMatchBehindHead(expected: seq<string>, actual: string, v: string)
    requires expected != [] && !HaveSameLettersAs(actual, expected[0])
    requires exists i :: IsFirstMatch(expected[1..], actual, i) && expected[1..][i] == v
    ensures exists i :: IsFirstMatch(expected, actual, i) && expected[i] == v
  {
    var i :| IsFirstMatch(expected[1..], actual, i) && expected[1..][i] == v;
    forall j | 0 < j < i + 1 ensures !HaveSameLettersAs(actual, expected[j]) {
      assert expected[j] == expected[1..][j - 1];
    }
    assert IsFirstMatch(expected, actual, i + 1) && expected[i + 1] == v;
  }

  /** The `find` of the negated failure message: the first element with the
      same letters as `actual`, or nothing when there is none. */
  function FindSameLetters(expected: seq<string>, actual: string): (found: Option<string>)
    ensures found.Some? <==> SomeElementMatches(expected, actual)
    ensures found.Some? ==>
      exists i :: IsFirstMatch(expected, actual, i) && expected[i] == found.value
  {
    if expected == [] then None
    else if HaveSameLettersAs(actual, expected[0]) then
      assert IsFirstMatch(expected, actual, 0);
      Some(expected[0])
    else
      var rest := FindSameLetters(expected[1..], actual);
      SomeElementMatchesCons(expected, actual);
      if rest.Some? then
        FirstMatchBehindHead(expected, actual, rest.value);
        rest
      else
        rest
  }

  /** The matcher holds exactly when some element is a permutation of `actual`. */
  lemma {:induction false} OneOfIffSomePermutation(expected: seq<string>, actual: string)
    ensures AnyHasSameLetters(expected, actual) <==>
      exists i :: 0 <= i < |expected| && multiset(expected[i]) == multiset(actual)
  {
    forall i | 0 <= i < |expected|
      ensures HaveSameLettersAs(actual, expected[i]) <==> multiset(expected[i]) == multiset(actual)
    {
      SameLettersIffPermutation(actual, expected[i]);
    }
  }

  /** An empty list matches nothing. */
  lemma EmptyListMatchesNothing(actual: string)
    ensures !AnyHasSameLetters([], actual)
  {
  }

  /** Adding elements to the list, before or after, never turns a match into a mismatch. */
  lemma {:induction false} OneOfIsMonotone(expected: seq<string>, more: seq<string>, actual: string)
    requires AnyHasSameLetters(expected, actual)
    ensures AnyHasSameLetters(expected + more, actual)
    ensures AnyHasSameLetters(more + expected, actual)
  {
    var i :| 0 <= i < |expected| && HaveSameLettersAs(actual, expected[i]);
    assert (expected + more)[i] == expected[i];
    assert (more + expected)[|more| + i] == expected[i];
  }

  /** `find` returns an element exactly when the matcher holds. */
  lemma FindAgreesWithMatch(expected: seq<string>, actual: string)
    ensures FindSameLetters(expected, actual).Some? == AnyHasSameLetters(expected, actual)
  {
  }
}
