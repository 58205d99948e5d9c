# Boggle board and straight-line word finder

A Dafny model of the core of a Boggle exercise. It has four parts:

- **`SimpleFinder`** (`simple_finder.dfy`) decides `include?`. A word is found on a
  4×4 grid of letters when:
  - it has at least three characters;
  - it can be read from some start cell by walking one fixed compass direction,
    one cell per step;
  - letters are compared without regard to case;
  - a `Q` cell on the board stands for the two letters `QU`.

  The finder is a pure function over the grid. It is proved equal to an
  existential statement of that contract, and proved sound against Boggle's
  general rule: adjacent, non-repeating cells on a possibly bent path.
- **`FinderFixtures`** (`finder_fixtures.dfy`) holds the two scenario boards and
  the finder's answer on each scenario word: FANG, SOD, the column and diagonal
  words, fAnG, FA, FANGS, NEON, SQUAT and QAT.
- **`Boggle`** (`boggle_board.dfy`) is the `BoggleBoard` class. It keeps sixteen
  dice and a 4×4 `array2` of cells. A new board shows no letter. `shake` rolls
  every die and writes its letter into the die's own cell, in place and in
  row-major order. A die is a value given by its sides. The face it lands on is
  an argument of `Shake`, because a real roll is random.
- **`SameLetters`** and **`SameLettersOneOf`** (`same_letters.dfy`,
  `same_letters_one_of.dfy`) model two RSpec matchers:
  - `have_same_letters_as` compares the sorted characters of two strings;
  - `have_same_letters_as_one_of` asks whether any element of a list matches,
    and `find` returns the first element that does.

`Text` (`text.dfy`) holds ASCII upper-casing and the letter class.
`Wrappers` (`wrappers.dfy`) holds `Option` and `Result`.

The repository's implementation files are not part of this model. Only its
specs are: the behaviour modelled is the behaviour they assert, including the
pending (`xit`) and description-only examples. Boggle's usual rule also
allows bent paths of touching cells. The specs require straight lines, so the
model does too. The bent-path rule appears only as `SimpleFinder.Traceable`,
which the finder is proved sound against, and NEON shows the two differ.

## Model

| member | source | states |
|---|---|---|
| Text.Upcase | boggle-challenge-master/spec/simple_finder_spec.rb:40-42 | upper-casing keeps the length and maps every character to its upper-case form; no lower-case letter remains |
| Text.UpcaseChar | boggle-challenge-master/spec/simple_finder_spec.rb:40-42 | a lower-case letter becomes its own upper-case letter (same place in the alphabet), every other character is unchanged, and being a letter is preserved |
| SimpleFinder.DirectionsAreTheCompass | boggle-challenge-master/spec/simple_finder_spec.rb:20-38 | the eight directions the search tries are exactly the one-step compass moves (rows both ways, columns both ways, four diagonals) |
| SimpleFinder.WalkMatches | boggle-challenge-master/spec/simple_finder_spec.rb:20-69 | the straight walk from a start cell along one direction, a `Q` cell consuming `QU`: when it reads a non-empty word, the start is on the board and holds the word's first character |
| SimpleFinder.WalkStartsInBounds | boggle-challenge-master/spec/simple_finder_spec.rb:44-46 | a walk that reads anything starts on the board; walking off the grid fails |
| SimpleFinder.LoneQNeverMatches | boggle-challenge-master/spec/simple_finder_spec.rb:67-69 | a word `Q` not followed by `U` is matched by no cell on any board |
| SimpleFinder.LoneQAnywhere | boggle-challenge-master/spec/simple_finder_spec.rb:67-69 | a `Q` not followed by `U` at any position of the word makes every walk fail, on any board, from any start, in any direction |
| SimpleFinder.LoneQWordIsNotFound | boggle-challenge-master/spec/simple_finder_spec.rb:67-69 | a word whose upper-cased form has a `Q` not followed by `U` anywhere is never found |
| SimpleFinder.ReadsAlongStep | boggle-challenge-master/spec/simple_finder_spec.rb:20-38 | reading a word along a line is reading its first letter at the start and the rest from the next cell |
| SimpleFinder.WalkReadsOneLetterPerCell | boggle-challenge-master/spec/simple_finder_spec.rb:20-38 | on a board without `Q`, a walk matches exactly when character k of the word is the cell k steps along the direction, for every k |
| SimpleFinder.AnyDirection | boggle-challenge-master/spec/simple_finder_spec.rb:20-38 | the answer is true exactly when one of the remaining listed directions reads the word from the start cell |
| SimpleFinder.AnyColumn | boggle-challenge-master/spec/simple_finder_spec.rb:14-38 | the answer is true exactly when some start at this column or a later one in the row reads the word in some compass direction |
| SimpleFinder.AnyRow | boggle-challenge-master/spec/simple_finder_spec.rb:14-38 | the answer is true exactly when some start in this row or a later one reads the word in some compass direction |
| SimpleFinder.Include | boggle-challenge-master/spec/simple_finder_spec.rb:16-50 | `include?` holds exactly when the word has at least three characters and its upper-cased form is read along one straight compass line from some cell; shorter words are never found |
| SimpleFinder.IncludeIgnoresCase | boggle-challenge-master/spec/simple_finder_spec.rb:40-42 | a word and its upper-cased form get the same answer |
| SimpleFinder.WalkReadsOnlyLetters | boggle-challenge-master/spec/simple_finder_spec.rb:6-11 | on a board of letters every character a walk reads is an upper-case letter |
| SimpleFinder.NonLetterWordIsNotFound | boggle-challenge-master/spec/simple_finder_spec.rb:44-46 | a word holding a non-letter character is never found on a board of letters |
| SimpleFinder.WalkCells | boggle-challenge-master/spec/simple_finder_spec.rb:48-50 | the cells of a matching walk lie k steps along its direction, and they spell the word under the `Q`-as-`QU` rule |
| SimpleFinder.LineCons | boggle-challenge-master/spec/simple_finder_spec.rb:48-50 | putting the previous cell in front of a straight line of cells gives the straight line from that cell |
| SimpleFinder.StraightLineIsPath | boggle-challenge-master/spec/simple_finder_spec.rb:48-50 | the cells of a straight compass walk are pairwise distinct and each touches the one before: a Boggle path |
| SimpleFinder.IncludeIsTraceable | boggle-challenge-master/spec/simple_finder_spec.rb:48-50 | every word the finder reports can be traced under Boggle's general adjacency rule |
| FinderFixtures.FangBoard | boggle-challenge-master/spec/simple_finder_spec.rb:6-11 | the main scenario board has four rows of four cells |
| FinderFixtures.QuBoard | boggle-challenge-master/spec/simple_finder_spec.rb:53-58 | the `Q` scenario board has four rows of four cells |
| FinderFixtures.FoundAlong | boggle-challenge-master/spec/simple_finder_spec.rb:20-38 | a word of three or more characters that one straight walk reads is found |
| FinderFixtures.FangBoardHasNoQ | boggle-challenge-master/spec/simple_finder_spec.rb:6-11 | the main scenario board has no `Q` cell |
| FinderFixtures.ShortWordIsNotFound | boggle-challenge-master/spec/simple_finder_spec.rb:16-18 | FA is not found |
| FinderFixtures.FangIsFoundLeftToRight | boggle-challenge-master/spec/simple_finder_spec.rb:20-22 | FANG is found along row 0, left to right |
| FinderFixtures.SodIsFoundRightToLeft | boggle-challenge-master/spec/simple_finder_spec.rb:24-26 | SOD is found along row 3, right to left |
| FinderFixtures.FenIsFoundTopToBottom | boggle-challenge-master/spec/simple_finder_spec.rb:28 | FEN is found down column 0 |
| FinderFixtures.SongIsFoundBottomToTop | boggle-challenge-master/spec/simple_finder_spec.rb:30 | SONG is found up column 3 |
| FinderFixtures.FeesIsFoundTopLeftToBottomRight | boggle-challenge-master/spec/simple_finder_spec.rb:32 | FEES is found along the main diagonal, downwards |
| FinderFixtures.GoneIsFoundTopRightToBottomLeft | boggle-challenge-master/spec/simple_finder_spec.rb:34 | GONE is found along the anti-diagonal, downwards |
| FinderFixtures.DenIsFoundBottomLeftToTopRight | boggle-challenge-master/spec/simple_finder_spec.rb:36 | DEN is found from (3,1) going up and to the right |
| FinderFixtures.SeeIsFoundBottomRightToTopLeft | boggle-challenge-master/spec/simple_finder_spec.rb:38 | SEE is found along the main diagonal, upwards |
| FinderFixtures.MixedCaseIsFound | boggle-challenge-master/spec/simple_finder_spec.rb:40-42 | fAnG is found |
| FinderFixtures.NoStraightFangs | boggle-challenge-master/spec/simple_finder_spec.rb:44-46 | no straight line of the board reads F, A, N, G, S |
| FinderFixtures.FangsIsNotFound | boggle-challenge-master/spec/simple_finder_spec.rb:44-46 | FANGS is not found |
| FinderFixtures.NoStraightNeon | boggle-challenge-master/spec/simple_finder_spec.rb:48-50 | no straight line of the board reads N, E, O, N |
| FinderFixtures.NeonIsNotFound | boggle-challenge-master/spec/simple_finder_spec.rb:48-50 | NEON is not found |
| FinderFixtures.NeonPath | boggle-challenge-master/spec/simple_finder_spec.rb:48-50 | the bent NEON path has four cells |
| FinderFixtures.NeonPathIsPath | boggle-challenge-master/spec/simple_finder_spec.rb:48-50 | (0,2), (1,1), (1,2), (1,3) is a Boggle path |
| FinderFixtures.TraceableAlong | boggle-challenge-master/spec/simple_finder_spec.rb:48-50 | a word that a Boggle path spells is traceable |
| FinderFixtures.NeonIsOnlyOnABentPath | boggle-challenge-master/spec/simple_finder_spec.rb:48-50 | NEON is traceable along a bent path, yet the straight-line finder does not report it |
| FinderFixtures.SquatIsFoundThroughQu | boggle-challenge-master/spec/simple_finder_spec.rb:63-65 | SQUAT is found along row 0 of `S Q A T`, the `Q` cell consuming `QU` |
| FinderFixtures.QatIsNeverFound | boggle-challenge-master/spec/simple_finder_spec.rb:67-69 | QAT is found on no board at all |
| FinderFixtures.SqatIsNotFoundOnQuBoard | boggle-challenge-master/spec/simple_finder_spec.rb:53-69 | SQAT is not found on the `Q` board, although S, Q, A, T lie along its top row |
| FinderFixtures.QatIsNotFoundOnQuBoard | boggle-challenge-master/spec/simple_finder_spec.rb:67-69 | QAT is not found on the `Q` board |
| Boggle.Roll | boggle-challenge-master/spec/boggle_board_spec.rb:4-6 | a roll shows one of the die's own sides |
| Boggle.Rows | boggle-challenge-master/spec/boggle_board_spec.rb:14-24 | sixteen cells laid out as four rows of four, cell 4r+c at row r, column c |
| Boggle.Flatten | boggle-challenge-master/spec/boggle_board_spec.rb:45 | Ruby's `flatten`: rows of four cells flatten to four cells per row, and every cell of every row is in the result |
| Boggle.FlattenRows | boggle-challenge-master/spec/boggle_board_spec.rb:44-47 | flattening the four rows gives back the sixteen cells in order |
| Boggle.RolledCells | boggle-challenge-master/spec/boggle_board_spec.rb:36-47 | one cell per die, each holding a letter from that die's sides |
| Boggle.CellText | boggle-challenge-master/spec/boggle_board_spec.rb:28-29 | a cell's text is empty exactly for the unset marker, and a letter cell's text is that one letter (Ruby's `to_s`) |
| Boggle.LettersShowing | boggle-challenge-master/spec/boggle_board_spec.rb:26-31 | the `/[A-Z]/i` select: every text kept is the text of one of the cells and shows a letter, every cell whose text shows a letter is kept, and there are no more texts than cells |
| Boggle.SelectedByAToZ | boggle-challenge-master/spec/boggle_board_spec.rb:29 | the select with the pattern as written: every text kept is the text of one of the cells and contains `A-Z`, every cell whose text contains `A-Z` is kept, and there are no more texts than cells |
| Boggle.AToZSelectsNoCell | boggle-challenge-master/spec/boggle_board_spec.rb:29 | the pattern as written keeps no cell of any grid |
| Boggle.UnsetCellsShowNoLetter | boggle-challenge-master/spec/boggle_board_spec.rb:26-31 | unset cells show no letter |
| Boggle.LetterCellsAllShow | boggle-challenge-master/spec/boggle_board_spec.rb:44-47 | every cell holding an ASCII letter shows it |
| Boggle.FlattenUnshaken | boggle-challenge-master/spec/boggle_board_spec.rb:26-31 | every cell of an unshaken grid is unset |
| Boggle.ShowingLettersTellsShakenFromUnshaken | boggle-challenge-master/spec/boggle_board_spec.rb:26-47 | an unshaken grid shows no letter; a grid shaken with letter dice shows sixteen |
| Boggle.ShakenLettersAllShow | boggle-challenge-master/spec/boggle_board_spec.rb:44-47 | a grid shaken with dice of ASCII letters shows one letter per die |
| Boggle.AToZMissesShakenLetters | boggle-challenge-master/spec/boggle_board_spec.rb:29 | on a grid shaken with all-`A` dice, whatever faces they land on, the pattern as written keeps nothing although sixteen letters show |
| Boggle.AllADice | boggle-challenge-master/spec/boggle_board_spec.rb:4-6 | sixteen dice with `A` on all six faces |
| Boggle.AlphabetLetter | boggle-challenge-master/spec/boggle_board_spec.rb:35 | the i-th letter of the alphabet is an upper-case letter |
| Boggle.AlphabetDice | boggle-challenge-master/spec/boggle_board_spec.rb:36-38 | sixteen dice of six sides each |
| Boggle.ShakenAlphabetDiceShowTheirLetters | boggle-challenge-master/spec/boggle_board_spec.rb:35-47 | shaking dice A to P puts exactly the letters A to P on the board, as a multiset, whatever faces they land on |
| Boggle.BoggleBoard.Board | boggle-challenge-master/spec/boggle_board_spec.rb:14-24 | `board` is four rows of four cells, cell (r, c) being the grid's |
| Boggle.BoggleBoard.constructor | boggle-challenge-master/spec/boggle_board_spec.rb:8-31 | a new board keeps exactly the dice it is given, has a fresh 4×4 grid, and shows no letter |
| Boggle.BoggleBoard.New | boggle-challenge-master/spec/boggle_board_spec.rb:4-8 | building a board fails with `InvalidDiceCount` exactly when it is not given sixteen dice |
| Boggle.BoggleBoard.Shake | boggle-challenge-master/spec/boggle_board_spec.rb:34-66 | after `shake` the board is still 4×4, cell 4r+c holds die 4r+c's roll, the flattened board is the multiset of the rolls, and an unshaken board has changed |
| SameLetters.Insert | boggle-challenge-master/spec/support/matchers/have_same_letters_as.rb:8-10 | inserting into a sorted string keeps it sorted and adds exactly one character |
| SameLetters.SortedCharacters | boggle-challenge-master/spec/support/matchers/have_same_letters_as.rb:8-10 | `sorted_characters` is sorted and has the same characters, each as often |
| SameLetters.SortedIsUnique | boggle-challenge-master/spec/support/matchers/have_same_letters_as.rb:8-10 | two sorted strings with the same characters are equal |
| SameLetters.SortedCharactersOfSorted | boggle-challenge-master/spec/support/matchers/have_same_letters_as.rb:8-10 | sorting a sorted string returns it unchanged |
| SameLetters.SortedCharactersIdempotent | boggle-challenge-master/spec/support/matchers/have_same_letters_as.rb:8-10 | sorting twice is sorting once |
| SameLetters.HaveSameLettersAs | boggle-challenge-master/spec/support/matchers/have_same_letters_as.rb:4-6 | the matcher's `match`: the sorted characters of the two strings are equal; when it holds, the strings have the same characters, each as often |
| SameLetters.SameLettersIffPermutation | boggle-challenge-master/spec/support/matchers/have_same_letters_as.rb:4-10 | the matcher holds exactly when the two strings are permutations of each other |
| SameLetters.SameLettersIsReflexive | boggle-challenge-master/spec/support/matchers/have_same_letters_as.rb:5 | every string has the same letters as itself |
| SameLetters.SameLettersIsSymmetric | boggle-challenge-master/spec/support/matchers/have_same_letters_as.rb:5 | swapping the two strings does not change the answer |
| SameLetters.SameLettersIgnoresOrder | boggle-challenge-master/spec/support/matchers/have_same_letters_as.rb:4-10 | reordering the characters of either string does not change the answer |
| SameLetters.SameLettersSameLength | boggle-challenge-master/spec/support/matchers/have_same_letters_as.rb:4-10 | strings with the same letters have the same length |
| SameLettersOneOf.SomeElementMatchesCons | boggle-challenge-master/spec/support/matchers/have_same_letters_as_one_of.rb:5-7 | a list matches when its head matches or its tail matches |
| SameLettersOneOf.AnyHasSameLetters | boggle-challenge-master/spec/support/matchers/have_same_letters_as_one_of.rb:4-8 | the matcher holds exactly when some element has the same sorted characters as the actual string |
| SameLettersOneOf.FindSameLetters | boggle-challenge-master/spec/support/matchers/have_same_letters_as_one_of.rb:18-19 | `find` returns an element exactly when one matches, and it returns the first (lowest-index) match |
| SameLettersOneOf.OneOfIffSomePermutation | boggle-challenge-master/spec/support/matchers/have_same_letters_as_one_of.rb:4-8 | the matcher holds exactly when some element is a permutation of the actual string |
| SameLettersOneOf.EmptyListMatchesNothing | boggle-challenge-master/spec/support/matchers/have_same_letters_as_one_of.rb:5 | an empty list matches nothing |
| SameLettersOneOf.OneOfIsMonotone | boggle-challenge-master/spec/support/matchers/have_same_letters_as_one_of.rb:5-7 | adding elements before or after never turns a match into a mismatch |
| SameLettersOneOf.FindAgreesWithMatch | boggle-challenge-master/spec/support/matchers/have_same_letters_as_one_of.rb:5-19 | `find` returns an element exactly when the matcher holds, and nothing otherwise |

## Left out

- Die randomness: `roll` picks a random side. The model takes the face each die lands on as an argument of `Shake`, and `Roll` only promises a letter from the die's sides.
- `DiceFactory`, `CommandLineBoardPresenter` and `OfficialFinder` are not part of this model. They are a fixed letter table, terminal display code, and a finder whose dictionary is an outside collaborator.
- RSpec plumbing is not modelled: test doubles, the matchers' `failure_message` and `description` strings, and `require` loading. The one piece of a failure message that computes something, the `find` of the first match, is modelled.
- The matchers call `to_s` on both arguments. The model takes strings, so arguments of other types are not modelled.
- `BoggleBoard` and the board the finder reads are kept separate. The finder takes a grid of characters, and no lemma connects it to the `Cell` grid of `BoggleBoard`.
- SimpleFinder.Include: only the word is case-folded. The grid cells are compared as they are, because every scenario board holds upper-case letters.
- Text.Upcase: folds ASCII letters only. Other characters are left unchanged, where Ruby's `upcase` also folds other alphabets.
- Boggle.BoggleBoard.New: refuses a dice count other than sixteen with `InvalidDiceCount`; the specs only ever pass sixteen dice, so what the board does with another count is not pinned down by them.
- Boggle.BoggleBoard.Shake: the grid is an `array2` written in place. The scenario's reading of the same object after `shake` is captured by `Board()` before and after the call, not by aliasing of a Ruby row array.

## Findings

| source | as written | input that shows it | evidently intended | confidence | as-written member | corrected member |
|---|---|---|---|---|---|---|
| boggle-challenge-master/spec/boggle_board_spec.rb:29 | the pattern `/A-Z/i` has no brackets, so it matches only the three-character text `A-Z`; no cell text of one character matches, and the "no letters showing" example passes on any board | the board shaken with sixteen dice that all roll `A` (the setup at lines 4-6): the pattern as written keeps no cell although sixteen letters show | `/[A-Z]/i`: keep the cells showing a letter, which are none before a shake and sixteen after | high; not executed | Boggle.AToZMissesShakenLetters | Boggle.ShowingLettersTellsShakenFromUnshaken |
