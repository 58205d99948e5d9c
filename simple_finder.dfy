/** The straight-line word finder: `SimpleFinder#include?`.

    A word is found when it can be read from some cell of the board walking one
    fixed compass direction, comparing letters without regard to case, with a
    board `Q` cell standing for the two letters `QU`. Words shorter than three
    characters are never found. The finder only reads the board's grid. */
module SimpleFinder {
  import opened Text

  /** The board's letter grid as the finder reads it: rows of one-letter cells. */
  type Grid = seq<seq<char>>

  /** A (row, column) position. */
  type Coord = (int, int)

  /** Words with fewer characters are rejected without searching. */
  const MinWordLength: nat := 3

  /** A step of a walk: the change in row and the change in column. */
  datatype Direction = Direction(dr: int, dc: int)

  /** The eight compass directions, in the order the search tries them. */
  const Directions: seq<Direction> := [
    Direction(0, 1), Direction(0, -1),    // along a row: left-to-right, right-to-left
    Direction(1, 0), Direction(-1, 0),    // along a column: top-to-bottom, bottom-to-top
    Direction(1, 1), Direction(1, -1),    // diagonals going down
    Direction(-1, 1), Direction(-1, -1)   // diagonals going up
  ]

  /** A compass direction: one step to a neighbouring cell. */
  predicate IsDirection(d: Direction) {
    -1 <= d.dr <= 1 && -1 <= d.dc <= 1 && !(d.dr == 0 && d.dc == 0)
  }

  lemma DirectionsAreTheCompass(d: Direction)
    ensures d in Directions <==> IsDirection(d)
  {
  }

  predicate InBounds(g: Grid, r: int, c: int) {
    0 <= r < |g| && 0 <= c < |g[r]|
  }

  /** Whether the upper-cased word `w` is read from (r, c) onwards, one cell per
      step along `d`. A `Q` cell consumes `QU` from the word; a `Q` of the word
      that is not followed by `U` cannot be matched by a `Q` cell. */
  predicate WalkMatches(g: Grid, r: int, c: int, d: Direction, w: string): (m: bool)
    decreases |w|
    ensures m && w != [] ==> InBounds(g, r, c) && w[0] == g[r][c]
  {
    if w == [] then true
    else if !InBounds(g, r, c) then false
    else
      var cell := g[r][c];
      if cell == 'Q' then
        2 <= |w| && w[0] == 'Q' && w[1] == 'U' && WalkMatches(g, r + d.dr, c + d.dc, d, w[2..])
      else
        w[0] == cell && WalkMatches(g, r + d.dr, c + d.dc, d, w[1..])
  }

  /** A walk that reads at least one character starts on the board. */
  lemma WalkStartsInBounds(g: Grid, r: int, c: int, d: Direction, w: string)
    requires w != []
    ensures WalkMatches(g, r, c, d, w) ==> InBounds(g, r, c)
  {
  }

  /** A word character `Q` not followed by `U` is matched by no cell: a `Q`
      cell needs `QU`, and any other cell holds a different letter. */
  lemma LoneQNeverMatches(g: Grid, r: int, c: int, d: Direction, w: string)
    requires |w| >= 1 && w[0] == 'Q' && (|w| == 1 || w[1] != 'U')
    ensures !WalkMatches(g, r, c, d, w)
  {
  }

  /** A word character `Q` not followed by `U`, anywhere in the word, is
      matched by no walk: the walk reaches it either at a `Q` cell, which needs
      `QU`, or at a cell holding another letter. */
  lemma {:induction false} LoneQAnywhere(g: Grid, r: int, c: int, d: Direction, w: string, i: int)
    requires 0 <= i < |w| && w[i] == 'Q' && (i + 1 == |w| || w[i + 1] != 'U')
    ensures !WalkMatches(g, r, c, d, w)
    decreases |w|
  {
    if i == 0 {
      LoneQNeverMatches(g, r, c, d, w);
    } else if InBounds(g, r, c) {
      var n := if g[r][c] == 'Q' then 2 else 1;
      if n <= i {
        assert w[n..][i - n] == 'Q';
        assert i - n + 1 == |w[n..]| || w[n..][i - n + 1] == w[i + 1];
        LoneQAnywhere(g, r + d.dr, c + d.dc, d, w[n..], i - n);
      }
    }
  }

  /** The board holds no `Q` cell. */
  ghost predicate NoQCell(g: Grid) {
    forall r, c :: InBounds(g, r, c) ==> g[r][c] != 'Q'
  }

  /** The k-th character of `w` is the cell k steps from (r, c) along `d`. */
  ghost predicate ReadsAt(g: Grid, r: int, c: int, d: Direction, w: string, k: int) {
    0 <= k < |w| && InBounds(g, r + k * d.dr, c + k * d.dc) && g[r + k * d.dr][c + k * d.dc] == w[k]
  }

  /** Every character of `w` is read from the cell as many steps from (r, c)
      along `d` as its position: one letter per cell, in a straight line. */
  ghost predicate ReadsAlong(g: Grid, r: int, c: int, d: Direction, w: string) {
    forall k :: 0 <= k < |w| ==> ReadsAt(g, r, c, d, w, k)
  }

  /** A word read along a line has its k-th character at the cell k steps
      along, for each k within the word. */
  lemma ReadsAlongAt(g: Grid, r: int, c: int, d: Direction, w: string, k: int)
    ensures ReadsAlong(g, r, c, d, w) && 0 <= k < |w| ==> ReadsAt(g, r, c, d, w, k)
  {
  }

  /** Reading along a line is reading its first cell, then the rest from the
      next cell. */
  lemma ReadsAlongStep(g: Grid, r: int, c: int, d: Direction, w: string)
    requires w != []
    ensures ReadsAlong(g, r, c, d, w) <==>
      InBounds(g, r, c) && g[r][c] == w[0] && ReadsAlong(g, r + d.dr, c + d.dc, d, w[1..])
  {
    forall k | 1 <= k < |w|
      ensures ReadsAt(g, r, c, d, w, k) == ReadsAt(g, r + d.dr, c + d.dc, d, w[1..], k - 1)
    {
      StepDifference(k, d.dr);
      StepDifference(k, d.dc);
      assert r + k * d.dr == r + d.dr + (k - 1) * d.dr && c + k * d.dc == c + d.dc + (k - 1) * d.dc;
    }
    assert ReadsAt(g, r, c, d, w, 0) == (InBounds(g, r, c) && g[r][c] == w[0]);
    if ReadsAlong(g, r, c, d, w) {
      var r', c', t := r + d.dr, c + d.dc, w[1..];
      forall k | 0 <= k < |t| ensures ReadsAt(g, r', c', d, t, k) {
        assert ReadsAt(g, r, c, d, w, k + 1);
      }
    }
    if InBounds(g, r, c) && g[r][c] == w[0] && ReadsAlong(g, r + d.dr, c + d.dc, d, w[1..]) {
      forall k | 0 <= k < |w| ensures ReadsAt(g, r, c, d, w, k) {
        if k > 0 {
          assert ReadsAt(g, r + d.dr, c + d.dc, d, w[1..], k - 1);
        }
      }
    }
  }

  /** Without `Q` cells a walk reads exactly one word character per cell. */
  lemma {:induction false} WalkReadsOneLetterPerCell(g: Grid, r: int, c: int, d: Direction, w: string)
    requires NoQCell(g)
    ensures WalkMatches(g, r, c, d, w) <==> ReadsAlong(g, r, c, d, w)
    decreases |w|
  {
    if w != [] {
      WalkReadsOneLetterPerCell(g, r + d.dr, c + d.dc, d, w[1..]);
      ReadsAlongStep(g, r, c, d, w);
    }
  }

  /** The finder's contract: long enough, and readable along one straight line. */
  ghost predicate Found(g: Grid, word: string) {
    |word| >= MinWordLength &&
    exists r: int, c: int, d: Direction :: IsDirection(d) && WalkMatches(g, r, c, d, Upcase(word))
  }

  /** Some straight walk from (r, c) reads `w`. */
  ghost predicate WalkFrom(g: Grid, r: int, c: int, w: string) {
    exists d :: IsDirection(d) && WalkMatches(g, r, c, d, w)
  }

  /** Some straight walk from row `r`, column `c` or a later column of that row, reads `w`. */
  ghost predicate WalkFromColumns(g: Grid, r: int, c: int, w: string)
    requires 0 <= r < |g|
  {
    exists c': int :: c <= c' < |g[r]| && WalkFrom(g, r, c', w)
  }

  /** Some straight walk from row `r` or a later row reads `w`. */
  ghost predicate WalkFromRows(g: Grid, r: int, w: string) {
    exists r': int, c': int :: r <= r' && WalkFrom(g, r', c', w)
  }

  /** Tries the directions from `Directions[i]` on, from the start (r, c). */
  function AnyDirection(g: Grid, r: int, c: int, w: string, i: nat): (found: bool)
    requires i <= |Directions|
    decreases |Directions| - i
    ensures found <==> exists j :: i <= j < |Directions| && WalkMatches(g, r, c, Directions[j], w)
  {
    if i == |Directions| then false
    else WalkMatches(g, r, c, Directions[i], w) || AnyDirection(g, r, c, w, i + 1)
  }

  /** Tries the start cells of row `r` from column `c` on. */
  function AnyColumn(g: Grid, r: nat, c: nat, w: string): (found: bool)
    requires r < |g| && c <= |g[r]|
    decreases |g[r]| - c
    ensures found <==> WalkFromColumns(g, r, c, w)
  {
    if c == |g[r]| then false
    else
      AnyDirectionCoversCompass(g, r, c, w);
      ColumnStep(g, r, c, w);
      AnyDirection(g, r, c, w, 0) || AnyColumn(g, r, c + 1, w)
  }

  /** Trying the listed directions is trying every compass direction. */
  lemma AnyDirectionCoversCompass(g: Grid, r: int, c: int, w: string)
    ensures AnyDirection(g, r, c, w, 0) <==> WalkFrom(g, r, c, w)
  {
    if AnyDirection(g, r, c, w, 0) {
      var j :| 0 <= j < |Directions| && WalkMatches(g, r, c, Directions[j], w);
      DirectionsAreTheCompass(Directions[j]);
    } else {
      forall d | IsDirection(d) ensures !WalkMatches(g, r, c, d, w) {
        DirectionsAreTheCompass(d);
      }
    }
  }

  /** A start at column `c` or later is a start at `c` or a start after it. */
  lemma ColumnStep(g: Grid, r: int, c: int, w: string)
    requires 0 <= r < |g| && 0 <= c < |g[r]|
    ensures WalkFromColumns(g, r, c, w) <==> WalkFrom(g, r, c, w) || WalkFromColumns(g, r, c + 1, w)
  {
    if WalkFromColumns(g, r, c, w) {
      var c' :| c <= c' < |g[r]| && WalkFrom(g, r, c', w);
      if c' != c {
        assert c + 1 <= c' < |g[r]| && WalkFrom(g, r, c', w);
      }
    }
    if WalkFrom(g, r, c, w) {
      assert c <= c < |g[r]| && WalkFrom(g, r, c, w);
    }
  }

  /** Tries the start cells of every row from row `r` on. */
  function AnyRow(g: Grid, r: nat, w: string): (found: bool)
    requires r <= |g|
    requires w != []
    decreases |g| - r
    ensures found <==> WalkFromRows(g, r, w)
  {
    if r == |g| then
      RowsExhausted(g, r, w);
      false
    else
      RowStep(g, r, w);
      AnyColumn(g, r, 0, w) || AnyRow(g, r + 1, w)
  }

  /** No walk that reads something starts below the last row. */
  lemma RowsExhausted(g: Grid, r: int, w: string)
    requires r == |g| && w != []
    ensures !WalkFromRows(g, r, w)
  {
    forall r': int, c': int, d: Direction | r <= r' ensures !WalkMatches(g, r', c', d, w) {
      WalkStartsInBounds(g, r', c', d, w);
    }
  }

  /** A start in row `r` or later is a start in row `r` or a start after it. */
  lemma RowStep(g: Grid, r: int, w: string)
    requires 0 <= r < |g| && w != []
    ensures WalkFromRows(g, r, w) <==> WalkFromColumns(g, r, 0, w) || WalkFromRows(g, r + 1, w)
  {
    if WalkFromRows(g, r, w) {
      var r', c' :| r <= r' && WalkFrom(g, r', c', w);
      if r' == r {
        var d :| IsDirection(d) && WalkMatches(g, r, c', d, w);
        WalkStartsInBounds(g, r, c', d, w);
        assert 0 <= c' < |g[r]| && WalkFrom(g, r, c', w);
      } else {
        assert r + 1 <= r' && WalkFrom(g, r', c', w);
      }
    }
    if WalkFromColumns(g, r, 0, w) {
      var c' :| 0 <= c' < |g[r]| && WalkFrom(g, r, c', w);
      assert r <= r && WalkFrom(g, r, c', w);
    }
  }

  /** `SimpleFinder#include?`. */
  function Include(g: Grid, word: string): (found: bool)
    ensures found <==> Found(g, word)
    ensures |word| < MinWordLength ==> !found
  {
    if |word| < MinWordLength then false
    else
      FoundIsWalkFromRows(g, word);
      AnyRow(g, 0, Upcase(word))
  }

  /** Every start that reads something lies at row 0 or below. */
  lemma FoundIsWalkFromRows(g: Grid, word: string)
    requires |word| >= MinWordLength
    ensures Found(g, word) <==> WalkFromRows(g, 0, Upcase(word))
  {
    var w := Upcase(word);
    if Found(g, word) {
      var r, c, d :| IsDirection(d) && WalkMatches(g, r, c, d, w);
      WalkStartsInBounds(g, r, c, d, w);
      assert 0 <= r && WalkFrom(g, r, c, w);
    }
  }

  /** A word whose upper-cased form has a `Q` not followed by `U` is never
      found, on any board. */
  lemma LoneQWordIsNotFound(g: Grid, word: string, i: int)
    requires 0 <= i < |word| && Upcase(word)[i] == 'Q'
    requires i + 1 == |word| || Upcase(word)[i + 1] != 'U'
    ensures !Include(g, word)
  {
    var w := Upcase(word);
    forall r: int, c: int, d: Direction ensures !WalkMatches(g, r, c, d, w) {
      LoneQAnywhere(g, r, c, d, w, i);
    }
  }

  /** Matching ignores case: a word and its upper-case form give the same answer. */
  lemma {:induction false} IncludeIgnoresCase(g: Grid, word: string)
    ensures Include(g, word) == Include(g, Upcase(word))
  {
    UpcaseIdempotent(word);
  }

  /** Every cell of the board holds an upper-case ASCII letter. */
  ghost predicate LetterGrid(g: Grid) {
    forall r, c :: InBounds(g, r, c) ==> IsUpper(g[r][c])
  }

  /** On a board of letters a walk only ever reads letters: each word
      character is a cell's letter, or the `U` a `Q` cell consumes. */
  lemma {:induction false} WalkReadsOnlyLetters(g: Grid, r: int, c: int, d: Direction, w: string)
    requires LetterGrid(g) && WalkMatches(g, r, c, d, w)
    ensures forall i :: 0 <= i < |w| ==> IsUpper(w[i])
    decreases |w|
  {
    if w != [] {
      var n := if g[r][c] == 'Q' then 2 else 1;
      WalkReadsOnlyLetters(g, r + d.dr, c + d.dc, d, w[n..]);
      forall i | n <= i < |w| ensures IsUpper(w[i]) {
        assert w[i] == w[n..][i - n];
      }
    }
  }

  /** A word holding a character that is not an ASCII letter (a digit, a
      hyphen, a space) is never found on a board of letters. */
  lemma NonLetterWordIsNotFound(g: Grid, word: string, i: int)
    requires LetterGrid(g)
    requires 0 <= i < |word| && !IsAsciiLetter(word[i])
    ensures !Include(g, word)
  {
    var w := Upcase(word);
    forall r: int, c: int, d: Direction | IsDirection(d) ensures !WalkMatches(g, r, c, d, w) {
      if WalkMatches(g, r, c, d, w) {
        WalkReadsOnlyLetters(g, r, c, d, w);
      }
    }
  }

  // Boggle's general tracing rule, against which the straight finder is sound.

  /** Two different cells that touch, diagonals included. */
  predicate Adjacent(a: Coord, b: Coord) {
    a != b && -1 <= a.0 - b.0 <= 1 && -1 <= a.1 - b.1 <= 1
  }

  /** A Boggle path: each cell touches the one before it and no cell is used twice. */
  ghost predicate IsPath(p: seq<Coord>) {
    (forall i :: 0 < i < |p| ==> Adjacent(p[i - 1], p[i])) &&
    (forall i, j :: 0 <= i < j < |p| ==> p[i] != p[j])
  }

  /** Whether the upper-cased word `w` is spelled by exactly the cells of `p`, a
      `Q` cell spelling `QU`. */
  predicate PathSpells(g: Grid, p: seq<Coord>, w: string)
    decreases |p|
  {
    if p == [] then w == []
    else if !InBounds(g, p[0].0, p[0].1) then false
    else
      var cell := g[p[0].0][p[0].1];
      if cell == 'Q' then
        2 <= |w| && w[0] == 'Q' && w[1] == 'U' && PathSpells(g, p[1..], w[2..])
      else
        1 <= |w| && w[0] == cell && PathSpells(g, p[1..], w[1..])
  }

  /** A word traceable under Boggle's adjacency rule, bent paths included. */
  ghost predicate Traceable(g: Grid, word: string) {
    |word| >= MinWordLength && exists p :: IsPath(p) && PathSpells(g, p, Upcase(word))
  }

  /** The cells a matching straight walk visits: the k-th is k steps along `d`. */
  function WalkCells(g: Grid, r: int, c: int, d: Direction, w: string): (p: seq<Coord>)
    requires WalkMatches(g, r, c, d, w)
    decreases |w|
    ensures forall k :: 0 <= k < |p| ==> p[k] == (r + k * d.dr, c + k * d.dc)
    ensures PathSpells(g, p, w)
  {
    if w == [] then []
    else
      var rest := if g[r][c] == 'Q' then w[2..] else w[1..];
      var tail := WalkCells(g, r + d.dr, c + d.dc, d, rest);
      LineCons(r, c, d, tail);
      assert ([(r, c)] + tail)[1..] == tail;
      [(r, c)] + tail
  }

  /** Putting the cell one step back in front of a straight line of cells
      gives the straight line from that cell. */
  lemma LineCons(r: int, c: int, d: Direction, tail: seq<Coord>)
    requires forall k :: 0 <= k < |tail| ==> tail[k] == (r + d.dr + k * d.dr, c + d.dc + k * d.dc)
    ensures forall k :: 0 <= k < |tail| + 1 ==> ([(r, c)] + tail)[k] == (r + k * d.dr, c + k * d.dc)
  {
    forall k | 0 <= k < |tail| + 1
      ensures ([(r, c)] + tail)[k] == (r + k * d.dr, c + k * d.dc)
    {
      if k > 0 {
        StepDifference(k, d.dr);
        StepDifference(k, d.dc);
        assert ([(r, c)] + tail)[k] == tail[k - 1];
      }
    }
  }

  /** The cells of a straight line of compass steps form a Boggle path. */
  lemma {:induction false} StraightLineIsPath(p: seq<Coord>, r: int, c: int, d: Direction)
    requires IsDirection(d)
    requires forall k :: 0 <= k < |p| ==> p[k] == (r + k * d.dr, c + k * d.dc)
    ensures IsPath(p)
  {
    forall i | 0 < i < |p| ensures Adjacent(p[i - 1], p[i]) {
      assert p[i].0 - p[i - 1].0 == d.dr && p[i].1 - p[i - 1].1 == d.dc by {
        StepDifference(i, d.dr);
        StepDifference(i, d.dc);
      }
    }
    forall i, j | 0 <= i < j < |p| ensures p[i] != p[j] {
      if d.dr != 0 {
        DistinctMultiples(i, j, d.dr);
      } else {
        DistinctMultiples(i, j, d.dc);
      }
    }
  }

  lemma StepDifference(k: int, x: int)
    ensures k * x - (k - 1) * x == x
  {
  }

  lemma DistinctMultiples(i: int, j: int, x: int)
    requires i < j && x != 0
    ensures i * x != j * x
  {
    if x > 0 {
      assert j * x - i * x == (j - i) * x;
    } else {
      assert i * x - j * x == (j - i) * (-x);
    }
  }

  /** Soundness: every word the straight finder reports is traceable under Boggle's rules. */
  lemma IncludeIsTraceable(g: Grid, word: string)
    requires Include(g, word)
    ensures Traceable(g, word)
  {
    var w := Upcase(word);
    var r, c, d :| IsDirection(d) && WalkMatches(g, r, c, d, w);
    var p := WalkCells(g, r, c, d, w);
    StraightLineIsPath(p, r, c, d);
  }
}
