/** The boards the finder's scenarios are stated over, and what the finder
    answers on them. */
module FinderFixtures {
  import opened Text
  import opened SimpleFinder

  /** The four-row board of the main scenarios. */
  function FangBoard(): (g: Grid)
    ensures |g| == 4 && forall r :: 0 <= r < 4 ==> |g[r]| == 4
  {
    [['F', 'A', 'N', 'G'],
     ['E', 'E', 'O', 'N'],
     ['N', 'N', 'E', 'O'],
     ['E', 'D', 'O', 'S']]
  }

  /** A board whose top row holds a `Q` cell, the rest filler. */
  function QuBoard(): (g: Grid)
    ensures |g| == 4 && forall r :: 0 <= r < 4 ==> |g[r]| == 4
  {
    [['S', 'Q', 'A', 'T'],
     ['X', 'X', 'X', 'X'],
     ['X', 'X', 'X', 'X'],
     ['X', 'X', 'X', 'X']]
  }


  /** Reports found when a straight walk from some cell reads the upper-cased word. */
  lemma {:induction false} FoundAlong(g: Grid, word: string, r: int, c: int, d: Direction)
    requires |word| >= MinWordLength && IsDirection(d)
    requires WalkMatches(g, r, c, d, Upcase(word))
    ensures Include(g, word)
  {
  }

  lemma FangBoardHasNoQ()
    ensures NoQCell(FangBoard())
  {
  }

  /** No straight line of the board reads N, E, O, N. */
  lemma NoStraightNeon(r: int, c: int, d: Direction)
    requires IsDirection(d)
    ensures !ReadsAlong(FangBoard(), r, c, d, "NEON")
  {
    var w := "NEON";
    assert w[0] == 'N' && w[1] == 'E' && w[2] == 'O' && w[3] == 'N';
    ReadsAlongAt(FangBoard(), r, c, d, w, 0);
    ReadsAlongAt(FangBoard(), r, c, d, w, 3);
  }

  lemma NeonIsNotFound()
    ensures !Include(FangBoard(), "NEON")
  {
    var g := FangBoard();
    assert Upcase("NEON") == "NEON";
    FangBoardHasNoQ();
    forall r: int, c: int, d: Direction | IsDirection(d) ensures !WalkMatches(g, r, c, d, "NEON") {
      WalkReadsOneLetterPerCell(g, r, c, d, "NEON");
      NoStraightNeon(r, c, d);
    }
  }

  lemma FangIsFoundLeftToRight()
    ensures Include(FangBoard(), "FANG")
  {
    assert Upcase("FANG") == "FANG";
    FoundAlong(FangBoard(), "FANG", 0, 0, Direction(0, 1));
  }

  lemma SodIsFoundRightToLeft()
    ensures Include(FangBoard(), "SOD")
  {
    assert Upcase("SOD") == "SOD";
    FoundAlong(FangBoard(), "SOD", 3, 3, Direction(0, -1));
  }

  /** Column 0, top to bottom. */
  lemma FenIsFoundTopToBottom()
    ensures Include(FangBoard(), "FEN")
  {
    assert Upcase("FEN") == "FEN";
    FoundAlong(FangBoard(), "FEN", 0, 0, Direction(1, 0));
  }

  /** Column 3, bottom to top. */
  lemma SongIsFoundBottomToTop()
    ensures Include(FangBoard(), "SONG")
  {
    assert Upcase("SONG") == "SONG";
    FoundAlong(FangBoard(), "SONG", 3, 3, Direction(-1, 0));
  }

  /** The main diagonal, top left to bottom right. */
  lemma FeesIsFoundTopLeftToBottomRight()
    ensures Include(FangBoard(), "FEES")
  {
    assert Upcase("FEES") == "FEES";
    FoundAlong(FangBoard(), "FEES", 0, 0, Direction(1, 1));
  }

  /** The anti-diagonal, top right to bottom left. */
  lemma GoneIsFoundTopRightToBottomLeft()
    ensures Include(FangBoard(), "GONE")
  {
    assert Upcase("GONE") == "GONE";
    FoundAlong(FangBoard(), "GONE", 0, 3, Direction(1, -1));
  }

  /** From (3,1) up and to the right. */
  lemma DenIsFoundBottomLeftToTopRight()
    ensures Include(FangBoard(), "DEN")
  {
    assert Upcase("DEN") == "DEN";
    FoundAlong(FangBoard(), "DEN", 3, 1, Direction(-1, 1));
  }

  /** The main diagonal, bottom right to top left. */
  lemma SeeIsFoundBottomRightToTopLeft()
    ensures Include(FangBoard(), "SEE")
  {
    assert Upcase("SEE") == "SEE";
    FoundAlong(FangBoard(), "SEE", 3, 3, Direction(-1, -1));
  }

  lemma MixedCaseIsFound()
    ensures Include(FangBoard(), "fAnG")
  {
    assert Upcase("fAnG") == "FANG";
    FoundAlong(FangBoard(), "fAnG", 0, 0, Direction(0, 1));
  }

  lemma ShortWordIsNotFound()
    ensures !Include(FangBoard(), "FA")
  {
  }

  /** No straight line of the board reads F, A, N, G, S: the only F is in the
      corner and the row it starts runs out after G. */
  lemma NoStraightFangs(r: int, c: int, d: Direction)
    requires IsDirection(d)
    ensures !ReadsAlong(FangBoard(), r, c, d, "FANGS")
  {
    var w := "FANGS";
    assert w[0] == 'F' && w[1] == 'A' && w[4] == 'S';
    ReadsAlongAt(FangBoard(), r, c, d, w, 0);
    ReadsAlongAt(FangBoard(), r, c, d, w, 1);
    ReadsAlongAt(FangBoard(), r, c, d, w, 4);
  }

  lemma FangsIsNotFound()
    ensures !Include(FangBoard(), "FANGS")
  {
    var g := FangBoard();
    assert Upcase("FANGS") == "FANGS";
    FangBoardHasNoQ();
    forall r: int, c: int, d: Direction | IsDirection(d) ensures !WalkMatches(g, r, c, d, "FANGS") {
      WalkReadsOneLetterPerCell(g, r, c, d, "FANGS");
      NoStraightFangs(r, c, d);
    }
  }

  /** NEON is spelled by the bent path (0,2), (1,1), (1,2), (1,3) under Boggle's
      adjacency rule, yet the straight-line finder does not report it. */
  lemma NeonIsOnlyOnABentPath()
    ensures Traceable(FangBoard(), "NEON")
    ensures !Include(FangBoard(), "NEON")
  {
    var p := NeonPath();
    NeonPathIsPath();
    assert Upcase("NEON") == "NEON";
    assert PathSpells(FangBoard(), p, "NEON");
    TraceableAlong(FangBoard(), "NEON", p);
    NeonIsNotFound();
  }

  /** N at (0,2), E at (1,1), then O and N along row 1. */
  function NeonPath(): (p: seq<Coord>)
    ensures |p| == 4
  {
    [(0, 2), (1, 1), (1, 2), (1, 3)]
  }

  lemma NeonPathIsPath()
    ensures IsPath(NeonPath())
  {
    var p := NeonPath();
    assert Adjacent(p[0], p[1]) && Adjacent(p[1], p[2]) && Adjacent(p[2], p[3]);
    assert p[0] != p[1] && p[0] != p[2] && p[0] != p[3] && p[1] != p[2] && p[1] != p[3] && p[2] != p[3];
  }

  /** Reports traceable when some Boggle path spells the upper-cased word. */
  lemma TraceableAlong(g: Grid, word: string, p: seq<Coord>)
    requires |word| >= MinWordLength && IsPath(p) && PathSpells(g, p, Upcase(word))
    ensures Traceable(g, word)
  {
  }

  lemma SquatIsFoundThroughQu()
    ensures Include(QuBoard(), "SQUAT")
  {
    assert Upcase("SQUAT") == "SQUAT";
    FoundAlong(QuBoard(), "SQUAT", 0, 0, Direction(0, 1));
  }

  /** QAT is found on no board at all: its Q is not followed by U. */
  lemma QatIsNeverFound(g: Grid)
    ensures !Include(g, "QAT")
  {
    assert Upcase("QAT") == "QAT";
    forall r: int, c: int, d: Direction ensures !WalkMatches(g, r, c, d, "QAT") {
      LoneQNeverMatches(g, r, c, d, "QAT");
    }
  }

  /** SQAT, whose `Q` sits after an `S` and before an `A`, is not found on the
      `Q` board although S, Q, A, T lie along its top row. */
  lemma SqatIsNotFoundOnQuBoard()
    ensures !Include(QuBoard(), "SQAT")
  {
    assert Upcase("SQAT") == "SQAT";
    LoneQWordIsNotFound(QuBoard(), "SQAT", 1);
  }

  lemma QatIsNotFoundOnQuBoard()
    ensures !Include(QuBoard(), "QAT")
  {
    QatIsNeverFound(QuBoard());
  }
}
