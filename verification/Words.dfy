/** Splitting single-spaced text, seen as a fold over its words. */
module Words {
  import opened TextSplit

  predicate IsWord(w: string) {
    w != "" && forall i :: 0 <= i < |w| ==> !IsSpace(w[i])
  }

  ghost predicate AreWords(ws: seq<string>) {
    forall i :: 0 <= i < |ws| ==> IsWord(ws[i])
  }

  function Join(ws: seq<string>): string {
    if ws == [] then ""
    else if |ws| == 1 then ws[0]
    else ws[0] + " " + Join(ws[1..])
  }

  /** Whether the word completes a clause. */
  predicate Ends(w: string) {
    w != "" && IsTerminator(w[|w| - 1])
  }

  // A clause is a list of words.
  function Step(out: seq<seq<string>>, w: string, minChars: int): seq<seq<string>> {
    if out == [] then [[w]]
    else
      var last := out[|out| - 1];
      if last != [] && Ends(last[|last| - 1]) && |Join(last)| >= minChars then out + [[w]]
      else out[..|out| - 1] + [last + [w]]
  }

  function Fold(out: seq<seq<string>>, ws: seq<string>, minChars: int): seq<seq<string>>
    decreases |ws|
  {
    if ws == [] then out else Fold(Step(out, ws[0], minChars), ws[1..], minChars)
  }

  function Texts(clauses: seq<seq<string>>): (texts: seq<string>)
    ensures |texts| == |clauses|
  {
    seq(|clauses|, i requires 0 <= i < |clauses| => Join(clauses[i]))
  }

  // ---------------------------------------------------------------- joining

  lemma {:induction false} JoinConcat(u: seq<string>, v: seq<string>)
    requires u != [] && v != []
    ensures Join(u + v) == Join(u) + " " + Join(v)
  {
    if |u| == 1 {
      assert (u + v)[1..] == v;
    } else {
      assert (u + v)[1..] == u[1..] + v;
      JoinConcat(u[1..], v);
    }
  }

  lemma {:induction false} JoinEnds(ws: seq<string>)
    requires AreWords(ws) && ws != []
    ensures Join(ws) != "" && Join(ws)[0] == ws[0][0]
    ensures Join(ws)[|Join(ws)| - 1] == ws[|ws| - 1][|ws[|ws| - 1]| - 1]
    ensures !IsSpace(Join(ws)[0]) && !IsSpace(Join(ws)[|Join(ws)| - 1])
  {
    if |ws| == 1 {
      assert Join(ws) == ws[0];
    } else {
      var rest := ws[1..];
      assert rest[|rest| - 1] == ws[|ws| - 1];
      JoinEnds(rest);
      EndsOf(ws[0], Join(rest));
    }
  }

  lemma EndsOf(a: string, b: string)
    requires a != "" && b != ""
    ensures (a + " " + b)[0] == a[0] && (a + " " + b)[|a + " " + b| - 1] == b[|b| - 1]
  {
  }

  lemma {:induction false} FoldConcat(out: seq<seq<string>>, u: seq<string>, v: seq<string>, minChars: int)
    ensures Fold(out, u + v, minChars) == Fold(Fold(out, u, minChars), v, minChars)
    decreases |u|
  {
    if u == [] {
      assert u + v == v;
    } else {
      assert (u + v)[0] == u[0] && (u + v)[1..] == u[1..] + v;
      FoldConcat(Step(out, u[0], minChars), u[1..], v, minChars);
    }
  }

  // ---------------------------------------------------------------- pieces

  /** Words up to and including the first that ends a clause. */
  function FirstPiece(ws: seq<string>): (p: nat)
    ensures p <= |ws| && (ws != [] ==> p > 0)
  {
    if ws == [] then 0
    else if Ends(ws[0]) then 1
    else 1 + FirstPiece(ws[1..])
  }

  function WordPieces(ws: seq<string>): seq<seq<string>>
    decreases |ws|
  {
    if ws == [] then [] else [ws[..FirstPiece(ws)]] + WordPieces(ws[FirstPiece(ws)..])
  }

  ghost predicate Blank(t: string) {
    forall i :: 0 <= i < |t| ==> IsSpace(t[i])
  }

  /** Past a prefix that ends in white space the search for a break starts afresh. */
  lemma {:induction false} BreakShift(x: string, s: string, k: nat)
    requires k <= |s| && x != "" && IsSpace(x[|x| - 1])
    ensures FirstBreak(x + s, |x| + k) == |x| + FirstBreak(s, k)
    decreases |s| - k
  {
    SpaceIsNoTerminator(x[|x| - 1]);
    if k < |s| {
      BreakShift(x, s, k + 1);
    }
  }

  lemma SpaceIsNoTerminator(c: char)
    requires IsSpace(c)
    ensures !IsTerminator(c)
  {
  }

  lemma {:induction false} BreakSkipsWord(w: string, s: string, i: nat)
    requires (forall j :: 0 <= j < |w| ==> !IsSpace(w[j])) && i <= |w|
    ensures FirstBreak(w + s, i) == FirstBreak(w + s, |w|)
    decreases |w| - i
  {
    if i < |w| {
      BreakSkipsWord(w, s, i + 1);
    }
  }

  /** Where the first break of words followed by white space is expected. */
  function BreakPoint(ws: seq<string>, t: string): int
    requires ws != []
  {
    if FirstPiece(ws) < |ws| || (Ends(ws[|ws| - 1]) && t != "") then |Join(ws[..FirstPiece(ws)])| else |Join(ws) + t|
  }

  lemma BreakOneWord(w: string, t: string)
    requires IsWord(w) && Blank(t)
    ensures FirstBreak(w + t, 0) == if Ends(w) && t != "" then |w| else |w + t|
  {
    BreakSkipsWord(w, t, 0);
    if !Ends(w) || t == "" {
      NoBreakInBlank(w, t, |w|);
    }
  }

  lemma BreakAfterWord(w: string, rest: string)
    requires IsWord(w)
    ensures FirstBreak(w + (" " + rest), 0) == if Ends(w) then |w| else |w| + 1 + FirstBreak(rest, 0)
  {
    var s := w + (" " + rest);
    BreakSkipsWord(w, " " + rest, 0);
    assert s[|w|] == ' ' && s[|w| - 1] == w[|w| - 1];
    if !Ends(w) {
      assert s == (w + " ") + rest;
      BreakShift(w + " ", rest, 0);
    }
  }

  /** In words joined by single spaces, possibly followed by white space, the first break comes
      after the first word that ends a clause. */
  lemma {:induction false} BreakOfWords(ws: seq<string>, t: string)
    requires AreWords(ws) && ws != [] && Blank(t)
    ensures FirstBreak(Join(ws) + t, 0) == BreakPoint(ws, t)
    decreases |ws|
  {
    if |ws| == 1 {
      BreakOneWord(ws[0], t);
      assert ws[..1] == ws;
    } else {
      var rest := ws[1..];
      assert Join(ws) + t == ws[0] + (" " + (Join(rest) + t));
      BreakAfterWord(ws[0], Join(rest) + t);
      if !Ends(ws[0]) {
        BreakOfWords(rest, t);
      }
      BreakPointStep(ws, t);
    }
  }

  lemma BreakPointStep(ws: seq<string>, t: string)
    requires |ws| > 1
    ensures BreakPoint(ws, t) == if Ends(ws[0]) then |ws[0]| else |ws[0]| + 1 + BreakPoint(ws[1..], t)
  {
    var rest := ws[1..];
    assert ws[..1] == [ws[0]];
    assert rest[|rest| - 1] == ws[|ws| - 1];
    if !Ends(ws[0]) {
      var p := FirstPiece(rest);
      assert ws[..p + 1] == [ws[0]] + rest[..p];
      JoinConcat([ws[0]], rest[..p]);
    }
  }

  lemma {:induction false} NoBreakInBlank(w: string, t: string, i: nat)
    requires w != "" && Blank(t) && (!Ends(w) || t == "")
    requires |w| <= i <= |w + t|
    ensures FirstBreak(w + t, i) == |w + t|
    decreases |w + t| - i
  {
    if i < |w + t| {
      if i > |w| { SpaceIsNoTerminator((w + t)[i - 1]); }
      NoBreakInBlank(w, t, i + 1);
    }
  }

  // ---------------------------------------------------------------- stripping

  lemma {:induction false} StripBlank(t: string)
    requires Blank(t)
    ensures StripLeft(t) == "" && Strip(t) == ""
  {
    if t != "" {
      StripBlank(t[1..]);
    }
  }

  lemma {:induction false} StripJoined(s: string, t: string)
    requires s != "" && !IsSpace(s[0]) && !IsSpace(s[|s| - 1]) && Blank(t)
    ensures Strip(s + t) == s
  {
    StripRightBlank(s, t);
  }

  lemma {:induction false} StripRightBlank(s: string, t: string)
    requires s != "" && !IsSpace(s[|s| - 1]) && Blank(t)
    ensures StripRight(s + t) == s
    decreases |t|
  {
    if t == "" {
      assert s + t == s;
    } else {
      assert (s + t)[..|s + t| - 1] == s + t[..|t| - 1];
      StripRightBlank(s, t[..|t| - 1]);
    }
  }

  // ---------------------------------------------------------------- characters against words

  lemma {:induction false} RunOfBlank(s: string, k: nat)
    requires k <= |s| && forall i :: k <= i < |s| ==> IsSpace(s[i])
    ensures RunEnd(s, k) == |s|
    decreases |s| - k
  {
    if k < |s| {
      RunOfBlank(s, k + 1);
    }
  }

  lemma {:induction false} BlankHasNoBreak(t: string, i: nat)
    requires Blank(t) && i <= |t|
    ensures FirstBreak(t, i) == |t|
    decreases |t| - i
  {
    if i < |t| {
      if i > 0 { SpaceIsNoTerminator(t[i - 1]); }
      BlankHasNoBreak(t, i + 1);
    }
  }

  lemma LastPiece(ws: seq<string>, t: string)
    requires AreWords(ws) && ws != [] && Blank(t) && FirstPiece(ws) == |ws|
    ensures Clean(Pieces(Join(ws) + t)) == [Join(ws)]
  {
    var s := Join(ws) + t;
    BreakOfWords(ws, t);
    JoinEnds(ws);
    assert ws[..|ws|] == ws;
    if Ends(ws[|ws| - 1]) && t != "" {
      RunOfBlank(s, |Join(ws)|);
      assert s[..|Join(ws)|] == Join(ws) && s[|s|..] == "";
      StripJoined(Join(ws), "");
      assert Join(ws) + "" == Join(ws);
      assert Pieces(s) == [Join(ws)] + Pieces("");
      assert Pieces("")[1..] == [];
      assert Clean(Pieces("")) == [];
      assert Pieces(s)[1..] == Pieces("");
    } else {
      StripJoined(Join(ws), t);
      assert Pieces(s)[1..] == [];
    }
  }

  lemma CleanCons(p: string, rest: seq<string>)
    requires p != "" && !IsSpace(p[0]) && !IsSpace(p[|p| - 1])
    ensures Clean([p] + rest) == [p] + Clean(rest)
  {
    StripJoined(p, "");
    assert p + "" == p && ([p] + rest)[1..] == rest;
  }

  /** A text that breaks at the single space between `x` and `y`. */
  lemma PiecesAtSpace(x: string, y: string)
    requires y != "" && !IsSpace(y[0]) && FirstBreak(x + " " + y, 0) == |x|
    ensures Pieces(x + " " + y) == [x] + Pieces(y)
  {
    var s := x + " " + y;
    assert s[|x|] == ' ' && s[|x| + 1] == y[0];
    assert RunEnd(s, |x| + 1) == |x| + 1;
    assert s[..|x|] == x && s[|x| + 1..] == y;
  }

  lemma FirstOfPieces(u: seq<string>, v: seq<string>, t: string)
    requires AreWords(u) && AreWords(v) && Blank(t) && v != [] && u != [] && FirstPiece(u + v) == |u|
    ensures Clean(Pieces(Join(u + v) + t)) == [Join(u)] + Clean(Pieces(Join(v) + t))
  {
    var x, y := Join(u), Join(v) + t;
    BreakBetween(u, v, t);
    JoinEnds(u);
    StartOf(v, t);
    PiecesAtSpace(x, y);
    CleanCons(x, Pieces(y));
  }

  lemma StartOf(ws: seq<string>, t: string)
    requires AreWords(ws) && ws != []
    ensures Join(ws) + t != "" && !IsSpace((Join(ws) + t)[0])
  {
    JoinEnds(ws);
    assert (Join(ws) + t)[0] == Join(ws)[0];
  }

  lemma BreakBetween(u: seq<string>, v: seq<string>, t: string)
    requires AreWords(u) && AreWords(v) && Blank(t) && v != [] && u != [] && FirstPiece(u + v) == |u|
    ensures Join(u + v) + t == Join(u) + " " + (Join(v) + t)
    ensures FirstBreak(Join(u) + " " + (Join(v) + t), 0) == |Join(u)|
  {
    JoinConcat(u, v);
    assert (Join(u) + " " + Join(v)) + t == Join(u) + " " + (Join(v) + t);
    WordsConcat(u, v);
    BreakOfWords(u + v, t);
    BreakPointBetween(u, v, t);
  }

  lemma BreakPointBetween(u: seq<string>, v: seq<string>, t: string)
    requires v != [] && FirstPiece(u + v) == |u|
    ensures BreakPoint(u + v, t) == |Join(u)|
  {
    assert (u + v)[..|u|] == u;
  }

  lemma WordsConcat(u: seq<string>, v: seq<string>)
    requires AreWords(u) && AreWords(v)
    ensures AreWords(u + v)
  {
  }

  lemma BlankPieces(t: string)
    requires Blank(t)
    ensures Clean(Pieces(t)) == []
  {
    BlankHasNoBreak(t, 0);
    StripBlank(t);
    assert Pieces(t)[1..] == [];
  }

  lemma TextsOfPieces(ws: seq<string>)
    requires ws != []
    ensures Texts(WordPieces(ws)) == [Join(ws[..FirstPiece(ws)])] + Texts(WordPieces(ws[FirstPiece(ws)..]))
  {
  }

  /** The pieces of single-spaced text are its words grouped after the ones that end a clause;
      white space at the end changes nothing. */
  lemma {:induction false} PiecesAreWords(ws: seq<string>, t: string)
    requires AreWords(ws) && Blank(t)
    ensures Clean(Pieces(Join(ws) + t)) == Texts(WordPieces(ws))
    decreases |ws|
  {
    if ws == [] {
      assert Join(ws) + t == t;
      BlankPieces(t);
    } else {
      var p := FirstPiece(ws);
      if p == |ws| {
        LastPiece(ws, t);
        assert ws[..p] == ws && WordPieces(ws[p..]) == [];
      } else {
        assert ws == ws[..p] + ws[p..];
        FirstOfPieces(ws[..p], ws[p..], t);
        PiecesAreWords(ws[p..], t);
        TextsOfPieces(ws);
      }
    }
  }

  // ---------------------------------------------------------------- merging pieces, folding words

  /** The last clause is at a point where a new one could start. */
  predicate Closed(out: seq<seq<string>>) {
    out == [] || EndsClause(out[|out| - 1])
  }

  predicate EndsClause(ws: seq<string>) {
    ws != [] && Ends(ws[|ws| - 1])
  }

  function MergePiece(out: seq<seq<string>>, piece: seq<string>, minChars: int): seq<seq<string>> {
    if out != [] && |Join(out[|out| - 1])| < minChars then out[..|out| - 1] + [out[|out| - 1] + piece]
    else out + [piece]
  }

  lemma {:induction false} AppendWords(out: seq<seq<string>>, ws: seq<string>, minChars: int)
    requires out != [] && out[|out| - 1] != []
    requires ws != [] ==> !EndsClause(out[|out| - 1])
    requires forall i :: 0 <= i < |ws| - 1 ==> !Ends(ws[i])
    ensures Fold(out, ws, minChars) == out[..|out| - 1] + [out[|out| - 1] + ws]
    decreases |ws|
  {
    var last := out[|out| - 1];
    if ws == [] {
      assert last + ws == last;
    } else {
      var next := Step(out, ws[0], minChars);
      assert next == out[..|out| - 1] + [last + [ws[0]]];
      AppendWords(next, ws[1..], minChars);
      assert last + [ws[0]] + ws[1..] == last + ws;
    }
  }

  lemma {:induction false} FirstPieceWords(ws: seq<string>)
    requires ws != []
    ensures forall i :: 0 <= i < FirstPiece(ws) - 1 ==> !Ends(ws[i])
    ensures FirstPiece(ws) < |ws| ==> Ends(ws[FirstPiece(ws) - 1])
  {
    if !Ends(ws[0]) && |ws| > 1 {
      FirstPieceWords(ws[1..]);
      assert forall i :: 0 < i < FirstPiece(ws) ==> ws[i] == ws[1..][i - 1];
    }
  }

  lemma PieceFold(out: seq<seq<string>>, piece: seq<string>, minChars: int)
    requires Closed(out) && piece != [] && forall i :: 0 <= i < |piece| - 1 ==> !Ends(piece[i])
    ensures Fold(out, piece, minChars) == MergePiece(out, piece, minChars)
  {
    if out != [] && |Join(out[|out| - 1])| < minChars {
      PieceGrows(out, out[..|out| - 1], out[|out| - 1], piece, minChars);
    } else {
      assert Step(out, piece[0], minChars) == out + [[piece[0]]];
      assert [] + [piece[0]] == [piece[0]];
      PieceGrows(out, out, [], piece, minChars);
      assert [] + piece == piece;
    }
  }

  lemma PieceGrows(out: seq<seq<string>>, front: seq<seq<string>>, last: seq<string>, piece: seq<string>, minChars: int)
    requires piece != [] && Step(out, piece[0], minChars) == front + [last + [piece[0]]]
    requires forall i :: 0 <= i < |piece| - 1 ==> !Ends(piece[i])
    ensures Fold(out, piece, minChars) == front + [last + piece]
  {
    var grown, rest := last + [piece[0]], piece[1..];
    LastOf(front, grown);
    assert forall i :: 0 <= i < |rest| - 1 ==> rest[i] == piece[i + 1];
    AppendWords(front + [grown], rest, minChars);
    assert grown + rest == last + piece;
  }

  lemma LastOf(front: seq<seq<string>>, last: seq<string>)
    ensures var out := front + [last]; out[|out| - 1] == last && out[..|out| - 1] == front
  {
  }

  lemma MergeTexts(out: seq<seq<string>>, piece: seq<string>, minChars: int)
    requires piece != [] && Closed(out)
    ensures Texts(MergePiece(out, piece, minChars)) == MergeStep(Texts(out), Join(piece), minChars)
  {
    if out != [] {
      var front, last := out[..|out| - 1], out[|out| - 1];
      assert out == front + [last];
      JoinConcat(last, piece);
      TextsSnoc(front, last);
      TextsSnoc(front, last + piece);
    }
    TextsSnoc(out, piece);
  }

  lemma TextsSnoc(front: seq<seq<string>>, last: seq<string>)
    ensures Texts(front + [last]) == Texts(front) + [Join(last)]
  {
  }

  lemma {:induction false} MergeIsFold(out: seq<seq<string>>, ws: seq<string>, minChars: int)
    requires Closed(out)
    ensures Merge(Texts(out), Texts(WordPieces(ws)), minChars) == Texts(Fold(out, ws, minChars))
    decreases |ws|
  {
    if ws != [] {
      var p := FirstPiece(ws);
      var u, v := ws[..p], ws[p..];
      assert ws == u + v;
      FirstPieceWords(ws);
      FoldConcat(out, u, v, minChars);
      PieceFold(out, u, minChars);
      MergeTexts(out, u, minChars);
      TextsOfPieces(ws);
      var next := MergePiece(out, u, minChars);
      MergeFirst(Texts(out), Join(u), Texts(WordPieces(v)), minChars);
      if v != [] {
        ClosedByPiece(out, u, minChars);
        MergeIsFold(next, v, minChars);
      }
    }
  }

  lemma MergeFirst(out: seq<string>, p: string, rest: seq<string>, minChars: int)
    ensures Merge(out, [p] + rest, minChars) == Merge(MergeStep(out, p, minChars), rest, minChars)
  {
    assert ([p] + rest)[1..] == rest;
  }

  lemma ClosedByPiece(out: seq<seq<string>>, piece: seq<string>, minChars: int)
    requires EndsClause(piece)
    ensures Closed(MergePiece(out, piece, minChars))
  {
    if out != [] {
      var grown := out[|out| - 1] + piece;
      assert grown[|grown| - 1] == piece[|piece| - 1];
    }
  }

  /** Splitting single-spaced text, with or without white space after it, is folding its words. */
  lemma SplitIsFold(ws: seq<string>, t: string, minChars: int)
    requires AreWords(ws) && Blank(t)
    ensures Split(Join(ws) + t, minChars) == Texts(Fold([], ws, minChars))
  {
    PiecesAreWords(ws, t);
    assert Texts([]) == [];
    MergeIsFold([], ws, minChars);
  }
}
