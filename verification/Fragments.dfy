/** Text that arrives in fragments: what pushes and the final flush emit, against splitting the
    whole text at once. */
module Fragments {
  import opened TextSplit
  import opened Words

  /** A blank when neither side supplies one. */
  function Bridge(buf: string, f: string): string {
    if buf != "" && f != "" && !IsSpace(buf[|buf| - 1]) && !IsSpace(f[0]) then " " else ""
  }

  function Joined(buf: string, f: string): string {
    buf + Bridge(buf, f) + f
  }

  datatype Pushed = Pushed(clauses: seq<string>, buf: string)

  /** The clauses one push completes and the text it holds back. */
  function PushText(buf: string, f: string, minChars: int): Pushed {
    var text := Joined(buf, f);
    var parts := Split(text, minChars);
    if |parts| <= 1 then Pushed([], text) else Pushed(parts[..|parts| - 1], parts[|parts| - 1])
  }

  function FlushText(buf: string): seq<string> {
    if Strip(buf) == "" then [] else [Strip(buf)]
  }

  function Feed(fragments: seq<string>, minChars: int): Pushed {
    if fragments == [] then Pushed([], "")
    else
      var before := Feed(fragments[..|fragments| - 1], minChars);
      var now := PushText(before.buf, fragments[|fragments| - 1], minChars);
      Pushed(before.clauses + now.clauses, now.buf)
  }

  /** Everything emitted for the fragments, flush included. */
  function Session(fragments: seq<string>, minChars: int): seq<string> {
    var end := Feed(fragments, minChars);
    end.clauses + FlushText(end.buf)
  }

  /** The text the pushes in effect assemble. */
  function Assembled(fragments: seq<string>): string {
    if fragments == [] then ""
    else Joined(Assembled(fragments[..|fragments| - 1]), fragments[|fragments| - 1])
  }

  function Concat(fragments: seq<string>): string {
    if fragments == [] then "" else Concat(fragments[..|fragments| - 1]) + fragments[|fragments| - 1]
  }

  /** No white space at the start, and everywhere else only single blanks. */
  predicate SingleSpaced(s: string) {
    && (s != "" ==> !IsSpace(s[0]))
    && forall i :: 0 <= i < |s| && IsSpace(s[i]) ==> s[i] == ' ' && (i + 1 < |s| ==> !IsSpace(s[i + 1]))
  }

  // ---------------------------------------------------------------- the words of a text

  lemma SingleSpacedPart(s: string, k: nat)
    requires SingleSpaced(s) && k <= |s|
    ensures SingleSpaced(s[..k])
    ensures k == 0 || k == |s| || !IsSpace(s[k]) ==> SingleSpaced(s[k..])
  {
    forall i | 0 <= i < |s[..k]| && IsSpace(s[..k][i])
      ensures s[..k][i] == ' ' && (i + 1 < k ==> !IsSpace(s[..k][i + 1]))
    {
      assert s[..k][i] == s[i];
    }
    forall i | 0 <= i < |s[k..]| && IsSpace(s[k..][i])
      ensures s[k..][i] == ' ' && (i + 1 < |s| - k ==> !IsSpace(s[k..][i + 1]))
    {
      assert s[k..][i] == s[k + i];
      assert i + 1 < |s| - k ==> s[k..][i + 1] == s[k + i + 1];
    }
  }

  ghost predicate Reads(s: string, ws: seq<string>, t: string) {
    s == Join(ws) + t && AreWords(ws) && (t == "" || t == " ") && (ws == [] ==> t == "")
  }

  /** Single-spaced text is words joined by blanks, with at most one blank at the end. */
  lemma {:induction false} WordsOf(s: string) returns (ws: seq<string>, t: string)
    requires SingleSpaced(s)
    ensures Reads(s, ws, t)
  {
    if s == "" {
      return [], "";
    }
    var front, c := s[..|s| - 1], s[|s| - 1];
    SingleSpacedPart(s, |s| - 1);
    var ws0, t0 := WordsOf(front);
    assert s == front + [c];
    ws, t := OneMore(front, c, ws0, t0);
  }

  lemma OneMore(front: string, c: char, ws: seq<string>, t: string) returns (ws': seq<string>, t': string)
    requires SingleSpaced(front + [c]) && Reads(front, ws, t)
    ensures Reads(front + [c], ws', t')
  {
    if IsSpace(c) {
      BlankAtEnd(front, c, ws, t);
      ws', t' := ws, " ";
    } else if ws == [] {
      ws', t' := [[c]], "";
    } else if t == " " {
      NewWord(ws, c);
      ws', t' := ws + [[c]], "";
    } else {
      var n := |ws| - 1;
      GrownWord(ws[..n], ws[n], c);
      assert ws == ws[..n] + [ws[n]];
      ws', t' := ws[..n] + [ws[n] + [c]], "";
    }
  }

  lemma BlankAtEnd(front: string, c: char, ws: seq<string>, t: string)
    requires SingleSpaced(front + [c]) && IsSpace(c) && Reads(front, ws, t)
    ensures c == ' ' && ws != [] && t == ""
  {
    var s := front + [c];
    assert s[|front|] == c;
    if front == "" {
      assert false;
    }
    assert s[|front| - 1] == front[|front| - 1];
  }

  lemma NewWord(ws: seq<string>, c: char)
    requires AreWords(ws) && ws != [] && !IsSpace(c)
    ensures AreWords(ws + [[c]]) && Join(ws + [[c]]) == Join(ws) + " " + [c]
  {
    JoinConcat(ws, [[c]]);
  }

  lemma GrownWord(u: seq<string>, w: string, c: char)
    requires AreWords(u + [w]) && !IsSpace(c)
    ensures AreWords(u + [w + [c]]) && Join(u + [w + [c]]) == Join(u + [w]) + [c]
  {
    assert (u + [w])[|u|] == w;
    assert forall i :: 0 <= i < |u| ==> u[i] == (u + [w])[i];
    ExtendLastWord(u, w, c);
  }

  lemma ExtendLastWord(u: seq<string>, w: string, c: char)
    ensures Join(u + [w + [c]]) == Join(u + [w]) + [c]
  {
    JoinLast(u, w);
    JoinLast(u, w + [c]);
  }

  lemma JoinLast(u: seq<string>, w: string)
    ensures Join(u + [w]) == if u == [] then w else Join(u) + " " + w
  {
    if u != [] {
      JoinConcat(u, [w]);
    }
  }

  // ---------------------------------------------------------------- the fold, clause by clause

  lemma Assoc(a: seq<seq<string>>, b: seq<seq<string>>, c: seq<seq<string>>)
    ensures (a + b) + c == a + (b + c)
  {
  }

  lemma StepAfter(front: seq<seq<string>>, pre: seq<seq<string>>, last: seq<string>, w: string, minChars: int)
    ensures Step(front + (pre + [last]), w, minChars) == front + Step(pre + [last], w, minChars)
  {
    StepLast(pre, last, w, minChars);
    StepLast(front + pre, last, w, minChars);
    Assoc(front, pre, [last]);
    Assoc(front, pre, Step([last], w, minChars));
  }

  lemma StepLast(pre: seq<seq<string>>, last: seq<string>, w: string, minChars: int)
    ensures Step(pre + [last], w, minChars) == pre + Step([last], w, minChars)
  {
    LastOf(pre, last);
    assert (pre + [last]) + [[w]] == pre + [last, [w]];
  }

  lemma {:induction false} FoldAfter(front: seq<seq<string>>, out: seq<seq<string>>, ws: seq<string>, minChars: int)
    requires out != []
    ensures Fold(front + out, ws, minChars) == front + Fold(out, ws, minChars)
    decreases |ws|
  {
    if ws != [] {
      var n := |out| - 1;
      assert out == out[..n] + [out[n]];
      StepAfter(front, out[..n], out[n], ws[0], minChars);
      FoldAfter(front, Step(out, ws[0], minChars), ws[1..], minChars);
    }
  }

  /** A clause that splits to itself, and is the end of the words so far. */
  ghost predicate Held(ws: seq<string>, front: seq<seq<string>>, last: seq<string>, minChars: int) {
    && last != [] && |last| <= |ws| && ws[|ws| - |last|..] == last
    && Fold([], ws, minChars) == front + [last]
    && Fold([], last, minChars) == [last]
    && (front == [] ==> last == ws)
  }

  /** The clause still growing is the end of the words so far, and splits to itself. */
  lemma {:induction false} LastClause(ws: seq<string>, minChars: int)
      returns (front: seq<seq<string>>, last: seq<string>)
    requires ws != []
    ensures Held(ws, front, last, minChars)
  {
    var w, before := ws[|ws| - 1], ws[..|ws| - 1];
    assert ws == before + [w];
    FoldConcat([], before, [w], minChars);
    if before == [] {
      front, last := [], [w];
    } else {
      front, last := LastClause(before, minChars);
      FoldConcat([], last, [w], minChars);
      StepLast(front, last, w, minChars);
      front, last := HeldStep(before, w, front, last, minChars);
    }
  }

  lemma HeldStep(before: seq<string>, w: string, front: seq<seq<string>>, last: seq<string>, minChars: int)
    returns (front': seq<seq<string>>, last': seq<string>)
    requires Held(before, front, last, minChars)
    requires Fold([], before + [w], minChars) == front + Step([last], w, minChars)
    requires Fold([], last + [w], minChars) == Step([last], w, minChars)
    ensures Held(before + [w], front', last', minChars)
  {
    if Ends(last[|last| - 1]) && |Join(last)| >= minChars {
      front', last' := front + [last], [w];
      assert front + [last, [w]] == front' + [last'];
      assert Fold([], [w], minChars) == [[w]];
    } else {
      front', last' := front, last + [w];
      assert Step([last], w, minChars) == [last + [w]];
      SuffixGrows(before, last, w);
    }
  }

  lemma SuffixGrows(s: seq<string>, end: seq<string>, w: string)
    requires |end| <= |s| && s[|s| - |end|..] == end
    ensures (s + [w])[|s| - |end|..] == end + [w]
  {
  }

  /** New words only touch the clause still growing. */
  lemma ClausesAfter(ws: seq<string>, front: seq<seq<string>>, last: seq<string>, more: seq<string>, minChars: int)
    requires Held(ws, front, last, minChars)
    ensures Fold([], ws + more, minChars) == front + Fold([], last + more, minChars)
  {
    FoldConcat([], ws, more, minChars);
    FoldConcat([], last, more, minChars);
    FoldAfter(front, [last], more, minChars);
  }

  // ---------------------------------------------------------------- one push

  /** Where the session stands after words `ws` and blank `t`: all clauses but the one still
      growing are out, and that one is in the buffer, with or without the blank. */
  ghost predicate Stands(p: Pushed, ws: seq<string>, t: string, minChars: int) {
    if ws == [] then p == Pushed([], "")
    else exists front, last ::
      Held(ws, front, last, minChars) && p.clauses == Texts(front) && (p.buf == Join(last) || p.buf == Join(last) + t)
  }

  /** The effect of a push once the buffer and the fragment are joined to `text`. */
  function Emit(clauses: seq<string>, text: string, minChars: int): Pushed {
    var parts := Split(text, minChars);
    if |parts| <= 1 then Pushed(clauses, text) else Pushed(clauses + parts[..|parts| - 1], parts[|parts| - 1])
  }

  lemma HeldAfter(ws: seq<string>, front: seq<seq<string>>, last: seq<string>, more: seq<string>, t: string,
      minChars: int)
    requires ws + more != [] && AreWords(ws + more) && Blank(t)
    requires if ws == [] then front == [] && last == [] else Held(ws, front, last, minChars)
    ensures Stands(Emit(Texts(front), Join(last + more) + t, minChars), ws + more, t, minChars)
  {
    var joined := last + more;
    JoinedWords(ws, front, last, more, minChars);
    var f, l := LastClause(joined, minChars);
    HeldWhole(ws, front, last, more, f, l, minChars);
    EmitHeld(front, joined, f, l, t, minChars);
    assert Emit(Texts(front), Join(joined) + t, minChars).clauses == Texts(front + f);
  }

  lemma JoinedWords(ws: seq<string>, front: seq<seq<string>>, last: seq<string>, more: seq<string>, minChars: int)
    requires ws + more != [] && AreWords(ws + more)
    requires if ws == [] then last == [] else Held(ws, front, last, minChars)
    ensures last + more != [] && AreWords(last + more)
  {
    var joined, k := last + more, |ws| - |last|;
    if ws != [] {
      SuffixConcat(ws, last, more);
    }
    forall i | 0 <= i < |joined| ensures IsWord(joined[i]) {
      assert joined[i] == (ws + more)[k + i];
    }
  }

  lemma SuffixConcat(s: seq<string>, end: seq<string>, more: seq<string>)
    requires |end| <= |s| && s[|s| - |end|..] == end
    ensures (s + more)[|s| - |end|..] == end + more
  {
  }

  /** What is emitted and kept when the text splits into clauses `f` and then `l`. */
  lemma EmitHeld(front: seq<seq<string>>, ws: seq<string>, f: seq<seq<string>>, l: seq<string>, t: string,
      minChars: int)
    requires AreWords(ws) && Blank(t) && Held(ws, f, l, minChars)
    ensures Emit(Texts(front), Join(ws) + t, minChars)
         == Pushed(Texts(front + f), if f == [] then Join(l) + t else Join(l))
  {
    SplitIsFold(ws, t, minChars);
    TextsSnoc(f, l);
    TextsConcat(front, f);
    var parts := Split(Join(ws) + t, minChars);
    assert parts == Texts(f) + [Join(l)];
    if f != [] {
      assert parts[..|parts| - 1] == Texts(f);
    } else {
      assert front + f == front;
    }
  }

  lemma TextsConcat(u: seq<seq<string>>, v: seq<seq<string>>)
    ensures Texts(u + v) == Texts(u) + Texts(v)
  {
  }

  lemma HeldWhole(ws: seq<string>, front: seq<seq<string>>, last: seq<string>, more: seq<string>, f: seq<seq<string>>,
      l: seq<string>, minChars: int)
    requires if ws == [] then front == [] && last == [] else Held(ws, front, last, minChars)
    requires last + more != [] && Held(last + more, f, l, minChars)
    ensures Held(ws + more, front + f, l, minChars)
  {
    if ws == [] {
      assert last + more == more && ws + more == more;
      assert front + f == f;
    } else {
      FoldWhole(ws, front, last, more, f, l, minChars);
      EndWhole(ws, last, more, l);
      NoFront(front, f);
    }
  }

  lemma NoFront(u: seq<seq<string>>, v: seq<seq<string>>)
    ensures u + v == [] <==> u == [] && v == []
  {
    assert |u + v| == |u| + |v|;
  }

  lemma EndWhole(ws: seq<string>, last: seq<string>, more: seq<string>, l: seq<string>)
    requires |last| <= |ws| && ws[|ws| - |last|..] == last
    requires |l| <= |last + more| && (last + more)[|last + more| - |l|..] == l
    ensures |l| <= |ws + more| && (ws + more)[|ws + more| - |l|..] == l
  {
    SuffixConcat(ws, last, more);
    SuffixOfSuffix(ws + more, last + more, l);
  }

  lemma FoldWhole(ws: seq<string>, front: seq<seq<string>>, last: seq<string>, more: seq<string>, f: seq<seq<string>>,
      l: seq<string>, minChars: int)
    requires Held(ws, front, last, minChars) && Fold([], last + more, minChars) == f + [l]
    ensures Fold([], ws + more, minChars) == (front + f) + [l]
  {
    ClausesAfter(ws, front, last, more, minChars);
    Assoc(front, f, [l]);
  }

  lemma SuffixOfSuffix(s: seq<string>, mid: seq<string>, end: seq<string>)
    requires |end| <= |mid| <= |s| && s[|s| - |mid|..] == mid && mid[|mid| - |end|..] == end
    ensures s[|s| - |end|..] == end
  {
  }

  // ---------------------------------------------------------------- the session

  /** What follows earlier words. */
  function After(more: seq<string>): string {
    if more == [] then "" else " " + Join(more)
  }

  lemma JoinAfter(ws: seq<string>, more: seq<string>)
    requires ws != []
    ensures Join(ws + more) == Join(ws) + After(more)
  {
    if more == [] {
      assert ws + more == ws;
    } else {
      JoinConcat(ws, more);
    }
  }

  /** What a fragment adds to words, the joining blank included, is more words after a blank. */
  lemma NewWords(acc: string, r: string, ws: seq<string>, t: string) returns (more: seq<string>, t': string)
    requires SingleSpaced(acc + r) && Reads(acc, ws, t) && ws != []
    requires r == "" || IsSpace(acc[|acc| - 1]) || IsSpace(r[0])
    ensures AreWords(more) && (t' == "" || t' == " ") && t + r == After(more) + t'
  {
    if r == "" {
      return [], t;
    }
    LeadingBlank(acc, r, ws, t);
    var k := if t == "" then |acc| + 1 else |acc|;
    var y := (acc + r)[k..];
    assert t + r == " " + y;
    SingleSpacedPart(acc + r, k);
    more, t' := WordsOf(y);
    if more == [] {
      t' := " ";
    }
  }

  /** After words either the blank is there already or the fragment brings it. */
  lemma LeadingBlank(acc: string, r: string, ws: seq<string>, t: string)
    requires SingleSpaced(acc + r) && Reads(acc, ws, t) && ws != [] && r != ""
    requires IsSpace(acc[|acc| - 1]) || IsSpace(r[0])
    ensures t == "" ==> r[0] == ' '
    ensures var k := if t == "" then |acc| + 1 else |acc|; k == |acc + r| || !IsSpace((acc + r)[k])
  {
    JoinEnds(ws);
    var s := acc + r;
    assert s[|acc|] == r[0] && s[|acc| - 1] == acc[|acc| - 1];
    if t == "" {
      assert acc == Join(ws);
    } else {
      assert acc[|acc| - 1] == ' ';
    }
  }

  lemma {:induction false} AssembledPrefix(fragments: seq<string>)
    requires fragments != [] && SingleSpaced(Assembled(fragments))
    ensures SingleSpaced(Assembled(fragments[..|fragments| - 1]))
  {
    var acc := Assembled(fragments[..|fragments| - 1]);
    assert Assembled(fragments)[..|acc|] == acc;
    SingleSpacedPart(Assembled(fragments), |acc|);
  }

  /** After every push all clauses but the one still growing have been emitted. */
  lemma {:induction false} SessionStands(fragments: seq<string>, minChars: int) returns (ws: seq<string>, t: string)
    requires SingleSpaced(Assembled(fragments))
    ensures Reads(Assembled(fragments), ws, t) && Stands(Feed(fragments, minChars), ws, t, minChars)
  {
    if fragments == [] {
      return [], "";
    }
    var front, f := fragments[..|fragments| - 1], fragments[|fragments| - 1];
    AssembledPrefix(fragments);
    var ws0, t0 := SessionStands(front, minChars);
    ws, t := PushStands(Assembled(front), f, Feed(front, minChars), ws0, t0, minChars);
  }

  lemma PushStands(acc: string, f: string, p: Pushed, ws: seq<string>, t: string, minChars: int)
      returns (ws': seq<string>, t': string)
    requires SingleSpaced(Joined(acc, f)) && Reads(acc, ws, t) && Stands(p, ws, t, minChars)
    ensures Reads(Joined(acc, f), ws', t')
    ensures var now := PushText(p.buf, f, minChars); Stands(Pushed(p.clauses + now.clauses, now.buf), ws', t', minChars)
  {
    EmitIsPush(p, f, minChars);
    if ws == [] {
      assert acc == "" && p == Pushed([], "") && Joined(acc, f) == f == Joined(p.buf, f);
      ws', t' := WordsOf(f);
      FirstPush(f, ws', t', minChars);
    } else {
      var fr, last :| Held(ws, fr, last, minChars) && p.clauses == Texts(fr)
        && (p.buf == Join(last) || p.buf == Join(last) + t);
      var more;
      more, t' := LaterPush(acc, f, p, ws, t, fr, last, minChars);
      ws' := ws + more;
    }
  }

  lemma FirstPush(f: string, ws: seq<string>, t: string, minChars: int)
    requires Reads(f, ws, t)
    ensures Stands(Emit([], f, minChars), ws, t, minChars)
  {
    SplitIsFold(ws, t, minChars);
    if ws != [] {
      assert [] + ws == ws && Texts([]) == [];
      HeldAfter([], [], [], ws, t, minChars);
    }
  }

  lemma LaterPush(acc: string, f: string, p: Pushed, ws: seq<string>, t: string, fr: seq<seq<string>>,
      last: seq<string>, minChars: int)
    returns (more: seq<string>, t': string)
    requires SingleSpaced(Joined(acc, f)) && Reads(acc, ws, t) && ws != [] && Held(ws, fr, last, minChars)
    requires p.clauses == Texts(fr) && (p.buf == Join(last) || p.buf == Join(last) + t)
    ensures Reads(Joined(acc, f), ws + more, t')
    ensures Stands(Emit(p.clauses, Joined(p.buf, f), minChars), ws + more, t', minChars)
  {
    var r := Bridge(acc, f) + f;
    JoinedIs(acc, f);
    BridgeFits(acc, f, ws, t);
    more, t' := NewWords(acc, r, ws, t);
    TextAfter(acc, r, ws, t, more, t');
    var b := BufferJoins(acc, f, p.buf, ws, t, last, more, t');
    HeldAfter(ws, fr, last, more, b, minChars);
    StandsWeaken(Emit(p.clauses, Joined(p.buf, f), minChars), ws + more, b, t', minChars);
  }

  lemma JoinedIs(buf: string, f: string)
    ensures Joined(buf, f) == buf + (Bridge(buf, f) + f)
  {
  }

  lemma BridgeFits(acc: string, f: string, ws: seq<string>, t: string)
    requires Reads(acc, ws, t) && ws != []
    ensures acc != ""
    ensures var r := Bridge(acc, f) + f; r == "" || IsSpace(acc[|acc| - 1]) || IsSpace(r[0])
  {
    JoinEnds(ws);
  }

  lemma TextAfter(acc: string, r: string, ws: seq<string>, t: string, more: seq<string>, t': string)
    requires Reads(acc, ws, t) && ws != [] && AreWords(more)
    requires (t' == "" || t' == " ") && t + r == After(more) + t'
    ensures Reads(acc + r, ws + more, t')
  {
    JoinAfter(ws, more);
    Regroup(Join(ws), t, r, After(more), t');
    WordsConcat(ws, more);
  }

  lemma Regroup(a: string, t: string, r: string, m: string, t': string)
    requires t + r == m + t'
    ensures (a + t) + r == (a + m) + t' == a + (m + t')
  {
    assert (a + t) + r == a + (t + r);
  }

  lemma EmitIsPush(p: Pushed, f: string, minChars: int)
    ensures var now := PushText(p.buf, f, minChars);
      Pushed(p.clauses + now.clauses, now.buf) == Emit(p.clauses, Joined(p.buf, f), minChars)
  {
    assert p.clauses + [] == p.clauses;
  }

  lemma StandsWeaken(p: Pushed, ws: seq<string>, b: string, t: string, minChars: int)
    requires Stands(p, ws, b, minChars) && (b == "" || b == t)
    ensures Stands(p, ws, t, minChars)
  {
    if ws != [] {
      var front, last :| Held(ws, front, last, minChars) && p.clauses == Texts(front)
        && (p.buf == Join(last) || p.buf == Join(last) + b);
      assert b == "" ==> Join(last) + b == Join(last);
    }
  }

  /** The buffer after joining holds the growing clause with the new words. */
  lemma BufferJoins(acc: string, f: string, buf: string, ws: seq<string>, t: string, last: seq<string>,
      more: seq<string>, t': string)
    returns (b: string)
    requires SingleSpaced(Joined(acc, f)) && Reads(acc, ws, t)
    requires last != [] && |last| <= |ws| && ws[|ws| - |last|..] == last && (buf == Join(last) || buf == Join(last) + t)
    requires AreWords(more) && (t' == "" || t' == " ") && t + (Bridge(acc, f) + f) == After(more) + t'
    ensures Joined(buf, f) == Join(last + more) + b && (b == "" || b == t') && Blank(b)
  {
    if f == "" && buf != Join(last) + t {
      KeptBuffer(acc, t, last, more, t');
      b := "";
    } else {
      Rejoined(acc, f, buf, ws, t, last, more, t');
      b := t';
    }
  }

  lemma Rejoined(acc: string, f: string, buf: string, ws: seq<string>, t: string, last: seq<string>,
      more: seq<string>, t': string)
    requires SingleSpaced(Joined(acc, f)) && Reads(acc, ws, t)
    requires last != [] && |last| <= |ws| && ws[|ws| - |last|..] == last
    requires buf == Join(last) + t || (buf == Join(last) && f != "")
    requires t + (Bridge(acc, f) + f) == After(more) + t'
    ensures Joined(buf, f) == Join(last + more) + t'
  {
    SameEnd(acc, ws, t, last);
    JoinAfter(last, more);
    SameJoin(acc, f, buf, Join(last), t);
    Regroup(Join(last), t, Bridge(acc, f) + f, After(more), t');
  }

  lemma SameEnd(acc: string, ws: seq<string>, t: string, last: seq<string>)
    requires Reads(acc, ws, t) && last != [] && |last| <= |ws| && ws[|ws| - |last|..] == last
    ensures Join(last) != "" && !IsSpace(Join(last)[|Join(last)| - 1])
    ensures |acc| > |t| && acc[|acc| - |t|..] == t && acc[|acc| - |t| - 1] == Join(last)[|Join(last)| - 1]
  {
    JoinEnds(ws);
    JoinEnds(last);
    assert last[|last| - 1] == ws[|ws| - 1];
  }

  lemma KeptBuffer(acc: string, t: string, last: seq<string>, more: seq<string>, t': string)
    requires AreWords(more) && |t| <= 1 && t + (Bridge(acc, "") + "") == After(more) + t'
    ensures Joined(Join(last), "") == Join(last + more) + ""
  {
    assert t + (Bridge(acc, "") + "") == t;
    NothingNew(more, t', t);
    assert last + more == last;
    KeptText(Join(last));
  }

  lemma KeptText(s: string)
    ensures Joined(s, "") == s + "" == s
  {
  }

  lemma NothingNew(more: seq<string>, t': string, t: string)
    requires AreWords(more) && |t| <= 1 && t == After(more) + t'
    ensures more == []
  {
    if more != [] {
      JoinEnds(more);
      assert false;
    }
  }

  /** Joining a fragment to a buffer whose blank was stripped puts the blank back. */
  lemma SameJoin(acc: string, f: string, buf: string, own: string, t: string)
    requires SingleSpaced(Joined(acc, f)) && (t == "" || t == " ")
    requires own != "" && !IsSpace(own[|own| - 1])
    requires |acc| > |t| && acc[|acc| - |t|..] == t && acc[|acc| - |t| - 1] == own[|own| - 1]
    requires buf == own + t || (buf == own && f != "")
    ensures Joined(buf, f) == own + (t + (Bridge(acc, f) + f))
  {
    JoinedIs(buf, f);
    if t == "" {
      assert own + t == own && t + (Bridge(acc, f) + f) == Bridge(acc, f) + f;
    } else {
      assert acc[|acc| - 1] == acc[|acc| - 1..][0] == ' ';
      assert Bridge(acc, f) + f == f;
      BlankThenWord(acc, f, own, buf);
    }
  }

  lemma BlankThenWord(acc: string, f: string, own: string, buf: string)
    requires SingleSpaced(Joined(acc, f)) && acc != "" && acc[|acc| - 1] == ' '
    requires own != "" && !IsSpace(own[|own| - 1])
    requires buf == own + " " || (buf == own && f != "")
    ensures Joined(buf, f) == own + (" " + f)
  {
    if f != "" && buf == own {
      var s := Joined(acc, f);
      assert s[|acc|] == f[0] && s[|acc| - 1] == ' ';
    } else {
      assert buf[|buf| - 1] == ' ';
      assert Bridge(buf, f) == "";
    }
  }

  // ---------------------------------------------------------------- the theorems

  /** Online agrees with offline: however single-spaced text is cut, the clauses emitted by the
      pushes and the final flush are those of splitting the assembled text at once. */
  lemma SessionIsSplit(fragments: seq<string>, minChars: int)
    requires SingleSpaced(Assembled(fragments))
    ensures Session(fragments, minChars) == Split(Assembled(fragments), minChars)
  {
    var ws, t := SessionStands(fragments, minChars);
    SplitIsFold(ws, t, minChars);
    StandsFlushed(Feed(fragments, minChars), ws, t, minChars);
  }

  lemma StandsFlushed(end: Pushed, ws: seq<string>, t: string, minChars: int)
    requires Stands(end, ws, t, minChars) && AreWords(ws) && Blank(t)
    ensures end.clauses + FlushText(end.buf) == Texts(Fold([], ws, minChars))
  {
    if ws != [] {
      var front, last :| Held(ws, front, last, minChars) && end.clauses == Texts(front)
        && (end.buf == Join(last) || end.buf == Join(last) + t);
      LastFlush(last, t);
      assert Texts(front + [last]) == Texts(front) + [Join(last)];
    }
  }

  lemma LastFlush(last: seq<string>, t: string)
    requires AreWords(last) && last != [] && Blank(t)
    ensures FlushText(Join(last)) == FlushText(Join(last) + t) == [Join(last)]
  {
    JoinEnds(last);
    StripJoined(Join(last), t);
    StripJoined(Join(last), "");
    assert Join(last) + "" == Join(last);
  }

  /** A fragment that starts in the middle of a word: a character that is no white space on either
      side of the cut. */
  predicate CutsWord(fragments: seq<string>, k: nat)
    requires k < |fragments|
  {
    var before, f := Concat(fragments[..k]), fragments[k];
    before != "" && f != "" && !IsSpace(before[|before| - 1]) && !IsSpace(f[0])
  }

  ghost predicate CutAtBlanks(fragments: seq<string>) {
    forall k :: 0 <= k < |fragments| ==> !CutsWord(fragments, k)
  }

  predicate SameEnding(a: string, b: string) {
    (a == "" <==> b == "") && (a != "" ==> a[|a| - 1] == b[|b| - 1])
  }

  lemma JoinedKeeps(acc: string, f: string)
    requires SingleSpaced(acc)
      && (f == "" || SingleSpaced(f) || (f[0] == ' ' && acc != "" && !IsSpace(acc[|acc| - 1]) && SingleSpaced(f[1..])))
    requires f != "" && acc != "" && IsSpace(acc[|acc| - 1]) ==> !IsSpace(f[0])
    ensures SingleSpaced(Joined(acc, f))
  {
    var s := Joined(acc, f);
    var b := Bridge(acc, f);
    forall i | 0 <= i < |s| && IsSpace(s[i])
      ensures s[i] == ' ' && (i + 1 < |s| ==> !IsSpace(s[i + 1]))
    {
      if i < |acc| {
        assert s[i] == acc[i];
        if i + 1 < |acc| { assert s[i + 1] == acc[i + 1]; }
      } else if i >= |acc| + |b| {
        var j := i - |acc| - |b|;
        assert s[i] == f[j];
        if j + 1 < |f| { assert s[i + 1] == f[j + 1]; }
        if !SingleSpaced(f) && j > 0 {
          assert f[j] == f[1..][j - 1];
          if j + 1 < |f| { assert f[j + 1] == f[1..][j]; }
        } else if !SingleSpaced(f) {
          if 1 < |f| { assert f[1..][0] == f[1]; }
        }
      }
    }
  }

  /** A piece of single-spaced text is single-spaced, up to a blank in front. */
  lemma PieceSpacing(acc: string, f: string)
    requires SingleSpaced(acc + f)
    ensures SingleSpaced(acc)
    ensures f == "" || SingleSpaced(f) || (f[0] == ' ' && acc != "" && !IsSpace(acc[|acc| - 1]) && SingleSpaced(f[1..]))
    ensures f != "" && acc != "" && IsSpace(acc[|acc| - 1]) ==> !IsSpace(f[0])
  {
    var s, k := acc + f, |acc|;
    SingleSpacedPart(s, k);
    assert s[..k] == acc && s[k..] == f;
    if f != "" {
      assert s[k] == f[0];
      if acc != "" { assert s[k - 1] == acc[k - 1]; }
      if IsSpace(f[0]) {
        if |f| > 1 { assert s[k + 1] == f[1]; }
        SingleSpacedPart(s, k + 1);
        assert s[k + 1..] == f[1..];
      }
    }
  }

  /** The assembled text is the text itself with a blank put in at every cut inside a word. */
  lemma {:induction false} AssembledIs(fragments: seq<string>)
    requires SingleSpaced(Concat(fragments))
    ensures SingleSpaced(Assembled(fragments)) && SameEnding(Assembled(fragments), Concat(fragments))
    ensures |Assembled(fragments)| >= |Concat(fragments)|
    ensures if CutAtBlanks(fragments) then Assembled(fragments) == Concat(fragments)
      else |Assembled(fragments)| > |Concat(fragments)|
  {
    if fragments != [] {
      var front, f := fragments[..|fragments| - 1], fragments[|fragments| - 1];
      PieceSpacing(Concat(front), f);
      AssembledIs(front);
      CutAtBlanksStep(fragments);
      GrownAlike(Assembled(front), Concat(front), f);
    }
  }

  lemma GrownAlike(a: string, c: string, f: string)
    requires SingleSpaced(a) && SingleSpaced(c + f) && SameEnding(a, c) && |a| >= |c|
    ensures SingleSpaced(Joined(a, f)) && SameEnding(Joined(a, f), c + f)
    ensures |Joined(a, f)| == |a| + |Bridge(c, f)| + |f|
    ensures a == c && Bridge(c, f) == "" ==> Joined(a, f) == c + f
  {
    PieceSpacing(c, f);
    JoinedKeeps(a, f);
    SameBridge(a, c, f);
    assert a + "" == a;
  }

  lemma SameBridge(a: string, b: string, f: string)
    requires SameEnding(a, b)
    ensures Bridge(a, f) == Bridge(b, f)
    ensures SameEnding(Joined(a, f), b + f) && |Joined(a, f)| == |a| + |Bridge(b, f)| + |f|
  {
    if f == "" {
      assert b + f == b && a + "" + f == a;
    } else {
      EndOf(a + Bridge(a, f), f);
      EndOf(b, f);
    }
  }

  lemma EndOf(a: string, f: string)
    requires f != ""
    ensures (a + f)[|a + f| - 1] == f[|f| - 1]
  {
  }

  lemma CutAtBlanksStep(fragments: seq<string>)
    requires fragments != []
    ensures CutAtBlanks(fragments)
      <==> CutAtBlanks(fragments[..|fragments| - 1]) && !CutsWord(fragments, |fragments| - 1)
  {
    var n := |fragments| - 1;
    var front := fragments[..n];
    forall k | 0 <= k < n ensures CutsWord(fragments, k) <==> CutsWord(front, k) {
      assert fragments[..k] == front[..k];
    }
  }

  /** Joining the clauses gives the text back. */
  lemma SplitLosesNothing(ws: seq<string>, minChars: int)
    requires AreWords(ws)
    ensures Join(Split(Join(ws), minChars)) == Join(ws)
  {
    SplitIsFold(ws, "", minChars);
    assert Join(ws) + "" == Join(ws);
    FoldKeepsText([], ws, minChars);
    assert Texts([]) == [] && [] + ws == ws;
  }

  lemma {:induction false} FoldKeepsText(out: seq<seq<string>>, ws: seq<string>, minChars: int)
    requires forall i :: 0 <= i < |out| ==> out[i] != []
    ensures Join(Texts(Fold(out, ws, minChars))) == Join(Texts(out) + ws)
    decreases |ws|
  {
    if ws == [] {
      assert Texts(out) + ws == Texts(out);
    } else {
      var next := Step(out, ws[0], minChars);
      StepKeepsClauses(out, ws[0], minChars);
      FoldKeepsText(next, ws[1..], minChars);
      StepKeepsText(out, ws[0], ws[1..], minChars);
      assert [ws[0]] + ws[1..] == ws;
    }
  }

  lemma StepKeepsClauses(out: seq<seq<string>>, w: string, minChars: int)
    requires forall i :: 0 <= i < |out| ==> out[i] != []
    ensures var next := Step(out, w, minChars); forall i :: 0 <= i < |next| ==> next[i] != []
  {
  }

  lemma StepKeepsText(out: seq<seq<string>>, w: string, rest: seq<string>, minChars: int)
    requires forall i :: 0 <= i < |out| ==> out[i] != []
    ensures Join(Texts(Step(out, w, minChars)) + rest) == Join(Texts(out) + ([w] + rest))
  {
    var next := Step(out, w, minChars);
    if out == [] || next == out + [[w]] {
      assert Texts(next) + rest == Texts(out) + ([w] + rest);
    } else {
      var front, last := out[..|out| - 1], out[|out| - 1];
      JoinConcat(last, [w]);
      JoinTwo(Texts(front), Join(last), w, rest);
      assert Texts(next) + rest == Texts(front) + ([Join(last) + " " + w] + rest);
      assert Texts(out) + ([w] + rest) == Texts(front) + ([Join(last), w] + rest);
    }
  }

  lemma JoinTwo(u: seq<string>, x: string, y: string, v: seq<string>)
    ensures Join(u + ([x + " " + y] + v)) == Join(u + ([x, y] + v))
  {
    var one, two := [x + " " + y] + v, [x, y] + v;
    assert two[1..] == [y] + v && ([y] + v)[1..] == v && one[1..] == v;
    assert Join(one) == Join(two) by {
      if v != [] { assert Join(two) == x + " " + (y + " " + Join(v)); }
    }
    if u == [] {
      assert u + one == one && u + two == two;
    } else {
      JoinConcat(u, one);
      JoinConcat(u, two);
    }
  }

  /** Single-spaced text cut into fragments anyhow: what is emitted is the split of the text if
      and only if no fragment starts in the middle of a word.  At such a cut `push` puts in a
      blank, which is heard. */
  lemma FragmentationIsInvisibleIff(fragments: seq<string>, minChars: int)
    requires SingleSpaced(Concat(fragments))
    ensures Session(fragments, minChars) == Split(Concat(fragments), minChars) <==> CutAtBlanks(fragments)
  {
    var text, glued := Concat(fragments), Assembled(fragments);
    AssembledIs(fragments);
    SessionIsSplit(fragments, minChars);
    if !CutAtBlanks(fragments) {
      LongerSplitsApart(text, glued, minChars);
    }
  }

  lemma LongerSplitsApart(text: string, glued: string, minChars: int)
    requires SingleSpaced(text) && SingleSpaced(glued) && SameEnding(glued, text) && |glued| > |text|
    ensures Split(glued, minChars) != Split(text, minChars)
  {
    JoinedBack(text, minChars);
    JoinedBack(glued, minChars);
  }

  /** Splitting loses nothing but a blank at the end. */
  lemma JoinedBack(s: string, minChars: int)
    requires SingleSpaced(s)
    ensures |Join(Split(s, minChars))| == |s| - if EndsBlank(s) then 1 else 0
  {
    var ws, t := WordsOf(s);
    SplitIsFold(ws, t, minChars);
    SplitIsFold(ws, "", minChars);
    assert Join(ws) + "" == Join(ws);
    SplitLosesNothing(ws, minChars);
    BlankOnlyAtEnd(ws, t);
  }

  predicate EndsBlank(s: string) {
    s != "" && IsSpace(s[|s| - 1])
  }

  lemma BlankOnlyAtEnd(ws: seq<string>, t: string)
    requires AreWords(ws) && (t == "" || t == " ") && (ws == [] ==> t == "")
    ensures EndsBlank(Join(ws) + t) <==> t == " "
  {
    if ws != [] {
      JoinEnds(ws);
      assert Join(ws) + "" == Join(ws);
    }
  }
}
