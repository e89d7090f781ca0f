/** What the units of any text are, character by character. */
module Clauses {
  import opened TextSplit
  import opened Words

  /** The characters that count as white space, one by one. */
  lemma SpacesAre(c: char)
    ensures IsSpace(c) <==> c as int in {
      0x09, 0x0A, 0x0B, 0x0C, 0x0D, 0x1C, 0x1D, 0x1E, 0x1F, 0x20, 0x85, 0xA0, 0x1680, 0x2000, 0x2001, 0x2002, 0x2003,
      0x2004, 0x2005, 0x2006, 0x2007, 0x2008, 0x2009, 0x200A, 0x2028, 0x2029, 0x202F, 0x205F, 0x3000 }
  {
  }

  // ---------------------------------------------------------------- pieces

  /** White space nowhere follows a terminator. */
  ghost predicate Unbroken(t: string) {
    forall j :: 0 < j < |t| && IsSpace(t[j]) ==> t[j - 1] !in ".!?;:"
  }

  lemma {:induction false} FirstBreakIs(s: string, i: nat)
    requires i <= |s|
    ensures var k := FirstBreak(s, i);
      && (forall j :: i <= j < k && 0 < j && IsSpace(s[j]) ==> s[j - 1] !in ".!?;:")
      && (k < |s| ==> k > 0 && IsSpace(s[k]) && s[k - 1] in ".!?;:")
    decreases |s| - i
  {
    if i < |s| && FirstBreak(s, i) != i {
      FirstBreakIs(s, i + 1);
    }
  }

  lemma {:induction false} RunIs(s: string, i: nat)
    requires i <= |s|
    ensures var k := RunEnd(s, i); Blank(s[i..k]) && (k < |s| ==> !IsSpace(s[k]))
    decreases |s| - i
  {
    if i < |s| && IsSpace(s[i]) {
      RunIs(s, i + 1);
      assert s[i..RunEnd(s, i)] == [s[i]] + s[i + 1..RunEnd(s, i)];
    }
  }

  /** No piece has white space right after one of the five terminators, and every piece but the last
      ends in one. */
  lemma {:induction false} PiecesAreUnbroken(s: string, p: nat)
    requires p < |Pieces(s)|
    ensures Unbroken(Pieces(s)[p])
    ensures p < |Pieces(s)| - 1 ==> Pieces(s)[p] != "" && Pieces(s)[p][|Pieces(s)[p]| - 1] in ".!?;:"
    decreases |s|
  {
    var k := FirstBreak(s, 0);
    FirstBreakIs(s, 0);
    if p > 0 {
      PiecesAreUnbroken(s[RunEnd(s, k)..], p - 1);
    } else {
      assert Unbroken(s[..k]);
      if k == |s| { assert s[..k] == s; }
    }
  }

  /** Pieces with the gaps between them. */
  function Weave(pieces: seq<string>, gaps: seq<string>): string
    requires |pieces| == |gaps| + 1
  {
    if gaps == [] then pieces[0] else pieces[0] + gaps[0] + Weave(pieces[1..], gaps[1..])
  }

  ghost predicate AreGaps(gaps: seq<string>) {
    forall i :: 0 <= i < |gaps| ==> gaps[i] != "" && Blank(gaps[i])
  }

  /** The text is its pieces with white space between them. */
  lemma {:induction false} PiecesWeave(s: string) returns (gaps: seq<string>)
    ensures |Pieces(s)| == |gaps| + 1 && AreGaps(gaps) && Weave(Pieces(s), gaps) == s
    decreases |s|
  {
    var k := FirstBreak(s, 0);
    if k == |s| {
      gaps := [];
    } else {
      var e := RunEnd(s, k);
      RunIs(s, k);
      var rest := PiecesWeave(s[e..]);
      gaps := [s[k..e]] + rest;
      WeaveStep(s[..k], s[k..e], Pieces(s[e..]), rest);
      ThreeParts(s, k, e);
    }
  }

  lemma ThreeParts(s: string, k: nat, e: nat)
    requires k <= e <= |s|
    ensures s == s[..k] + s[k..e] + s[e..]
  {
  }

  /** All the white space there is: no later piece starts with any. */
  lemma {:induction false} PieceStarts(s: string, p: nat)
    requires p < |Pieces(s)| && Pieces(s)[p] != "" && (p == 0 ==> !IsSpace(s[0]))
    ensures !IsSpace(Pieces(s)[p][0])
    decreases |s|
  {
    var k := FirstBreak(s, 0);
    if p > 0 {
      var e := RunEnd(s, k);
      RunIs(s, k);
      var rest := s[e..];
      assert Pieces(s)[p] == Pieces(rest)[p - 1];
      if p == 1 {
        FirstPieceStarts(rest);
        assert rest[0] == s[e];
      }
      PieceStarts(rest, p - 1);
    } else {
      FirstPieceStarts(s);
    }
  }

  lemma FirstPieceStarts(s: string)
    ensures |Pieces(s)| > 0 && (Pieces(s)[0] != "" ==> s != "" && Pieces(s)[0][0] == s[0])
  {
  }

  lemma WeaveStep(p: string, g: string, pieces: seq<string>, gaps: seq<string>)
    requires |pieces| == |gaps| + 1
    ensures Weave([p] + pieces, [g] + gaps) == p + g + Weave(pieces, gaps)
  {
    assert ([p] + pieces)[1..] == pieces && ([g] + gaps)[1..] == gaps;
  }

  // ---------------------------------------------------------------- nothing but white space is lost

  /** The characters that are not white space. */
  function Ink(s: string): string {
    if s == "" then "" else Ink(s[..|s| - 1]) + if IsSpace(s[|s| - 1]) then "" else [s[|s| - 1]]
  }

  lemma {:induction false} InkConcat(a: string, b: string)
    ensures Ink(a + b) == Ink(a) + Ink(b)
  {
    if b == "" {
      assert a + b == a;
    } else {
      InkConcat(a, b[..|b| - 1]);
      assert (a + b)[..|a + b| - 1] == a + b[..|b| - 1];
    }
  }

  lemma {:induction false} InkOfBlank(t: string)
    requires Blank(t)
    ensures Ink(t) == ""
  {
    if t != "" {
      InkOfBlank(t[..|t| - 1]);
    }
  }

  function InkOf(texts: seq<string>): string {
    if texts == [] then "" else Ink(texts[0]) + InkOf(texts[1..])
  }

  lemma {:induction false} InkOfWeave(pieces: seq<string>, gaps: seq<string>)
    requires |pieces| == |gaps| + 1 && AreGaps(gaps)
    ensures Ink(Weave(pieces, gaps)) == InkOf(pieces)
    decreases |gaps|
  {
    if gaps == [] {
      assert pieces[1..] == [];
    } else {
      InkOfWeave(pieces[1..], gaps[1..]);
      InkConcat(pieces[0] + gaps[0], Weave(pieces[1..], gaps[1..]));
      InkConcat(pieces[0], gaps[0]);
      InkOfBlank(gaps[0]);
    }
  }

  /** Stripping takes white space off both ends, all of it and nothing else. */
  lemma {:induction false} StripLeftIs(s: string) returns (l: string)
    ensures s == l + StripLeft(s) && Blank(l) && (StripLeft(s) != "" ==> !IsSpace(StripLeft(s)[0]))
  {
    l := "";
    if s != "" && IsSpace(s[0]) {
      var rest := StripLeftIs(s[1..]);
      l := [s[0]] + rest;
    }
  }

  lemma {:induction false} StripRightIs(s: string) returns (r: string)
    ensures s == StripRight(s) + r && Blank(r)
    ensures StripRight(s) != "" ==> !IsSpace(StripRight(s)[|StripRight(s)| - 1]) && StripRight(s)[0] == s[0]
  {
    r := "";
    if s != "" && IsSpace(s[|s| - 1]) {
      var rest := StripRightIs(s[..|s| - 1]);
      r := rest + [s[|s| - 1]];
    }
  }

  lemma StripIs(s: string) returns (l: string, r: string)
    ensures s == l + Strip(s) + r && Blank(l) && Blank(r)
    ensures Strip(s) != "" ==> !IsSpace(Strip(s)[0]) && !IsSpace(Strip(s)[|Strip(s)| - 1])
  {
    l := StripLeftIs(s);
    r := StripRightIs(StripLeft(s));
    assert s == l + (Strip(s) + r);
  }

  lemma InkOfStrip(s: string)
    ensures Ink(Strip(s)) == Ink(s)
  {
    var l, r := StripIs(s);
    InkConcat(l + Strip(s), r);
    InkConcat(l, Strip(s));
    InkOfBlank(l);
    InkOfBlank(r);
  }

  /** Trimmed and not empty. */
  predicate IsPart(p: string) {
    p != "" && !IsSpace(p[0]) && !IsSpace(p[|p| - 1])
  }

  lemma CleanStep(pieces: seq<string>)
    requires pieces != []
    ensures var p, rest := Strip(pieces[0]), Clean(pieces[1..]); Clean(pieces) == if p == "" then rest else [p] + rest
  {
    assert [] + Clean(pieces[1..]) == Clean(pieces[1..]);
  }

  lemma InkCons(p: string, rest: seq<string>)
    ensures InkOf([p] + rest) == Ink(p) + InkOf(rest)
  {
    assert ([p] + rest)[1..] == rest;
  }

  lemma {:induction false} CleanKeepsInk(pieces: seq<string>)
    ensures InkOf(Clean(pieces)) == InkOf(pieces)
  {
    if pieces != [] {
      CleanKeepsInk(pieces[1..]);
      CleanStep(pieces);
      InkOfStrip(pieces[0]);
      InkCons(Strip(pieces[0]), Clean(pieces[1..]));
    }
  }

  lemma {:induction false} CleanAreParts(pieces: seq<string>, i: nat)
    requires i < |Clean(pieces)|
    ensures IsPart(Clean(pieces)[i])
  {
    CleanStep(pieces);
    if Strip(pieces[0]) == "" {
      CleanAreParts(pieces[1..], i);
    } else if i > 0 {
      CleanAreParts(pieces[1..], i - 1);
    } else {
      var l, r := StripIs(pieces[0]);
    }
  }

  /** Every part is one of the pieces, trimmed. */
  lemma {:induction false} PartIsPiece(pieces: seq<string>, i: nat) returns (p: nat)
    requires i < |Clean(pieces)|
    ensures p < |pieces| && Clean(pieces)[i] == Strip(pieces[p])
  {
    if Strip(pieces[0]) == "" {
      p := PartIsPiece(pieces[1..], i);
      p := p + 1;
    } else if i == 0 {
      p := 0;
    } else {
      p := PartIsPiece(pieces[1..], i - 1);
      p := p + 1;
    }
  }

  /** So white space nowhere follows a terminator inside a part. */
  lemma PartsAreUnbroken(s: string, i: nat)
    requires i < |Clean(Pieces(s))|
    ensures Unbroken(Clean(Pieces(s))[i])
  {
    var p := PartIsPiece(Pieces(s), i);
    PiecesAreUnbroken(s, p);
    var l, r := StripIs(Pieces(s)[p]);
    var t := Strip(Pieces(s)[p]);
    forall j | 0 < j < |t| && IsSpace(t[j]) ensures t[j - 1] !in ".!?;:" {
      assert Pieces(s)[p][|l| + j] == t[j] && Pieces(s)[p][|l| + j - 1] == t[j - 1];
    }
  }

  // ---------------------------------------------------------------- units

  function Flat(groups: seq<seq<string>>): seq<string> {
    if groups == [] then [] else Flat(groups[..|groups| - 1]) + groups[|groups| - 1]
  }

  /** No unit could have been closed earlier: up to any break inside it is still too short. */
  ghost predicate NotEarlier(group: seq<string>, minChars: int) {
    group != [] && forall j :: 0 < j < |group| ==> |Join(group[..j])| < minChars
  }

  /** Each unit is a group of parts joined by single blanks, closed as soon as it is long enough and
      no sooner; only the last may be too short. */
  ghost predicate Grouping(groups: seq<seq<string>>, units: seq<string>, minChars: int) {
    && units == Texts(groups)
    && (forall i :: 0 <= i < |groups| ==> NotEarlier(groups[i], minChars))
    && (forall i :: 0 <= i < |groups| - 1 ==> |units[i]| >= minChars)
  }

  lemma {:induction false} MergeGroups(groups: seq<seq<string>>, units: seq<string>, parts: seq<string>, minChars: int)
    returns (all: seq<seq<string>>)
    requires Grouping(groups, units, minChars)
    ensures Grouping(all, Merge(units, parts, minChars), minChars) && Flat(all) == Flat(groups) + parts
    decreases |parts|
  {
    if parts == [] {
      all := groups;
      assert Flat(groups) + parts == Flat(groups);
    } else {
      var next := GroupStep(groups, units, parts[0], minChars);
      all := MergeGroups(next, MergeStep(units, parts[0], minChars), parts[1..], minChars);
      Regroup(Flat(groups), parts);
    }
  }

  lemma Regroup(before: seq<string>, parts: seq<string>)
    requires parts != []
    ensures before + [parts[0]] + parts[1..] == before + parts
  {
  }

  lemma GroupStep(groups: seq<seq<string>>, units: seq<string>, p: string, minChars: int)
      returns (next: seq<seq<string>>)
    requires Grouping(groups, units, minChars)
    ensures Grouping(next, MergeStep(units, p, minChars), minChars) && Flat(next) == Flat(groups) + [p]
  {
    if groups != [] && |units[|units| - 1]| < minChars {
      var front, last := groups[..|groups| - 1], groups[|groups| - 1];
      next := front + [last + [p]];
      assert groups == front + [last];
      JoinConcat(last, [p]);
      TextsSnoc(front, last);
      TextsSnoc(front, last + [p]);
      GrowGroup(last, p, minChars);
      FlatSnoc(front, last);
      FlatSnoc(front, last + [p]);
      assert Flat(front) + (last + [p]) == Flat(front) + last + [p];
    } else {
      next := groups + [[p]];
      TextsSnoc(groups, [p]);
      FlatSnoc(groups, [p]);
    }
  }

  lemma GrowGroup(group: seq<string>, p: string, minChars: int)
    requires NotEarlier(group, minChars) && |Join(group)| < minChars
    ensures NotEarlier(group + [p], minChars)
  {
    forall j | 0 < j < |group + [p]| ensures |Join((group + [p])[..j])| < minChars {
      assert (group + [p])[..j] == if j == |group| then group else group[..j];
    }
  }

  lemma FlatSnoc(groups: seq<seq<string>>, group: seq<string>)
    ensures Flat(groups + [group]) == Flat(groups) + group
  {
    assert (groups + [group])[..|groups|] == groups;
  }

  /** Any text at all: its units are its trimmed parts, grouped in order, each group closed as soon
      as it has `minChars` characters; the parts hold every character that is not white space, and
      none of them has white space after one of the five terminators. */
  lemma UnitsAre(text: string, minChars: int) returns (groups: seq<seq<string>>)
    ensures Grouping(groups, Split(text, minChars), minChars)
    ensures Flat(groups) == Clean(Pieces(text)) && InkOf(Flat(groups)) == Ink(text)
    ensures forall i :: 0 <= i < |Flat(groups)| ==> IsPart(Flat(groups)[i]) && Unbroken(Flat(groups)[i])
  {
    var parts := Clean(Pieces(text));
    groups := MergeGroups([], [], parts, minChars);
    assert [] + parts == parts;
    CleanKeepsInk(Pieces(text));
    var gaps := PiecesWeave(text);
    InkOfWeave(Pieces(text), gaps);
    forall i | 0 <= i < |parts| ensures IsPart(parts[i]) && Unbroken(parts[i]) {
      CleanAreParts(Pieces(text), i);
      PartsAreUnbroken(text, i);
    }
  }
}
