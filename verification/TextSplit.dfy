/** `split_for_streaming`: splitting text into synthesis units. */
module TextSplit {
  /** The characters Python counts as white space. */
  predicate IsSpace(c: char) {
    var n := c as int;
    || 9 <= n <= 13 || 28 <= n <= 32 || n == 0x85 || n == 0xA0 || n == 0x1680 || 0x2000 <= n <= 0x200A
    || n == 0x2028 || n == 0x2029 || n == 0x202F || n == 0x205F || n == 0x3000
  }

  predicate IsTerminator(c: char) {
    c == '.' || c == '!' || c == '?' || c == ';' || c == ':'
  }

  // ---------------------------------------------------------------- the boundary rule

  /** The first white space at `i` or later that follows a terminator, or the end. */
  function FirstBreak(s: string, i: nat): (k: nat)
    requires i <= |s|
    ensures i <= k <= |s|
    ensures k < |s| ==> IsSpace(s[k])
    decreases |s| - i
  {
    if i == |s| then |s|
    else if i > 0 && IsSpace(s[i]) && IsTerminator(s[i - 1]) then i
    else FirstBreak(s, i + 1)
  }

  function RunEnd(s: string, i: nat): (k: nat)
    requires i <= |s|
    ensures i <= k <= |s|
    ensures i < |s| && IsSpace(s[i]) ==> i < k
    decreases |s| - i
  {
    if i < |s| && IsSpace(s[i]) then RunEnd(s, i + 1) else i
  }

  /** Splitting at runs of white space that follow a terminator.  What remains after a run starts
      with no white space, so it can be split as a text of its own. */
  function Pieces(s: string): seq<string>
    decreases |s|
  {
    var k := FirstBreak(s, 0);
    if k == |s| then [s] else [s[..k]] + Pieces(s[RunEnd(s, k)..])
  }

  function StripLeft(s: string): string {
    if s != "" && IsSpace(s[0]) then StripLeft(s[1..]) else s
  }

  function StripRight(s: string): string {
    if s != "" && IsSpace(s[|s| - 1]) then StripRight(s[..|s| - 1]) else s
  }

  function Strip(s: string): string {
    StripRight(StripLeft(s))
  }

  /** Stripped, empty ones dropped. */
  function Clean(pieces: seq<string>): seq<string> {
    if pieces == [] then []
    else (if Strip(pieces[0]) == "" then [] else [Strip(pieces[0])]) + Clean(pieces[1..])
  }

  // ---------------------------------------------------------------- merging

  function MergeStep(out: seq<string>, p: string, minChars: int): seq<string> {
    if out != [] && |out[|out| - 1]| < minChars then out[..|out| - 1] + [out[|out| - 1] + " " + p]
    else out + [p]
  }

  function Merge(out: seq<string>, parts: seq<string>, minChars: int): seq<string>
    decreases |parts|
  {
    if parts == [] then out else Merge(MergeStep(out, parts[0], minChars), parts[1..], minChars)
  }

  function Split(text: string, minChars: int): seq<string> {
    Merge([], Clean(Pieces(text)), minChars)
  }

  method SplitForStreaming(text: string, minChars: int) returns (out: seq<string>)
    ensures out == Split(text, minChars)
  {
    var parts := Clean(Pieces(text));
    out := [];
    if parts == [] {
      return;
    }
    var i := 0;
    while i < |parts|
      invariant 0 <= i <= |parts|
      invariant Merge(out, parts[i..], minChars) == Merge([], parts, minChars)
    {
      assert parts[i..][1..] == parts[i + 1..] && parts[i..][0] == parts[i];
      out := Glue(out, parts[i], minChars);
      i := i + 1;
    }
    assert parts[i..] == [];
  }

  /** One turn of the loop: rewrites the last unit in place or starts a new one. */
  method Glue(units: seq<string>, p: string, minChars: int) returns (out: seq<string>)
    ensures out == MergeStep(units, p, minChars)
  {
    out := units;
    if out != [] && |out[|out| - 1]| < minChars {
      out := out[|out| - 1 := out[|out| - 1] + " " + p];
    } else {
      out := out + [p];
    }
  }
}
