/** Python's string operations that the changelog and patch scripts rely on. */
module Text {
  import opened Optional

  /** `str.isspace`, which is also what `\s` matches. */
  predicate IsSpace(c: char) {
    || ('\t' <= c <= '\r') || ('\U{1c}' <= c <= ' ') || c == '\U{85}' || c == '\U{a0}' || c == '\U{1680}'
    || ('\U{2000}' <= c <= '\U{200a}') || c == '\U{2028}' || c == '\U{2029}' || c == '\U{202f}'
    || c == '\U{205f}' || c == '\U{3000}'
  }

  /** The characters `str.splitlines` breaks at; all are white space. */
  predicate IsBreak(c: char) {
    ('\n' <= c <= '\r') || ('\U{1c}' <= c <= '\U{1e}') || c == '\U{85}' || c == '\U{2028}' || c == '\U{2029}'
  }

  function LStrip(s: string): (r: string)
    ensures r == [] || !IsSpace(r[0])
    ensures |r| <= |s| && r == s[|s| - |r|..]
  {
    if s == [] || !IsSpace(s[0]) then s else LStrip(s[1..])
  }

  function RStrip(s: string): (r: string)
    ensures r == [] || !IsSpace(r[|r| - 1])
    ensures r <= s
  {
    if s == [] || !IsSpace(s[|s| - 1]) then s else RStrip(s[..|s| - 1])
  }

  function Strip(s: string): string { RStrip(LStrip(s)) }

  lemma StripEnds(s: string)
    ensures var r := Strip(s); r == [] || (!IsSpace(r[0]) && !IsSpace(r[|r| - 1]))
  {
    hide IsSpace, LStrip, RStrip;
    var t := LStrip(s);
    var r := RStrip(t);
    assert r != [] ==> r[0] == t[0];
  }

  /** Only spaces are stripped. */
  lemma {:induction false} LStripDrops(s: string, i: nat)
    requires i < |s| - |LStrip(s)|
    ensures IsSpace(s[i])
  {
    hide IsSpace;
    if i > 0 {
      LStripDrops(s[1..], i - 1);
    }
  }

  /** Text after something that is not all space is not stripped. */
  lemma {:induction false} LStripJoin(a: string, b: string)
    requires LStrip(a) != []
    ensures LStrip(a + b) == LStrip(a) + b
  {
    LStripUnfolds(a);
    hide IsSpace, LStrip;
    var s := a + b;
    assert s[0] == a[0] && s[1..] == a[1..] + b;
    LStripUnfolds(s);
    if IsSpace(a[0]) {
      LStripJoin(a[1..], b);
    }
  }

  lemma LStripUnfolds(s: string)
    ensures s != [] ==> LStrip(s) == if IsSpace(s[0]) then LStrip(s[1..]) else s
    ensures s == [] ==> LStrip(s) == []
  {}

  lemma {:induction false} RStripJoin(a: string, b: string)
    requires a != [] && !IsSpace(a[|a| - 1])
    ensures RStrip(a + b) == a + RStrip(b)
  {
    hide IsSpace;
    if b == [] {
      assert a + b == a;
    } else if IsSpace(b[|b| - 1]) {
      RStripJoin(a, b[..|b| - 1]);
      assert (a + b)[..|a + b| - 1] == a + b[..|b| - 1];
    }
  }

  /** Blanks at the end are stripped away. */
  lemma {:induction false} RStripBlank(a: string, b: string)
    requires RStrip(b) == []
    ensures RStrip(a + b) == RStrip(a)
  {
    hide IsSpace;
    if b == [] {
      assert a + b == a;
    } else {
      RStripBlank(a, b[..|b| - 1]);
      assert (a + b)[..|a + b| - 1] == a + b[..|b| - 1];
    }
  }

  // --- what stripping leaves ----------------------------------------------

  ghost predicate AllSpace(s: string) { forall i :: 0 <= i < |s| ==> IsSpace(s[i]) }

  /** Text with no space at either end, and not empty. */
  ghost predicate Tight(s: string) { s != [] && !IsSpace(s[0]) && !IsSpace(s[|s| - 1]) }

  lemma {:induction false} LStripIs(gap: string, s: string)
    requires AllSpace(gap) && (s == [] || !IsSpace(s[0]))
    ensures LStrip(gap + s) == s
  {
    hide IsSpace;
    if gap == [] {
      assert gap + s == s;
    } else {
      assert (gap + s)[0] == gap[0] && (gap + s)[1..] == gap[1..] + s;
      LStripIs(gap[1..], s);
    }
  }

  lemma {:induction false} RStripIs(s: string, gap: string)
    requires AllSpace(gap) && (s == [] || !IsSpace(s[|s| - 1]))
    ensures RStrip(s + gap) == s
  {
    hide IsSpace;
    if gap == [] {
      assert s + gap == s;
    } else {
      var l := |gap| - 1;
      assert (s + gap)[|s + gap| - 1] == gap[l] && (s + gap)[..|s + gap| - 1] == s + gap[..l];
      RStripIs(s, gap[..l]);
    }
  }

  lemma LStripParts(s: string) returns (gap: string)
    ensures s == gap + LStrip(s) && AllSpace(gap)
  {
    hide IsSpace;
    gap := s[..|s| - |LStrip(s)|];
    forall i | 0 <= i < |gap|
      ensures IsSpace(gap[i])
    {
      LStripDrops(s, i);
    }
  }

  lemma {:induction false} RStripParts(s: string) returns (gap: string)
    ensures s == RStrip(s) + gap && AllSpace(gap)
  {
    hide IsSpace;
    if s == [] || !IsSpace(s[|s| - 1]) {
      gap := [];
    } else {
      var l := |s| - 1;
      var rest := RStripParts(s[..l]);
      gap := rest + [s[l]];
      assert s == s[..l] + [s[l]];
    }
  }

  /** Stripping takes away the space at both ends and nothing else. */
  lemma StripParts(s: string) returns (before: string, after: string)
    ensures s == before + Strip(s) + after && AllSpace(before) && AllSpace(after)
    ensures Strip(s) == [] || Tight(Strip(s))
  {
    hide IsSpace, LStrip, RStrip;
    before := LStripParts(s);
    after := RStripParts(LStrip(s));
    StripEnds(s);
  }

  /** The characters that `str.isspace` and `str.splitlines` know, by code point. */
  lemma SpaceAndBreaks(c: char)
    ensures IsSpace(c) <==>
      c as int in {9, 10, 11, 12, 13, 28, 29, 30, 31, 32, 0x85, 0xa0, 0x1680, 0x2000, 0x2001, 0x2002, 0x2003, 0x2004,
                   0x2005, 0x2006, 0x2007, 0x2008, 0x2009, 0x200a, 0x2028, 0x2029, 0x202f, 0x205f, 0x3000}
    ensures IsBreak(c) <==> c as int in {10, 11, 12, 13, 28, 29, 30, 0x85, 0x2028, 0x2029}
  {}

  function Join(sep: string, parts: seq<string>): string {
    if parts == [] then [] else if |parts| == 1 then parts[0] else parts[0] + sep + Join(sep, parts[1..])
  }

  /** Joining puts the separator between neighbours. */
  lemma {:induction false} JoinMeets(sep: string, a: seq<string>, b: seq<string>)
    requires a != [] && b != []
    ensures Join(sep, a + b) == Join(sep, a) + sep + Join(sep, b)
  {
    var s := a + b;
    assert s[0] == a[0] && s[1..] == a[1..] + b;
    if |a| > 1 {
      JoinMeets(sep, a[1..], b);
    } else {
      assert s[1..] == b;
    }
  }

  // --- lines --------------------------------------------------------------

  /** Where the first line ends. */
  function LineEnd(s: string): (k: nat)
    ensures k <= |s| && (forall i :: 0 <= i < k ==> !IsBreak(s[i])) && (k < |s| ==> IsBreak(s[k]))
  {
    if s == [] || IsBreak(s[0]) then 0 else 1 + LineEnd(s[1..])
  }

  /** Where the next line starts: `\r\n` is one break. */
  function NextLine(s: string): (k: nat)
    ensures LineEnd(s) <= k <= |s| && (s != [] ==> k > 0)
  {
    var k := LineEnd(s);
    if k == |s| then k else if k + 1 < |s| && s[k] == '\r' && s[k + 1] == '\n' then k + 2 else k + 1
  }

  /** `str.splitlines`. */
  function Lines(s: string): seq<string>
    decreases |s|
  {
    if s == [] then [] else [s[..LineEnd(s)]] + Lines(s[NextLine(s)..])
  }

  lemma LineEndIs(s: string, k: nat)
    requires k <= |s| && (forall i :: 0 <= i < k ==> !IsBreak(s[i])) && (k < |s| ==> IsBreak(s[k]))
    ensures LineEnd(s) == k
  {
    hide IsBreak;
  }

  /** `a` is a run of whole lines, and what follows does not extend its last break. */
  predicate Whole(a: string, b: string) {
    a == [] || (IsBreak(a[|a| - 1]) && !(a[|a| - 1] == '\r' && b != [] && b[0] == '\n'))
  }

  lemma FirstLineKeeps(a: string, b: string)
    requires a != [] && Whole(a, b)
    ensures LineEnd(a + b) == LineEnd(a) < |a| && NextLine(a + b) == NextLine(a)
    ensures Whole(a[NextLine(a)..], b)
  {
    hide IsBreak, LineEnd;
    var s, k, l := a + b, LineEnd(a), |a| - 1;
    assert k <= l;
    assert s[k] == a[k];
    LineEndIs(s, k);
    if k + 1 < |a| {
      assert s[k + 1] == a[k + 1];
    }
    var n := NextLine(a);
    if n < |a| {
      assert a[n..][|a[n..]| - 1] == a[l];
    }
  }

  lemma TailJoins(a: string, b: string, n: nat)
    requires n <= |a|
    ensures (a + b)[n..] == a[n..] + b && (a + b)[..n] == a[..n]
  {}

  lemma {:induction false} LinesSplit(a: string, b: string)
    requires Whole(a, b)
    ensures Lines(a + b) == Lines(a) + Lines(b)
    decreases |a|
  {
    hide IsBreak, LineEnd, NextLine, Whole;
    if a == [] {
      assert a + b == b;
    } else {
      FirstLineKeeps(a, b);
      TailJoins(a, b, LineEnd(a));
      TailJoins(a, b, NextLine(a));
      LinesSplit(a[NextLine(a)..], b);
    }
  }

  /** A break ends a line, and a carriage return with a newline is one break. */
  lemma BreakEndsLine(line: string, brk: string, rest: string)
    requires forall i :: 0 <= i < |line| ==> !IsBreak(line[i])
    requires brk == "\r\n" || (|brk| == 1 && IsBreak(brk[0]))
    requires brk == "\r" ==> !("\n" <= rest)
    ensures Lines(line + brk + rest) == [line] + Lines(rest)
  {
    hide IsBreak, LineEnd;
    var s := line + brk + rest;
    NewlineBreaks();
    assert brk[0] == s[|line|];
    LineEndIs(s, |line|);
    assert |line| + 1 < |s| ==> s[|line| + 1] == (brk + rest)[1];
    if brk[0] == '\r' && |brk| == 1 && rest != [] {
      assert rest[..1] == [rest[0]];
    }
    assert NextLine(s) == |line| + |brk|;
    assert s[..|line|] == line && s[|line| + |brk|..] == rest;
  }

  lemma OneLine(a: string)
    requires a != [] && LineEnd(a) == |a|
    ensures Lines(a) == [a]
  {
    hide IsBreak, LineEnd;
    assert a[..|a|] == a;
    assert Lines(a[NextLine(a)..]) == [];
  }

  /** The first line, without its break. */
  function FirstLine(s: string): string { s[..LineEnd(s)] }

  /** What comes after the first line's break. */
  function AfterBreak(s: string): string { s[NextLine(s)..] }

  /** `t` put at the end of the last line. */
  function Grown(lines: seq<string>, t: string): (r: seq<string>)
    ensures |r| == |lines|
  {
    if lines == [] then [] else lines[..|lines| - 1] + [lines[|lines| - 1] + t]
  }

  lemma GrownTail(line: string, lines: seq<string>, t: string)
    requires lines != []
    ensures Grown([line] + lines, t) == [line] + Grown(lines, t)
  {
    var s := [line] + lines;
    assert s[..|s| - 1] == [line] + lines[..|lines| - 1];
  }

  lemma LinesNotEmpty(a: string)
    requires a != []
    ensures Lines(a) != []
  {}

  /** Text put after an unfinished line goes on with that line. */
  lemma {:induction false} LinesGrow(a: string, b: string)
    requires a != [] && !IsBreak(a[|a| - 1])
    ensures Lines(a + b) == Grown(Lines(a), FirstLine(b)) + Lines(AfterBreak(b))
    decreases |a|
  {
    hide IsBreak, LineEnd, FirstLine, AfterBreak, NextLine, Grown;
    var k, n := LineEnd(a), NextLine(a);
    if k == |a| {
      LineMeets(a, b);
      OneLine(a);
      GrownOne(a, FirstLine(b));
    } else {
      FirstLineStays(a, b);
      TailJoins(a, b, k);
      TailJoins(a, b, n);
      LinesGrow(a[n..], b);
      LinesNotEmpty(a[n..]);
      GrownTail(a[..k], Lines(a[n..]), FirstLine(b));
    }
  }

  lemma GrownOne(line: string, t: string)
    ensures Grown([line], t) == [line + t]
  {}

  lemma LineMeets(a: string, b: string)
    requires a != [] && LineEnd(a) == |a|
    ensures Lines(a + b) == [a + FirstLine(b)] + Lines(AfterBreak(b))
  {
    hide LineEnd, NextLine;
    var s := a + b;
    LineGoesOn(a, b);
    Slices(a, b, LineEnd(b));
    Slices(a, b, NextLine(b));
  }

  lemma Slices(a: string, b: string, k: nat)
    requires k <= |b|
    ensures (a + b)[..|a| + k] == a + b[..k] && (a + b)[|a| + k..] == b[k..]
  {}

  lemma LineGoesOn(a: string, b: string)
    requires LineEnd(a) == |a|
    ensures LineEnd(a + b) == |a| + LineEnd(b) && NextLine(a + b) == |a| + NextLine(b)
  {
    hide IsBreak, LineEnd;
    var s, k := a + b, LineEnd(b);
    forall i | 0 <= i < |a| + k
      ensures !IsBreak(s[i])
    {
      assert s[i] == if i < |a| then a[i] else b[i - |a|];
    }
    assert forall i :: 0 <= i < |b| ==> s[|a| + i] == b[i];
    assert k < |b| ==> s[|a| + k] == b[k];
    LineEndIs(s, |a| + k);
  }

  /** Where the last line starts. */
  function LastLine(s: string): (k: nat)
    ensures k <= |s| && (k > 0 ==> IsBreak(s[k - 1])) && forall i :: k <= i < |s| ==> !IsBreak(s[i])
  {
    if s == [] || IsBreak(s[|s| - 1]) then |s| else LastLine(s[..|s| - 1])
  }

  lemma FirstLineStays(a: string, b: string)
    requires a != [] && !IsBreak(a[|a| - 1]) && LineEnd(a) < |a|
    ensures LineEnd(a + b) == LineEnd(a) && NextLine(a + b) == NextLine(a) < |a|
    ensures !IsBreak(a[NextLine(a)..][|a| - NextLine(a) - 1])
  {
    hide IsBreak, LineEnd;
    var s, k := a + b, LineEnd(a);
    assert s[k] == a[k];
    LineEndIs(s, k);
    assert k < |a| - 1;
    assert s[k + 1] == a[k + 1];
    NewlineBreaks();
  }

  lemma NewlineBreaks()
    ensures IsBreak('\n') && IsBreak('\r')
  {}

  lemma BreaksAreSpace(c: char)
    ensures IsBreak(c) ==> IsSpace(c)
  {}

  // --- searching ----------------------------------------------------------

  /** `text.index(key)`, or nothing. */
  function Find(text: string, key: string): (r: Option<nat>)
    ensures r.Some? ==> r.value + |key| <= |text| && text[r.value..r.value + |key|] == key
  {
    if key <= text then Some(0)
    else if text == [] then None
    else
      var r := Find(text[1..], key);
      if r.None? then None
      else
        assert text[1..][r.value..r.value + |key|] == text[r.value + 1..r.value + 1 + |key|];
        Some(r.value + 1)
  }

  ghost predicate At(text: string, key: string, i: nat) {
    i + |key| <= |text| && text[i..i + |key|] == key
  }

  lemma {:induction false} FindIsFirst(text: string, key: string)
    ensures Find(text, key).None? ==> forall i :: !At(text, key, i)
    ensures Find(text, key).Some? ==> At(text, key, Find(text, key).value)
    ensures Find(text, key).Some? ==> forall i :: 0 <= i < Find(text, key).value ==> !At(text, key, i)
  {
    if !(key <= text) {
      assert !At(text, key, 0);
      if text != [] {
        FindIsFirst(text[1..], key);
        forall i: nat | i > 0
          ensures At(text, key, i) <==> At(text[1..], key, i - 1)
        {
          AtTail(text, key, i);
        }
      }
    }
  }

  lemma AtTail(text: string, key: string, i: nat)
    requires text != [] && i > 0
    ensures At(text, key, i) <==> At(text[1..], key, i - 1)
  {
    if i + |key| <= |text| {
      assert text[1..][i - 1..i - 1 + |key|] == text[i..i + |key|];
    }
  }
}
