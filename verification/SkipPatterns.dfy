/** The Go lane's `-skip` flag: patterns are anchored part by part and joined with
    `|`, and Go's `testing` package splits the flag again. */
module SkipPatterns {

  /** Open `[` and open `(` at a point of a pattern. */
  datatype Depth = Depth(cs: int, cp: int)

  const TOP := Depth(0, 0)

  // --- Go's splitter (splitRegexp in testing/match.go) --------------------

  /** Go lets the paren count go below zero. */
  function GoStep(d: Depth, ch: char): Depth {
    if ch == '[' then d.(cs := d.cs + 1)
    else if ch == ']' then d.(cs := if d.cs - 1 < 0 then 0 else d.cs - 1)
    else if ch == '(' && d.cs == 0 then d.(cp := d.cp + 1)
    else if ch == ')' && d.cs == 0 then d.(cp := d.cp - 1)
    else d
  }

  /** `text` goes in front of the first part of the first alternative. */
  function Prepend(text: string, alts: seq<seq<string>>): (r: seq<seq<string>>)
    requires alts != [] && alts[0] != []
    ensures |r| == |alts| && |r[0]| == |alts[0]|
  {
    [[text + alts[0][0]] + alts[0][1..]] + alts[1..]
  }

  /** An empty part goes in front of the first alternative. */
  function NewPart(alts: seq<seq<string>>): (r: seq<seq<string>>)
    requires alts != []
    ensures |r| == |alts| && |r[0]| == |alts[0]| + 1
  {
    [[[]] + alts[0]] + alts[1..]
  }

  /** Alternatives, each a list of parts. */
  function GoSplit(s: string, d: Depth): (alts: seq<seq<string>>)
    ensures alts != [] && alts[0] != []
    decreases |s|
  {
    if s == [] then [[[]]]
    else if s[0] == '\\' then
      if |s| == 1 then [[s]] else Prepend(s[..2], GoSplit(s[2..], d))
    else if s[0] == '/' && d == TOP then NewPart(GoSplit(s[1..], d))
    else if s[0] == '|' && d == TOP then [[[]]] + GoSplit(s[1..], d)
    else Prepend(s[..1], GoSplit(s[1..], GoStep(d, s[0])))
  }

  // --- the rewriter -------------------------------------------------------

  function Max0(x: int): int { if x > 0 then x else 0 }

  /** The rewriter clamps both counts at zero. */
  function Step(d: Depth, ch: char): Depth {
    if ch == '[' then d.(cs := d.cs + 1)
    else if ch == ']' then d.(cs := Max0(d.cs - 1))
    else if ch == '(' && d.cs == 0 then d.(cp := d.cp + 1)
    else if ch == ')' && d.cs == 0 then d.(cp := Max0(d.cp - 1))
    else d
  }

  /** First walk: is there a slash outside brackets? Backslashes are passed over,
      and what they escape is read as if it stood alone. */
  predicate NaiveSlash(s: string, d: Depth) {
    s != [] && ((s[0] == '/' && d == TOP) || NaiveSlash(s[1..], Step(d, s[0])))
  }

  /** The same question with escapes honoured. */
  predicate RealSlash(s: string, d: Depth)
    decreases |s|
  {
    s != [] &&
    if s[0] == '\\' && |s| > 1 then RealSlash(s[2..], d)
    else (s[0] == '/' && d == TOP) || RealSlash(s[1..], Step(d, s[0]))
  }

  /** Second walk, from `d` to the closing `$`. */
  function Wrapped(s: string, d: Depth): string
    decreases |s|
  {
    if s == [] then "$"
    else if s[0] == '\\' && |s| > 1 then s[..2] + Wrapped(s[2..], d)
    else if s[0] == '/' && d == TOP then "$/^" + Wrapped(s[1..], d)
    else s[..1] + Wrapped(s[1..], Step(d, s[0]))
  }

  function Anchored(p: string): string {
    if NaiveSlash(p, TOP) then "^" + Wrapped(p, TOP) else p
  }

  lemma NaiveSlashSteps(p: string, i: nat, d: Depth)
    requires i < |p|
    ensures NaiveSlash(p[i..], d) <==> (p[i] == '/' && d == TOP) || NaiveSlash(p[i + 1..], Step(d, p[i]))
  {
    hide Step;
    assert p[i..][1..] == p[i + 1..];
  }

  /** First walk. */
  method HasSlash(p: string) returns (hasSlash: bool)
    ensures hasSlash == NaiveSlash(p, TOP)
  {
    hide NaiveSlash;
    var d := TOP;
    assert p[0..] == p;
    for i := 0 to |p|
      invariant NaiveSlash(p, TOP) == NaiveSlash(p[i..], d)
    {
      var ch := p[i];
      NaiveSlashSteps(p, i, d);
      if ch == '\\' {
        continue;
      }
      if ch == '/' && d == TOP {
        return true;
      }
      d := Step(d, ch);
    }
    assert p[|p|..] == [];
    NoSlashInNone(d);
    return false;
  }

  lemma NoSlashInNone(d: Depth)
    ensures !NaiveSlash([], d)
  {}

  lemma WrappedSteps(p: string, i: nat, d: Depth)
    requires i < |p|
    ensures Wrapped(p[i..], d) ==
      if p[i] == '\\' && i + 1 < |p| then p[i..i + 2] + Wrapped(p[i + 2..], d)
      else if p[i] == '/' && d == TOP then "$/^" + Wrapped(p[i + 1..], d)
      else [p[i]] + Wrapped(p[i + 1..], Step(d, p[i]))
  {
    hide Step;
    var rest := p[i..];
    assert rest[1..] == p[i + 1..] && rest[..1] == [p[i]];
    if i + 1 < |p| {
      assert rest[2..] == p[i + 2..] && rest[..2] == p[i..i + 2];
    }
  }

  lemma Regroup(a: string, b: string, c: string)
    ensures a + (b + c) == (a + b) + c
  {}

  method Anchor(p: string) returns (r: string)
    ensures r == Anchored(p)
  {
    hide Wrapped, NaiveSlash;
    var hasSlash := HasSlash(p);
    if !hasSlash {
      return p;
    }
    var out := "^";
    var d, i := TOP, 0;
    assert p[0..] == p;
    while i < |p|
      invariant 0 <= i <= |p|
      invariant "^" + Wrapped(p, TOP) == out + Wrapped(p[i..], d)
    {
      var ch := p[i];
      WrappedSteps(p, i, d);
      if ch == '\\' && i + 1 < |p| {
        Regroup(out, p[i..i + 2], Wrapped(p[i + 2..], d));
        out := out + p[i..i + 2];
        i := i + 2;
      } else if ch == '/' && d == TOP {
        Regroup(out, "$/^", Wrapped(p[i + 1..], d));
        out := out + "$/^";
        i := i + 1;
      } else {
        d := Step(d, ch);
        Regroup(out, [ch], Wrapped(p[i + 1..], d));
        out := out + [ch];
        i := i + 1;
      }
    }
    assert p[i..] == [];
    WrappedNone(d);
    r := out + "$";
  }

  lemma WrappedNone(d: Depth)
    ensures Wrapped([], d) == "$"
  {}

  function AnchoredAll(ps: seq<string>): (r: seq<string>)
    ensures |r| == |ps|
  {
    if ps == [] then [] else [Anchored(ps[0])] + AnchoredAll(ps[1..])
  }

  /** `'|'.join(ps)`. */
  function Joined(ps: seq<string>): string {
    if ps == [] then [] else if |ps| == 1 then ps[0] else ps[0] + "|" + Joined(ps[1..])
  }

  // --- what the flag should mean ------------------------------------------

  /** Every part between `^` and `$`. */
  function Each(parts: seq<string>): (r: seq<string>)
    ensures |r| == |parts| && forall i :: 0 <= i < |r| ==> r[i] == "^" + parts[i] + "$"
  {
    if parts == [] then [] else ["^" + parts[0] + "$"] + Each(parts[1..])
  }

  /** A pattern of one part stays as it is; the parts of a longer one are anchored. */
  function Wanted(parts: seq<string>): (r: seq<string>)
    ensures |r| == |parts|
  {
    if |parts| <= 1 then parts else Each(parts)
  }

  /** Alternative by alternative. */
  function WantedAlts(alts: seq<seq<string>>): (r: seq<seq<string>>)
    ensures |r| == |alts| && forall i :: 0 <= i < |r| ==> r[i] == Wanted(alts[i])
  {
    if alts == [] then [] else [Wanted(alts[0])] + WantedAlts(alts[1..])
  }

  /** Pattern by pattern. */
  function WantedAll(ps: seq<string>): seq<seq<string>> {
    if ps == [] then [] else WantedAlts(GoSplit(ps[0], TOP)) + WantedAll(ps[1..])
  }

  /** Every `)` outside brackets closes a `(`. */
  predicate Matched(s: string, d: Depth)
    decreases |s|
  {
    if s == [] then true
    else if s[0] == '\\' then |s| == 1 || Matched(s[2..], d)
    else GoStep(d, s[0]).cp >= 0 && Matched(s[1..], GoStep(d, s[0]))
  }

  /** Everything opened is closed, and nothing is left to escape. */
  predicate Closed(s: string, d: Depth)
    decreases |s|
  {
    if s == [] then d == TOP
    else if s[0] == '\\' then |s| > 1 && Closed(s[2..], d)
    else Closed(s[1..], GoStep(d, s[0]))
  }

  /** One pattern to Go: no `|` outside brackets, every `)` matched. */
  ghost predicate OnePattern(p: string) { Matched(p, TOP) && |GoSplit(p, TOP)| == 1 }

  /** Go, at depth `d`, and the second walk, at `e`, split at the same slashes. */
  predicate SameSlashes(s: string, d: Depth, e: Depth)
    decreases |s|
  {
    if s == [] || s == "\\" then true
    else if s[0] == '\\' then SameSlashes(s[2..], d, e)
    else (s[0] == '/' ==> (d == TOP <==> e == TOP)) && SameSlashes(s[1..], GoStep(d, s[0]), Step(e, s[0]))
  }

  /** The patterns the rewriter serves. One that its first walk leaves alone must
      have no slash for Go; one that it anchors must be one alternative of several
      parts, split by the second walk where Go splits it. */
  predicate Fits(p: string) {
    var alts := GoSplit(p, TOP);
    if NaiveSlash(p, TOP) then |alts| == 1 && |alts[0]| > 1 && SameSlashes(p, TOP, TOP)
    else forall i :: 0 <= i < |alts| ==> |alts[i]| <= 1
  }

  // --- the splitter loses nothing -----------------------------------------

  function Slashed(parts: seq<string>): string {
    if parts == [] then [] else if |parts| == 1 then parts[0] else parts[0] + "/" + Slashed(parts[1..])
  }

  function Unsplit(alts: seq<seq<string>>): string {
    if alts == [] then [] else if |alts| == 1 then Slashed(alts[0]) else Slashed(alts[0]) + "|" + Unsplit(alts[1..])
  }

  lemma UnsplitPrepend(text: string, alts: seq<seq<string>>)
    requires alts != [] && alts[0] != []
    ensures Unsplit(Prepend(text, alts)) == text + Unsplit(alts)
  {
    hide Slashed;
    var r := Prepend(text, alts);
    assert r[1..] == alts[1..];
    SlashedPrepend(text, alts[0]);
  }

  lemma SlashedPrepend(text: string, parts: seq<string>)
    requires parts != []
    ensures Slashed([text + parts[0]] + parts[1..]) == text + Slashed(parts)
  {
    var r := [text + parts[0]] + parts[1..];
    assert r[1..] == parts[1..];
    if |parts| > 1 {
      assert text + parts[0] + "/" + Slashed(parts[1..]) == text + (parts[0] + "/" + Slashed(parts[1..]));
    }
  }

  lemma UnsplitSlash(alts: seq<seq<string>>)
    requires alts != [] && alts[0] != []
    ensures Unsplit(NewPart(alts)) == "/" + Unsplit(alts)
  {
    hide Slashed;
    var r := NewPart(alts);
    assert r[1..] == alts[1..] && r[0] == [[]] + alts[0];
    SlashedNewPart(alts[0]);
  }

  lemma SlashedNewPart(parts: seq<string>)
    requires parts != []
    ensures Slashed([[]] + parts) == "/" + Slashed(parts)
  {
    assert ([[]] + parts)[1..] == parts;
  }

  /** Putting the parts together again gives back the flag. */
  lemma {:induction false} SplitLosesNothing(s: string, d: Depth)
    ensures Unsplit(GoSplit(s, d)) == s
    decreases |s|
  {
    hide Unsplit, Prepend, NewPart, GoStep;
    UnsplitOne(s);
    UnsplitOne([]);
    if s == [] {
    } else if s[0] == '\\' {
      if |s| > 1 {
        SplitLosesNothing(s[2..], d);
        UnsplitPrepend(s[..2], GoSplit(s[2..], d));
      }
    } else if s[0] == '/' && d == TOP {
      SplitLosesNothing(s[1..], d);
      UnsplitSlash(GoSplit(s[1..], d));
    } else if s[0] == '|' && d == TOP {
      SplitLosesNothing(s[1..], d);
      UnsplitPipe(GoSplit(s[1..], d));
    } else {
      SplitLosesNothing(s[1..], GoStep(d, s[0]));
      UnsplitPrepend(s[..1], GoSplit(s[1..], GoStep(d, s[0])));
    }
  }

  lemma UnsplitOne(s: string)
    ensures Unsplit([[s]]) == s
  {}

  lemma UnsplitPipe(alts: seq<seq<string>>)
    requires alts != []
    ensures Unsplit([[[]]] + alts) == "|" + Unsplit(alts)
  {
    assert ([[[]]] + alts)[1..] == alts;
  }

  // --- joining ------------------------------------------------------------

  lemma PrependJoin(text: string, a: seq<seq<string>>, b: seq<seq<string>>)
    requires a != [] && a[0] != []
    ensures Prepend(text, a + b) == Prepend(text, a) + b
    ensures NewPart(a + b) == NewPart(a) + b
  {
    assert (a + b)[1..] == a[1..] + b;
  }

  lemma AppendJoin(a: string, b: string, c: string, k: nat)
    requires k <= |a|
    ensures (a + b + c)[k..] == a[k..] + b + c && (a + b + c)[..k] == a[..k]
  {}

  /** After a closed pattern, a `|` starts a fresh one. */
  lemma {:induction false} PipeSeparates(a: string, b: string, d: Depth)
    requires Closed(a, d)
    ensures GoSplit(a + "|" + b, d) == GoSplit(a, d) + GoSplit(b, TOP)
    decreases |a|
  {
    hide Prepend, NewPart;
    var s := a + "|" + b;
    if a == [] {
      assert s[1..] == b;
    } else if a[0] == '\\' {
      PipeSeparates(a[2..], b, d);
      AppendJoin(a, "|", b, 2);
      PrependJoin(a[..2], GoSplit(a[2..], d), GoSplit(b, TOP));
    } else {
      PipeSeparates(a[1..], b, GoStep(d, a[0]));
      AppendJoin(a, "|", b, 1);
      PrependJoin(a[..1], GoSplit(a[1..], GoStep(d, a[0])), GoSplit(b, TOP));
    }
  }
}
