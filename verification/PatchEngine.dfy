/** The edit engine of the WiredTiger patch scripts. */
module PatchEngine {
  import opened Optional
  import opened Text

  datatype Edit = Edit(anchor: string, replacement: string)

  ghost predicate Proper(edits: seq<Edit>) { forall i :: 0 <= i < |edits| ==> edits[i].anchor != [] }

  /** `text.count(key)`: occurrences that do not overlap. */
  function Occurrences(text: string, key: string): nat
    requires key != []
    decreases |text|
  {
    if text == [] then 0
    else if key <= text then 1 + Occurrences(text[|key|..], key)
    else Occurrences(text[1..], key)
  }

  /** `text.replace(key, value)`. */
  function Replace(text: string, key: string, value: string): string
    requires key != []
    decreases |text|
  {
    if text == [] then []
    else if key <= text then value + Replace(text[|key|..], key, value)
    else text[..1] + Replace(text[1..], key, value)
  }

  /** The edits one after the other. */
  function Sequential(text: string, edits: seq<Edit>): string
    requires Proper(edits)
  {
    if edits == [] then text
    else
      var l := |edits| - 1;
      Replace(Sequential(text, edits[..l]), edits[l].anchor, edits[l].replacement)
  }

  predicate Contains(text: string, key: string) { Find(text, key).Some? }

  /** Every anchor is found once. */
  ghost predicate Checked(text: string, edits: seq<Edit>)
    requires Proper(edits)
  {
    forall i :: 0 <= i < |edits| ==> Occurrences(text, edits[i].anchor) == 1
  }

  /** `key` is at `p`; nothing else of it lies before or after. Only occurrences
      that overlap this one may start further on. */
  ghost predicate Sole(text: string, key: string, p: nat) {
    At(text, key, p) && forall i: nat :: At(text, key, i) ==> p <= i < p + |key|
  }

  /** The file being patched. */
  class SourceFile {
    var text: string

    constructor (text: string)
      ensures this.text == text
    {
      this.text := text;
    }

    /** Nothing is written unless every anchor is found once. */
    method Patch(marker: string, edits: Option<seq<Edit>>) returns (code: int)
      requires edits.Some? ==> Proper(edits.value)
      modifies this
      ensures edits.None? ==> code == 1 && text == old(text)
      ensures edits.Some? && Contains(old(text), marker) ==> code == 0 && text == old(text)
      ensures edits.Some? && !Contains(old(text), marker) && !Checked(old(text), edits.value) ==>
                code == 1 && text == old(text)
      ensures edits.Some? && !Contains(old(text), marker) && Checked(old(text), edits.value) ==>
                code == 0 && text == Sequential(old(text), edits.value)
    {
      hide Occurrences, Replace, Contains;
      if edits.None? {
        return 1;
      }
      var es := edits.value;
      if Contains(text, marker) {
        return 0;
      }
      for i := 0 to |es|
        invariant text == old(text)
        invariant forall k :: 0 <= k < i ==> Occurrences(text, es[k].anchor) == 1
      {
        if Occurrences(text, es[i].anchor) != 1 {
          return 1;
        }
      }
      var patched := text;
      for i := 0 to |es|
        invariant text == old(text) && Proper(es[..i])
        invariant patched == Sequential(text, es[..i])
      {
        patched := Replace(patched, es[i].anchor, es[i].replacement);
        assert es[..i + 1][..i] == es[..i];
      }
      assert es[..|es|] == es;
      text := patched;
      code := 0;
    }
  }

  // --- counting and replacing ---------------------------------------------

  lemma {:induction false} ReplaceNone(text: string, key: string, value: string)
    requires key != [] && forall i: nat :: !At(text, key, i)
    ensures Replace(text, key, value) == text && Occurrences(text, key) == 0
  {
    if text != [] {
      assert !At(text, key, 0);
      forall i: nat
        ensures !At(text[1..], key, i)
      {
        AtTail(text, key, i + 1);
      }
      ReplaceNone(text[1..], key, value);
      assert text == text[..1] + text[1..];
    }
  }

  lemma AtDrop(text: string, key: string, n: nat, i: nat)
    requires n <= |text|
    ensures At(text[n..], key, i) <==> At(text, key, n + i)
  {
    if n + i + |key| <= |text| {
      assert text[n..][i..i + |key|] == text[n + i..n + i + |key|];
    }
  }

  lemma SoleTail(text: string, key: string, p: nat)
    requires text != [] && p > 0 && Sole(text, key, p)
    ensures Sole(text[1..], key, p - 1)
  {
    AtTail(text, key, p);
    forall i: nat | At(text[1..], key, i)
      ensures p - 1 <= i < p - 1 + |key|
    {
      AtTail(text, key, i + 1);
    }
  }

  lemma ReplaceUnfolds(text: string, key: string, value: string)
    requires key != [] && text != []
    ensures key <= text ==> Replace(text, key, value) == value + Replace(text[|key|..], key, value)
    ensures key <= text ==> Occurrences(text, key) == 1 + Occurrences(text[|key|..], key)
    ensures !(key <= text) ==> Replace(text, key, value) == text[..1] + Replace(text[1..], key, value)
    ensures !(key <= text) ==> Occurrences(text, key) == Occurrences(text[1..], key)
  {}

  lemma PutBack(text: string, value: string, p: nat, n: nat)
    requires 0 < p && p + n <= |text|
    ensures text[..1] + (text[1..][..p - 1] + value + text[1..][p - 1 + n..]) == text[..p] + value + text[p + n..]
  {
    assert text[..p] == text[..1] + text[1..][..p - 1];
    assert text[1..][p - 1 + n..] == text[p + n..];
  }

  /** An anchor found in one place is replaced there, and nothing else changes. */
  lemma {:induction false} ReplaceSole(text: string, key: string, value: string, p: nat)
    requires key != [] && Sole(text, key, p)
    ensures p + |key| <= |text| && Occurrences(text, key) == 1
    ensures Replace(text, key, value) == text[..p] + value + text[p + |key|..]
    decreases p
  {
    hide Replace, Occurrences;
    ReplaceUnfolds(text, key, value);
    if p == 0 {
      assert key <= text;
      forall i: nat
        ensures !At(text[|key|..], key, i)
      {
        AtDrop(text, key, |key|, i);
      }
      ReplaceNone(text[|key|..], key, value);
    } else {
      assert !At(text, key, 0);
      SoleTail(text, key, p);
      ReplaceOnlyTail(text, key, value, p);
    }
  }

  lemma ReplaceOnlyTail(text: string, key: string, value: string, p: nat)
    requires key != [] && text != [] && p > 0 && Sole(text[1..], key, p - 1) && !(key <= text)
    ensures p + |key| <= |text| && Occurrences(text, key) == 1
    ensures Replace(text, key, value) == text[..p] + value + text[p + |key|..]
    decreases p, 0
  {
    hide Replace, Occurrences;
    ReplaceUnfolds(text, key, value);
    ReplaceSole(text[1..], key, value, p - 1);
    PutBack(text, value, p, |key|);
  }

  lemma {:induction false} CountNone(text: string, key: string)
    requires key != [] && Occurrences(text, key) == 0
    ensures forall i: nat :: !At(text, key, i)
  {
    if text != [] {
      CountNone(text[1..], key);
      forall i: nat
        ensures !At(text, key, i)
      {
        if i > 0 {
          AtTail(text, key, i);
        }
      }
    }
  }

  /** The script's check: an anchor is counted once exactly when all of its
      occurrences overlap the first. */
  lemma {:induction false} CountIsSole(text: string, key: string)
    requires key != []
    ensures Occurrences(text, key) == 1 <==> Find(text, key).Some? && Sole(text, key, Find(text, key).value)
  {
    FindIsFirst(text, key);
    if Find(text, key).Some? && Sole(text, key, Find(text, key).value) {
      ReplaceSole(text, key, [], Find(text, key).value);
    }
    if Occurrences(text, key) == 1 {
      OnceIsSole(text, key);
    }
  }

  lemma FindUnfolds(text: string, key: string)
    requires text != []
    ensures key <= text ==> Find(text, key) == Some(0)
    ensures !(key <= text) && Find(text[1..], key).Some? ==> Find(text, key) == Some(Find(text[1..], key).value + 1)
  {}

  lemma {:induction false} OnceIsSole(text: string, key: string)
    requires key != [] && Occurrences(text, key) == 1
    ensures Find(text, key).Some? && Sole(text, key, Find(text, key).value)
  {
    assert text != [];
    ReplaceUnfolds(text, key, []);
    FindUnfolds(text, key);
    hide Occurrences, Find;
    if key <= text {
      CountNone(text[|key|..], key);
      SoleAtStart(text, key);
    } else {
      OnceIsSole(text[1..], key);
      SolePastStart(text, key, Find(text[1..], key).value);
    }
  }

  lemma SoleAtStart(text: string, key: string)
    requires key <= text && forall i: nat :: !At(text[|key|..], key, i)
    ensures Sole(text, key, 0)
  {
    forall i: nat | At(text, key, i)
      ensures i < |key|
    {
      if i >= |key| {
        AtDrop(text, key, |key|, i - |key|);
      }
    }
  }

  lemma SolePastStart(text: string, key: string, p: nat)
    requires text != [] && !(key <= text) && Sole(text[1..], key, p)
    ensures Sole(text, key, p + 1)
  {
    AtTail(text, key, p + 1);
    forall i: nat | At(text, key, i)
      ensures p + 1 <= i < p + 1 + |key|
    {
      assert i > 0;
      AtTail(text, key, i);
    }
  }

  // --- replacing all at once ----------------------------------------------

  /** A text seen as the anchors of some edits, apart from one another, and what
      lies between them. */
  datatype Piece = Between(text: string) | Anchor(edit: nat)

  ghost predicate HasAnchor(pieces: seq<Piece>, k: nat) { exists i :: 0 <= i < |pieces| && pieces[i] == Anchor(k) }

  /** Each of `which` stands in `pieces` once, and no other anchor does. */
  ghost predicate Places(pieces: seq<Piece>, which: set<nat>) {
    && (forall k :: k in which ==> HasAnchor(pieces, k))
    && (forall i, j :: 0 <= i < j < |pieces| && pieces[i].Anchor? ==> pieces[i] != pieces[j])
    && (forall i :: 0 <= i < |pieces| && pieces[i].Anchor? ==> pieces[i].edit in which)
  }

  function Shown(p: Piece, edits: seq<Edit>, done: nat): string {
    match p
    case Between(text) => text
    case Anchor(e) => if e >= |edits| then [] else if e < done then edits[e].replacement else edits[e].anchor
  }

  /** The text with the first `done` edits made, all at once. */
  function Rendered(pieces: seq<Piece>, edits: seq<Edit>, done: nat): string {
    if pieces == [] then []
    else Rendered(pieces[..|pieces| - 1], edits, done) + Shown(pieces[|pieces| - 1], edits, done)
  }

  /** Where piece `i` starts. */
  function Offset(pieces: seq<Piece>, edits: seq<Edit>, done: nat, i: nat): nat
    requires i <= |pieces|
  {
    |Rendered(pieces[..i], edits, done)|
  }

  lemma {:induction false} RenderedJoin(a: seq<Piece>, b: seq<Piece>, edits: seq<Edit>, done: nat)
    ensures Rendered(a + b, edits, done) == Rendered(a, edits, done) + Rendered(b, edits, done)
    decreases |b|
  {
    hide Shown;
    if b == [] {
      assert a + b == a;
    } else {
      var short := b[..|b| - 1];
      RenderedJoin(a, short, edits, done);
      RenderedMore(b, edits, done);
      RenderedMore(a + b, edits, done);
      assert (a + b)[..|a + b| - 1] == a + short;
    }
  }

  lemma RenderedMore(pieces: seq<Piece>, edits: seq<Edit>, done: nat)
    requires pieces != []
    ensures Rendered(pieces, edits, done) ==
            Rendered(pieces[..|pieces| - 1], edits, done) + Shown(pieces[|pieces| - 1], edits, done)
  {}

  lemma {:induction false} RenderedStep(pieces: seq<Piece>, edits: seq<Edit>, k: nat)
    requires forall i :: 0 <= i < |pieces| ==> pieces[i] != Anchor(k)
    ensures Rendered(pieces, edits, k + 1) == Rendered(pieces, edits, k)
  {
    if pieces != [] {
      RenderedStep(pieces[..|pieces| - 1], edits, k);
    }
  }

  lemma RenderedOne(p: Piece, edits: seq<Edit>, done: nat)
    ensures Rendered([p], edits, done) == Shown(p, edits, done)
  {
    assert [p][..0] == [];
  }

  /** The text before piece `i`, the piece, and the text after it. */
  lemma RenderedAround(pieces: seq<Piece>, edits: seq<Edit>, done: nat, i: nat)
    requires i < |pieces|
    ensures Rendered(pieces, edits, done) ==
            Rendered(pieces[..i], edits, done) + Shown(pieces[i], edits, done) + Rendered(pieces[i + 1..], edits, done)
  {
    hide Rendered, Shown;
    assert pieces == pieces[..i] + [pieces[i]] + pieces[i + 1..];
    RenderedJoin(pieces[..i] + [pieces[i]], pieces[i + 1..], edits, done);
    RenderedJoin(pieces[..i], [pieces[i]], edits, done);
    RenderedOne(pieces[i], edits, done);
  }

  lemma PlaceOf(pieces: seq<Piece>, which: set<nat>, k: nat) returns (i: nat)
    requires Places(pieces, which) && k in which
    ensures i < |pieces| && pieces[i] == Anchor(k)
    ensures forall j :: 0 <= j < |pieces| && j != i ==> pieces[j] != Anchor(k)
  {
    assert HasAnchor(pieces, k);
    i :| 0 <= i < |pieces| && pieces[i] == Anchor(k);
  }

  /** Around anchor `k`, at piece `i`: the text before and after edit `k`. */
  lemma AroundAnchor(pieces: seq<Piece>, edits: seq<Edit>, k: nat, i: nat)
    requires k < |edits| && i < |pieces| && pieces[i] == Anchor(k)
    requires forall j :: 0 <= j < |pieces| && j != i ==> pieces[j] != Anchor(k)
    ensures var a, b := Rendered(pieces[..i], edits, k), Rendered(pieces[i + 1..], edits, k);
      && Rendered(pieces, edits, k) == a + edits[k].anchor + b
      && Rendered(pieces, edits, k + 1) == a + edits[k].replacement + b
      && Rendered(pieces[..i], edits, k + 1) == a
  {
    hide Rendered;
    RenderedAround(pieces, edits, k, i);
    RenderedAround(pieces, edits, k + 1, i);
    RenderedStep(pieces[..i], edits, k);
    RenderedStep(pieces[i + 1..], edits, k);
  }

  // --- edits that cannot disturb each other's anchors ---------------------

  /** No occurrence of `key` can touch a stretch of text that reads `r`: `key` does
      not lie in it, around it, or across either end of it. */
  predicate Clear(key: string, r: string) {
    && !Contains(r, key)
    && !Contains(key, r)
    && (forall n :: 0 < n < |key| && n <= |r| ==> key[..n] != r[|r| - n..])
    && (forall n :: 0 < n < |key| && n <= |r| ==> key[|key| - n..] != r[..n])
  }

  /** No anchor can touch an earlier replacement. */
  ghost predicate Undisturbed(edits: seq<Edit>) {
    forall j, k :: 0 <= j < k < |edits| ==> Clear(edits[k].anchor, edits[j].replacement)
  }

  /** A condition on the edits alone: no anchor can touch an earlier anchor, or what
      replaces it. */
  ghost predicate Independent(edits: seq<Edit>) {
    && Undisturbed(edits)
    && forall j, k :: 0 <= j < k < |edits| ==> Clear(edits[k].anchor, edits[j].anchor)
  }

  /** The first line of a text that ends in a newline, its newline included. */
  function Opening(s: string): (r: string)
    ensures r <= s && (s != [] ==> r != [])
    ensures '\n' in s ==> r[|r| - 1] == '\n' && forall i :: 0 <= i < |r| - 1 ==> r[i] != '\n'
  {
    if s == [] then []
    else if s[0] == '\n' then s[..1]
    else
      assert s == s[..1] + s[1..];
      s[..1] + Opening(s[1..])
  }

  /** Whole lines. */
  predicate IsBlock(s: string) { s != [] && s[|s| - 1] == '\n' }

  /** Neither's first line turns up in the other, as a line or at the end of one. */
  predicate FirstLinesApart(x: string, y: string) { !Contains(x, Opening(y)) && !Contains(y, Opening(x)) }

  /** For whole lines it is enough to look at first lines. */
  lemma BlocksAreClear(key: string, r: string)
    requires IsBlock(key) && IsBlock(r) && FirstLinesApart(key, r)
    ensures Clear(key, r)
  {
    hide Contains, Opening;
    assert '\n' in key && '\n' in r;
    if Contains(r, key) {
      ContainsPrefix(r, key, Opening(key));
    }
    if Contains(key, r) {
      ContainsPrefix(key, r, Opening(r));
    }
    forall n | 0 < n < |key| && n <= |r|
      ensures key[..n] != r[|r| - n..] && key[|key| - n..] != r[..n]
    {
      if key[..n] == r[|r| - n..] {
        OpeningWithin(key, r, n);
      }
      if key[|key| - n..] == r[..n] {
        OpeningWithin(r, key, n);
      }
    }
  }

  /** A start of `x` that ends `y`, which ends in a newline, holds `x`'s first line. */
  lemma OpeningWithin(x: string, y: string, n: nat)
    requires 0 < n <= |x| && n <= |y| && IsBlock(y) && x[..n] == y[|y| - n..]
    ensures Contains(y, Opening(x))
  {
    hide Contains, Opening;
    var o := Opening(x);
    assert x[n - 1] == x[..n][n - 1] == y[|y| - n..][n - 1] == '\n';
    assert |o| <= n;
    assert y[|y| - n..|y| - n + |o|] == y[|y| - n..][..|o|] == x[..n][..|o|] == o;
    FoundIn(y, o, |y| - n);
  }

  lemma ContainsPrefix(text: string, key: string, start: string)
    requires Contains(text, key) && start <= key
    ensures Contains(text, start)
  {
    hide Contains;
    ContainsIsAt(text, key);
    var i: nat :| At(text, key, i);
    assert text[i..i + |start|] == text[i..i + |key|][..|start|];
    FoundIn(text, start, i);
  }

  /** A list of edits on whole lines whose first lines do not turn up in each other. */
  lemma BlockEditsAreIndependent(edits: seq<Edit>)
    requires forall i :: 0 <= i < |edits| ==> IsBlock(edits[i].anchor) && IsBlock(edits[i].replacement)
    requires forall j, k :: 0 <= j < k < |edits| ==>
      FirstLinesApart(edits[k].anchor, edits[j].anchor) && FirstLinesApart(edits[k].anchor, edits[j].replacement)
    ensures Proper(edits) && Independent(edits)
  {
    hide Contains, Opening, Clear;
    forall j, k | 0 <= j < k < |edits|
      ensures Clear(edits[k].anchor, edits[j].anchor) && Clear(edits[k].anchor, edits[j].replacement)
    {
      BlocksAreClear(edits[k].anchor, edits[j].anchor);
      BlocksAreClear(edits[k].anchor, edits[j].replacement);
    }
  }

  lemma SameEnds(x: string, y: string, n: nat)
    requires n <= |x| && n <= |y| && forall i :: 0 <= i < n ==> x[|x| - n + i] == y[i]
    ensures x[|x| - n..] == y[..n]
  {}

  lemma PartAt(a: string, r: string, b: string, key: string, i: nat)
    requires At(a + r + b, key, i)
    ensures forall x :: 0 <= x < |key| && 0 <= i + x - |a| < |r| ==> key[x] == r[i + x - |a|]
  {
    var t := a + r + b;
    forall x | 0 <= x < |key| && 0 <= i + x - |a| < |r|
      ensures key[x] == r[i + x - |a|]
    {
      assert key[x] == t[i..i + |key|][x] == t[i + x];
    }
  }

  /** Where an occurrence can lie beside a stretch that it cannot touch. */
  lemma ClearOccurrence(a: string, r: string, b: string, key: string, i: nat)
    requires key != [] && Clear(key, r) && At(a + r + b, key, i)
    ensures i + |key| <= |a| || |a| + |r| <= i
  {
    hide Contains;
    PartAt(a, r, b, key, i);
    if i < |a| + |r| && |a| < i + |key| {
      if |a| <= i && i + |key| <= |a| + |r| {
        LiesIn(r, key, i - |a|);
      } else if i <= |a| && |a| + |r| <= i + |key| {
        LiesIn(key, r, |a| - i);
      } else if i < |a| {
        SameEnds(key, r, i + |key| - |a|);
      } else {
        SameEnds(r, key, |a| + |r| - i);
      }
    }
  }

  lemma LiesIn(text: string, key: string, i: nat)
    requires i + |key| <= |text| && forall x :: 0 <= x < |key| ==> key[x] == text[i + x]
    ensures Contains(text, key)
  {
    assert text[i..i + |key|] == key;
    FoundIn(text, key, i);
  }

  lemma FoundIn(text: string, key: string, i: nat)
    requires i + |key| <= |text| && text[i..i + |key|] == key
    ensures Contains(text, key)
  {
    assert At(text, key, i);
    FindIsFirst(text, key);
  }

  lemma AtBefore(a: string, b: string, c: string, key: string, i: nat)
    requires i + |key| <= |a|
    ensures At(a + b, key, i) <==> At(a + c, key, i)
  {
    assert (a + b)[i..i + |key|] == (a + c)[i..i + |key|];
  }

  lemma AtAfter(a: string, b: string, c: string, key: string, i: nat)
    ensures At(a + c, key, |a| + i) <==> At(b + c, key, |b| + i)
  {
    if i + |key| <= |c| {
      assert (a + c)[|a| + i..|a| + i + |key|] == (b + c)[|b| + i..|b| + i + |key|];
    }
  }

  /** Replacing a stretch before or after an anchor found once, by text the anchor
      cannot touch, leaves it found once. */
  lemma SoleStays(a: string, was: string, r: string, b: string, key: string, p: nat)
    requires key != [] && Clear(key, r) && Sole(a + was + b, key, p)
    requires p + |key| <= |a| || |a| + |was| <= p
    ensures Sole(a + r + b, key, if p < |a| then p else p - |was| + |r|)
  {
    hide Clear;
    var before, now := a + was + b, a + r + b;
    var q := if p < |a| then p else p - |was| + |r|;
    forall i: nat | At(now, key, i)
      ensures q <= i < q + |key|
    {
      ClearOccurrence(a, r, b, key, i);
      MovesBack(a, was, r, b, key, i);
    }
    if p < |a| {
      assert before == a + (was + b) && now == a + (r + b);
      AtBefore(a, was + b, r + b, key, p);
    } else {
      AtAfter(a + was, a + r, b, key, p - |a| - |was|);
    }
  }

  /** An occurrence beside the new stretch was one beside the old. */
  lemma MovesBack(a: string, was: string, r: string, b: string, key: string, i: nat)
    requires At(a + r + b, key, i) && (i + |key| <= |a| || |a| + |r| <= i)
    ensures i + |key| <= |a| ==> At(a + was + b, key, i)
    ensures |a| + |r| <= i ==> At(a + was + b, key, i - |r| + |was|)
  {
    assert a + was + b == a + (was + b) && a + r + b == a + (r + b);
    if i + |key| <= |a| {
      AtBefore(a, was + b, r + b, key, i);
    }
    if |a| + |r| <= i {
      AtAfter(a + r, a + was, b, key, i - |a| - |r|);
    }
  }

  /** Anchor `m`, at piece `j`, is found once with the first `k` edits made. */
  ghost predicate FoundOnce(pieces: seq<Piece>, edits: seq<Edit>, k: nat, m: nat, j: nat)
    requires m < |edits| && j < |pieces|
  {
    Sole(Rendered(pieces, edits, k), edits[m].anchor, Offset(pieces, edits, k, j))
  }

  /** Edit `k`, at piece `i`, leaves a later anchor found once. */
  lemma FoundOnceStays(pieces: seq<Piece>, edits: seq<Edit>, which: set<nat>, k: nat, i: nat, m: nat, j: nat)
    requires Places(pieces, which) && Proper(edits) && k < m < |edits|
    requires i < |pieces| && j < |pieces| && pieces[i] == Anchor(k) && pieces[j] == Anchor(m)
    requires Clear(edits[m].anchor, edits[k].replacement) && FoundOnce(pieces, edits, k, m, j)
    ensures FoundOnce(pieces, edits, k + 1, m, j)
  {
    hide Rendered, Clear, Sole;
    var a, b := Rendered(pieces[..i], edits, k), Rendered(pieces[i + 1..], edits, k);
    var key, was, r := edits[m].anchor, edits[k].anchor, edits[k].replacement;
    AroundAnchor(pieces, edits, k, i);
    var p := Offset(pieces, edits, k, j);
    if j < i {
      assert pieces[..i][..j] == pieces[..j] && pieces[..i][j] == pieces[j];
      RenderedAround(pieces[..i], edits, k, j);
      RenderedStep(pieces[..j], edits, k);
      assert p + |key| <= |a|;
      assert p < |a| by { assert edits[m].anchor != []; }
    } else {
      RenderedAround(pieces[..j], edits, k, i);
      RenderedAround(pieces[..j], edits, k + 1, i);
      assert pieces[..j][..i] == pieces[..i];
      RenderedStep(pieces[..j][i + 1..], edits, k);
      assert |a| + |was| <= p;
      assert Offset(pieces, edits, k + 1, j) == p - |was| + |r|;
    }
    SoleStays(a, was, r, b, key, p);
  }

  /** Every anchor from `k` on is found once with the first `k` edits made. */
  ghost predicate AllFoundOnce(pieces: seq<Piece>, edits: seq<Edit>, k: nat) {
    forall j :: 0 <= j < |pieces| && pieces[j].Anchor? && k <= pieces[j].edit < |edits| ==>
      FoundOnce(pieces, edits, k, pieces[j].edit, j)
  }

  lemma OneEdit(pieces: seq<Piece>, edits: seq<Edit>, k: nat)
    requires Places(pieces, Indexes(|edits|)) && Proper(edits) && Undisturbed(edits) && k < |edits|
    requires AllFoundOnce(pieces, edits, k)
    ensures AllFoundOnce(pieces, edits, k + 1)
    ensures edits[k].anchor != []
    ensures Replace(Rendered(pieces, edits, k), edits[k].anchor, edits[k].replacement) == Rendered(pieces, edits, k + 1)
  {
    hide Rendered, Replace, Clear, FoundOnce, Places;
    var i := PlaceOf(pieces, Indexes(|edits|), k);
    forall j | 0 <= j < |pieces| && pieces[j].Anchor? && k + 1 <= pieces[j].edit < |edits|
      ensures FoundOnce(pieces, edits, k + 1, pieces[j].edit, j)
    {
      FoundOnceStays(pieces, edits, Indexes(|edits|), k, i, pieces[j].edit, j);
    }
    assert FoundOnce(pieces, edits, k, k, i);
    SoleIsReplaced(pieces, edits, k, i);
  }

  lemma SoleIsReplaced(pieces: seq<Piece>, edits: seq<Edit>, k: nat, i: nat)
    requires Proper(edits) && k < |edits| && i < |pieces| && pieces[i] == Anchor(k)
    requires forall j :: 0 <= j < |pieces| && j != i ==> pieces[j] != Anchor(k)
    requires FoundOnce(pieces, edits, k, k, i)
    ensures edits[k].anchor != []
    ensures Replace(Rendered(pieces, edits, k), edits[k].anchor, edits[k].replacement) == Rendered(pieces, edits, k + 1)
  {
    hide Rendered, Replace, Sole;
    var key, value := edits[k].anchor, edits[k].replacement;
    var a, b := Rendered(pieces[..i], edits, k), Rendered(pieces[i + 1..], edits, k);
    var text := Rendered(pieces, edits, k);
    AroundAnchor(pieces, edits, k, i);
    ReplaceSole(text, key, value, |a|);
    assert text[..|a|] == a && text[|a| + |key|..] == b;
  }

  lemma {:induction false} StepByStep(pieces: seq<Piece>, edits: seq<Edit>, n: nat)
    requires Places(pieces, Indexes(|edits|)) && Proper(edits) && Undisturbed(edits) && n <= |edits|
    requires AllFoundOnce(pieces, edits, 0)
    ensures Proper(edits[..n]) && AllFoundOnce(pieces, edits, n)
    ensures Sequential(Rendered(pieces, edits, 0), edits[..n]) == Rendered(pieces, edits, n)
  {
    hide Rendered, Replace, AllFoundOnce, Places, Undisturbed;
    if n > 0 {
      StepByStep(pieces, edits, n - 1);
      assert edits[..n][..n - 1] == edits[..n - 1];
      OneEdit(pieces, edits, n - 1);
    }
  }

  // --- anchors that lie apart have a layout -------------------------------

  /** Anchor `k` is found at `pos[k]`, and no two of `which` overlap. */
  ghost predicate Apart(text: string, edits: seq<Edit>, pos: seq<nat>, which: set<nat>) {
    && |pos| == |edits|
    && (forall k :: k in which ==> k < |edits| && At(text, edits[k].anchor, pos[k]))
    && (forall j, k :: j in which && k in which && j != k ==> Follows(edits, pos, j, k) || Follows(edits, pos, k, j))
  }

  /** Anchor `k` starts after anchor `j` ends. */
  ghost predicate Follows(edits: seq<Edit>, pos: seq<nat>, j: nat, k: nat) {
    j < |edits| && j < |pos| && k < |pos| && pos[j] + |edits[j].anchor| <= pos[k]
  }

  /** Each anchor of `pieces` starts where `pos` says. */
  ghost predicate StartsAt(pieces: seq<Piece>, edits: seq<Edit>, pos: seq<nat>) {
    forall i :: 0 <= i < |pieces| && pieces[i].Anchor? ==>
      pieces[i].edit < |pos| && Offset(pieces, edits, 0, i) == pos[pieces[i].edit]
  }

  lemma {:induction false} LastPosition(pos: seq<nat>, which: set<nat>) returns (k: nat)
    requires which != {} && forall k :: k in which ==> k < |pos|
    ensures k in which && forall j :: j in which ==> pos[j] <= pos[k]
  {
    var first :| first in which;
    var rest := which - {first};
    assert which == rest + {first};
    if rest == {} {
      k := first;
    } else {
      var l := LastPosition(pos, rest);
      k := if pos[first] < pos[l] then l else first;
    }
    forall j | j in which
      ensures pos[j] <= pos[k]
    {
      assert j == first || j in rest;
    }
  }

  lemma ApartBefore(text: string, edits: seq<Edit>, pos: seq<nat>, which: set<nat>, k: nat)
    requires Proper(edits) && Apart(text, edits, pos, which)
    requires k in which && forall j :: j in which ==> pos[j] <= pos[k]
    ensures pos[k] + |edits[k].anchor| <= |text| && Apart(text[..pos[k]], edits, pos, which - {k})
  {
    assert At(text, edits[k].anchor, pos[k]);
    var before, rest := text[..pos[k]], which - {k};
    forall j | j in rest
      ensures j < |edits| && At(before, edits[j].anchor, pos[j])
    {
      assert j in which;
      assert At(text, edits[j].anchor, pos[j]) && edits[j].anchor != [];
      assert Follows(edits, pos, j, k) || Follows(edits, pos, k, j);
      assert before[pos[j]..pos[j] + |edits[j].anchor|] == text[pos[j]..pos[j] + |edits[j].anchor|];
    }
    forall j, l | j in rest && l in rest && j != l
      ensures Follows(edits, pos, j, l) || Follows(edits, pos, l, j)
    {
      assert j in which && l in which;
    }
  }

  lemma PlacesMore(pieces: seq<Piece>, which: set<nat>, k: nat, rest: string)
    requires Places(pieces, which - {k}) && k in which
    ensures Places(pieces + [Anchor(k), Between(rest)], which)
  {
    var more := pieces + [Anchor(k), Between(rest)];
    forall j | j in which
      ensures HasAnchor(more, j)
    {
      if j == k {
        assert more[|pieces|] == Anchor(k);
      } else {
        assert HasAnchor(pieces, j);
        var i :| 0 <= i < |pieces| && pieces[i] == Anchor(j);
        assert more[i] == Anchor(j);
      }
    }
  }

  lemma StartsAtMore(pieces: seq<Piece>, edits: seq<Edit>, pos: seq<nat>, k: nat, rest: string)
    requires StartsAt(pieces, edits, pos) && k < |pos| && |Rendered(pieces, edits, 0)| == pos[k]
    ensures StartsAt(pieces + [Anchor(k), Between(rest)], edits, pos)
  {
    hide Rendered;
    var more := pieces + [Anchor(k), Between(rest)];
    forall i | 0 <= i < |more| && more[i].Anchor?
      ensures more[i].edit < |pos| && Offset(more, edits, 0, i) == pos[more[i].edit]
    {
      if i < |pieces| {
        assert more[..i] == pieces[..i] && more[i] == pieces[i];
      } else {
        assert more[..i] == pieces;
      }
    }
  }

  lemma {:induction false} PlaceAnchors(text: string, edits: seq<Edit>, pos: seq<nat>, which: set<nat>)
    returns (pieces: seq<Piece>)
    requires Proper(edits) && Apart(text, edits, pos, which)
    ensures Places(pieces, which) && StartsAt(pieces, edits, pos) && Rendered(pieces, edits, 0) == text
    decreases which
  {
    hide Rendered, Places, StartsAt;
    if which == {} {
      pieces := [Between(text)];
      RenderedOne(pieces[0], edits, 0);
      NothingPlaced(text, edits, pos);
    } else {
      var k := LastPosition(pos, which);
      ApartBefore(text, edits, pos, which, k);
      var end := pos[k] + |edits[k].anchor|;
      var before := PlaceAnchors(text[..pos[k]], edits, pos, which - {k});
      pieces := before + [Anchor(k), Between(text[end..])];
      PlacesMore(before, which, k, text[end..]);
      StartsAtMore(before, edits, pos, k, text[end..]);
      RenderedJoin(before, [Anchor(k), Between(text[end..])], edits, 0);
      RenderedJoin([Anchor(k)], [Between(text[end..])], edits, 0);
      RenderedOne(Anchor(k), edits, 0);
      RenderedOne(Between(text[end..]), edits, 0);
      assert [Anchor(k)] + [Between(text[end..])] == [Anchor(k), Between(text[end..])];
      assert At(text, edits[k].anchor, pos[k]);
      assert text == text[..pos[k]] + (edits[k].anchor + text[end..]);
    }
  }

  lemma NothingPlaced(text: string, edits: seq<Edit>, pos: seq<nat>)
    ensures Places([Between(text)], {}) && StartsAt([Between(text)], edits, pos)
  {}

  function Indexes(n: nat): (r: set<nat>)
    ensures forall k :: k in r <==> 0 <= k < n
  {
    if n == 0 then {} else Indexes(n - 1) + {n - 1}
  }

  // --- what a patch does --------------------------------------------------

  /** Where each anchor is first found. */
  function Positions(text: string, edits: seq<Edit>): (pos: seq<nat>)
    ensures |pos| == |edits|
    ensures forall k :: 0 <= k < |edits| && Find(text, edits[k].anchor).Some? ==>
      pos[k] == Find(text, edits[k].anchor).value
  {
    if edits == [] then []
    else
      var at := Find(text, edits[|edits| - 1].anchor);
      Positions(text, edits[..|edits| - 1]) + [if at.Some? then at.value else 0]
  }

  /** The text passes the script's check, and its anchors do not overlap. */
  ghost predicate Patchable(text: string, edits: seq<Edit>) {
    Proper(edits) && Checked(text, edits) && Apart(text, edits, Positions(text, edits), Indexes(|edits|))
  }

  lemma AnchorsApart(text: string, a: string, b: string, p: nat, q: nat)
    requires b != [] && Clear(b, a) && At(text, a, p) && At(text, b, q)
    ensures p + |a| <= q || q + |b| <= p
  {
    hide Clear;
    var before, after := text[..p], text[p + |a|..];
    assert text == before + a + after by {
      assert text[p..p + |a|] == a;
    }
    ClearOccurrence(before, a, after, b, q);
  }

  /** The check alone is enough: anchors that cannot touch one another, each counted
      once, lie apart. */
  lemma CheckedIsPatchable(text: string, edits: seq<Edit>)
    requires Proper(edits) && Checked(text, edits) && Independent(edits)
    ensures Patchable(text, edits)
  {
    hide Clear, Occurrences, Find;
    var pos := Positions(text, edits);
    forall k | 0 <= k < |edits|
      ensures At(text, edits[k].anchor, pos[k])
    {
      CountIsSole(text, edits[k].anchor);
    }
    forall j, k | 0 <= j < |edits| && 0 <= k < |edits| && j != k
      ensures Follows(edits, pos, j, k) || Follows(edits, pos, k, j)
    {
      if j < k {
        AnchorsApart(text, edits[j].anchor, edits[k].anchor, pos[j], pos[k]);
      } else {
        AnchorsApart(text, edits[k].anchor, edits[j].anchor, pos[k], pos[j]);
      }
    }
  }

  lemma CheckedIsFoundOnce(text: string, edits: seq<Edit>, pieces: seq<Piece>)
    requires Patchable(text, edits) && Places(pieces, Indexes(|edits|)) && Rendered(pieces, edits, 0) == text
    requires StartsAt(pieces, edits, Positions(text, edits))
    ensures AllFoundOnce(pieces, edits, 0)
  {
    hide Rendered, Occurrences, Apart, Sole;
    forall j | 0 <= j < |pieces| && pieces[j].Anchor? && 0 <= pieces[j].edit < |edits|
      ensures FoundOnce(pieces, edits, 0, pieces[j].edit, j)
    {
      CountIsSole(text, edits[pieces[j].edit].anchor);
    }
  }

  /** Independent edits, on any text that passes the script's check: making them one
      after the other gives what replacing every anchor at once would. */
  lemma SequentialIsSimultaneous(text: string, edits: seq<Edit>) returns (pieces: seq<Piece>)
    requires Proper(edits) && Checked(text, edits) && Independent(edits)
    ensures Places(pieces, Indexes(|edits|)) && StartsAt(pieces, edits, Positions(text, edits))
    ensures Rendered(pieces, edits, 0) == text
    ensures Sequential(text, edits) == Rendered(pieces, edits, |edits|)
  {
    hide Rendered, StartsAt, Places, Undisturbed, Checked, Patchable;
    CheckedIsPatchable(text, edits);
    pieces := SequentialOnApart(text, edits);
  }

  /** The same where anchors lie apart in the text, whatever they could touch. */
  lemma SequentialOnApart(text: string, edits: seq<Edit>) returns (pieces: seq<Piece>)
    requires Patchable(text, edits) && Undisturbed(edits)
    ensures Places(pieces, Indexes(|edits|)) && StartsAt(pieces, edits, Positions(text, edits))
    ensures Rendered(pieces, edits, 0) == text
    ensures Sequential(text, edits) == Rendered(pieces, edits, |edits|)
  {
    hide Rendered, Apart, StartsAt, Places, Undisturbed, Checked, AllFoundOnce;
    pieces := PlaceAnchors(text, edits, Positions(text, edits), Indexes(|edits|));
    CheckedIsFoundOnce(text, edits, pieces);
    StepByStep(pieces, edits, |edits|);
    assert edits[..|edits|] == edits;
  }

  lemma ContainsIsAt(text: string, key: string)
    ensures Contains(text, key) <==> exists i: nat :: At(text, key, i)
  {
    FindIsFirst(text, key);
  }

  lemma ContainsPart(a: string, b: string, c: string, key: string)
    requires Contains(b, key)
    ensures Contains(a + b + c, key)
  {
    hide Contains;
    ContainsIsAt(b, key);
    var i: nat :| At(b, key, i);
    var s := a + b + c;
    assert s[|a| + i..|a| + i + |key|] == b[i..i + |key|];
    assert At(s, key, |a| + i);
    ContainsIsAt(s, key);
  }

  /** Every replacement is in the patched text, and so is the marker if any of them
      carries it: a second run leaves the text alone. */
  lemma PatchedIsMarked(text: string, edits: seq<Edit>, k: nat, marker: string)
    requires Proper(edits) && Checked(text, edits) && Independent(edits)
    requires k < |edits| && Contains(edits[k].replacement, marker)
    ensures Contains(Sequential(text, edits), edits[k].replacement)
    ensures Contains(Sequential(text, edits), marker)
  {
    hide Rendered, Checked, Independent, Contains, StartsAt, Places;
    var pieces := SequentialIsSimultaneous(text, edits);
    var i := PlaceOf(pieces, Indexes(|edits|), k);
    RenderedAround(pieces, edits, |edits|, i);
    var a, b := Rendered(pieces[..i], edits, |edits|), Rendered(pieces[i + 1..], edits, |edits|);
    FoundIn(edits[k].replacement, edits[k].replacement, 0);
    ContainsPart(a, edits[k].replacement, b, edits[k].replacement);
    ContainsPart(a, edits[k].replacement, b, marker);
  }

  // --- an anchor that an earlier edit brings in ---------------------------

  lemma {:induction false} ReplaceLength(text: string, key: string, value: string)
    requires key != []
    ensures |Replace(text, key, value)| == |text| + Occurrences(text, key) * (|value| - |key|)
    decreases |text|
  {
    if text != [] {
      ReplaceUnfolds(text, key, value);
      hide Replace, Occurrences;
      if key <= text {
        ReplaceLength(text[|key|..], key, value);
        OneMore(Occurrences(text[|key|..], key), |value| - |key|);
      } else {
        ReplaceLength(text[1..], key, value);
      }
    }
  }

  lemma OneMore(n: int, d: int)
    ensures (1 + n) * d == d + n * d
  {}

  lemma {:induction false} CountTwice(text: string, key: string, i: nat, j: nat)
    requires key != [] && At(text, key, i) && At(text, key, j) && i + |key| <= j
    ensures Occurrences(text, key) >= 2
    decreases i
  {
    if key <= text {
      AtDrop(text, key, |key|, j - |key|);
      if Occurrences(text[|key|..], key) == 0 {
        CountNone(text[|key|..], key);
      }
    } else {
      AtTail(text, key, i);
      AtTail(text, key, j);
      CountTwice(text[1..], key, i - 1, j - 1);
    }
  }

  /** One edit, made where its anchor is first found, against all at once: the two
      agree exactly when the anchor, counted again at that moment, is still found
      once. (An edit that keeps the length is the exception.) */
  lemma StepAgreesIff(pieces: seq<Piece>, edits: seq<Edit>, k: nat, i: nat)
    requires Places(pieces, Indexes(|edits|)) && Proper(edits) && k < |edits|
    requires i < |pieces| && pieces[i] == Anchor(k) && |edits[k].replacement| != |edits[k].anchor|
    requires Find(Rendered(pieces, edits, k), edits[k].anchor) == Some(Offset(pieces, edits, k, i))
    ensures edits[k].anchor != []
    ensures Replace(Rendered(pieces, edits, k), edits[k].anchor, edits[k].replacement) == Rendered(pieces, edits, k + 1)
            <==> Occurrences(Rendered(pieces, edits, k), edits[k].anchor) == 1
  {
    hide Rendered, Replace, Occurrences, Sole;
    var text, key, value := Rendered(pieces, edits, k), edits[k].anchor, edits[k].replacement;
    AroundAnchor(pieces, edits, k, i);
    ReplaceLength(text, key, value);
    CountIsSole(text, key);
    if Occurrences(text, key) == 1 {
      SoleIsReplaced(pieces, edits, k, i);
    }
    if Replace(text, key, value) == Rendered(pieces, edits, k + 1) {
      OneTimes(Occurrences(text, key), |value| - |key|);
    }
  }

  lemma OneTimes(n: int, d: int)
    requires d != 0
    ensures n * d == d ==> n == 1
  {
    if n * d == d {
      assert (n - 1) * d == 0;
    }
  }

  /** An anchor that an earlier replacement holds is found twice when its turn
      comes, and both are replaced: not what all at once would give. */
  lemma BroughtInDiverges(pieces: seq<Piece>, edits: seq<Edit>, j: nat, k: nat)
    requires Places(pieces, Indexes(|edits|)) && Proper(edits) && j < k < |edits|
    requires Contains(edits[j].replacement, edits[k].anchor) && |edits[k].replacement| != |edits[k].anchor|
    ensures edits[k].anchor != [] && Occurrences(Rendered(pieces, edits, k), edits[k].anchor) >= 2
    ensures Replace(Rendered(pieces, edits, k), edits[k].anchor, edits[k].replacement) != Rendered(pieces, edits, k + 1)
  {
    hide Rendered, Replace, Occurrences, Contains, Places;
    var text, key, value := Rendered(pieces, edits, k), edits[k].anchor, edits[k].replacement;
    var p := PlaceOf(pieces, Indexes(|edits|), j);
    var q := PlaceOf(pieces, Indexes(|edits|), k);
    ContainsIsAt(edits[j].replacement, key);
    var x: nat :| At(edits[j].replacement, key, x);
    ShownAt(pieces, edits, k, p, key, x);
    FoundIn(key, key, 0);
    assert At(key, key, 0);
    ShownAt(pieces, edits, k, q, key, 0);
    PiecesApart(pieces, edits, k, if p < q then p else q, if p < q then q else p);
    if p < q {
      CountTwice(text, key, Offset(pieces, edits, k, p) + x, Offset(pieces, edits, k, q));
    } else {
      CountTwice(text, key, Offset(pieces, edits, k, q), Offset(pieces, edits, k, p) + x);
    }
    AroundAnchor(pieces, edits, k, q);
    ReplaceLength(text, key, value);
    OneTimes(Occurrences(text, key), |value| - |key|);
  }

  /** What a piece shows is in the text where the piece starts. */
  lemma ShownAt(pieces: seq<Piece>, edits: seq<Edit>, done: nat, i: nat, key: string, x: nat)
    requires i < |pieces| && At(Shown(pieces[i], edits, done), key, x)
    ensures At(Rendered(pieces, edits, done), key, Offset(pieces, edits, done, i) + x)
  {
    hide Rendered, Shown;
    RenderedAround(pieces, edits, done, i);
    var a, b := Rendered(pieces[..i], edits, done), Shown(pieces[i], edits, done);
    var c := Rendered(pieces[i + 1..], edits, done);
    var s := a + b + c;
    assert s[|a| + x..|a| + x + |key|] == b[x..x + |key|];
  }

  lemma PiecesApart(pieces: seq<Piece>, edits: seq<Edit>, done: nat, i: nat, j: nat)
    requires i < j < |pieces|
    ensures Offset(pieces, edits, done, i) + |Shown(pieces[i], edits, done)| <= Offset(pieces, edits, done, j)
  {
    hide Rendered, Shown;
    assert pieces[..j][..i] == pieces[..i] && pieces[..j][i] == pieces[i];
    RenderedAround(pieces[..j], edits, done, i);
  }

  // --- nothing is lost ----------------------------------------------------

  /** `a` can be had from `b` by leaving characters out. */
  ghost predicate Sub(a: string, b: string) {
    if a == [] then true
    else if b == [] then false
    else if a[|a| - 1] == b[|b| - 1] then Sub(a[..|a| - 1], b[..|b| - 1])
    else Sub(a, b[..|b| - 1])
  }

  lemma {:induction false} SubMore(a: string, b: string, c: string)
    requires Sub(a, b)
    ensures Sub(a, b + c)
    decreases |b|, |c|
  {
    if a != [] && c != [] {
      var s := b + c;
      assert s[..|s| - 1] == b + c[..|c| - 1];
      SubMore(a, b, c[..|c| - 1]);
      if a[|a| - 1] == s[|s| - 1] {
        SubShorter(a, b + c[..|c| - 1]);
      }
    } else {
      assert b + [] == b;
    }
  }

  lemma {:induction false} SubShorter(a: string, b: string)
    requires a != [] && Sub(a, b)
    ensures Sub(a[..|a| - 1], b)
    decreases |b|
  {
    var s, t := a[..|a| - 1], b[..|b| - 1];
    if a[|a| - 1] == b[|b| - 1] {
      if s != [] && s[|s| - 1] == b[|b| - 1] {
        SubShorter(s, t);
      }
    } else {
      SubShorter(a, t);
      if s != [] && s[|s| - 1] == b[|b| - 1] {
        SubShorter(s, t);
      }
    }
  }

  lemma {:induction false} SubJoin(a: string, b: string, c: string, d: string)
    requires Sub(a, b) && Sub(c, d)
    ensures Sub(a + c, b + d)
    decreases |d|
  {
    var s, t := a + c, b + d;
    if c == [] {
      assert s == a;
      SubMore(a, b, d);
    } else {
      assert t[..|t| - 1] == b + d[..|d| - 1] && s[..|s| - 1] == a + c[..|c| - 1];
      if c[|c| - 1] == d[|d| - 1] {
        SubJoin(a, b, c[..|c| - 1], d[..|d| - 1]);
      } else {
        SubJoin(a, b, c, d[..|d| - 1]);
      }
    }
  }

  lemma {:induction false} SubSame(a: string)
    ensures Sub(a, a)
  {
    if a != [] {
      SubSame(a[..|a| - 1]);
    }
  }

  lemma {:induction false} SubTransitive(a: string, b: string, c: string)
    requires Sub(a, b) && Sub(b, c)
    ensures Sub(a, c)
    decreases |c|
  {
    if a != [] {
      var s, t, u := a[..|a| - 1], b[..|b| - 1], c[..|c| - 1];
      if b[|b| - 1] == c[|c| - 1] {
        if a[|a| - 1] == b[|b| - 1] {
          SubTransitive(s, t, u);
        } else {
          SubTransitive(a, t, u);
        }
      } else {
        SubTransitive(a, b, u);
        if a[|a| - 1] == c[|c| - 1] {
          SubShorter(a, u);
        }
      }
    }
  }

  /** An edit that only adds text before and after its anchor. */
  ghost predicate Inserts(e: Edit) { exists pre, post :: e.replacement == pre + e.anchor + post }

  lemma InsertsKeep(e: Edit)
    requires Inserts(e)
    ensures Sub(e.anchor, e.replacement)
  {
    var pre, post :| e.replacement == pre + e.anchor + post;
    SubSame(e.anchor);
    SubJoin([], pre, e.anchor, e.anchor);
    assert [] + e.anchor == e.anchor;
    SubMore(e.anchor, pre + e.anchor, post);
  }

  lemma {:induction false} ReplaceKeeps(text: string, key: string, value: string)
    requires key != [] && Sub(key, value)
    ensures Sub(text, Replace(text, key, value))
    decreases |text|
  {
    hide Sub;
    SubSame([]);
    if text != [] {
      if key <= text {
        ReplaceKeeps(text[|key|..], key, value);
        SubJoin(key, value, text[|key|..], Replace(text[|key|..], key, value));
        assert text == key + text[|key|..];
      } else {
        ReplaceKeeps(text[1..], key, value);
        SubSame(text[..1]);
        SubJoin(text[..1], text[..1], text[1..], Replace(text[1..], key, value));
        assert text == text[..1] + text[1..];
      }
    }
  }

  /** Edits that only insert: the patched text holds all of the old one, in order,
      whatever the text. */
  lemma {:induction false} InsertionsKeepText(text: string, edits: seq<Edit>)
    requires Proper(edits) && forall i :: 0 <= i < |edits| ==> Inserts(edits[i])
    ensures Sub(text, Sequential(text, edits))
  {
    hide Sub, Inserts, Replace;
    if edits == [] {
      SubSame(text);
    } else {
      var l := |edits| - 1;
      InsertionsKeepText(text, edits[..l]);
      InsertsKeep(edits[l]);
      var before := Sequential(text, edits[..l]);
      ReplaceKeeps(before, edits[l].anchor, edits[l].replacement);
      SubTransitive(text, before, Replace(before, edits[l].anchor, edits[l].replacement));
    }
  }
}
