/** What Go makes of the rewritten flag. */
module SkipTheorems {
  import opened SkipPatterns

  /** Parts as the second walk leaves them: the first lacks only its `^`. */
  function Ended(parts: seq<string>): (r: seq<string>)
    requires parts != []
    ensures |r| == |parts|
  {
    [parts[0] + "$"] + Each(parts[1..])
  }

  lemma EndedPrepend(text: string, parts: seq<string>)
    requires parts != []
    ensures Prepend(text, [Ended(parts)]) == [Ended(Prepend(text, [parts])[0])]
  {
    var q := Prepend(text, [parts])[0];
    assert q[1..] == parts[1..];
    assert q[0] + "$" == text + (parts[0] + "$");
  }

  lemma EndedNewPart(parts: seq<string>)
    requires parts != []
    ensures Prepend("$", NewPart(Prepend("^", [Ended(parts)]))) == [Ended(NewPart([parts])[0])]
  {
    var q := NewPart([parts])[0];
    assert q[1..] == parts && q[0] == [];
    EndedIsEach(parts);
    var r := NewPart([Each(parts)]);
    assert r == [[[]] + Each(parts)];
    assert r[0][1..] == Each(parts) && r[0][0] == [] && r[1..] == [];
    assert "$" + [] == "$" == [] + "$";
  }

  lemma EndedIsEach(parts: seq<string>)
    requires parts != []
    ensures Prepend("^", [Ended(parts)]) == [Each(parts)]
  {
    assert "^" + (parts[0] + "$") == "^" + parts[0] + "$";
  }

  lemma SplitChar(ch: char, rest: string, d: Depth)
    requires ch != '\\' && ((ch != '/' && ch != '|') || d != TOP)
    ensures GoSplit([ch] + rest, d) == Prepend([ch], GoSplit(rest, GoStep(d, ch)))
  {
    var s := [ch] + rest;
    assert s[1..] == rest && s[..1] == [ch];
  }

  lemma SplitEscape(two: string, rest: string, d: Depth)
    requires |two| == 2 && two[0] == '\\'
    ensures GoSplit(two + rest, d) == Prepend(two, GoSplit(rest, d))
  {
    var s := two + rest;
    assert s[2..] == rest && s[..2] == two;
  }

  lemma SplitSlash(rest: string)
    ensures GoSplit("$/^" + rest, TOP) == Prepend("$", NewPart(Prepend("^", GoSplit(rest, TOP))))
  {
    hide Prepend, NewPart;
    SplitChar('^', rest, TOP);
    var s := "/" + ("^" + rest);
    assert s[1..] == "^" + rest;
    SplitChar('$', s, TOP);
    assert "$/^" + rest == "$" + s;
  }

  lemma StepsAgree(d: Depth, ch: char)
    requires d.cs >= 0 && GoStep(d, ch).cp >= 0
    ensures Step(d, ch) == GoStep(d, ch) && Step(d, ch).cs >= 0
  {}

  // --- the second walk, as Go splits it -----------------------------------

  /** Where the walks split at the same slashes, Go splits the second walk's output
      into the parts with their anchors. */
  lemma {:induction false} WrappedSplits(s: string, d: Depth, e: Depth)
    requires SameSlashes(s, d, e) && |GoSplit(s, d)| == 1
    ensures GoSplit(Wrapped(s, e), d) == [Ended(GoSplit(s, d)[0])]
    decreases |s|
  {
    hide Prepend, NewPart, Ended, Each, Step, GoStep;
    if s == [] || s == "\\" {
      WrappedEnd(s, d, e);
    } else if s[0] == '\\' {
      WrappedSplits(s[2..], d, e);
      SplitEscape(s[..2], Wrapped(s[2..], e), d);
      var parts := GoSplit(s[2..], d)[0];
      assert GoSplit(s[2..], d) == [parts];
      EndedPrepend(s[..2], parts);
      OnlyOne(GoSplit(s, d));
    } else if s[0] == '/' && d == TOP {
      PlainStep(d, '/');
      PlainStep(e, '/');
      WrappedSplits(s[1..], d, e);
      SplitSlash(Wrapped(s[1..], e));
      var parts := GoSplit(s[1..], d)[0];
      assert GoSplit(s[1..], d) == [parts];
      EndedNewPart(parts);
    } else {
      var ch, d', e' := s[0], GoStep(d, s[0]), Step(e, s[0]);
      assert s[..1] == [ch];
      WrappedSplits(s[1..], d', e');
      SplitChar(ch, Wrapped(s[1..], e'), d);
      var parts := GoSplit(s[1..], d')[0];
      assert GoSplit(s[1..], d') == [parts];
      EndedPrepend([ch], parts);
    }
  }

  lemma OnlyOne(alts: seq<seq<string>>)
    requires |alts| == 1
    ensures alts == [alts[0]]
  {}

  lemma PlainStep(d: Depth, ch: char)
    requires ch == '/' || ch == '^' || ch == '$' || ch == '|' || ch == '\\'
    ensures GoStep(d, ch) == d == Step(d, ch)
  {}

  lemma WrappedEnd(s: string, d: Depth, e: Depth)
    requires s == [] || s == "\\"
    ensures GoSplit(Wrapped(s, e), d) == [Ended(GoSplit(s, d)[0])]
  {
    var none: string := [];
    var end: seq<seq<string>> := [[none]];
    assert GoSplit(none, d) == end && GoSplit(none, GoStep(d, '$')) == end;
    if s == [] {
      SplitChar('$', none, d);
      assert "$" + none == "$" == none + "$";
    } else {
      assert s[1..] == none && s[..1] == s;
      assert Wrapped(none, Step(e, '\\')) == "$";
      SplitEscape("\\$", none, d);
      assert "\\$" + none == "\\$" == s + "$";
    }
  }

  lemma SplitInner(rest: string, d: Depth)
    requires d != TOP
    ensures GoSplit("$/^" + rest, d) == Prepend("$", Prepend("/", Prepend("^", GoSplit(rest, d))))
  {
    hide Prepend;
    PlainStep(d, '$');
    PlainStep(d, '/');
    PlainStep(d, '^');
    SplitChar('^', rest, d);
    SplitChar('/', "^" + rest, d);
    SplitChar('$', "/" + ("^" + rest), d);
    assert "$/^" + rest == "$" + ("/" + ("^" + rest));
  }

  /** The second walk adds no alternative and takes none away, and shortens no
      part: Go splits its output where it splits the pattern. */
  lemma {:induction false} WrappedCounts(s: string, d: Depth, e: Depth)
    ensures |GoSplit(Wrapped(s, e), d)| == |GoSplit(s, d)|
    ensures |GoSplit(Wrapped(s, e), d)[0][0]| >= |GoSplit(s, d)[0][0]|
    decreases |s|
  {
    hide Step, GoStep, Ended;
    if s == [] || s == "\\" {
      WrappedEnd(s, d, e);
      EndedLonger(GoSplit(s, d)[0]);
    } else if s[0] == '\\' {
      WrappedCounts(s[2..], d, e);
      SplitEscape(s[..2], Wrapped(s[2..], e), d);
    } else {
      var ch, d', e' := s[0], GoStep(d, s[0]), Step(e, s[0]);
      WrappedCounts(s[1..], d', e');
      assert s[..1] == [ch];
      if ch == '/' && e == TOP {
        PlainStep(d, '/');
        PlainStep(e, '/');
        if d == TOP {
          SplitSlash(Wrapped(s[1..], e));
        } else {
          SplitInner(Wrapped(s[1..], e), d);
        }
      } else if ch == '/' && d == TOP {
        PlainStep(d, '/');
        SplitAtSlash(Wrapped(s[1..], e'));
      } else if ch == '|' && d == TOP {
        PlainStep(d, '|');
        SplitAtPipe(Wrapped(s[1..], e'));
      } else {
        SplitChar(ch, Wrapped(s[1..], e'), d);
      }
    }
  }

  lemma EndedLonger(parts: seq<string>)
    requires parts != []
    ensures |Ended(parts)[0]| >= |parts[0]|
  {}

  lemma SplitAtSlash(rest: string)
    ensures GoSplit(['/'] + rest, TOP) == NewPart(GoSplit(rest, TOP))
  {
    assert (['/'] + rest)[1..] == rest;
  }

  lemma SplitAtPipe(rest: string)
    ensures GoSplit(['|'] + rest, TOP) == [[[]]] + GoSplit(rest, TOP)
  {
    assert (['|'] + rest)[1..] == rest;
  }

  // --- what the wanted text looks like ------------------------------------

  /** The rest of an alternative as it is wanted: `$/^` at Go's slashes and `$` at
      its end. */
  function AltWrapped(s: string, d: Depth): string
    decreases |s|
  {
    if s == [] then "$"
    else if s[0] == '\\' then if |s| == 1 then s + "$" else s[..2] + AltWrapped(s[2..], d)
    else if s[0] == '/' && d == TOP then "$/^" + AltWrapped(s[1..], d)
    else if s[0] == '|' && d == TOP then "$"
    else s[..1] + AltWrapped(s[1..], GoStep(d, s[0]))
  }

  lemma SlashedEnded(text: string, parts: seq<string>)
    requires parts != []
    ensures Slashed(Ended([text + parts[0]] + parts[1..])) == text + Slashed(Ended(parts))
  {
    var q := [text + parts[0]] + parts[1..];
    assert q[1..] == parts[1..] && q[0] + "$" == text + (parts[0] + "$");
    SlashedPrepend(text, Ended(parts));
    assert Ended(q) == [text + Ended(parts)[0]] + Ended(parts)[1..];
  }

  lemma SlashedEndedNew(parts: seq<string>)
    requires parts != []
    ensures Slashed(Ended([[]] + parts)) == "$/^" + Slashed(Ended(parts))
  {
    assert ([[]] + parts)[1..] == parts && [] + "$" == "$";
    assert Ended([[]] + parts) == ["$"] + Each(parts);
    assert "^" + (parts[0] + "$") == "^" + parts[0] + "$";
    assert Each(parts) == ["^" + Ended(parts)[0]] + Ended(parts)[1..];
    SlashedPrepend("^", Ended(parts));
    assert (["$"] + Each(parts))[1..] == Each(parts);
    assert "$" + "/" + ("^" + Slashed(Ended(parts))) == "$/^" + Slashed(Ended(parts));
  }

  /** The wanted parts of the first alternative, joined again. */
  lemma {:induction false} EndedText(s: string, d: Depth)
    ensures Slashed(Ended(GoSplit(s, d)[0])) == AltWrapped(s, d)
    decreases |s|
  {
    hide Ended, Each, GoStep, Slashed;
    if s == [] || s == "\\" {
      EndedOne(s);
    } else if s[0] == '\\' {
      EndedText(s[2..], d);
      SlashedEnded(s[..2], GoSplit(s[2..], d)[0]);
    } else if s[0] == '/' && d == TOP {
      EndedText(s[1..], d);
      SlashedEndedNew(GoSplit(s[1..], d)[0]);
    } else if s[0] == '|' && d == TOP {
      EndedOne([]);
    } else {
      EndedText(s[1..], GoStep(d, s[0]));
      SlashedEnded(s[..1], GoSplit(s[1..], GoStep(d, s[0]))[0]);
    }
  }

  lemma EndedOne(s: string)
    ensures Slashed(Ended([s])) == s + "$"
  {}

  lemma PrefixTail(x: string, y: string, k: nat)
    requires x <= y && k <= |x|
    ensures x[k..] <= y[k..]
  {}

  /** The second walk's text begins with the wanted first alternative only if there
      is no other and the two walks split at the same slashes. */
  lemma {:induction false} PrefixMeansSame(s: string, d: Depth, e: Depth)
    requires AltWrapped(s, d) <= Wrapped(s, e)
    ensures |GoSplit(s, d)| == 1 && SameSlashes(s, d, e)
    decreases |s|
  {
    hide Prepend, NewPart, Step, GoStep;
    if s == [] || s == "\\" {
    } else {
      var a, w := AltWrapped(s, d), Wrapped(s, e);
      assert a[0] == w[0];
      if s[0] == '\\' {
        PrefixTail(a, w, 2);
        assert a[2..] == AltWrapped(s[2..], d) && w[2..] == Wrapped(s[2..], e);
        PrefixMeansSame(s[2..], d, e);
      } else if s[0] == '/' && d == TOP {
        PlainStep(d, '/');
        PlainStep(e, '/');
        assert e == TOP;
        PrefixTail(a, w, 3);
        assert a[3..] == AltWrapped(s[1..], d) && w[3..] == Wrapped(s[1..], e);
        PrefixMeansSame(s[1..], d, e);
      } else {
        assert !(s[0] == '|' && d == TOP) && !(s[0] == '/' && e == TOP);
        PrefixTail(a, w, 1);
        assert a[1..] == AltWrapped(s[1..], GoStep(d, s[0])) && w[1..] == Wrapped(s[1..], Step(e, s[0]));
        PrefixMeansSame(s[1..], GoStep(d, s[0]), Step(e, s[0]));
      }
    }
  }

  // --- one pattern --------------------------------------------------------

  lemma FirstOfUnsplit(alts: seq<seq<string>>)
    requires alts != []
    ensures Slashed(alts[0]) <= Unsplit(alts)
  {
    hide Slashed;
  }

  lemma WantedTexts(alts: seq<seq<string>>)
    requires alts != [] && |alts[0]| > 1
    ensures Slashed(WantedAlts(alts)[0]) == "^" + Slashed(Ended(alts[0]))
  {
    hide Slashed;
    var parts := alts[0];
    assert "^" + (parts[0] + "$") == "^" + parts[0] + "$";
    assert Each(parts) == ["^" + Ended(parts)[0]] + Ended(parts)[1..];
    SlashedPrepend("^", Ended(parts));
  }

  /** An anchored pattern that Go reads as wanted is one alternative, split alike. */
  lemma AgreeMeansFits(p: string)
    requires NaiveSlash(p, TOP) && GoSplit(Anchored(p), TOP) == WantedAlts(GoSplit(p, TOP))
    ensures Fits(p)
  {
    hide GoSplit, NaiveSlash, Wrapped, Slashed, Ended, Each, Unsplit, SameSlashes, AltWrapped;
    var w, alts := Wrapped(p, TOP), GoSplit(p, TOP);
    var got := GoSplit("^" + w, TOP);
    PlainStep(TOP, '^');
    SplitChar('^', w, TOP);
    WrappedCounts(p, TOP, TOP);
    assert |got[0][0]| > |alts[0][0]|;
    assert got[0] == Wanted(alts[0]);
    assert |alts[0]| > 1;
    SplitLosesNothing("^" + w, TOP);
    FirstOfUnsplit(got);
    WantedTexts(alts);
    EndedText(p, TOP);
    PrefixTail("^" + AltWrapped(p, TOP), "^" + w, 1);
    assert ("^" + AltWrapped(p, TOP))[1..] == AltWrapped(p, TOP) && ("^" + w)[1..] == w;
    PrefixMeansSame(p, TOP, TOP);
  }

  lemma FitsMeansAgree(p: string)
    requires NaiveSlash(p, TOP) && Fits(p)
    ensures GoSplit(Anchored(p), TOP) == WantedAlts(GoSplit(p, TOP))
  {
    hide GoSplit, NaiveSlash, Wrapped, Ended, Each, SameSlashes, Prepend;
    WrappedSplits(p, TOP, TOP);
    PlainStep(TOP, '^');
    SplitChar('^', Wrapped(p, TOP), TOP);
    EndedIsEach(GoSplit(p, TOP)[0]);
  }

  lemma UntouchedAgreesIff(alts: seq<seq<string>>)
    ensures alts == WantedAlts(alts) <==> forall i :: 0 <= i < |alts| ==> |alts[i]| <= 1
  {
    forall i | 0 <= i < |alts|
      ensures alts[i] == Wanted(alts[i]) <==> |alts[i]| <= 1
    {
      if |alts[i]| > 1 {
        assert |Each(alts[i])[0]| == |alts[i][0]| + 2;
      }
    }
  }

  /** For any pattern at all: Go reads the rewritten pattern as wanted, each
      alternative of several parts anchored part by part and no other touched, if
      and only if it fits. */
  lemma AnchorAgreesIff(p: string)
    ensures GoSplit(Anchored(p), TOP) == WantedAlts(GoSplit(p, TOP)) <==> Fits(p)
  {
    if NaiveSlash(p, TOP) {
      hide GoSplit, Fits, Anchored, NaiveSlash, WantedAlts;
      if Fits(p) {
        FitsMeansAgree(p);
      } else if GoSplit(Anchored(p), TOP) == WantedAlts(GoSplit(p, TOP)) {
        AgreeMeansFits(p);
      }
    } else {
      hide GoSplit, NaiveSlash, WantedAlts;
      UntouchedAgreesIff(GoSplit(p, TOP));
    }
  }

  /** Escapes honoured, a pattern has a slash exactly when Go finds several parts. */
  lemma {:induction false} RealSlashIsSplit(s: string, d: Depth)
    requires Matched(s, d) && d.cs >= 0 && |GoSplit(s, d)| == 1
    ensures RealSlash(s, d) <==> |GoSplit(s, d)[0]| > 1
    decreases |s|
  {
    hide Step, GoStep, Prepend, NewPart;
    if s == [] || s == "\\" {
      assert s == "\\" ==> s[1..] == [];
    } else if s[0] == '\\' {
      RealSlashIsSplit(s[2..], d);
    } else if s[0] == '/' && d == TOP {
    } else {
      StepsAgree(d, s[0]);
      RealSlashIsSplit(s[1..], GoStep(d, s[0]));
    }
  }

  lemma {:induction false} MatchedSplitsAlike(s: string, d: Depth)
    requires Matched(s, d) && d.cs >= 0
    ensures SameSlashes(s, d, d)
    decreases |s|
  {
    hide Step, GoStep;
    if s != [] && s != "\\" {
      if s[0] == '\\' {
        MatchedSplitsAlike(s[2..], d);
      } else {
        StepsAgree(d, s[0]);
        MatchedSplitsAlike(s[1..], GoStep(d, s[0]));
      }
    }
  }

  /** With parentheses matched and no `|` outside brackets, a pattern fits exactly
      when the first walk sees a slash where there is one. */
  lemma OnePatternFitsIff(p: string)
    requires OnePattern(p)
    ensures Fits(p) <==> (NaiveSlash(p, TOP) <==> RealSlash(p, TOP))
  {
    hide GoSplit, NaiveSlash, RealSlash, SameSlashes, Matched;
    RealSlashIsSplit(p, TOP);
    MatchedSplitsAlike(p, TOP);
  }

  // --- patterns whose escapes do no harm ----------------------------------

  /** No backslash stands before a bracket, a parenthesis or a slash. */
  predicate TameEscapes(s: string)
    decreases |s|
  {
    if s == [] || s == "\\" then true
    else if s[0] == '\\' then s[1] !in "[]()/" && TameEscapes(s[2..])
    else TameEscapes(s[1..])
  }

  lemma {:induction false} TameWalksAgree(s: string, d: Depth)
    requires TameEscapes(s)
    ensures NaiveSlash(s, d) <==> RealSlash(s, d)
    decreases |s|
  {
    if s == [] || s == "\\" {
      assert s == "\\" ==> s[1..] == [];
    } else if s[0] == '\\' {
      TameWalksAgree(s[2..], d);
      assert s[1..][1..] == s[2..] && s[1..][0] == s[1];
      assert Step(d, s[0]) == d && Step(d, s[1]) == d;
      assert NaiveSlash(s, d) == NaiveSlash(s[1..], d);
    } else {
      TameWalksAgree(s[1..], Step(d, s[0]));
    }
  }

  lemma {:induction false} EscapeFreeIsTame(s: string)
    requires '\\' !in s
    ensures TameEscapes(s)
  {
    if s != [] {
      assert s[0] in s;
      EscapeFreeIsTame(s[1..]);
    }
  }

  // --- the whole flag -----------------------------------------------------

  lemma {:induction false} WrappedCloses(s: string, d: Depth, e: Depth)
    requires Closed(s, d)
    ensures Closed(Wrapped(s, e), d)
    decreases |s|
  {
    hide Step, GoStep;
    if s == [] {
      PlainStep(d, '$');
      assert "$"[1..] == [];
    } else if s[0] == '\\' {
      WrappedCloses(s[2..], d, e);
      var w := Wrapped(s, e);
      assert w[2..] == Wrapped(s[2..], e);
    } else if s[0] == '/' && e == TOP {
      PlainStep(d, '/');
      WrappedCloses(s[1..], d, e);
      ClosedThree(Wrapped(s[1..], e), d);
    } else {
      WrappedCloses(s[1..], GoStep(d, s[0]), Step(e, s[0]));
      var w := Wrapped(s, e);
      assert w[1..] == Wrapped(s[1..], Step(e, s[0])) && w[0] == s[0];
    }
  }

  lemma ClosedThree(w: string, d: Depth)
    ensures Closed("$/^" + w, d) == Closed(w, d)
  {
    var a, b, c := "^" + w, "/^" + w, "$/^" + w;
    assert a[1..] == w && b[1..] == a && c[1..] == b;
    assert Closed(a, d) == Closed(w, d);
    assert Closed(b, d) == Closed(a, d);
  }

  lemma AnchoredCloses(p: string)
    requires Closed(p, TOP)
    ensures Closed(Anchored(p), TOP)
  {
    WrappedCloses(p, TOP, TOP);
    var w := "^" + Wrapped(p, TOP);
    assert w[1..] == Wrapped(p, TOP);
  }

  lemma AnchoredCounts(p: string)
    ensures |GoSplit(Anchored(p), TOP)| == |GoSplit(p, TOP)|
  {
    hide GoSplit, Wrapped, NaiveSlash;
    WrappedCounts(p, TOP, TOP);
    PlainStep(TOP, '^');
    SplitChar('^', Wrapped(p, TOP), TOP);
  }

  lemma SameBlocks<T>(a: seq<T>, b: seq<T>, c: seq<T>, d: seq<T>)
    requires |a| == |c|
    ensures a + b == c + d <==> a == c && b == d
  {
    if a + b == c + d {
      assert a == (a + b)[..|a|] && c == (c + d)[..|c|];
      assert b == (a + b)[|a|..] && d == (c + d)[|c|..];
    }
  }

  /** Go reads the flag as wanted. */
  ghost predicate FlagAgrees(ps: seq<string>) { GoSplit(Joined(AnchoredAll(ps)), TOP) == WantedAll(ps) }

  /** Each pattern but the last, as it is joined, leaves nothing open. */
  ghost predicate Separable(ps: seq<string>) {
    forall i :: 0 <= i < |ps| - 1 ==> Closed(Anchored(ps[i]), TOP)
  }

  lemma FlagOfOne(ps: seq<string>)
    requires |ps| == 1
    ensures FlagAgrees(ps) <==> Fits(ps[0])
  {
    hide GoSplit, Anchored, Fits, WantedAlts;
    assert AnchoredAll(ps) == [Anchored(ps[0])];
    assert WantedAll(ps) == WantedAlts(GoSplit(ps[0], TOP)) + [];
    AnchorAgreesIff(ps[0]);
  }

  lemma JoinedMore(ps: seq<string>)
    requires |ps| > 1
    ensures Joined(AnchoredAll(ps)) == Anchored(ps[0]) + "|" + Joined(AnchoredAll(ps[1..]))
  {
    hide Anchored;
    assert AnchoredAll(ps)[1..] == AnchoredAll(ps[1..]);
  }

  lemma FlagOfMore(ps: seq<string>)
    requires |ps| > 1 && Closed(Anchored(ps[0]), TOP)
    ensures FlagAgrees(ps) <==> Fits(ps[0]) && FlagAgrees(ps[1..])
  {
    hide GoSplit, Anchored, Fits, WantedAlts, Joined, AnchoredAll, Closed;
    JoinedMore(ps);
    PipeSeparates(Anchored(ps[0]), Joined(AnchoredAll(ps[1..])), TOP);
    AnchorAgreesIff(ps[0]);
    AnchoredCounts(ps[0]);
    SameBlocks(GoSplit(Anchored(ps[0]), TOP), GoSplit(Joined(AnchoredAll(ps[1..])), TOP),
               WantedAlts(GoSplit(ps[0], TOP)), WantedAll(ps[1..]));
  }

  /** Patterns that leave nothing open: Go splits the joined flag, pattern by
      pattern, into what was wanted if and only if every pattern fits. */
  lemma {:induction false} FlagAgreesIff(ps: seq<string>)
    requires ps != [] && Separable(ps)
    ensures FlagAgrees(ps) <==> forall i :: 0 <= i < |ps| ==> Fits(ps[i])
  {
    hide FlagAgrees, Fits, Closed, Anchored;
    if |ps| == 1 {
      FlagOfOne(ps);
    } else {
      var rest := ps[1..];
      assert Closed(Anchored(ps[0]), TOP);
      FlagOfMore(ps);
      assert forall i :: 0 <= i < |rest| ==> rest[i] == ps[i + 1];
      FlagAgreesIff(rest);
      assert forall i :: 1 <= i < |ps| ==> ps[i] == rest[i - 1];
    }
  }

  lemma PrependCancels(text: string, a: seq<seq<string>>, b: seq<seq<string>>)
    requires a != [] && a[0] != [] && b != [] && b[0] != [] && Prepend(text, a) == Prepend(text, b)
    ensures a == b
  {
    var x, y := Prepend(text, a), Prepend(text, b);
    assert x[1..] == a[1..] && y[1..] == b[1..];
    assert x[0][1..] == a[0][1..] && y[0][1..] == b[0][1..];
    assert x[0][0][|text|..] == a[0][0] && y[0][0][|text|..] == b[0][0];
    assert a[0] == [a[0][0]] + a[0][1..] && b[0] == [b[0][0]] + b[0][1..];
    assert a == [a[0]] + a[1..] && b == [b[0]] + b[1..];
  }

  lemma NewPartCancels(a: seq<seq<string>>, b: seq<seq<string>>)
    requires a != [] && b != [] && NewPart(a) == NewPart(b)
    ensures a == b
  {
    var x, y := NewPart(a), NewPart(b);
    assert x[1..] == a[1..] && y[1..] == b[1..] && x[0][1..] == a[0] && y[0][1..] == b[0];
    assert a == [a[0]] + a[1..] && b == [b[0]] + b[1..];
  }

  /** After a pattern that leaves something open, the `|` and what follows go into
      its last part: its own split is not the start of the whole. */
  lemma {:induction false} OpenSwallows(a: string, b: string, d: Depth, more: seq<seq<string>>)
    requires !Closed(a, d)
    ensures GoSplit(a + "|" + b, d) != GoSplit(a, d) + more
    decreases |a|
  {
    hide Prepend, NewPart;
    var s := a + "|" + b;
    if a == [] {
      PipeInside(b, d);
    } else if a == "\\" {
      SplitEscape("\\|", b, d);
      assert s == "\\|" + b;
      LongFirst("\\|", GoSplit(b, d));
    } else if a[0] == '\\' {
      OpenSwallows(a[2..], b, d, more);
      AppendJoin(a, "|", b, 2);
      PrependJoin(a[..2], GoSplit(a[2..], d), more);
      if GoSplit(s, d) == GoSplit(a, d) + more {
        PrependCancels(a[..2], GoSplit(s[2..], d), GoSplit(a[2..], d) + more);
      }
    } else {
      var d' := GoStep(d, a[0]);
      OpenSwallows(a[1..], b, d', more);
      AppendJoin(a, "|", b, 1);
      PrependJoin(a[..1], GoSplit(a[1..], d'), more);
      if GoSplit(s, d) == GoSplit(a, d) + more {
        PlainTops(a[0], d);
        SwallowStep(a, s, d, more);
      }
    }
  }

  lemma PlainTops(ch: char, d: Depth)
    ensures ch == '/' || ch == '|' ==> GoStep(d, ch) == d
  {}

  lemma SplitUnfolds(s: string, d: Depth)
    requires s != [] && s[0] != '\\'
    ensures var rest := GoSplit(s[1..], GoStep(d, s[0]));
      GoSplit(s, d) ==
        if s[0] == '/' && d == TOP then NewPart(rest)
        else if s[0] == '|' && d == TOP then [[[]]] + rest
        else Prepend(s[..1], rest)
  {
    hide Prepend, NewPart;
  }

  lemma SwallowStep(a: string, s: string, d: Depth, more: seq<seq<string>>)
    requires a != [] && s != [] && a[0] == s[0] != '\\' && GoSplit(s, d) == GoSplit(a, d) + more
    ensures GoSplit(s[1..], GoStep(d, a[0])) == GoSplit(a[1..], GoStep(d, a[0])) + more
  {
    hide Prepend, NewPart, GoSplit, GoStep;
    var d' := GoStep(d, a[0]);
    var x, y := GoSplit(s[1..], d'), GoSplit(a[1..], d');
    SplitUnfolds(s, d);
    SplitUnfolds(a, d);
    PrependJoin(a[..1], y, more);
    if a[0] == '/' && d == TOP {
      NewPartCancels(x, y + more);
    } else if a[0] == '|' && d == TOP {
      assert x == ([[[]]] + x)[1..] && y + more == ([[[]]] + y + more)[1..];
    } else {
      assert s[..1] == a[..1];
      PrependCancels(a[..1], x, y + more);
    }
  }

  lemma PipeInside(b: string, d: Depth)
    requires d != TOP
    ensures [] + "|" + b == "|" + b && GoSplit("|" + b, d)[0][0] != []
  {
    hide GoStep;
    SplitChar('|', b, d);
    assert [] + "|" + b == ['|'] + b;
  }

  lemma LongFirst(text: string, alts: seq<seq<string>>)
    requires alts != [] && alts[0] != []
    ensures |Prepend(text, alts)[0][0]| >= |text|
  {}

  /** Patterns that fit: the flag is read as wanted if and only if each but the last
      leaves nothing open. */
  lemma {:induction false} FlagSeparatesIff(ps: seq<string>)
    requires ps != [] && forall i :: 0 <= i < |ps| ==> Fits(ps[i])
    ensures FlagAgrees(ps) <==> Separable(ps)
  {
    hide GoSplit, Fits, Closed, Anchored, WantedAlts, Joined, AnchoredAll;
    if |ps| == 1 {
      FlagOfOne(ps);
    } else {
      var rest := ps[1..];
      assert forall i :: 0 <= i < |rest| ==> rest[i] == ps[i + 1];
      assert forall i :: 1 <= i < |ps| ==> ps[i] == rest[i - 1];
      FlagSeparatesIff(rest);
      if Closed(Anchored(ps[0]), TOP) {
        FlagOfMore(ps);
      } else {
        JoinedMore(ps);
        AnchorAgreesIff(ps[0]);
        OpenSwallows(Anchored(ps[0]), Joined(AnchoredAll(rest)), TOP, WantedAll(rest));
      }
    }
  }

  /** Patterns with balanced brackets, no `|` outside them, and harmless escapes or
      none: every flag made of them is read as wanted. */
  lemma TameFlagAgrees(ps: seq<string>)
    requires ps != []
    requires forall i :: 0 <= i < |ps| ==> OnePattern(ps[i]) && Closed(ps[i], TOP) && TameEscapes(ps[i])
    ensures FlagAgrees(ps)
  {
    hide OnePattern, Closed, NaiveSlash, RealSlash, TameEscapes, FlagAgrees, Fits, Anchored;
    forall i | 0 <= i < |ps|
      ensures Fits(ps[i]) && Closed(Anchored(ps[i]), TOP)
    {
      TameWalksAgree(ps[i], TOP);
      OnePatternFitsIff(ps[i]);
      AnchoredCloses(ps[i]);
    }
    FlagAgreesIff(ps);
  }

  /** An escaped slash is taken for a real one, and an escaped bracket hides a
      real slash. */
  lemma EscapesMislead()
    ensures OnePattern("a\\/b") && !Fits("a\\/b")
    ensures OnePattern("\\[a/b") && !Fits("\\[a/b")
  {
    var p, q := "a\\/b", "\\[a/b";
    var r, t, b, u, none := "\\/b", "/b", "b", "a/b", "";
    assert p[1..] == r && r[1..] == t && r[2..] == b && b[1..] == none;
    assert q[2..] == u && u[1..] == t && t[1..] == b;
    var v := "[a/b";
    assert q[1..] == v && v[1..] == u;
    assert NaiveSlash(t, TOP) && NaiveSlash(r, TOP) && NaiveSlash(p, TOP);
    assert !RealSlash(b, TOP) && !RealSlash(r, TOP) && !RealSlash(p, TOP);
    var in1 := Depth(1, 0);
    assert !NaiveSlash(b, in1) && !NaiveSlash(t, in1) && !NaiveSlash(u, in1);
    assert !NaiveSlash(v, TOP) && !NaiveSlash(q, TOP);
    assert RealSlash(t, TOP) && RealSlash(u, TOP) && RealSlash(q, TOP);
    assert Matched(b, TOP) && Matched(r, TOP) && Matched(p, TOP);
    assert Matched(t, TOP) && Matched(u, TOP) && Matched(q, TOP);
    assert |GoSplit(b, TOP)| == 1 && |GoSplit(r, TOP)| == 1 && |GoSplit(p, TOP)| == 1;
    assert |GoSplit(t, TOP)| == 1 && |GoSplit(u, TOP)| == 1 && |GoSplit(q, TOP)| == 1;
    OnePatternFitsIff(p);
    OnePatternFitsIff(q);
  }
}
