/** The three walks over a pattern, on text whose marks are spelled out: what a slash,
    a bracket, a paren and a stray closing one mean to Go and to the rewriter. */
module SkipWalks {
  import opened SkipPatterns

  /** No character of `s` means anything to any walk. */
  ghost predicate PlainText(s: string) { forall i :: 0 <= i < |s| ==> s[i] !in "\\[]()/|" }

  lemma PrependNothing(alts: seq<seq<string>>)
    requires alts != [] && alts[0] != []
    ensures Prepend("", alts) == alts
  {
    assert "" + alts[0][0] == alts[0][0];
    assert [alts[0][0]] + alts[0][1..] == alts[0];
  }

  lemma PrependTwice(a: string, b: string, alts: seq<seq<string>>)
    requires alts != [] && alts[0] != []
    ensures Prepend(a, Prepend(b, alts)) == Prepend(a + b, alts)
  {
    assert a + (b + alts[0][0]) == (a + b) + alts[0][0];
  }

  lemma PrependPair(a: string, b: string, c: string)
    ensures Prepend(a, [[b, c]]) == [[a + b, c]] && NewPart([[c]]) == [[[], c]]
  {
    var alts := [[b, c]];
    assert alts[1..] == [] && alts[0][1..] == [c];
    assert [a + b] + [c] == [a + b, c];
    var one := [[c]];
    assert one[1..] == [] && [[]] + one[0] == [[], c];
  }

  lemma PrependText(a: string, b: string)
    ensures Prepend(a, [[b]]) == [[a + b]]
  {
    var alts := [[b]];
    assert alts[1..] == [] && alts[0][1..] == [];
    assert [a + b] + [] == [a + b];
  }

  lemma PrependOne(s: string)
    ensures Prepend(s, [[[]]]) == [[s]]
  {
    PrependText(s, []);
    assert s + [] == s;
  }

  /** Plain text is passed over at any depth. */
  lemma {:induction false} PlainWalks(a: string, rest: string, d: Depth)
    requires PlainText(a)
    ensures GoSplit(a + rest, d) == Prepend(a, GoSplit(rest, d))
    ensures NaiveSlash(a + rest, d) <==> NaiveSlash(rest, d)
    ensures Wrapped(a + rest, d) == a + Wrapped(rest, d)
  {
    hide Prepend;
    if a == [] {
      assert a + rest == rest;
      PrependNothing(GoSplit(rest, d));
    } else {
      var s := a + rest;
      assert s[0] == a[0] && s[1..] == a[1..] + rest && s[..1] == [a[0]];
      assert a[0] !in "\\[]()/|";
      PlainWalks(a[1..], rest, d);
      PrependTwice([a[0]], a[1..], GoSplit(rest, d));
      assert [a[0]] + a[1..] == a;
      assert [a[0]] + (a[1..] + Wrapped(rest, d)) == a + Wrapped(rest, d);
    }
  }

  lemma PlainAlone(a: string, d: Depth)
    requires PlainText(a)
    ensures GoSplit(a, d) == [[a]] && !NaiveSlash(a, d) && Wrapped(a, d) == a + "$"
  {
    hide GoSplit, Wrapped, NaiveSlash;
    PlainWalks(a, [], d);
    assert a + [] == a;
    EmptyWalks(d);
    PrependOne(a);
  }

  lemma EmptyWalks(d: Depth)
    ensures GoSplit([], d) == [[[]]] && !NaiveSlash([], d) && Wrapped([], d) == "$"
  {}

  lemma SlashWalks(rest: string)
    ensures GoSplit("/" + rest, TOP) == NewPart(GoSplit(rest, TOP)) && NaiveSlash("/" + rest, TOP)
    ensures Wrapped("/" + rest, TOP) == "$/^" + Wrapped(rest, TOP)
  {
    hide NewPart;
    assert ("/" + rest)[1..] == rest && ("/" + rest)[0] == '/';
  }

  /** A mark that is no separator where it stands moves on both counts. */
  lemma MarkWalks(ch: char, rest: string, d: Depth)
    requires ch != '\\' && ((ch == '/' || ch == '|') ==> d != TOP)
    ensures GoSplit([ch] + rest, d) == Prepend([ch], GoSplit(rest, GoStep(d, ch)))
    ensures NaiveSlash([ch] + rest, d) <==> NaiveSlash(rest, Step(d, ch))
    ensures Wrapped([ch] + rest, d) == [ch] + Wrapped(rest, Step(d, ch))
  {
    hide Prepend, GoStep, Step;
    var s := [ch] + rest;
    assert s[0] == ch && s[1..] == rest && s[..1] == [ch];
  }

  /** A slash between plain parts separates them, and each part is anchored. */
  lemma SlashSeparates(a: string, b: string)
    requires PlainText(a) && PlainText(b)
    ensures GoSplit(a + "/" + b, TOP) == [[a, b]]
    ensures Anchored(a + "/" + b) == "^" + a + "$/^" + b + "$"
    ensures GoSplit(a, TOP) == [[a]] && Anchored(a) == a
  {
    hide GoSplit, Wrapped, NaiveSlash;
    assert a + "/" + b == a + ("/" + b);
    PlainWalks(a, "/" + b, TOP);
    SlashWalks(b);
    PlainAlone(b, TOP);
    PlainAlone(a, TOP);
    PrependPair(a, [], b);
    assert a + [] == a;
    Five("^", a, "$/^", b, "$");
  }

  lemma Five(a: string, b: string, c: string, d: string, e: string)
    ensures a + (b + (c + (d + e))) == a + b + c + d + e
  {}

  /** A slash inside brackets or parens separates nothing. */
  lemma ClosedInSeparatesNothing(open: char, a: string, b: string, close: char)
    requires PlainText(a) && PlainText(b) && ((open == '[' && close == ']') || (open == '(' && close == ')'))
    ensures var p := [open] + (a + ("/" + (b + [close]))); GoSplit(p, TOP) == [[p]] && Anchored(p) == p
  {
    hide GoSplit, Wrapped, NaiveSlash, Prepend;
    var d := if open == '[' then Depth(1, 0) else Depth(0, 1);
    var t := "/" + (b + [close]);
    MarkWalks(open, a + t, TOP);
    PlainWalks(a, t, d);
    MarkWalks('/', b + [close], d);
    PlainWalks(b, [close], d);
    MarkWalks(close, [], d);
    assert [close] + [] == [close];
    EmptyWalks(TOP);
    PrependTwice(b, [close], [[[]]]);
    PrependTwice("/", b + [close], [[[]]]);
    PrependTwice(a, t, [[[]]]);
    PrependTwice([open], a + t, [[[]]]);
    PrependOne([open] + (a + t));
  }

  /** A stray `)` counts below zero for Go, which then splits nothing, while the
      rewriter clamps it and anchors both sides: such a pattern does not fit. */
  lemma StrayParen(a: string, b: string)
    requires PlainText(a) && PlainText(b)
    ensures var p := a + (")" + ("/" + b));
      GoSplit(p, TOP) == [[p]] && Anchored(p) == "^" + (a + ")") + "$/^" + b + "$" && !Fits(p)
  {
    hide GoSplit, Wrapped, NaiveSlash, Prepend, SameSlashes;
    var p, t, d := a + (")" + ("/" + b)), "/" + b, Depth(0, -1);
    PlainWalks(a, ")" + t, TOP);
    MarkWalks(')', t, TOP);
    MarkWalks('/', b, d);
    SlashWalks(b);
    PlainAlone(b, d);
    PlainAlone(b, TOP);
    PrependText("/", b);
    PrependText(")", t);
    PrependText(a, ")" + t);
    assert a + (")" + ("$/^" + (b + "$"))) == (a + ")") + ("$/^" + (b + "$"));
    Five("^", a + ")", "$/^", b, "$");
  }

  /** A stray `]` is clamped by both, so the slash after it separates for both. */
  lemma StrayBracket(a: string, b: string)
    requires PlainText(a) && PlainText(b)
    ensures var p := a + ("]" + ("/" + b));
      GoSplit(p, TOP) == [[a + "]", b]] && Anchored(p) == "^" + (a + "]") + "$/^" + b + "$"
  {
    hide GoSplit, Wrapped, NaiveSlash;
    var t := "/" + b;
    PlainWalks(a, "]" + t, TOP);
    MarkWalks(']', t, TOP);
    SlashWalks(b);
    PlainAlone(b, TOP);
    PrependPair("]", [], b);
    assert "]" + [] == "]";
    PrependPair(a, "]", b);
    assert a + ("]" + ("$/^" + (b + "$"))) == (a + "]") + ("$/^" + (b + "$"));
    Five("^", a + "]", "$/^", b, "$");
  }

  /** Go passes over an escaped character; so does the second walk, but the first
      walk takes an escaped slash for a separator. */
  lemma EscapedSlash(a: string, b: string)
    requires PlainText(a) && PlainText(b)
    ensures var p := a + ("\\/" + b);
      GoSplit(p, TOP) == [[p]] && Anchored(p) == "^" + p + "$" && !Fits(p)
  {
    hide GoSplit, Wrapped, NaiveSlash, Prepend, SameSlashes;
    var p := a + ("\\/" + b);
    assert "\\" + ['/'] == "\\/";
    PlainWalks(a, "\\/" + b, TOP);
    EscapeWalks('/', b, TOP);
    SlashWalks(b);
    PlainAlone(b, TOP);
    PrependText("\\/", b);
    PrependText(a, "\\/" + b);
    assert "\\" + ("/" + b) == "\\/" + b;
    assert a + ("\\/" + (b + "$")) == p + "$";
    assert "^" + (p + "$") == "^" + p + "$";
  }

  lemma EscapeWalks(ch: char, rest: string, d: Depth)
    ensures GoSplit("\\" + [ch] + rest, d) == Prepend("\\" + [ch], GoSplit(rest, d))
    ensures NaiveSlash("\\" + [ch] + rest, d) <==> NaiveSlash([ch] + rest, d)
    ensures Wrapped("\\" + [ch] + rest, d) == "\\" + [ch] + Wrapped(rest, d)
  {
    hide Prepend;
    var s := "\\" + [ch] + rest;
    assert s[0] == '\\' && s[2..] == rest && s[..2] == "\\" + [ch] && s[1..] == [ch] + rest;
  }
}
