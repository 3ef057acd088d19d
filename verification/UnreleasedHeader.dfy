/** Lines that mention the Unreleased header, as the changelog parser reads them. */
module UnreleasedHeader {
  import opened Optional
  import opened Text
  import opened Changelog

  const HEADER := "## [Unreleased]"

  lemma BracketIsNoSpace()
    ensures !IsSpace(']') && !IsSpace('[') && !IsSpace('#') && IsSpace(' ')
  {}

  lemma HeaderParts()
    ensures |HEADER| == 15 && HEADER[..2] == "##" && HEADER[2..] == " " + "[Unreleased]"
    ensures HEADER[0] == '#' && HEADER[1] == '#' && HEADER[2] == ' ' && HEADER[14] == ']'
  {}

  // --- what can follow the closing bracket --------------------------------

  ghost predicate NoBracket(s: string) { forall i :: 0 <= i < |s| ==> s[i] != ']' }

  /** Stripping drops no bracket. */
  lemma StripKeepsBrackets(y: string)
    requires NoBracket(LStrip(y))
    ensures NoBracket(y)
  {
    hide IsSpace, LStrip;
    var r := LStrip(y);
    forall i | 0 <= i < |y|
      ensures y[i] != ']'
    {
      if i < |y| - |r| {
        LStripDrops(y, i);
        BracketIsNoSpace();
      } else {
        assert y[i] == r[i - (|y| - |r|)];
      }
    }
  }

  lemma DateIsNoBracket(s: string)
    requires IsDate(s)
    ensures NoBracket(s)
  {}

  lemma JoinNoBracket(a: string, b: string)
    requires NoBracket(a) && NoBracket(b)
    ensures NoBracket(a + b)
  {}

  /** A date tail is spaces, a dash, spaces, a date and spaces. */
  lemma DateHasNoBracket(y: string)
    requires DateTail(y).Some?
    ensures NoBracket(y)
  {
    hide IsSpace, LStrip, IsDate, NoBracket;
    var t := LStrip(y);
    var u := LStrip(t[1..]);
    DateIsNoBracket(u[..10]);
    NothingHasNoBracket();
    StripKeepsBrackets(u[10..]);
    JoinNoBracket(u[..10], u[10..]);
    assert u == u[..10] + u[10..];
    StripKeepsBrackets(t[1..]);
    DashIsNoBracket(t[0]);
    JoinNoBracket([t[0]], t[1..]);
    assert t == [t[0]] + t[1..];
    StripKeepsBrackets(y);
  }

  lemma NothingHasNoBracket()
    ensures NoBracket([])
  {}

  lemma DashIsNoBracket(c: char)
    requires c in ['\U{2014}', '\U{2013}', '-']
    ensures NoBracket([c])
  {}

  lemma IndexKeeps(s: string, t: string)
    requires IndexOf(s, ']') < |s|
    ensures IndexOf(s + t, ']') == IndexOf(s, ']')
  {
    hide IndexOf;
    var k, r := IndexOf(s, ']'), s + t;
    assert forall i :: 0 <= i < |s| ==> r[i] == s[i];
  }

  lemma IndexFound(s: string)
    requires s != [] && s[|s| - 1] == ']'
    ensures IndexOf(s, ']') < |s|
  {
    hide IndexOf;
  }

  // --- a line whose bracket is followed by something ----------------------

  /** The text after `##` and spaces. */
  function Marked(x: string): Option<string> { AfterMarks("##", x) }

  lemma LStripEnds(u: string)
    requires u != [] && u[|u| - 1] == ']'
    ensures LStrip(u) != [] && LStrip(u)[|LStrip(u)| - 1] == ']'
  {
    hide IsSpace, LStrip;
    BracketIsNoSpace();
    if LStrip(u) == [] {
      LStripDrops(u, |u| - 1);
    }
  }

  lemma MarkedGrows(x: string, t: string)
    requires |x| >= 3 && x[|x| - 1] == ']'
    ensures Marked(x + t).Some? <==> Marked(x).Some?
    ensures Marked(x).Some? ==> Marked(x).value != [] && Marked(x).value[|Marked(x).value| - 1] == ']'
    ensures Marked(x).Some? ==> Marked(x + t) == Some(Marked(x).value + t)
  {
    hide IsSpace, LStrip;
    var s := x + t;
    assert s[0] == x[0] && s[1] == x[1] && s[2] == x[2];
    assert "##" <= x <==> x[0] == '#' && x[1] == '#';
    assert "##" <= s <==> s[0] == '#' && s[1] == '#';
    BracketIsNoSpace();
    if Marked(x).Some? {
      assert |x| > 3;
      var u := x[2..];
      assert s[2..] == u + t;
      LStripEnds(u);
      LStripJoin(u, t);
    }
  }

  /** With text after a final bracket the line is a heading only if the bracket
      closes the version, and then it was one with that version before. */
  lemma NamedGrows(r: string, t: string)
    requires r != [] && r[|r| - 1] == ']'
    ensures Named(r + t).ReleaseHeading? ==> Named(r).ReleaseHeading? && Named(r + t).version == Named(r).version
    ensures Named(r).ReleaseHeading? ==> r == "[" + Named(r).version + "]"
  {
    hide Versioned;
    assert (r + t)[0] == r[0];
    if r[0] == '[' {
      var s := r[1..];
      assert r == "[" + s && (r + t)[1..] == s + t;
      VersionGrows(s, t);
    }
  }

  /** What may stand after the version's bracket. */
  predicate EndsHeading(y: string) { LStrip(y) == [] || DateTail(y).Some? }

  lemma VersionedAt(s: string, k: nat)
    requires k < |s| && IndexOf(s, ']') == k
    ensures Versioned(s).ReleaseHeading? <==> k > 0 && EndsHeading(s[k + 1..])
    ensures Versioned(s).ReleaseHeading? ==> Versioned(s).version == s[..k]
    ensures Versioned(s).ReleaseHeading? && s[k + 1..] == [] ==> Versioned(s) == ReleaseHeading(s[..k], None)
  {
    hide DateTail, IndexOf, IsSpace;
    LStripNone();
  }

  lemma VersionGrows(s: string, t: string)
    requires s != [] && s[|s| - 1] == ']'
    ensures Versioned(s + t).ReleaseHeading? ==>
      Versioned(s).ReleaseHeading? && Versioned(s + t).version == Versioned(s).version
    ensures Versioned(s).ReleaseHeading? ==> s == Versioned(s).version + "]"
  {
    hide EndsHeading, Versioned, IndexOf;
    IndexFound(s);
    IndexKeeps(s, t);
    var k := IndexOf(s, ']');
    VersionedAt(s, k);
    VersionedAt(s + t, k);
    assert (s + t)[..k] == s[..k];
    if k == |s| - 1 {
      assert s[k + 1..] == [] && s == s[..k] + "]";
      NothingEndsHeading();
    } else {
      BracketBlocks(s, t, k);
      BracketBlocks(s, [], k);
      assert s + [] == s;
    }
  }

  lemma NothingEndsHeading()
    ensures EndsHeading([])
  {}

  lemma LStripNone()
    ensures LStrip([]) == []
  {}

  /** A bracket further on is neither blank nor part of a date. */
  lemma BracketBlocks(s: string, t: string, k: nat)
    requires s != [] && s[|s| - 1] == ']' && k < |s| - 1
    ensures !EndsHeading((s + t)[k + 1..])
  {
    hide LStrip, DateTail;
    var y := (s + t)[k + 1..];
    assert y[|s| - 2 - k] == ']';
    assert !NoBracket(y);
    if LStrip(y) == [] {
      StripKeepsBrackets(y);
    }
    if DateTail(y).Some? {
      DateHasNoBracket(y);
    }
  }

  // --- lines that mention the header --------------------------------------

  /** A line that ends in the header, and then `tail`. */
  lemma StripsToMention(x: string, tail: string)
    requires x != [] && x[|x| - 1] == ']'
    ensures RStrip(x + tail) == x + RStrip(tail) && RStrip(x) == x
  {
    hide IsSpace;
    BracketIsNoSpace();
    RStripJoin(x, tail);
  }

  lemma KindIsNamed(x: string, tail: string)
    requires |x| >= 3 && x[|x| - 1] == ']'
    ensures IsHeader(x) <==> Marked(x).Some? && Named(Marked(x).value).ReleaseHeading?
    ensures IsHeader(x) ==> Kind(x) == Named(Marked(x).value)
    ensures IsHeader(x + tail) ==> IsHeader(x) && Kind(x + tail).version == Kind(x).version
    ensures IsHeader(x) && RStrip(tail) == [] ==> Kind(x + tail) == Kind(x)
  {
    hide LStrip, RStrip, Named, AfterMarks, IsSpace;
    StripsToMention(x, tail);
    MarkedGrows(x, RStrip(tail));
    if Marked(x).Some? {
      NamedGrows(Marked(x).value, RStrip(tail));
    }
    assert x + [] == x;
  }

  lemma HeaderIsHeader()
    ensures Kind(HEADER) == ReleaseHeading("Unreleased", None)
  {
    hide LStrip, RStrip, Named, AfterMarks;
    HeaderParts();
    KindIsNamed(HEADER, []);
    HeaderIsMarked();
    BracketsName("Unreleased");
  }

  lemma HeaderIsMarked()
    ensures Marked(HEADER) == Some("[" + "Unreleased" + "]")
  {
    hide IsSpace, LStrip;
    HeaderParts();
    BracketIsNoSpace();
    var r := "[" + "Unreleased" + "]";
    assert r == "[Unreleased]" && r[0] == '[';
    LStripUnfolds(r);
    StripsOneSpace(r);
    assert "##" <= HEADER;
  }

  lemma StripsOneSpace(r: string)
    ensures LStrip(" " + r) == LStrip(r)
  {
    hide IsSpace, LStrip;
    BracketIsNoSpace();
    assert (" " + r)[1..] == r;
    LStripUnfolds(" " + r);
  }

  lemma BracketsName(name: string)
    requires name != [] && forall i :: 0 <= i < |name| ==> name[i] != ']'
    ensures Named("[" + name + "]") == ReleaseHeading(name, None)
  {
    hide IndexOf, EndsHeading, Versioned;
    var r, s := "[" + name + "]", name + "]";
    assert r[1..] == s && r[0] == '[';
    assert s[|name|] == ']' && forall i :: 0 <= i < |name| ==> s[i] == name[i];
    assert s[..|name|] == name && s[|name| + 1..] == [];
    NothingEndsHeading();
    VersionedAt(s, |name|);
  }

  /** A line that begins with the header and is a release heading, whatever blanks
      or date follow, is that of Unreleased; with blanks alone it is one. */
  lemma HeaderLine(tail: string)
    ensures IsHeader(HEADER) && Kind(HEADER).version == "Unreleased"
    ensures IsHeader(HEADER + tail) ==> Kind(HEADER + tail).version == "Unreleased"
    ensures RStrip(tail) == [] ==> IsHeader(HEADER + tail)
  {
    hide Kind, RStrip;
    HeaderParts();
    HeaderIsHeader();
    KindIsNamed(HEADER, tail);
  }

  /** A line that goes on after the header is a heading only if it would be one
      without what follows. */
  lemma HeadingShrinks(before: string, tail: string)
    ensures IsHeader(before + HEADER + tail) ==> IsHeader(before + HEADER)
  {
    hide Kind;
    HeaderParts();
    var x := before + HEADER;
    assert x[|x| - 1] == HEADER[14];
    KindIsNamed(x, tail);
  }

  /** A line that has something before the header is never Unreleased's heading. */
  lemma ForeignHeading(before: string)
    requires before != [] && IsHeader(before + HEADER)
    ensures Kind(before + HEADER).version != "Unreleased"
  {
    hide Kind, Named, LStrip;
    HeaderParts();
    var x := before + HEADER;
    assert x[|x| - 1] == HEADER[14];
    KindIsNamed(x, []);
    var r := Marked(x).value;
    MarkedGrows(x, []);
    NamedGrows(r, []);
    if Kind(x).version == "Unreleased" {
      assert r == "[" + "Unreleased" + "]" && |r| == 12;
      var n := |x[2..]| - |r|;
      assert n == |before| + 1;
      var i := if |before| == 1 then 0 else |before| - 2;
      LStripDrops(x[2..], i);
      assert x[2..][i] == x[i + 2];
      HashInMention(before, i + 2);
    }
  }

  lemma HashInMention(before: string, i: nat)
    requires before != [] && i == if |before| == 1 then 2 else |before|
    ensures (before + HEADER)[i] == '#' && !IsSpace('#')
  {
    hide IsSpace;
    HeaderParts();
    BracketIsNoSpace();
    assert (before + HEADER)[i] == HEADER[i - |before|];
  }
}
