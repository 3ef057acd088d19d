/** What a release read from the changelog contains, stated on its lines: which lines
    are headings, what is filed under each section, and the text of the lede. */
module ChangelogContents {
  import opened Optional
  import opened Text
  import opened Changelog

  // --- headings, as text --------------------------------------------------

  /** `marks`, some space, `t`, perhaps more space. */
  ghost predicate Marked(raw: string, marks: string, t: string) {
    Tight(t) && exists gap, tail :: gap != [] && AllSpace(gap) && AllSpace(tail) && raw == marks + gap + t + tail
  }

  lemma MarkedStrips(raw: string, marks: string, t: string)
    requires Marked(raw, marks, t)
    ensures AfterMarks(marks, RStrip(raw)) == Some(t)
  {
    hide IsSpace, LStrip, RStrip;
    var gap, tail :| gap != [] && AllSpace(gap) && AllSpace(tail) && raw == marks + gap + t + tail;
    var line := marks + gap + t;
    assert line[|line| - 1] == t[|t| - 1];
    RStripIs(line, tail);
    assert marks <= line && line[|marks|] == gap[0] && line[|marks|..] == gap + t;
    LStripIs(gap, t);
  }

  lemma AfterMarksParts(marks: string, line: string, t: string) returns (gap: string)
    requires AfterMarks(marks, line) == Some(t) && t != []
    ensures line == marks + gap + t && gap != [] && AllSpace(gap) && !IsSpace(t[0])
  {
    hide IsSpace, LStrip;
    var rest := line[|marks|..];
    gap := MarksGap(rest);
    Parts(marks, gap, t, line, rest);
  }

  lemma MarksGap(rest: string) returns (gap: string)
    requires rest != [] && IsSpace(rest[0]) && LStrip(rest) != []
    ensures rest == gap + LStrip(rest) && gap != [] && AllSpace(gap)
  {
    hide IsSpace, LStrip;
    gap := LStripParts(rest);
    LStripUnfolds(rest);
  }

  lemma StrippedIsMarked(raw: string, marks: string, t: string)
    requires AfterMarks(marks, RStrip(raw)) == Some(t) && t != []
    ensures Marked(raw, marks, t)
  {
    hide IsSpace, LStrip, RStrip, AfterMarks;
    var tail := RStripParts(raw);
    var gap := AfterMarksParts(marks, RStrip(raw), t);
    SameEnd(marks + gap, t);
    assert Tight(t);
  }

  lemma Parts(a: string, b: string, c: string, s: string, rest: string)
    requires a <= s && rest == s[|a|..] && rest == b + c
    ensures s == a + b + c
  {}

  /** The mark after the marks is not space, so nothing is. */
  lemma OtherMarks(line: string, marks: string, more: string)
    requires AfterMarks(more, line).Some? && marks < more && !IsSpace(more[|marks|])
    ensures AfterMarks(marks, line).None?
  {
    hide IsSpace, LStrip;
    assert line[|marks|] == more[|marks|];
  }

  /** A title line: three marks, space, and the title. */
  lemma TitleLine(raw: string, t: string)
    ensures Kind(raw) == TitleHeading(t) <==> Marked(raw, "###", t)
  {
    hide IsSpace, RStrip, LStrip, Named, Marked, AfterMarks;
    var line := RStrip(raw);
    MarkIsNotSpace();
    if Kind(raw) == TitleHeading(t) {
      StrippedIsMarked(raw, "###", t);
    }
    if Marked(raw, "###", t) {
      MarkedStrips(raw, "###", t);
      OtherMarks(line, "##", "###");
      TightIsSome(raw, "###", t);
    }
  }

  lemma TightIsSome(raw: string, marks: string, t: string)
    requires Marked(raw, marks, t)
    ensures t != []
  {}

  lemma MarkIsNotSpace()
    ensures !IsSpace('#') && !IsSpace('[') && !IsSpace(']')
  {}

  /** A section line: four marks, space, and the name. */
  lemma SectionLine(raw: string, name: string)
    ensures Kind(raw) == SectionHeading(name) <==> Marked(raw, "####", name)
  {
    hide IsSpace, RStrip, LStrip, Named, Marked, AfterMarks;
    var line := RStrip(raw);
    MarkIsNotSpace();
    if Kind(raw) == SectionHeading(name) {
      StrippedIsMarked(raw, "####", name);
    }
    if Marked(raw, "####", name) {
      MarkedStrips(raw, "####", name);
      OtherMarks(line, "##", "####");
      OtherMarks(line, "###", "####");
      TightIsSome(raw, "####", name);
    }
  }

  /** What a release heading says after its marks: a version in brackets, and perhaps
      a dash and a date. */
  ghost predicate Names(t: string, version: string, date: Option<string>) {
    && version != [] && ']' !in version
    && match date
       case None => t == "[" + version + "]"
       case Some(d) =>
         IsDay(d) && exists g, dash, h :: Dashed(g, dash, h) && t == "[" + version + "]" + g + [dash] + h + d
  }

  ghost predicate Dashed(g: string, dash: char, h: string) {
    g != [] && h != [] && AllSpace(g) && AllSpace(h) && dash as int in {0x2014, 0x2013, 0x2d}
  }

  ghost predicate Digits(s: string) { forall i :: 0 <= i < |s| ==> s[i] in "0123456789" }

  /** Four digits, two digits, two digits, with hyphens between. */
  ghost predicate IsDay(d: string) {
    |d| == 10 && Digits(d[..4]) && d[4] == '-' && Digits(d[5..7]) && d[7] == '-' && Digits(d[8..])
  }

  lemma DigitIs(c: char)
    ensures IsDigit(c) <==> c in "0123456789"
  {}

  lemma DateIsDay(d: string)
    ensures IsDate(d) <==> IsDay(d)
  {
    hide IsDigit;
    if |d| == 10 {
      DigitIs(d[0]);
      DigitIs(d[1]);
      DigitIs(d[2]);
      DigitIs(d[3]);
      DigitIs(d[5]);
      DigitIs(d[6]);
      DigitIs(d[8]);
      DigitIs(d[9]);
      assert d[..4] == [d[0], d[1], d[2], d[3]] && d[5..7] == [d[5], d[6]] && d[8..] == [d[8], d[9]];
    }
  }

  lemma DayIsTight(d: string)
    requires IsDay(d)
    ensures Tight(d)
  {
    assert d[0] == d[..4][0] && d[9] == d[8..][1];
    assert forall c :: c in "0123456789" ==> !IsSpace(c);
  }

  lemma DashIsTight(c: char)
    ensures c as int in {0x2014, 0x2013, 0x2d} <==> c in ['\U{2014}', '\U{2013}', '-']
    ensures c in ['\U{2014}', '\U{2013}', '-'] ==> !IsSpace(c)
  {}

  lemma DashedDate(g: string, dash: char, h: string, d: string)
    requires Dashed(g, dash, h) && IsDay(d)
    ensures DateTail(g + [dash] + h + d) == Some(d) && LStrip(g + [dash] + h + d) != []
  {
    hide IsSpace, LStrip, IsDate, IsDay, DateTail;
    var t := [dash] + h + d;
    assert g + [dash] + h + d == g + t;
    DashIsTight(dash);
    assert t[0] == dash;
    LStripIs(g, t);
    AfterDash(dash, h, d);
    DateOf(g + t, dash, h, d);
  }

  lemma AfterDash(dash: char, h: string, d: string)
    ensures ([dash] + h + d)[1..] == h + d && (h != [] ==> ([dash] + h + d)[1] == h[0])
  {}

  lemma DateOf(s: string, dash: char, h: string, d: string)
    requires h != [] && AllSpace(h) && IsDay(d) && dash in ['\U{2014}', '\U{2013}', '-']
    requires LStrip(s) == [dash] + h + d && |LStrip(s)| < |s|
    ensures DateTail(s) == Some(d)
  {
    hide IsSpace, LStrip, IsDate, IsDay;
    AfterDash(dash, h, d);
    DayIsTight(d);
    LStripIs(h, d);
    DateIsDay(d);
    DayLength(d);
    assert d[..10] == d && d[10..] == [];
    LStripIs([], []);
  }

  lemma DayLength(d: string)
    requires IsDay(d)
    ensures |d| == 10
  {}

  lemma DateParts(s: string, d: string) returns (dash: char, rest: string, tail: string)
    requires DateTail(s) == Some(d)
    ensures |LStrip(s)| < |s| && LStrip(s) == [dash] + rest && dash in ['\U{2014}', '\U{2013}', '-']
    ensures rest != [] && IsSpace(rest[0]) && LStrip(rest) == d + tail && IsDate(d) && AllSpace(tail)
  {
    hide IsSpace, LStrip, IsDate, Day;
    var t := LStrip(s);
    dash, rest := t[0], t[1..];
    assert rest[0] == t[1];
    tail := DayParts(LStrip(rest), d);
  }

  lemma DayParts(u: string, d: string) returns (tail: string)
    requires Day(u) == Some(d)
    ensures u == d + tail && IsDate(d) && AllSpace(tail)
  {
    hide LStrip, IsDate, IsSpace;
    tail := u[10..];
    var gap := LStripParts(tail);
  }

  lemma DateIsDashed(s: string, d: string) returns (g: string, dash: char, h: string)
    requires DateTail(s) == Some(d) && (s == [] || !IsSpace(s[|s| - 1]))
    ensures Dashed(g, dash, h) && IsDay(d) && s == g + [dash] + h + d
  {
    hide IsSpace, LStrip, IsDate, IsDay, DateTail;
    g := LStripParts(s);
    var rest, tail;
    dash, rest, tail := DateParts(s, d);
    DashIsTight(dash);
    SameEnd(g, [dash] + rest);
    SameEnd([dash], rest);
    h := AfterTheDash(dash, rest, d, tail);
    FourParts(g, dash, h, d);
  }

  lemma SameEnd(a: string, b: string)
    requires b != []
    ensures (a + b)[|a + b| - 1] == b[|b| - 1]
  {}

  lemma AfterTheDash(dash: char, rest: string, d: string, tail: string) returns (h: string)
    requires rest != [] && IsSpace(rest[0]) && !IsSpace(rest[|rest| - 1])
    requires LStrip(rest) == d + tail && IsDate(d) && AllSpace(tail)
    ensures h != [] && AllSpace(h) && IsDay(d) && [dash] + rest == [dash] + h + d
  {
    hide IsSpace, LStrip, IsDate, IsDay;
    DateIsDay(d);
    DayLength(d);
    h := MarksGap(rest);
    SameEnd(h, d + tail);
    NoTail(d, tail);
    DashJoins(dash, h, d);
  }

  lemma DashJoins(dash: char, h: string, d: string)
    ensures [dash] + (h + d) == [dash] + h + d
  {}

  lemma FourParts(g: string, dash: char, h: string, d: string)
    ensures g + ([dash] + h + d) == g + [dash] + h + d
  {}

  lemma NoTail(d: string, tail: string)
    requires d + tail != [] && !IsSpace((d + tail)[|d + tail| - 1]) && AllSpace(tail)
    ensures tail == [] && d + tail == d
  {
    hide IsSpace;
  }

  lemma VersionRead(t: string, version: string, date: Option<string>)
    requires t == [] || !IsSpace(t[|t| - 1])
    ensures Named(t) == ReleaseHeading(version, date) <==> Names(t, version, date)
  {
    if Names(t, version, date) {
      NamesRead(t, version, date);
    }
    if Named(t) == ReleaseHeading(version, date) {
      ReadNames(t, version, date);
    }
  }

  lemma NamesRead(t: string, version: string, date: Option<string>)
    requires Names(t, version, date)
    ensures Named(t) == ReleaseHeading(version, date)
  {
    hide IsSpace, LStrip, DateTail, IsDay, Dashed, Versioned;
    if date.Some? {
      var g, dash, h :| Dashed(g, dash, h) && t == "[" + version + "]" + g + [dash] + h + date.value;
      var tail := g + [dash] + h + date.value;
      assert t == "[" + (version + "]" + tail);
      DashedDate(g, dash, h, date.value);
      AtBracket(version, tail);
    } else {
      assert t == "[" + (version + "]" + []);
      LStripIs([], []);
      AtBracket(version, []);
    }
  }

  lemma AtBracket(version: string, tail: string)
    requires version != [] && ']' !in version
    ensures Versioned(version + "]" + tail) ==
      if LStrip(tail) == [] then ReleaseHeading(version, None)
      else if DateTail(tail).Some? then ReleaseHeading(version, DateTail(tail))
      else Plain
  {
    hide LStrip, DateTail;
    var s, k := version + "]" + tail, |version|;
    assert s[k] == ']' && s[..k] == version && s[k + 1..] == tail;
    assert forall i :: 0 <= i < k ==> s[i] == version[i];
    assert IndexOf(s, ']') == k;
  }

  lemma ReadNames(t: string, version: string, date: Option<string>)
    requires Named(t) == ReleaseHeading(version, date) && (t == [] || !IsSpace(t[|t| - 1]))
    ensures Names(t, version, date)
  {
    hide IsSpace, LStrip, DateTail, IsDay, Dashed;
    var s := t[1..];
    var tail := s[IndexOf(s, ']') + 1..];
    Bracketed(t, version, tail);
    TailNames(version, tail, date);
  }

  lemma TailNames(version: string, tail: string, date: Option<string>)
    requires version != [] && ']' !in version && (tail == [] || !IsSpace(tail[|tail| - 1]))
    requires if date.None? then LStrip(tail) == [] else DateTail(tail) == date
    ensures Names("[" + version + "]" + tail, version, date)
  {
    hide IsSpace, LStrip, DateTail, IsDay, Dashed;
    if date.Some? {
      var g, dash, h := DateIsDashed(tail, date.value);
      FiveParts("[" + version + "]", g, dash, h, date.value);
    } else {
      NoTailAtAll(tail);
    }
  }

  lemma Bracketed(t: string, version: string, tail: string)
    requires t != [] && t[0] == '[' && IndexOf(t[1..], ']') < |t| - 1
    requires var s := t[1..]; version == s[..IndexOf(s, ']')] && tail == s[IndexOf(s, ']') + 1..]
    ensures ']' !in version && t == "[" + version + "]" + tail
    ensures tail != [] ==> tail[|tail| - 1] == t[|t| - 1]
  {
    var s := t[1..];
    CutAt(s, IndexOf(s, ']'));
    assert t == "[" + s == "[" + version + "]" + tail;
    if tail != [] {
      SameEnd("[" + version + "]", tail);
    }
  }

  lemma CutAt(s: string, k: nat)
    requires k < |s|
    ensures s == s[..k] + [s[k]] + s[k + 1..]
  {}

  lemma FiveParts(a: string, g: string, dash: char, h: string, d: string)
    ensures a + (g + [dash] + h + d) == a + g + [dash] + h + d
  {}

  lemma NoTailAtAll(tail: string)
    requires LStrip(tail) == [] && (tail == [] || !IsSpace(tail[|tail| - 1]))
    ensures tail == []
  {
    hide IsSpace, LStrip;
    var gap := LStripParts(tail);
  }

  /** A release heading: two marks, space, the version in brackets, perhaps a date. */
  lemma ReleaseLine(raw: string, version: string, date: Option<string>)
    ensures Kind(raw) == ReleaseHeading(version, date) <==>
      exists t :: Marked(raw, "##", t) && Names(t, version, date)
  {
    hide IsSpace, RStrip, LStrip, Named, Marked, AfterMarks, Names;
    var rest := AfterMarks("##", RStrip(raw));
    if Kind(raw) == ReleaseHeading(version, date) {
      assert rest.Some? && rest.value != [] by {
        EmptyIsPlain();
      }
      StrippedIsMarked(raw, "##", rest.value);
      MarkedIsTight(raw, "##", rest.value);
      VersionRead(rest.value, version, date);
    }
    if t :| Marked(raw, "##", t) && Names(t, version, date) {
      MarkedStrips(raw, "##", t);
      MarkedIsTight(raw, "##", t);
      VersionRead(t, version, date);
    }
  }

  lemma EmptyIsPlain()
    ensures Named([]) == Plain
  {}

  lemma MarkedIsTight(raw: string, marks: string, t: string)
    requires Marked(raw, marks, t)
    ensures Tight(t)
  {}

  // --- sections, line by line ---------------------------------------------

  /** After the lines `before`, the section `name` is open: its heading is the last
      section heading among them. */
  ghost predicate Under(before: seq<string>, name: string) {
    exists h :: 0 <= h < |before| && Kind(before[h]) == SectionHeading(name) && NoSectionAfter(before, h)
  }

  ghost predicate NoSectionAfter(before: seq<string>, h: int) {
    forall j :: h < j < |before| && j >= 0 ==> !Kind(before[j]).SectionHeading?
  }

  /** A bullet or an indented line, right-stripped. */
  ghost predicate IsBullet(raw: string) {
    Kind(raw).Plain? && ("- " <= RStrip(raw) || "  " <= RStrip(raw))
  }

  /** Other text, which continues the bullet before it. */
  ghost predicate IsMore(raw: string) {
    Kind(raw).Plain? && !IsBullet(raw) && RStrip(raw) != []
  }

  /** Where the bullets under headings `name` are. */
  ghost function Bullets(body: seq<string>, name: string): (at: seq<nat>)
    ensures forall p :: 0 <= p < |at| ==> at[p] < |body|
  {
    hide IsBullet, Under;
    if body == [] then []
    else
      var l := |body| - 1;
      Bullets(body[..l], name) + if IsBullet(body[l]) && Under(body[..l], name) then [l] else []
  }

  ghost predicate BulletAt(body: seq<string>, name: string, i: nat) {
    i < |body| && IsBullet(body[i]) && Under(body[..i], name)
  }

  ghost predicate Rising(at: seq<nat>) { forall p, q :: 0 <= p < q < |at| ==> at[p] < at[q] }

  /** They are listed in order, each once and no other line. */
  lemma {:induction false} BulletsAre(body: seq<string>, name: string)
    ensures forall i :: i in Bullets(body, name) <==> BulletAt(body, name, i)
    ensures Rising(Bullets(body, name))
  {
    hide IsBullet, Under;
    if body != [] {
      var l := |body| - 1;
      BulletsAre(body[..l], name);
      var short, at := Bullets(body[..l], name), Bullets(body, name);
      assert at == short || at == short + [l];
      forall i: nat
        ensures i in Bullets(body, name) <==> BulletAt(body, name, i)
      {
        if i < l {
          assert body[..l][..i] == body[..i];
        }
        assert i != l ==> (BulletAt(body[..l], name, i) <==> BulletAt(body, name, i));
        assert i in at <==> i in short || (i == l && at != short);
      }
      forall p, q | 0 <= p < q < |at|
        ensures at[p] < at[q]
      {
        assert at[p] == short[p] < l && at[q] == if q < |short| then short[q] else l;
      }
    }
  }

  /** The other text under headings `name` in lines `from..till`, a blank before each. */
  ghost function More(body: seq<string>, name: string, from: nat, till: nat): string
    requires till <= |body|
  {
    if from >= till then ""
    else
      var more := IsMore(body[till - 1]) && Under(body[..till - 1], name);
      More(body, name, from, till - 1) + if more then " " + RStrip(body[till - 1]) else ""
  }

  /** Bullet `k` of a section, with the text that continues it up to the next one. */
  ghost function EntryText(body: seq<string>, name: string, k: nat): string
    requires k < |Bullets(body, name)|
  {
    var at := Bullets(body, name);
    RStrip(body[at[k]]) + More(body, name, at[k] + 1, if k + 1 < |at| then at[k + 1] else |body|)
  }

  /** The section holds its bullets, each with its continuation, in order. */
  ghost predicate HoldsBullets(body: seq<string>, s: Section) {
    && |s.lines| == |Bullets(body, s.name)|
    && forall k :: 0 <= k < |s.lines| ==> s.lines[k] == EntryText(body, s.name, k)
  }

  ghost predicate Headed(body: seq<string>, name: string) {
    exists h :: 0 <= h < |body| && Kind(body[h]) == SectionHeading(name)
  }

  /** One section per name, for the names that head one, in order of first heading. */
  ghost predicate NamesInOrder(body: seq<string>, sections: seq<Section>) {
    && (forall name :: Headed(body, name) <==> exists s :: s in sections && s.name == name)
    && forall p, q :: 0 <= p < q < |sections| ==> HeadedFirst(body, sections[p].name, sections[q].name)
  }

  /** A heading of `a` comes before any of `b`. */
  ghost predicate HeadedFirst(body: seq<string>, a: string, b: string) {
    exists h :: 0 <= h < |body| && Kind(body[h]) == SectionHeading(a) && !Headed(body[..h + 1], b)
  }

  lemma UnderMore(body: seq<string>, raw: string, name: string)
    ensures Under(body + [raw], name) <==>
      if Kind(raw).SectionHeading? then Kind(raw).name == name else Under(body, name)
  {
    hide Kind;
    var more := body + [raw];
    if Kind(raw) == SectionHeading(name) {
      assert Kind(more[|body|]) == SectionHeading(name) && NoSectionAfter(more, |body|);
    }
    if h :| 0 <= h < |body| && Kind(body[h]) == SectionHeading(name) && NoSectionAfter(body, h) {
      if !Kind(raw).SectionHeading? {
        assert Kind(more[h]) == SectionHeading(name) && NoSectionAfter(more, h);
      }
    }
    if h :| 0 <= h < |more| && Kind(more[h]) == SectionHeading(name) && NoSectionAfter(more, h) {
      if h < |body| {
        assert !Kind(more[|body|]).SectionHeading?;
        assert NoSectionAfter(body, h) by {
          assert forall j :: h < j < |body| ==> more[j] == body[j];
        }
      }
    }
  }

  /** What the reader keeps in its section variable. */
  lemma {:induction false} OpenSection(body: seq<string>, name: string)
    ensures Filed(body).section == Some(name) <==> Under(body, name)
  {
    hide Kind, Under, Opened, AddedTo;
    if body == [] {
      NothingUnder(name);
    } else {
      var l := |body| - 1;
      OpenSection(body[..l], name);
      assert body == body[..l] + [body[l]];
      UnderMore(body[..l], body[l], name);
    }
  }

  lemma NothingUnder(name: string)
    ensures !Under([], name)
  {}

  lemma BulletsMore(body: seq<string>, raw: string, name: string)
    ensures Bullets(body + [raw], name) ==
      Bullets(body, name) + if IsBullet(raw) && Under(body, name) then [|body|] else []
  {
    hide IsBullet, Under;
    assert (body + [raw])[..|body|] == body;
  }

  lemma {:induction false} MoreKeeps(body: seq<string>, raw: string, name: string, from: nat, till: nat)
    requires till <= |body|
    ensures More(body + [raw], name, from, till) == More(body, name, from, till)
    decreases till
  {
    hide IsMore, Under;
    if from < till {
      MoreKeeps(body, raw, name, from, till - 1);
      assert (body + [raw])[..till - 1] == body[..till - 1];
    }
  }

  lemma MoreStep(body: seq<string>, raw: string, name: string, from: nat)
    requires from <= |body|
    ensures More(body + [raw], name, from, |body| + 1) ==
      More(body, name, from, |body|) + if IsMore(raw) && Under(body, name) then " " + RStrip(raw) else ""
  {
    hide IsMore, Under;
    MoreKeeps(body, raw, name, from, |body|);
    assert (body + [raw])[..|body|] == body;
  }

  /** Another line changes an entry only by continuing the last bullet. */
  lemma EntryMore(body: seq<string>, raw: string, name: string, k: nat)
    requires k < |Bullets(body, name)|
    ensures k < |Bullets(body + [raw], name)|
    ensures EntryText(body + [raw], name, k) == EntryText(body, name, k) +
      if k == |Bullets(body, name)| - 1 && IsMore(raw) && Under(body, name) then " " + RStrip(raw) else ""
  {
    hide IsMore, Under, IsBullet, RStrip, More, Bullets;
    var at, more := Bullets(body, name), body + [raw];
    BulletsMore(body, raw, name);
    var later := Bullets(more, name);
    assert later[k] == at[k];
    assert more[at[k]] == body[at[k]];
    MoreIsNoBullet(raw);
    if k + 1 < |at| {
      assert later[k + 1] == at[k + 1];
      MoreKeeps(body, raw, name, at[k] + 1, at[k + 1]);
    } else {
      MoreStep(body, raw, name, at[k] + 1);
      MoreKeeps(body, raw, name, at[k] + 1, |body|);
    }
  }

  lemma MoreIsNoBullet(raw: string)
    ensures IsMore(raw) ==> !IsBullet(raw)
  {}

  // --- and what the reader has filed ----------------------------------------

  ghost predicate Distinct(sections: seq<Section>) {
    forall p, q :: 0 <= p < q < |sections| ==> sections[p].name != sections[q].name
  }

  function Grows(s: Section, name: string, line: string): Section {
    if s.name == name then Section(name, Added(s.lines, line)) else s
  }

  lemma {:induction false} AddedWhere(sections: seq<Section>, name: string, line: string)
    requires Distinct(sections)
    ensures |AddedTo(sections, name, line)| == |sections|
    ensures forall i :: 0 <= i < |sections| ==> AddedTo(sections, name, line)[i] == Grows(sections[i], name, line)
  {
    hide Added;
    if sections != [] && sections[0].name != name {
      AddedWhere(sections[1..], name, line);
    }
  }

  /** A section that a line does not belong to holds what it did. */
  lemma OtherKept(body: seq<string>, raw: string, s: Section)
    requires HoldsBullets(body, s) && !(Kind(raw).Plain? && Under(body, s.name) && RStrip(raw) != [])
    ensures HoldsBullets(body + [raw], s)
  {
    hide Under, Kind, EntryText, RStrip, Bullets;
    BulletsMore(body, raw, s.name);
    forall k: nat | k < |s.lines|
      ensures s.lines[k] == EntryText(body + [raw], s.name, k)
    {
      EntryMore(body, raw, s.name, k);
    }
  }

  lemma BulletStarts(line: string)
    ensures "- " <= line || "  " <= line ==> line != []
  {}

  lemma {:induction false} LStripSome(line: string)
    requires line != [] && !IsSpace(line[|line| - 1])
    ensures LStrip(line) != []
  {
    hide IsSpace;
    if IsSpace(line[0]) {
      assert line[1..][|line| - 2] == line[|line| - 1];
      LStripSome(line[1..]);
    }
  }

  /** A right-stripped line is blank only if nothing is left of it. */
  lemma BlankIsEmpty(raw: string)
    ensures Strip(RStrip(raw)) == [] <==> RStrip(raw) == []
  {
    hide IsSpace, LStrip, RStrip;
    var line := RStrip(raw);
    if line != [] {
      LStripSome(line);
      var t := LStrip(line);
      assert t[|t| - 1] == line[|line| - 1];
      RStripIs(t, []);
      assert t + [] == t;
    } else {
      LStripIs([], []);
      RStripIs([], []);
      assert [] + [] == line;
    }
  }

  /** A line of its own section is added as the reader adds it. */
  lemma OwnKept(body: seq<string>, raw: string, s: Section)
    requires HoldsBullets(body, s) && Kind(raw).Plain? && Under(body, s.name)
    ensures HoldsBullets(body + [raw], Section(s.name, Added(s.lines, RStrip(raw))))
  {
    hide Under, Kind, EntryText, RStrip, Bullets, Strip;
    var line, more := RStrip(raw), body + [raw];
    var lines := Added(s.lines, line);
    BulletsMore(body, raw, s.name);
    BlankIsEmpty(raw);
    BulletStarts(line);
    forall k: nat | k < |lines|
      ensures lines[k] == EntryText(more, s.name, k)
    {
      if k < |s.lines| {
        EntryMore(body, raw, s.name, k);
      } else {
        NewEntry(body, raw, s.name);
      }
    }
  }

  lemma NewEntry(body: seq<string>, raw: string, name: string)
    requires IsBullet(raw) && Under(body, name)
    ensures |Bullets(body + [raw], name)| == |Bullets(body, name)| + 1
    ensures EntryText(body + [raw], name, |Bullets(body, name)|) == RStrip(raw)
  {
    hide Under, IsBullet, RStrip, Bullets;
    BulletsMore(body, raw, name);
    assert Bullets(body + [raw], name)[|Bullets(body, name)|] == |body|;
    assert More(body + [raw], name, |body| + 1, |body| + 1) == "";
  }

  /** Everything the reader has filed is as stated. */
  ghost predicate FiledRight(body: seq<string>, sections: seq<Section>) {
    && Distinct(sections) && NamesInOrder(body, sections)
    && forall i :: 0 <= i < |sections| ==> HoldsBullets(body, sections[i])
  }

  lemma HeadedMore(body: seq<string>, raw: string, name: string)
    ensures Headed(body + [raw], name) <==> Headed(body, name) || Kind(raw) == SectionHeading(name)
  {
    hide Kind;
    var more := body + [raw];
    if h :| 0 <= h < |body| && Kind(body[h]) == SectionHeading(name) {
      assert Kind(more[h]) == SectionHeading(name);
    }
    if h :| 0 <= h < |more| && Kind(more[h]) == SectionHeading(name) && h < |body| {
      assert Kind(body[h]) == SectionHeading(name);
    }
    assert more[|body|] == raw;
  }

  lemma HeadedFirstMore(body: seq<string>, raw: string, a: string, b: string)
    requires HeadedFirst(body, a, b)
    ensures HeadedFirst(body + [raw], a, b)
  {
    hide Kind, Headed;
    var h :| 0 <= h < |body| && Kind(body[h]) == SectionHeading(a) && !Headed(body[..h + 1], b);
    assert (body + [raw])[..h + 1] == body[..h + 1] && (body + [raw])[h] == body[h];
  }

  /** A name headed now was not headed by the lines before. */
  lemma HeadedBefore(body: seq<string>, raw: string, a: string, b: string)
    requires Headed(body, a) && !Headed(body, b)
    ensures HeadedFirst(body + [raw], a, b)
  {
    hide Kind;
    var more := body + [raw];
    var h :| 0 <= h < |body| && Kind(body[h]) == SectionHeading(a);
    assert Kind(more[h]) == SectionHeading(a);
    assert more[..h + 1] == body[..h + 1];
    HeadedPart(body, h + 1, b);
  }

  lemma HeadedPart(body: seq<string>, k: nat, name: string)
    requires k <= |body|
    ensures Headed(body[..k], name) ==> Headed(body, name)
  {
    hide Kind;
    var part := body[..k];
    if h :| 0 <= h < |part| && Kind(part[h]) == SectionHeading(name) {
      assert Kind(body[h]) == SectionHeading(name);
    }
  }

  lemma {:induction false} UnderIsHeaded(body: seq<string>, name: string)
    requires Under(body, name)
    ensures Headed(body, name)
  {
    hide Kind;
  }

  lemma {:induction false} NoBullets(body: seq<string>, name: string)
    requires !Headed(body, name)
    ensures Bullets(body, name) == []
  {
    hide Headed, Under, IsBullet;
    if body != [] {
      var l := |body| - 1;
      assert body == body[..l] + [body[l]];
      HeadedMore(body[..l], body[l], name);
      NoBullets(body[..l], name);
      if Under(body[..l], name) {
        UnderIsHeaded(body[..l], name);
      }
    }
  }

  /** A line that heads nothing leaves the names as they are. */
  lemma NamesKept(body: seq<string>, raw: string, was: seq<Section>, now: seq<Section>)
    requires NamesInOrder(body, was) && !Kind(raw).SectionHeading?
    requires |now| == |was| && forall i :: 0 <= i < |was| ==> now[i].name == was[i].name
    ensures NamesInOrder(body + [raw], now)
  {
    hide Kind, Headed, HeadedFirst;
    var more := body + [raw];
    forall name
      ensures Headed(more, name) <==> exists s :: s in now && s.name == name
    {
      HeadedMore(body, raw, name);
      if s :| s in was && s.name == name {
        var i :| 0 <= i < |was| && was[i] == s;
        assert now[i] in now;
      }
      if s :| s in now && s.name == name {
        var i :| 0 <= i < |now| && now[i] == s;
        assert was[i] in was;
      }
    }
    forall p, q | 0 <= p < q < |now|
      ensures HeadedFirst(more, now[p].name, now[q].name)
    {
      HeadedFirstMore(body, raw, was[p].name, was[q].name);
    }
  }

  /** A heading opens its section at the end, unless there is one. */
  lemma NamesOpened(body: seq<string>, raw: string, was: seq<Section>, name: string)
    requires NamesInOrder(body, was) && Kind(raw) == SectionHeading(name)
    ensures NamesInOrder(body + [raw], Opened(was, name))
  {
    hide Kind, Headed, HeadedFirst;
    var more, now := body + [raw], Opened(was, name);
    forall n
      ensures Headed(more, n) <==> exists s :: s in now && s.name == n
    {
      HeadedMore(body, raw, n);
      if s :| s in was && s.name == n {
        assert s in now;
      }
      if n == name && now != was {
        assert now[|was|] in now;
      }
    }
    forall p, q | 0 <= p < q < |now|
      ensures HeadedFirst(more, now[p].name, now[q].name)
    {
      assert now[p] == was[p];
      if q < |was| {
        HeadedFirstMore(body, raw, was[p].name, was[q].name);
      } else {
        assert was[p] in was && Headed(body, was[p].name) && !Headed(body, name);
        HeadedBefore(body, raw, was[p].name, name);
      }
    }
  }

  lemma FiledHeading(body: seq<string>, raw: string, sections: seq<Section>, name: string)
    requires FiledRight(body, sections) && Kind(raw) == SectionHeading(name)
    ensures FiledRight(body + [raw], Opened(sections, name))
  {
    hide Kind, HoldsBullets, NamesInOrder, Under;
    var now := Opened(sections, name);
    NamesOpened(body, raw, sections, name);
    forall i | 0 <= i < |now|
      ensures HoldsBullets(body + [raw], now[i])
    {
      if i < |sections| {
        OtherKept(body, raw, sections[i]);
      } else {
        StartsEmpty(body, sections, name);
        OtherKept(body, raw, Section(name, []));
      }
    }
    assert Distinct(now);
  }

  lemma StartsEmpty(body: seq<string>, sections: seq<Section>, name: string)
    requires NamesInOrder(body, sections) && !exists s :: s in sections && s.name == name
    ensures HoldsBullets(body, Section(name, []))
  {
    hide Headed, Bullets;
    NoBullets(body, name);
  }

  lemma FiledPlain(body: seq<string>, raw: string, sections: seq<Section>, name: string)
    requires FiledRight(body, sections) && Kind(raw).Plain? && Under(body, name)
    ensures FiledRight(body + [raw], AddedTo(sections, name, RStrip(raw)))
  {
    hide Kind, HoldsBullets, NamesInOrder, Under, AddedTo, Added, RStrip;
    var now := AddedTo(sections, name, RStrip(raw));
    AddedWhere(sections, name, RStrip(raw));
    NamesKept(body, raw, sections, now);
    forall i | 0 <= i < |now|
      ensures HoldsBullets(body + [raw], now[i])
    {
      if sections[i].name == name {
        OwnKept(body, raw, sections[i]);
      } else {
        OneUnder(body, name, sections[i].name);
        OtherKept(body, raw, sections[i]);
      }
    }
    assert forall i :: 0 <= i < |now| ==> now[i].name == sections[i].name;
    assert Distinct(now);
  }

  lemma OneUnder(body: seq<string>, a: string, b: string)
    requires Under(body, a) && a != b
    ensures !Under(body, b)
  {
    hide Under;
    OpenSection(body, a);
    OpenSection(body, b);
  }

  lemma FiledOther(body: seq<string>, raw: string, sections: seq<Section>)
    requires FiledRight(body, sections) && !Kind(raw).SectionHeading?
    requires Kind(raw).Plain? ==> forall name :: !Under(body, name)
    ensures FiledRight(body + [raw], sections)
  {
    hide Kind, HoldsBullets, NamesInOrder, Under;
    NamesKept(body, raw, sections, sections);
    forall i | 0 <= i < |sections|
      ensures HoldsBullets(body + [raw], sections[i])
    {
      OtherKept(body, raw, sections[i]);
    }
  }

  /** For every body: one section per heading name, in order of first heading; each
      holds one entry per bullet under its headings, in order, and an entry is its
      bullet followed by the text that continues it. */
  lemma {:induction false} SectionsHold(body: seq<string>)
    ensures FiledRight(body, Filed(body).sections)
  {
    hide Kind, FiledRight, Under, Opened, AddedTo, RStrip;
    if body == [] {
      NothingFiled();
    } else {
      var l := |body| - 1;
      var before, raw := body[..l], body[l];
      assert body == before + [raw];
      SectionsHold(before);
      var f := Filed(before);
      if Kind(raw).SectionHeading? {
        FiledHeading(before, raw, f.sections, Kind(raw).name);
      } else if Kind(raw).Plain? && f.section.Some? {
        OpenSection(before, f.section.value);
        FiledPlain(before, raw, f.sections, f.section.value);
      } else {
        forall name
          ensures f.section.None? ==> !Under(before, name)
        {
          OpenSection(before, name);
        }
        FiledOther(before, raw, f.sections);
      }
    }
  }

  lemma NothingFiled()
    ensures FiledRight([], [])
  {}

  // --- the lede's text ------------------------------------------------------

  function Newlines(k: nat): (s: string)
    ensures |s| == k && forall i :: 0 <= i < k ==> s[i] == '\n'
  {
    if k == 0 then [] else "\n" + Newlines(k - 1)
  }

  lemma {:induction false} CollapseCut(a: string, b: string, n: nat)
    requires a != [] && a[|a| - 1] != '\n'
    ensures Collapse(a + b, n) == Collapse(a, n) + Collapse(b, 0)
  {
    var s := a + b;
    assert s[0] == a[0] && s[1..] == a[1..] + b && s[..1] == a[..1];
    if |a| == 1 {
      assert a[1..] == [] && s[1..] == b;
    } else {
      CollapseCut(a[1..], b, if a[0] != '\n' then 0 else if n < 2 then n + 1 else n);
    }
  }

  lemma {:induction false} CollapseNewlines(k: nat, b: string, n: nat)
    requires n <= 2 && !("\n" <= b)
    ensures Collapse(Newlines(k) + b, n) == Newlines(if k + n <= 2 then k else 2 - n) + Collapse(b, 0)
  {
    var s := Newlines(k) + b;
    if k == 0 {
      assert s == b;
      if b != [] {
        assert b[..1] == [b[0]];
      }
    } else {
      assert s[0] == '\n' && s[1..] == Newlines(k - 1) + b && s[..1] == "\n";
      CollapseNewlines(k - 1, b, if n < 2 then n + 1 else n);
    }
  }

  /** Text without a newline is kept; each run of newlines is kept up to two of them,
      and what stands around it is read on its own. */
  lemma CollapseRuns(a: string, k: nat, b: string)
    requires (a == [] || a[|a| - 1] != '\n') && !("\n" <= b)
    ensures Collapse(a + Newlines(k) + b, 0) == Collapse(a, 0) + Newlines(if k <= 2 then k else 2) + Collapse(b, 0)
  {
    hide Collapse, Newlines;
    CollapseNewlines(k, b, 0);
    var rest := Newlines(k) + b;
    assert a + Newlines(k) + b == a + rest;
    if a == [] {
      assert a + rest == rest;
      NothingCollapses();
    } else {
      CollapseCut(a, rest, 0);
    }
  }

  lemma NothingCollapses()
    ensures Collapse([], 0) == []
  {}

  lemma {:induction false} CollapseKeepsText(s: string, n: nat)
    requires '\n' !in s
    ensures Collapse(s, n) == s
  {
    if s != [] {
      CollapseKeepsText(s[1..], 0);
    }
  }

  /** Every other character stays, in order. */
  function Visible(s: string): string {
    if s == [] then [] else (if s[0] == '\n' then [] else [s[0]]) + Visible(s[1..])
  }

  lemma {:induction false} CollapseKeepsOrder(s: string, n: nat)
    ensures Visible(Collapse(s, n)) == Visible(s)
  {
    if s != [] {
      var m := if s[0] != '\n' then 0 else if n < 2 then n + 1 else n;
      CollapseKeepsOrder(s[1..], m);
      var c, r := Collapse(s[1..], m), Collapse(s, n);
      if s[0] != '\n' || n < 2 {
        assert r == s[..1] + c;
        assert r[0] == s[0] && r[1..] == c;
      }
    }
  }

  ghost predicate NoInner(lines: seq<string>) { forall i :: 0 <= i < |lines| ==> !IsInner(lines[i]) }

  /** The lede is the text between the first title and the next title or section,
      stripped, without long runs of newlines. */
  lemma LedeReads(before: seq<string>, raw: string, prose: seq<string>, rest: seq<string>)
    requires NoInner(before) && IsTitle(raw) && NoInner(prose) && (rest == [] || IsInner(rest[0]))
    ensures var body := before + [raw] + prose + rest;
      LedeOf(body) == Collapse(Strip(Join("\n", prose)), 0) && TitleOf(body) == Kind(raw).title
  {
    hide Kind, IsInner, Collapse, Strip, Join;
    var body, t := before + [raw] + prose + rest, |before|;
    assert body[t] == raw;
    forall i | 0 <= i < t
      ensures !IsInner(body[i]) && !IsTitle(body[i])
    {
      assert body[i] == before[i];
      TitleIsInner(body[i]);
    }
    TitleAtIs(body, t);
    TitleIsInner(raw);
    InnerAtIs(body, 0, t);
    var k := t + 1 + |prose|;
    forall i | t + 1 <= i < k
      ensures !IsInner(body[i])
    {
      assert body[i] == prose[i - t - 1];
    }
    if rest != [] {
      assert body[k] == rest[0];
    }
    InnerAtIs(body, t + 1, k);
    assert body[t + 1..k] == prose;
  }

  lemma TitleIsInner(raw: string)
    ensures IsTitle(raw) ==> IsInner(raw)
  {}

  /** Without a title before its first section, a release has no lede. */
  lemma NoLedeReads(before: seq<string>, raw: string, rest: seq<string>)
    requires NoInner(before) && Kind(raw).SectionHeading?
    ensures LedeOf(before + [raw] + rest) == "" && LedeOf(before) == "" && TitleOf(before) == ""
  {
    hide Kind, Cleaned;
    var body, t := before + [raw] + rest, |before|;
    assert body[t] == raw && IsInner(raw);
    forall i | 0 <= i < t
      ensures !IsInner(body[i])
    {
      assert body[i] == before[i];
    }
    InnerAtIs(body, 0, t);
    TitleAtIs(before, t);
  }

  /** A release: its heading's version and date, its title and lede, its sections. */
  lemma ReleaseReads(header: string, body: seq<string>, version: string, date: Option<string>)
    requires Kind(header) == ReleaseHeading(version, date) && NoHeader(body)
    ensures var rs := Releases([header] + body);
      && |rs| == 1 && rs[0].version == version && rs[0].date == date
      && rs[0].title == TitleOf(body) && rs[0].lede == LedeOf(body) && FiledRight(body, rs[0].sections)
  {
    hide Kind, Releases, TitleOf, LedeOf, Filed, FiledRight, NoHeader;
    OneRelease(header, body);
    SectionsHold(body);
  }
}
