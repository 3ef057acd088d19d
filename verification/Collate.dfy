/** Folding `changelog.d` fragments into the changelog's Unreleased section. */
module Collate {
  import opened Optional
  import opened Text
  import opened Sorting
  import opened Collections
  import opened Changelog
  import opened UnreleasedHeader

  // --- which files are fragments ------------------------------------------

  function Lower(s: string): string {
    if s == [] then [] else [if 'A' <= s[0] <= 'Z' then s[0] + 32 as char else s[0]] + Lower(s[1..])
  }

  predicate IsFragment(name: string) { Lower(name) != "readme.md" && Lower(name) != ".gitkeep" }

  function Fragments(listing: seq<string>): seq<string> {
    if listing == [] then []
    else
      var last := listing[|listing| - 1];
      Fragments(listing[..|listing| - 1]) + if IsFragment(last) then [last] else []
  }

  /** The fragment files of a directory listing, by name. */
  function FragmentFiles(listing: seq<string>): seq<string> { Sorted(Fragments(listing), NameLe) }

  /** `name` is `lower` up to the case of its letters. */
  ghost predicate SameButCase(name: string, lower: string) {
    && |name| == |lower|
    && forall i :: 0 <= i < |name| ==>
         name[i] == lower[i] || ('a' <= lower[i] <= 'z' && name[i] as int + 32 == lower[i] as int)
  }

  lemma {:induction false} LowerIs(name: string, lower: string)
    requires forall i :: 0 <= i < |lower| ==> !('A' <= lower[i] <= 'Z')
    ensures Lower(name) == lower <==> SameButCase(name, lower)
  {
    if name != [] && lower != [] {
      LowerIs(name[1..], lower[1..]);
      assert Lower(name)[1..] == Lower(name[1..]);
      assert SameButCase(name, lower) ==> SameButCase(name[1..], lower[1..]);
      assert lower == [lower[0]] + lower[1..];
      if SameButCase(name[1..], lower[1..]) && Lower(name)[0] == lower[0] {
        forall i | 0 <= i < |name|
          ensures name[i] == lower[i] || ('a' <= lower[i] <= 'z' && name[i] as int + 32 == lower[i] as int)
        {
          assert i > 0 ==> name[1..][i - 1] == name[i] && lower[1..][i - 1] == lower[i];
        }
      }
    }
  }

  /** The fragments are the files of the listing but the readme and `.gitkeep`, in
      whatever case those are written. */
  lemma FragmentFilesAre(listing: seq<string>, name: string)
    ensures multiset(FragmentFiles(listing))[name] ==
      if SameButCase(name, "readme.md") || SameButCase(name, ".gitkeep") then 0 else multiset(listing)[name]
  {
    hide Fragments, Sorted;
    LowerIs(name, "readme.md");
    LowerIs(name, ".gitkeep");
    FragmentsCount(listing, name);
  }

  lemma {:induction false} FragmentsCount(listing: seq<string>, name: string)
    ensures multiset(Fragments(listing))[name] == if IsFragment(name) then multiset(listing)[name] else 0
  {
    hide IsFragment;
    if listing != [] {
      var l := |listing| - 1;
      FragmentsCount(listing[..l], name);
      assert listing == listing[..l] + [listing[l]];
    }
  }

  lemma {:induction false} FragmentsJoin(a: seq<string>, b: seq<string>)
    ensures Fragments(a + b) == Fragments(a) + Fragments(b)
    decreases |b|
  {
    hide IsFragment;
    if b == [] {
      assert a + b == a;
    } else {
      FragmentsJoin(a, b[..|b| - 1]);
      assert (a + b)[..|a + b| - 1] == a + b[..|b| - 1];
    }
  }

  lemma FragmentsMove(listing: seq<string>, k: nat)
    requires k < |listing|
    ensures multiset(Fragments(listing)) ==
            multiset(Fragments(listing[..k] + listing[k + 1..])) + multiset(Fragments([listing[k]]))
  {
    hide Fragments;
    assert listing == listing[..k] + [listing[k]] + listing[k + 1..];
    FragmentsJoin(listing[..k], [listing[k]]);
    FragmentsJoin(listing[..k] + [listing[k]], listing[k + 1..]);
    FragmentsJoin(listing[..k], listing[k + 1..]);
  }

  lemma {:induction false} FragmentsIgnoreOrder(a: seq<string>, b: seq<string>)
    requires multiset(a) == multiset(b)
    ensures multiset(Fragments(a)) == multiset(Fragments(b))
  {
    hide Fragments;
    if a == [] {
      EmptyMatch(b);
    } else {
      var l := |a| - 1;
      var k := MatchLast(a, b);
      FragmentsMove(b, k);
      FragmentsIgnoreOrder(a[..l], b[..k] + b[k + 1..]);
      FragmentsJoin(a[..l], [a[l]]);
      assert a == a[..l] + [a[l]];
    }
  }

  /** Whatever order the directory lists its files in, they fold in the same one. */
  lemma FragmentFilesIgnoreOrder(a: seq<string>, b: seq<string>)
    requires multiset(a) == multiset(b)
    ensures FragmentFiles(a) == FragmentFiles(b) && InOrder(FragmentFiles(a), NameLe)
  {
    hide Fragments, Sorted;
    FragmentsIgnoreOrder(a, b);
    NamesAreOrdered();
    SortedIgnoresOrder(Fragments(a), Fragments(b), NameLe);
    SortedInOrder(Fragments(a), NameLe);
  }

  // --- the new text -------------------------------------------------------

  /** The fragments' texts without surrounding space, empty ones dropped. */
  function Bodies(names: seq<string>, files: map<string, string>): seq<string> {
    if names == [] then []
    else
      var body := if names[0] in files then Strip(files[names[0]]) else [];
      (if body == [] then [] else [body]) + Bodies(names[1..], files)
  }

  /** Each file gives its stripped text, or nothing if that is empty, in order. */
  lemma {:induction false} BodiesOf(names: seq<string>, name: string, more: seq<string>, files: map<string, string>)
    requires name in files
    ensures Bodies(names + [name] + more, files) ==
      Bodies(names, files) + (if Strip(files[name]) == [] then [] else [Strip(files[name])]) + Bodies(more, files)
    ensures Bodies([], files) == []
  {
    hide Strip;
    var all := names + [name] + more;
    if names == [] {
      assert all[0] == name && all[1..] == more;
    } else {
      assert all[0] == names[0] && all[1..] == names[1..] + [name] + more;
      BodiesOf(names[1..], name, more, files);
    }
  }

  lemma {:induction false} BodiesAreBodies(names: seq<string>, files: map<string, string>)
    ensures forall b :: b in Bodies(names, files) ==> IsBody(b)
  {
    hide IsBody, Strip;
    if names != [] {
      BodiesAreBodies(names[1..], files);
      if names[0] in files {
        StripIsBody(files[names[0]]);
      }
    }
  }

  lemma StripIsBody(s: string)
    ensures Strip(s) == [] || IsBody(Strip(s))
  {
    hide Strip, IsSpace;
    StripEnds(s);
  }

  predicate IsBody(b: string) { b != [] && !IsSpace(b[0]) && !IsSpace(b[|b| - 1]) }

  function Insertion(bodies: seq<string>): string { "\n\n" + Join("\n\n", bodies) }

  /** The text with the bodies under the first occurrence of the header. */
  function Collated(text: string, bodies: seq<string>): Option<string> {
    var at := Find(text, HEADER);
    if at.None? then None
    else
      var anchor := at.value + |HEADER|;
      Some(text[..anchor] + Insertion(bodies) + text[anchor..])
  }

  /** The bodies, a blank line before each, go in right behind the first mention. */
  lemma CollatedText(before: string, after: string, bodies: seq<string>)
    requires forall i :: 0 <= i < |before| ==> !At(before + HEADER + after, HEADER, i)
    ensures Collated(before + HEADER + after, bodies) == Some(before + HEADER + "\n\n" + Join("\n\n", bodies) + after)
    ensures HEADER == "## [Unreleased]"
  {
    hide Find, Join;
    var text := before + HEADER + after;
    FindIsFirst(text, HEADER);
    assert text[|before|..|before| + |HEADER|] == HEADER;
    assert At(text, HEADER, |before|);
    assert Find(text, HEADER) == Some(|before|);
    assert text[..|before| + |HEADER|] == before + HEADER && text[|before| + |HEADER|..] == after;
    InsertedText(before + HEADER, Join("\n\n", bodies), after);
  }

  lemma InsertedText(a: string, b: string, c: string)
    ensures a + ("\n\n" + b) + c == a + "\n\n" + b + c
  {}

  /** Without a mention there is nowhere to put them. */
  lemma CollatedNowhere(text: string, bodies: seq<string>)
    ensures Collated(text, bodies).None? <==> forall i :: !At(text, HEADER, i)
  {
    hide Find;
    FindIsFirst(text, HEADER);
  }

  datatype Outcome = Folded(names: seq<string>) | NoUnreleased

  /** The changelog and the fragment directory. */
  class Workspace {
    var changelog: string
    var fragments: map<string, string>

    constructor (changelog: string, fragments: map<string, string>)
      ensures this.changelog == changelog && this.fragments == fragments
    {
      this.changelog := changelog;
      this.fragments := fragments;
    }

    /** `listing` is the directory, in whatever order it is read. */
    method Collate(listing: seq<string>, delete: bool) returns (r: Outcome)
      requires forall name :: name in listing ==> name in fragments
      modifies this
      ensures var names := FragmentFiles(listing);
        var text := Collated(old(changelog), Bodies(names, old(fragments)));
        if names == [] then r == Folded([]) && changelog == old(changelog) && fragments == old(fragments)
        else if text.None? then r == NoUnreleased && changelog == old(changelog) && fragments == old(fragments)
        else
          && r == Folded(names) && changelog == text.value
          && fragments == if delete then old(fragments) - Elements(names) else old(fragments)
    {
      hide FragmentFiles, Bodies, Insertion;
      var names := FragmentFiles(listing);
      if names == [] {
        return Folded([]);
      }
      var bodies := Bodies(names, fragments);
      var at := Find(changelog, HEADER);
      if at.None? {
        return NoUnreleased;
      }
      var anchor := at.value + |HEADER|;
      var before := changelog;
      changelog := before[..anchor] + Insertion(bodies) + before[anchor..];
      if delete {
        for i := 0 to |names|
          invariant changelog == before[..anchor] + Insertion(bodies) + before[anchor..]
          invariant fragments == old(fragments) - Elements(names[..i])
        {
          assert Elements(names[..i + 1]) == Elements(names[..i]) + {names[i]};
          fragments := fragments - {names[i]};
        }
        assert names[..|names|] == names;
      }
      r := Folded(names);
    }
  }

  // --- lines of the new text ----------------------------------------------

  /** The bodies' lines in order, a blank line between two bodies. */
  function BodyLines(bodies: seq<string>): seq<string> {
    if bodies == [] then []
    else if |bodies| == 1 then Lines(bodies[0])
    else Lines(bodies[0]) + [""] + BodyLines(bodies[1..])
  }

  lemma BodyEnds(b: string)
    requires IsBody(b)
    ensures b != [] && !IsBreak(b[|b| - 1])
  {
    BreaksAreSpace(b[|b| - 1]);
  }

  lemma BlankLine(rest: string)
    ensures FirstLine("\n" + rest) == "" && AfterBreak("\n" + rest) == rest
    ensures Lines("\n" + rest) == [""] + Lines(rest)
  {
    hide IsBreak, LineEnd;
    var s := "\n" + rest;
    NewlineBreaks();
    LineEndIs(s, 0);
    assert NextLine(s) == 1;
    assert s[1..] == rest && s[..0] == "";
  }

  lemma {:induction false} JoinEnds(bodies: seq<string>)
    requires bodies != [] && forall b :: b in bodies ==> IsBody(b)
    ensures var j := Join("\n\n", bodies); j != [] && !IsBreak(j[|j| - 1])
  {
    hide IsBreak, IsBody;
    BodyEnds(bodies[|bodies| - 1]);
    if |bodies| > 1 {
      assert bodies[1..][|bodies| - 2] == bodies[|bodies| - 1];
      JoinEnds(bodies[1..]);
    }
  }

  lemma GrownByNothing(lines: seq<string>)
    ensures Grown(lines, "") == lines
  {
    if lines != [] {
      assert lines[|lines| - 1] + "" == lines[|lines| - 1];
    }
  }

  /** Each body's lines appear once, whole and in order. */
  lemma {:induction false} JoinedLines(bodies: seq<string>)
    requires forall b :: b in bodies ==> IsBody(b)
    ensures Lines(Join("\n\n", bodies)) == BodyLines(bodies)
  {
    hide Lines, IsBody, IsBreak, FirstLine, AfterBreak, Grown;
    if bodies == [] {
      NoLines();
    } else if |bodies| > 1 {
      var b, rest := bodies[0], Join("\n\n", bodies[1..]);
      BodyEnds(b);
      BlankLine("\n" + rest);
      BlankLine(rest);
      assert "\n\n" + rest == "\n" + ("\n" + rest);
      assert b + "\n\n" + rest == b + ("\n" + ("\n" + rest));
      LinesGrow(b, "\n" + ("\n" + rest));
      GrownByNothing(Lines(b));
      JoinedLines(bodies[1..]);
    }
  }

  lemma NoLines()
    ensures Lines("") == []
  {}

  lemma BlankIsPlain()
    ensures !IsHeader("") && !IsInner("")
  {}

  /** The first mention of the header: whole lines before its line, what its line
      holds before it, and all the text after it. */
  datatype Mention = Mention(lead: string, before: string, post: string)

  function MentionIn(text: string): Mention
    requires Find(text, HEADER).Some?
  {
    var at := Find(text, HEADER).value;
    var k := LastLine(text[..at]);
    Mention(text[..k], text[k..at], text[at + |HEADER|..])
  }

  /** The mention's line, before and after collation. */
  function OldLine(m: Mention): string { m.before + HEADER + FirstLine(m.post) }

  function NewLine(m: Mention): string { m.before + HEADER }

  /** The lines that collation puts below it: what was left of the old line ends
      up at the end of the last body. */
  function Inserted(bodies: seq<string>, post: string): seq<string> {
    [""] +
    if bodies == [] then (if post == [] then [] else [FirstLine(post)])
    else Grown(BodyLines(bodies), FirstLine(post))
  }

  lemma MentionIs(text: string)
    requires Find(text, HEADER).Some?
    ensures var m := MentionIn(text);
      && text == m.lead + (NewLine(m) + m.post)
      && (forall x :: Whole(m.lead, NewLine(m) + x)) && LineEnd(NewLine(m)) == |NewLine(m)| && NewLine(m) != []
  {
    hide Find, IsBreak, LineEnd;
    var at := Find(text, HEADER).value;
    var pre := text[..at];
    var k := LastLine(pre);
    var m := MentionIn(text);
    assert pre[..k] == text[..k] && pre[k..] == text[k..at];
    MentionSplits(text, k, at);
    MentionHasNoBreak(text[k..at]);
    assert k > 0 ==> m.lead[|m.lead| - 1] == pre[k - 1];
  }

  lemma MentionSplits(text: string, k: nat, at: nat)
    requires k <= at && at + |HEADER| <= |text| && text[at..at + |HEADER|] == HEADER
    ensures text == text[..k] + (text[k..at] + HEADER + text[at + |HEADER|..])
  {
    assert text == text[..k] + text[k..];
    assert text[k..] == text[k..at] + text[at..];
    assert text[at..] == text[at..at + |HEADER|] + text[at + |HEADER|..];
  }

  lemma MentionHasNoBreak(before: string)
    requires forall i :: 0 <= i < |before| ==> !IsBreak(before[i])
    ensures var x := before + HEADER; LineEnd(x) == |x| && x[0] != '\n'
  {
    NewlineBreaks();
    HeaderHasNoBreak();
    hide IsBreak;
    var x := before + HEADER;
    forall i | 0 <= i < |x|
      ensures !IsBreak(x[i])
    {
      assert x[i] == if i < |before| then before[i] else HEADER[i - |before|];
    }
    LineEndIs(x, |x|);
    assert x[0] == if before == [] then HEADER[0] else before[0];
  }

  lemma HeaderHasNoBreak()
    ensures forall i :: 0 <= i < |HEADER| ==> !IsBreak(HEADER[i])
  {}

  lemma InsertedLines(line: string, bodies: seq<string>, post: string)
    requires line != [] && LineEnd(line) == |line| && forall b :: b in bodies ==> IsBody(b)
    ensures Lines(line + (Insertion(bodies) + post)) == [line] + Inserted(bodies, post) + Lines(AfterBreak(post))
  {
    hide Lines, IsBody, AfterBreak, FirstLine, BodyLines, IsBreak, LineEnd, Grown, Insertion, Join, Inserted;
    var j := Join("\n\n", bodies);
    InsertionIs(bodies, post);
    BlankLine("\n" + (j + post));
    BlankLine(j + post);
    LineMeets(line, "\n" + ("\n" + (j + post)));
    assert line + "" == line;
    LandedLines(bodies, post);
  }

  lemma InsertionIs(bodies: seq<string>, post: string)
    ensures Insertion(bodies) + post == "\n" + ("\n" + (Join("\n\n", bodies) + post))
  {
    hide Join;
  }

  lemma LandedLines(bodies: seq<string>, post: string)
    requires forall b :: b in bodies ==> IsBody(b)
    ensures [""] + Lines(Join("\n\n", bodies) + post) == Inserted(bodies, post) + Lines(AfterBreak(post))
  {
    hide Lines, IsBody, AfterBreak, FirstLine, BodyLines, IsBreak, Grown;
    var j := Join("\n\n", bodies);
    if bodies == [] {
      assert j + post == post;
      LinesUnfold(post);
    } else {
      hide Join;
      JoinEnds(bodies);
      LinesGrow(j, post);
      JoinedLines(bodies);
    }
  }

  lemma LinesUnfold(post: string)
    ensures Lines(post) == (if post == [] then [] else [FirstLine(post)]) + Lines(AfterBreak(post))
  {
    hide IsBreak, LineEnd;
    if post == [] {
      assert AfterBreak(post) == [];
    }
  }

  /** The text's lines, before and after collation. */
  lemma CollatedLines(text: string, bodies: seq<string>)
    requires Find(text, HEADER).Some? && forall b :: b in bodies ==> IsBody(b)
    ensures Collated(text, bodies).Some?
    ensures var m := MentionIn(text); var lead, rest := Lines(m.lead), Lines(AfterBreak(m.post));
      && Lines(text) == lead + ([OldLine(m)] + rest)
      && Lines(Collated(text, bodies).value) == lead + ([NewLine(m)] + Inserted(bodies, m.post) + rest)
  {
    hide Lines, IsBody, Insertion, Inserted, Whole, LineEnd, AfterBreak, FirstLine, Find;
    var m := MentionIn(text);
    MentionIs(text);
    CollatedIs(text, bodies);
    LinesSplit(m.lead, NewLine(m) + m.post);
    LinesSplit(m.lead, NewLine(m) + (Insertion(bodies) + m.post));
    LineMeets(NewLine(m), m.post);
    InsertedLines(NewLine(m), bodies, m.post);
  }

  lemma CollatedIs(text: string, bodies: seq<string>)
    requires Find(text, HEADER).Some?
    ensures var m := MentionIn(text);
      Collated(text, bodies) == Some(m.lead + (NewLine(m) + (Insertion(bodies) + m.post)))
  {
    hide Insertion, Find, IsBreak;
    var at := Find(text, HEADER).value;
    var m := MentionIn(text);
    var k := LastLine(text[..at]);
    assert text[..at + |HEADER|] == m.lead + NewLine(m);
    Regroup(m.lead, NewLine(m), Insertion(bodies), m.post);
  }

  lemma Regroup(a: string, b: string, c: string, d: string)
    ensures (a + b) + c + d == a + (b + (c + d))
  {}

  // --- what the parser sees -----------------------------------------------

  /** A heading's line is changed and lines are put below it: that release is read
      anew and every other as before. */
  lemma InsertInRelease(before: seq<string>, header: string, now: string, more: seq<string>, rest: seq<string>)
    requires IsHeader(header) && IsHeader(now) && NoHeader(more)
    ensures var k := HeaderAt(rest);
      && Releases(before + ([header] + rest)) == Releases(before) + [ReleaseOf(header, rest[..k])] + Releases(rest[k..])
      && Releases(before + ([now] + more + rest)) ==
         Releases(before) + [ReleaseOf(now, more + rest[..k])] + Releases(rest[k..])
  {
    hide IsHeader, ReleaseOf, Releases, HeaderAt;
    var k := HeaderAt(rest);
    var own, tail := rest[..k], rest[k..];
    assert rest == own + tail;
    assert [header] + rest == ([header] + own) + tail;
    assert [now] + more + rest == ([now] + (more + own)) + tail;
    ReleasesCut(before, [header] + rest);
    ReleasesCut(before, [now] + more + rest);
    ReleasesCut([header] + own, tail);
    ReleasesCut([now] + (more + own), tail);
    OneRelease(header, own);
    OneRelease(now, more + own);
  }

  /** Plain lines in front of the next heading belong to the release before them, or
      to none. */
  lemma PlainBelow(before: seq<string>, plain: seq<string>, rest: seq<string>)
    requires NoHeader(plain)
    ensures var k := HeaderAt(rest);
      Releases(before + (plain + rest)) == Releases(before + (plain + rest[..k])) + Releases(rest[k..])
  {
    hide IsHeader, Releases, HeaderAt;
    var k := HeaderAt(rest);
    assert rest == rest[..k] + rest[k..];
    assert before + (plain + rest) == (before + (plain + rest[..k])) + rest[k..];
    ReleasesCut(before + (plain + rest[..k]), rest[k..]);
  }

  /** The last line that is as asked. */
  function LastWhere(lines: seq<string>, asked: string -> bool): (k: Option<nat>)
    ensures k.Some? ==> k.value < |lines| && asked(lines[k.value])
    ensures forall i :: 0 <= i < |lines| && (k.None? || k.value < i) ==> !asked(lines[i])
  {
    if lines == [] then None
    else if asked(lines[|lines| - 1]) then Some(|lines| - 1)
    else LastWhere(lines[..|lines| - 1], asked)
  }

  /** The last heading of `lines`. */
  function LastHeader(lines: seq<string>): (k: Option<nat>)
    ensures k.Some? ==> k.value < |lines| && IsHeader(lines[k.value])
    ensures forall i :: 0 <= i < |lines| && (k.None? || k.value < i) ==> !IsHeader(lines[i])
  {
    LastWhere(lines, IsHeader)
  }

  /** Lines that are not headings, at the end: the last release takes them. */
  lemma LastReleaseTakes(lines: seq<string>, plain: seq<string>)
    requires NoHeader(plain)
    ensures LastHeader(lines).None? ==> Releases(lines + plain) == []
    ensures LastHeader(lines).Some? ==>
      var h := LastHeader(lines).value;
      Releases(lines + plain) == Releases(lines[..h]) + [ReleaseOf(lines[h], lines[h + 1..] + plain)]
  {
    hide IsHeader, Releases, ReleaseOf, LastHeader;
    if LastHeader(lines).Some? {
      var h := LastHeader(lines).value;
      var own := lines[h + 1..] + plain;
      forall i | 0 <= i < |own|
        ensures !IsHeader(own[i])
      {
        assert own[i] == if i < |lines| - h - 1 then lines[h + 1 + i] else plain[i - (|lines| - h - 1)];
      }
      assert lines + plain == lines[..h] + ([lines[h]] + own);
      ReleasesCut(lines[..h], [lines[h]] + own);
      OneRelease(lines[h], own);
    } else {
      NoReleases(lines + plain);
    }
  }

  // --- where the fragments go ---------------------------------------------

  /** The lines of Unreleased's section, or of whatever holds the mention, below the
      mention and up to the next heading. */
  function OwnLines(m: Mention): seq<string> {
    var rest := Lines(AfterBreak(m.post));
    rest[..HeaderAt(rest)]
  }

  /** The mention's line is a release heading: the first mention is a line that
      begins with the header and holds nothing after it but blanks, or a date. */
  ghost predicate HeaderMention(text: string) {
    Find(text, HEADER).Some? && var m := MentionIn(text); m.before == [] && IsHeader(OldLine(m))
  }

  /** No line that collation puts in is a release heading. */
  ghost predicate Harmless(text: string, bodies: seq<string>) {
    && Find(text, HEADER).Some? && (forall b :: b in bodies ==> IsBody(b))
    && NoHeader(Inserted(bodies, MentionIn(text).post))
  }

  /** When the first mention is the header's line, collation rewrites Unreleased,
      from its new lines followed by its old ones, and no other release. */
  lemma CollateFrame(text: string, bodies: seq<string>) returns (j: nat)
    requires HeaderMention(text) && Harmless(text, bodies)
    ensures Collated(text, bodies).Some? && IsHeader(HEADER) && Kind(HEADER).version == "Unreleased"
    ensures var m := MentionIn(text);
      var before, after := Releases(Lines(text)), Releases(Lines(Collated(text, bodies).value));
      && |before| == |after| && j < |before|
      && (forall i :: 0 <= i < |before| && i != j ==> after[i] == before[i])
      && Kind(OldLine(m)).version == "Unreleased" && before[j] == ReleaseOf(OldLine(m), OwnLines(m))
      && after[j] == ReleaseOf(HEADER, Inserted(bodies, m.post) + OwnLines(m))
  {
    hide IsHeader, Kind, ReleaseOf, Releases, HeaderAt, Lines, IsBody, Inserted, AfterBreak, FirstLine, Find,
      Collated, NoHeader;
    var m := MentionIn(text);
    CollatedLines(text, bodies);
    assert m.before + HEADER == HEADER;
    HeaderLine(FirstLine(m.post));
    InsertInRelease(Lines(m.lead), OldLine(m), NewLine(m), Inserted(bodies, m.post), Lines(AfterBreak(m.post)));
    j := |Releases(Lines(m.lead))|;
  }

  /** When the mention's line is no heading, even cut off after the mention, the
      release whose body holds it takes the fragments; in the preamble, none does. */
  lemma CollateElsewhere(text: string, bodies: seq<string>)
    requires Harmless(text, bodies) && !IsHeader(NewLine(MentionIn(text)))
    ensures Collated(text, bodies).Some?
    ensures var m := MentionIn(text); var lead, rest := Lines(m.lead), Lines(AfterBreak(m.post));
      var before, after := Releases(Lines(text)), Releases(Lines(Collated(text, bodies).value));
      var next := Releases(rest[HeaderAt(rest)..]);
      if LastHeader(lead).None? then before == next == after
      else
        var h := LastHeader(lead).value;
        && before == Releases(lead[..h]) + [ReleaseOf(lead[h], lead[h + 1..] + ([OldLine(m)] + OwnLines(m)))] + next
        && after == Releases(lead[..h]) +
           [ReleaseOf(lead[h], lead[h + 1..] + ([NewLine(m)] + Inserted(bodies, m.post) + OwnLines(m)))] + next
  {
    hide IsHeader, Kind, ReleaseOf, Releases, HeaderAt, Lines, IsBody, Inserted, AfterBreak, FirstLine, Find,
      Collated, LastHeader;
    var m := MentionIn(text);
    var lead, rest := Lines(m.lead), Lines(AfterBreak(m.post));
    var more := [NewLine(m)] + Inserted(bodies, m.post);
    CollatedLines(text, bodies);
    HeadingShrinks(m.before, FirstLine(m.post));
    PlainBelow(lead, [OldLine(m)], rest);
    PlainBelow(lead, more, rest);
    LastReleaseTakes(lead, [OldLine(m)] + OwnLines(m));
    LastReleaseTakes(lead, more + OwnLines(m));
  }

  /** When cutting the line off after the mention makes a heading of it, collation
      adds a release. */
  lemma CollateAddsRelease(text: string, bodies: seq<string>)
    requires Harmless(text, bodies) && IsHeader(NewLine(MentionIn(text))) && !IsHeader(OldLine(MentionIn(text)))
    ensures Collated(text, bodies).Some?
    ensures |Releases(Lines(Collated(text, bodies).value))| == |Releases(Lines(text))| + 1
  {
    hide IsHeader, Kind, ReleaseOf, Releases, HeaderAt, Lines, IsBody, Inserted, AfterBreak, FirstLine, Find, Collated;
    var m := MentionIn(text);
    var lead, rest := Lines(m.lead), Lines(AfterBreak(m.post));
    CollatedLines(text, bodies);
    InsertInRelease(lead, NewLine(m), NewLine(m), Inserted(bodies, m.post), rest);
    PlainBelow(lead, [OldLine(m)], rest);
    SameCount(lead, [OldLine(m)] + OwnLines(m));
  }

  lemma SameCount(lines: seq<string>, plain: seq<string>)
    requires NoHeader(plain)
    ensures |Releases(lines + plain)| == |Releases(lines)|
  {
    hide IsHeader, Releases, ReleaseOf, LastHeader;
    LastReleaseTakes(lines, plain);
    NoHeaderInNone();
    LastReleaseTakes(lines, []);
    assert lines + [] == lines;
  }

  /** What collation is for: the fragments stand under a heading of Unreleased that
      is the mention's line, and there are as many releases as before. */
  ghost predicate Intended(text: string, bodies: seq<string>)
    requires Harmless(text, bodies)
  {
    && Collated(text, bodies).Some?
    && var m := MentionIn(text);
    && IsHeader(NewLine(m)) && Kind(NewLine(m)).version == "Unreleased"
    && |Releases(Lines(Collated(text, bodies).value))| == |Releases(Lines(text))|
  }

  /** It does that exactly when the first mention is the header's own line. */
  lemma IntendedIff(text: string, bodies: seq<string>)
    requires Harmless(text, bodies)
    ensures Intended(text, bodies) <==> HeaderMention(text)
  {
    hide IsHeader, Kind, Releases, Lines, Inserted, Collated, Find, FirstLine, NoHeader, IsBody;
    var m := MentionIn(text);
    if HeaderMention(text) {
      var j := CollateFrame(text, bodies);
      assert NewLine(m) == HEADER;
    } else if IsHeader(NewLine(m)) {
      if !IsHeader(OldLine(m)) {
        CollateAddsRelease(text, bodies);
      } else {
        ForeignHeading(m.before);
      }
    }
  }

  // --- fragments that hold no heading -------------------------------------

  lemma {:induction false} BodiesHaveNoHeader(bodies: seq<string>)
    requires forall b :: b in bodies ==> NoHeader(Lines(b))
    ensures NoHeader(BodyLines(bodies))
  {
    hide IsHeader, Lines;
    BlankIsPlain();
    if bodies != [] {
      assert NoHeader(Lines(bodies[0]));
      BodiesHaveNoHeader(bodies[1..]);
    }
  }

  lemma BlanksKeepKind(line: string, blanks: string)
    requires RStrip(blanks) == []
    ensures IsHeader(line + blanks) == IsHeader(line)
  {
    hide RStrip, HeadingOf;
    RStripBlank(line, blanks);
  }

  lemma GrownHasNoHeader(lines: seq<string>, blanks: string)
    requires NoHeader(lines) && RStrip(blanks) == []
    ensures NoHeader(Grown(lines, blanks))
  {
    hide IsHeader, RStrip;
    if lines != [] {
      BlanksKeepKind(lines[|lines| - 1], blanks);
    }
  }

  lemma InsertedHasNoHeader(bodies: seq<string>, post: string)
    requires RStrip(FirstLine(post)) == [] && forall b :: b in bodies ==> NoHeader(Lines(b))
    ensures NoHeader(Inserted(bodies, post))
  {
    hide IsHeader, Lines, BodyLines, RStrip, Grown, FirstLine;
    BlankIsPlain();
    BodiesHaveNoHeader(bodies);
    GrownHasNoHeader(BodyLines(bodies), FirstLine(post));
    BlanksKeepKind("", FirstLine(post));
    assert "" + FirstLine(post) == FirstLine(post);
  }

  lemma OldLineIs(m: Mention)
    ensures m.before == [] ==> OldLine(m) == HEADER + FirstLine(m.post)
  {
    hide FirstLine;
  }

  /** On a header line with nothing but blanks after it, fragments without release
      headings are harmless. */
  lemma PlainFragmentsAreHarmless(text: string, bodies: seq<string>)
    requires Find(text, HEADER).Some? && RStrip(FirstLine(MentionIn(text).post)) == []
    requires forall b :: b in bodies ==> IsBody(b) && NoHeader(Lines(b))
    ensures Harmless(text, bodies)
    ensures MentionIn(text).before == [] ==> HeaderMention(text)
  {
    hide IsHeader, Kind, Lines, RStrip, Inserted, IsBody, Find, FirstLine, NoHeader, MentionIn, OldLine;
    var m := MentionIn(text);
    InsertedHasNoHeader(bodies, m.post);
    HeaderLine(FirstLine(m.post));
    OldLineIs(m);
  }

  // --- the newest fragment leads ------------------------------------------

  /** `first` under the blank line that collation puts below the header. */
  function Led(first: seq<string>, tail: seq<string>): seq<string> { [""] + first + tail }

  lemma LedAt(first: seq<string>, tail: seq<string>)
    ensures |Led(first, tail)| == 1 + |first| + |tail| && Led(first, tail)[0] == ""
    ensures forall i :: 0 <= i < |first| ==> Led(first, tail)[i + 1] == first[i]
    ensures forall i :: 1 <= i <= |first| ==> Led(first, tail)[i] == first[i - 1]
  {}

  lemma LeadTitle(first: seq<string>, tail: seq<string>)
    requires TitleAt(first) < |first|
    ensures var body := Led(first, tail); TitleAt(body) == TitleAt(first) + 1 && TitleOf(body) == TitleOf(first)
  {
    hide Kind, IsTitle, IsInner, Led, TitleAt;
    var body, t := Led(first, tail), TitleAt(first);
    LedAt(first, tail);
    BlankIsNoTitle();
    forall i | 0 <= i < t + 1
      ensures !IsTitle(body[i])
    {
      assert i > 0 ==> body[i] == first[i - 1];
    }
    TitleAtIs(body, t + 1);
  }

  lemma BlankIsNoTitle()
    ensures !IsTitle("")
  {
    hide Kind;
    BlankIsPlain();
  }

  lemma LeadInner(first: seq<string>, tail: seq<string>, from: nat)
    requires from <= |first| && InnerAt(first, from) < |first|
    ensures var body := Led(first, tail); from > 0 ==> InnerAt(body, from + 1) == InnerAt(first, from) + 1
    ensures var body := Led(first, tail); from == 0 ==> InnerAt(body, 0) == InnerAt(first, from) + 1
  {
    hide IsInner, InnerAt, Led;
    var body, k := Led(first, tail), InnerAt(first, from);
    LedAt(first, tail);
    BlankIsPlain();
    var start := if from == 0 then 0 else from + 1;
    forall i | start <= i < k + 1
      ensures !IsInner(body[i])
    {
      assert i > 0 ==> body[i] == first[i - 1];
    }
    InnerAtIs(body, start, k + 1);
  }

  lemma LedeBetween(body: seq<string>)
    requires TitleAt(body) < |body| && InnerAt(body, 0) == TitleAt(body)
    ensures LedeOf(body) == Cleaned(body[TitleAt(body) + 1..InnerAt(body, TitleAt(body) + 1)])
  {
    hide TitleAt, InnerAt, Cleaned, Kind, IsInner;
  }

  lemma SameLede(first: seq<string>, body: seq<string>, t: nat, k: nat)
    requires t < k <= |first| && TitleAt(first) == t == InnerAt(first, 0) && InnerAt(first, t + 1) == k
    requires k < |body| && TitleAt(body) == t + 1 == InnerAt(body, 0) && InnerAt(body, t + 2) == k + 1
    requires body[t + 2..k + 1] == first[t + 1..k]
    ensures LedeOf(body) == LedeOf(first)
  {
    hide TitleAt, InnerAt, Cleaned, Kind, IsInner, LedeOf;
    LedeBetween(first);
    LedeBetween(body);
  }

  lemma LeadLede(first: seq<string>, tail: seq<string>)
    requires HasProse(first) && InnerAt(first, TitleAt(first) + 1) < |first|
    ensures LedeOf(Led(first, tail)) == LedeOf(first)
  {
    hide TitleAt, InnerAt, Cleaned, Kind, IsTitle, IsInner, TitleOf, LedeOf, Led;
    var body, t := Led(first, tail), TitleAt(first);
    LeadTitle(first, tail);
    LeadInner(first, tail, 0);
    LeadInner(first, tail, t + 1);
    Shifted(first, tail, t + 1, InnerAt(first, t + 1));
    SameLede(first, body, t, InnerAt(first, t + 1));
  }

  lemma Shifted(first: seq<string>, tail: seq<string>, i: nat, j: nat)
    requires i <= j <= |first|
    ensures |Led(first, tail)| == 1 + |first| + |tail|
    ensures Led(first, tail)[i + 1..j + 1] == first[i..j]
  {}

  /** The first fragment's lines as they stand in the new text. */
  function FirstLanded(bodies: seq<string>, post: string): seq<string>
    requires bodies != []
  {
    if |bodies| == 1 then Grown(Lines(bodies[0]), FirstLine(post)) else Lines(bodies[0])
  }

  lemma FirstBody(bodies: seq<string>, post: string)
    requires bodies != [] && forall b :: b in bodies ==> b != []
    ensures FirstLanded(bodies, post) <= Grown(BodyLines(bodies), FirstLine(post))
  {
    hide Lines, FirstLine;
    if |bodies| > 1 {
      var all, first := BodyLines(bodies), Lines(bodies[0]);
      assert all[..|first|] == first && |all| > |first|;
    }
  }

  /** The first fragment in filename order gives Unreleased its title, and its own
      prose as the lede when a section or further title follows the prose. */
  lemma NewestFragmentLeads(bodies: seq<string>, post: string, rest: seq<string>)
    requires bodies != [] && (forall b :: b in bodies ==> b != []) && HasProse(FirstLanded(bodies, post))
    ensures var first, body := FirstLanded(bodies, post), Inserted(bodies, post) + rest;
      && TitleOf(body) == TitleOf(first)
      && (InnerAt(first, TitleAt(first) + 1) < |first| ==> LedeOf(body) == LedeOf(first))
  {
    hide FirstLanded, TitleOf, LedeOf, TitleAt, InnerAt, Kind, IsInner, BodyLines, Grown, FirstLine;
    var first, body := FirstLanded(bodies, post), Inserted(bodies, post) + rest;
    FirstBody(bodies, post);
    var grown := Grown(BodyLines(bodies), FirstLine(post));
    var tail := grown[|first|..] + rest;
    assert grown == first + grown[|first|..];
    assert body == Led(first, tail);
    LeadTitle(first, tail);
    if InnerAt(first, TitleAt(first) + 1) < |first| {
      LeadLede(first, tail);
    }
  }
}
