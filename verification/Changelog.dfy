/** Parsing `docs/changelog.md` into its releases. */
module Changelog {
  import opened Optional
  import opened Text

  datatype Section = Section(name: string, lines: seq<string>)

  /** `sections` is the source's dictionary, in order of insertion. */
  datatype Release = Release(version: string, date: Option<string>, title: string, lede: string, sections: seq<Section>)

  datatype Heading =
    | ReleaseHeading(version: string, date: Option<string>)
    | TitleHeading(title: string)
    | SectionHeading(name: string)
    | Plain

  // --- headings -----------------------------------------------------------

  /** The text after `marks` and at least one space, if `line` starts that way. */
  function AfterMarks(marks: string, line: string): (r: Option<string>) {
    if marks <= line && |marks| < |line| && IsSpace(line[|marks|]) then Some(LStrip(line[|marks|..])) else None
  }

  function IndexOf(s: string, c: char): (k: nat)
    ensures k <= |s| && (k < |s| ==> s[k] == c) && (forall i :: 0 <= i < k ==> s[i] != c)
  {
    if s == [] || s[0] == c then 0 else 1 + IndexOf(s[1..], c)
  }

  predicate IsDigit(c: char) { '0' <= c <= '9' }

  /** `\d{4}-\d{2}-\d{2}`. */
  predicate IsDate(s: string) {
    |s| == 10 && forall i :: 0 <= i < 10 ==> if i == 4 || i == 7 then s[i] == '-' else IsDigit(s[i])
  }

  /** `\s+[dash]\s+(date)\s*`, the optional tail of a release heading. */
  function DateTail(s: string): (r: Option<string>) {
    var t := LStrip(s);
    if |t| < 2 || |t| == |s| || t[0] !in ['\U{2014}', '\U{2013}', '-'] || !IsSpace(t[1]) then None
    else Day(LStrip(t[1..]))
  }

  /** `(date)\s*`. */
  function Day(s: string): (r: Option<string>) {
    if |s| >= 10 && IsDate(s[..10]) && LStrip(s[10..]) == [] then Some(s[..10]) else None
  }

  /** What a line without trailing space is. */
  function HeadingOf(line: string): (h: Heading) {
    var release := ReleaseHeadingOf(line);
    if release.Plain? then
      var title, section := AfterMarks("###", line), AfterMarks("####", line);
      if title.Some? && title.value != [] then TitleHeading(title.value)
      else if section.Some? && section.value != [] then SectionHeading(section.value)
      else Plain
    else release
  }

  function ReleaseHeadingOf(line: string): (h: Heading)
    ensures h.ReleaseHeading? || h.Plain?
  {
    var rest := AfterMarks("##", line);
    if rest.None? then Plain else Named(rest.value)
  }

  /** `[version]` and perhaps a date. */
  function Named(rest: string): (h: Heading)
    ensures h.ReleaseHeading? || h.Plain?
  {
    if rest == [] || rest[0] != '[' then Plain else Versioned(rest[1..])
  }

  /** The same, from after the opening bracket. */
  function Versioned(s: string): (h: Heading)
    ensures h.ReleaseHeading? || h.Plain?
  {
    var k := IndexOf(s, ']');
    if k == |s| || k == 0 then Plain
    else if LStrip(s[k + 1..]) == [] then ReleaseHeading(s[..k], None)
    else if DateTail(s[k + 1..]).Some? then ReleaseHeading(s[..k], DateTail(s[k + 1..]))
    else Plain
  }

  function Kind(raw: string): (h: Heading) { HeadingOf(RStrip(raw)) }

  predicate IsHeader(raw: string) { Kind(raw).ReleaseHeading? }

  ghost predicate NoHeader(body: seq<string>) { forall i :: 0 <= i < |body| ==> !IsHeader(body[i]) }

  // --- the prose lede -----------------------------------------------------

  /** Runs of three or more newlines become two. `n` counts those just before. */
  function Collapse(s: string, n: nat): (r: string) {
    if s == [] then []
    else if s[0] != '\n' then s[..1] + Collapse(s[1..], 0)
    else if n < 2 then s[..1] + Collapse(s[1..], n + 1)
    else Collapse(s[1..], n)
  }

  /** Joined, stripped, blank runs collapsed. */
  function Cleaned(lines: seq<string>): string { Collapse(Strip(Join("\n", lines)), 0) }

  /** `_flush_lede`: the new lede. */
  function FlushLede(lede: string, ledeLines: seq<string>, seenTitle: bool): string {
    if !seenTitle || ledeLines == [] || Strip(Join("\n", ledeLines)) == [] then lede else Cleaned(ledeLines)
  }

  lemma FlushIsCleaned(ledeLines: seq<string>)
    ensures FlushLede("", ledeLines, true) == Cleaned(ledeLines)
  {
    if ledeLines == [] {
      assert Strip(Join("\n", ledeLines)) == [];
    }
  }

  // --- sections -----------------------------------------------------------

  /** `sections.setdefault(name, [])`. */
  function Opened(sections: seq<Section>, name: string): seq<Section> {
    if exists s :: s in sections && s.name == name then sections else sections + [Section(name, [])]
  }

  /** A bullet is added, a blank line dropped, other text continues the last bullet. */
  function Added(lines: seq<string>, line: string): seq<string> {
    if "- " <= line || "  " <= line then lines + [line]
    else if Strip(line) == [] || lines == [] then lines
    else lines[|lines| - 1 := lines[|lines| - 1] + " " + line]
  }

  function AddedTo(sections: seq<Section>, name: string, line: string): seq<Section> {
    if sections == [] then []
    else if sections[0].name == name then [Section(name, Added(sections[0].lines, line))] + sections[1..]
    else [sections[0]] + AddedTo(sections[1..], name, line)
  }

  // --- the block-wise reading ---------------------------------------------

  predicate IsTitle(raw: string) { Kind(raw).TitleHeading? }

  /** The first line at or after `from` that is as asked. */
  function FirstWhere(lines: seq<string>, from: nat, asked: string -> bool): (k: nat)
    requires from <= |lines|
    ensures from <= k <= |lines| && (k < |lines| ==> asked(lines[k]))
    ensures forall i :: from <= i < k ==> !asked(lines[i])
    decreases |lines| - from
  {
    if from == |lines| || asked(lines[from]) then from else FirstWhere(lines, from + 1, asked)
  }

  /** The first title line of a release's body. */
  function TitleAt(body: seq<string>): (k: nat)
    ensures k <= |body| && (k < |body| ==> IsTitle(body[k]))
    ensures forall i :: 0 <= i < k ==> !IsTitle(body[i])
  {
    FirstWhere(body, 0, IsTitle)
  }

  predicate IsInner(raw: string) { IsTitle(raw) || Kind(raw).SectionHeading? }

  /** The first title or section line at or after `from`. */
  function InnerAt(body: seq<string>, from: nat): (k: nat)
    requires from <= |body|
    ensures from <= k <= |body| && (k < |body| ==> IsInner(body[k]))
    ensures forall i :: from <= i < k ==> !IsInner(body[i])
  {
    FirstWhere(body, from, IsInner)
  }

  function TitleOf(body: seq<string>): string {
    var t := TitleAt(body);
    if t < |body| then Kind(body[t]).title else ""
  }

  /** A release has prose only if its title comes before any section. */
  predicate HasProse(body: seq<string>) {
    TitleAt(body) < |body| && InnerAt(body, 0) == TitleAt(body)
  }

  /** The lines from the title to the next title or section. */
  function ProseOf(body: seq<string>): seq<string>
    requires HasProse(body)
  {
    var t := TitleAt(body);
    body[t + 1..InnerAt(body, t + 1)]
  }

  function LedeOf(body: seq<string>): string {
    if HasProse(body) then Cleaned(ProseOf(body)) else ""
  }

  /** The open section, and what every section holds. */
  datatype Filing = Filing(section: Option<string>, sections: seq<Section>)

  function FileLine(f: Filing, raw: string): Filing {
    match Kind(raw)
    case SectionHeading(name) => Filing(Some(name), Opened(f.sections, name))
    case Plain => if f.section.None? then f else f.(sections := AddedTo(f.sections, f.section.value, RStrip(raw)))
    case _ => f
  }

  function Filed(body: seq<string>): Filing {
    if body == [] then Filing(None, []) else FileLine(Filed(body[..|body| - 1]), body[|body| - 1])
  }

  function ReleaseOf(header: string, body: seq<string>): Release
    requires IsHeader(header)
  {
    Release(Kind(header).version, Kind(header).date, TitleOf(body), LedeOf(body), Filed(body).sections)
  }

  /** Where the next release heading is. */
  function HeaderAt(lines: seq<string>): (k: nat)
    ensures k <= |lines| && (k < |lines| ==> IsHeader(lines[k]))
    ensures forall i :: 0 <= i < k ==> !IsHeader(lines[i])
  {
    FirstWhere(lines, 0, IsHeader)
  }

  /** One release per heading, read from the lines up to the next one; what comes
      before the first is skipped. */
  function Releases(lines: seq<string>): seq<Release>
    decreases |lines|
  {
    if lines == [] then []
    else if !IsHeader(lines[0]) then Releases(lines[1..])
    else
      var rest := lines[1..];
      [ReleaseOf(lines[0], rest[..HeaderAt(rest)])] + Releases(rest[HeaderAt(rest)..])
  }

  // --- cutting before a release heading -----------------------------------

  lemma HeaderAtIs(lines: seq<string>, k: nat)
    requires k <= |lines| && (forall i :: 0 <= i < k ==> !IsHeader(lines[i])) && (k < |lines| ==> IsHeader(lines[k]))
    ensures HeaderAt(lines) == k
  {
    hide IsHeader, HeaderAt;
  }

  lemma {:induction false} NoReleases(lines: seq<string>)
    requires NoHeader(lines)
    ensures Releases(lines) == []
  {
    hide IsHeader;
    if lines != [] {
      assert !IsHeader(lines[0]);
      forall i | 0 <= i < |lines[1..]|
        ensures !IsHeader(lines[1..][i])
      {
        assert lines[1..][i] == lines[i + 1];
      }
      NoReleases(lines[1..]);
    }
  }

  /** One heading and its body. */
  lemma OneRelease(header: string, body: seq<string>)
    requires IsHeader(header) && NoHeader(body)
    ensures Releases([header] + body) == [ReleaseOf(header, body)]
  {
    hide IsHeader, ReleaseOf;
    var lines := [header] + body;
    assert lines[1..] == body && body[..|body|] == body;
    HeaderAtIs(body, |body|);
    assert Releases(body[|body|..]) == [];
  }

  lemma HeaderAtKeeps(rest: seq<string>, b: seq<string>)
    requires b == [] || IsHeader(b[0])
    ensures HeaderAt(rest + b) == HeaderAt(rest)
    ensures var k := HeaderAt(rest); (rest + b)[..k] == rest[..k] && (rest + b)[k..] == rest[k..] + b
  {
    hide IsHeader, HeaderAt;
    HeaderAtIs(rest + b, HeaderAt(rest));
  }

  /** A text cut before any release heading reads as its two halves do. */
  lemma {:induction false} ReleasesCut(a: seq<string>, b: seq<string>)
    requires b == [] || IsHeader(b[0])
    ensures Releases(a + b) == Releases(a) + Releases(b)
    decreases |a|
  {
    hide IsHeader, ReleaseOf, HeaderAt;
    if a == [] {
      assert a + b == b;
    } else if !IsHeader(a[0]) {
      assert (a + b)[1..] == a[1..] + b;
      ReleasesCut(a[1..], b);
    } else {
      var rest := a[1..];
      var k := HeaderAt(rest);
      assert (a + b)[1..] == rest + b;
      HeaderAtKeeps(rest, b);
      ReleasesCut(rest[k..], b);
    }
  }

  // --- the one-pass reader ------------------------------------------------

  /** The reader's lede variables after `body`. */
  ghost predicate ReadingLede(body: seq<string>, lede: string, section: Option<string>, ledeLines: seq<string>,
                              seenTitle: bool, ledeDone: bool) {
    var t := TitleAt(body);
    && (seenTitle <==> t < |body|)
    && (if !seenTitle then
          lede == "" && ledeLines == [] && !ledeDone && (section.Some? <==> InnerAt(body, 0) < |body|)
        else if InnerAt(body, 0) == t && InnerAt(body, t + 1) == |body| then
          lede == "" && section.None? && !ledeDone && ledeLines == body[t + 1..]
        else
          lede == LedeOf(body) && ledeLines == [] && (section.Some? || ledeDone))
  }

  lemma FlushedLede(body: seq<string>, lede: string, section: Option<string>, ledeLines: seq<string>,
                    seenTitle: bool, ledeDone: bool)
    requires ReadingLede(body, lede, section, ledeLines, seenTitle, ledeDone)
    ensures FlushLede(lede, ledeLines, seenTitle) == LedeOf(body)
  {
    hide Cleaned, FlushLede, Kind, IsInner;
    var t := TitleAt(body);
    NothingToFlush(lede, seenTitle);
    if seenTitle && InnerAt(body, 0) == t && InnerAt(body, t + 1) == |body| {
      FlushIsCleaned(ledeLines);
      assert body[t + 1..|body|] == body[t + 1..];
    } else if !seenTitle {
      assert !HasProse(body);
    }
  }

  lemma NothingToFlush(lede: string, seenTitle: bool)
    ensures FlushLede(lede, [], seenTitle) == lede
    ensures FlushLede(lede, [], false) == lede
  {}

  lemma TitleAtIs(body: seq<string>, k: nat)
    requires k <= |body| && (k < |body| ==> IsTitle(body[k]))
    requires forall i :: 0 <= i < k ==> !IsTitle(body[i])
    ensures TitleAt(body) == k
  {
    hide IsTitle, TitleAt;
  }

  lemma InnerAtIs(body: seq<string>, from: nat, k: nat)
    requires from <= k <= |body| && (k < |body| ==> IsInner(body[k]))
    requires forall i :: from <= i < k ==> !IsInner(body[i])
    ensures InnerAt(body, from) == k
  {
    hide IsInner;
  }

  lemma TitleAtMore(body: seq<string>, raw: string)
    ensures TitleAt(body + [raw]) ==
      if TitleAt(body) < |body| || IsTitle(raw) then TitleAt(body) else |body| + 1
  {
    hide IsTitle, TitleAt;
    var more, t := body + [raw], TitleAt(body);
    TitleAtIs(more, if t < |body| || IsTitle(raw) then t else |body| + 1);
  }

  lemma InnerAtMore(body: seq<string>, raw: string, from: nat)
    requires from <= |body|
    ensures InnerAt(body + [raw], from) ==
      if InnerAt(body, from) < |body| || IsInner(raw) then InnerAt(body, from) else |body| + 1
  {
    hide IsInner;
    var more, t := body + [raw], InnerAt(body, from);
    InnerAtIs(more, from, if t < |body| || IsInner(raw) then t else |body| + 1);
  }

  lemma TitlesAreInner(body: seq<string>)
    ensures InnerAt(body, 0) <= TitleAt(body)
  {
    hide Kind;
  }

  /** Once the prose has ended, more lines leave the lede alone. */
  lemma LedeSettled(body: seq<string>, raw: string)
    requires var t := TitleAt(body); t < |body| && !(InnerAt(body, 0) == t && InnerAt(body, t + 1) == |body|)
    ensures LedeOf(body + [raw]) == LedeOf(body)
    ensures var t, more := TitleAt(body), body + [raw];
      TitleAt(more) == t < |more| && !(InnerAt(more, 0) == t && InnerAt(more, t + 1) == |more|)
  {
    hide Kind, IsInner, Cleaned;
    var t := TitleAt(body);
    TitleAtMore(body, raw);
    InnerAtMore(body, raw, 0);
    InnerAtMore(body, raw, t + 1);
    TitlesAreInner(body);
    if HasProse(body) {
      assert ProseOf(body + [raw]) == ProseOf(body);
    }
  }

  /** Prose that ends at a heading is what was collected before it. */
  lemma LedeEnds(body: seq<string>, raw: string)
    requires var t := TitleAt(body); t < |body| && InnerAt(body, 0) == t && InnerAt(body, t + 1) == |body|
    requires IsInner(raw)
    ensures LedeOf(body + [raw]) == LedeOf(body)
    ensures var t, more := TitleAt(body), body + [raw];
      TitleAt(more) == t < |more| && InnerAt(more, t + 1) < |more|
  {
    hide Kind, IsInner, Cleaned;
    var t := TitleAt(body);
    TitleAtMore(body, raw);
    InnerAtMore(body, raw, 0);
    InnerAtMore(body, raw, t + 1);
    assert ProseOf(body + [raw]) == ProseOf(body);
  }

  lemma ReadFirstTitle(body: seq<string>, raw: string, lede: string, section: Option<string>, ledeLines: seq<string>,
                       ledeDone: bool)
    requires ReadingLede(body, lede, section, ledeLines, false, ledeDone) && Kind(raw).TitleHeading?
    ensures ReadingLede(body + [raw], lede, section, ledeLines, true, ledeDone)
    ensures TitleOf(body + [raw]) == Kind(raw).title
  {
    hide Cleaned, Kind;
    var more := body + [raw];
    assert IsInner(raw);
    TitleAtMore(body, raw);
    InnerAtMore(body, raw, 0);
    assert InnerAt(more, |body| + 1) == |more|;
  }

  lemma ReadOtherTitle(body: seq<string>, raw: string, lede: string, section: Option<string>, ledeLines: seq<string>,
                       ledeDone: bool)
    requires ReadingLede(body, lede, section, ledeLines, true, ledeDone) && Kind(raw).TitleHeading?
    ensures ReadingLede(body + [raw], FlushLede(lede, ledeLines, true), section, [], true, true)
    ensures TitleOf(body + [raw]) == TitleOf(body)
  {
    hide Cleaned, Kind, FlushLede;
    FlushedLede(body, lede, section, ledeLines, true, ledeDone);
    assert IsInner(raw);
    TitleAtMore(body, raw);
    var t := TitleAt(body);
    if InnerAt(body, 0) == t && InnerAt(body, t + 1) == |body| {
      LedeEnds(body, raw);
    } else {
      LedeSettled(body, raw);
    }
  }

  lemma ReadSection(body: seq<string>, raw: string, lede: string, section: Option<string>, ledeLines: seq<string>,
                    seenTitle: bool, ledeDone: bool)
    requires ReadingLede(body, lede, section, ledeLines, seenTitle, ledeDone) && Kind(raw).SectionHeading?
    ensures ReadingLede(body + [raw], FlushLede(lede, ledeLines, seenTitle), Some(Kind(raw).name), [],
                        seenTitle, ledeDone)
    ensures TitleOf(body + [raw]) == TitleOf(body)
  {
    hide Cleaned, Kind, FlushLede;
    FlushedLede(body, lede, section, ledeLines, seenTitle, ledeDone);
    assert IsInner(raw);
    TitleAtMore(body, raw);
    InnerAtMore(body, raw, 0);
    var t := TitleAt(body);
    if !seenTitle {
    } else if InnerAt(body, 0) == t && InnerAt(body, t + 1) == |body| {
      LedeEnds(body, raw);
    } else {
      LedeSettled(body, raw);
    }
  }

  /** Plain text is collected while the prose is open. */
  lemma ReadPlain(body: seq<string>, raw: string, lede: string, section: Option<string>, ledeLines: seq<string>,
                  seenTitle: bool, ledeDone: bool)
    requires ReadingLede(body, lede, section, ledeLines, seenTitle, ledeDone) && Kind(raw).Plain?
    ensures var collect := section.None? && seenTitle && !ledeDone;
      ReadingLede(body + [raw], lede, section, if collect then ledeLines + [raw] else ledeLines, seenTitle, ledeDone)
    ensures TitleOf(body + [raw]) == TitleOf(body)
  {
    hide Cleaned, Kind;
    assert !IsInner(raw);
    TitleAtMore(body, raw);
    InnerAtMore(body, raw, 0);
    var t, more := TitleAt(body), body + [raw];
    if seenTitle {
      InnerAtMore(body, raw, t + 1);
      if InnerAt(body, 0) == t && InnerAt(body, t + 1) == |body| {
        assert more[t + 1..] == body[t + 1..] + [raw];
      } else {
        LedeSettled(body, raw);
      }
    }
  }

  /** The reader's variables after `body` of the release under `header`. */
  ghost predicate Reading(header: string, body: seq<string>, r: Release, section: Option<string>,
                          ledeLines: seq<string>,
                          seenTitle: bool, ledeDone: bool) {
    && IsHeader(header) && r.version == Kind(header).version && r.date == Kind(header).date
    && r.title == TitleOf(body) && Filing(section, r.sections) == Filed(body)
    && ReadingLede(body, r.lede, section, ledeLines, seenTitle, ledeDone)
  }

  lemma ReadHeader(header: string)
    requires IsHeader(header)
    ensures Reading(header, [], Release(Kind(header).version, Kind(header).date, "", "", []), None, [], false, false)
  {
    hide Kind;
    assert Filed([]) == Filing(None, []);
  }

  lemma FiledMore(body: seq<string>, raw: string)
    ensures Filed(body + [raw]) == FileLine(Filed(body), raw)
  {
    hide FileLine;
    assert (body + [raw])[..|body|] == body;
  }

  lemma ReadTitleLine(header: string, body: seq<string>, raw: string, r: Release, section: Option<string>,
                      ledeLines: seq<string>, seenTitle: bool, ledeDone: bool)
    requires Reading(header, body, r, section, ledeLines, seenTitle, ledeDone) && Kind(raw).TitleHeading?
    ensures !seenTitle ==>
      Reading(header, body + [raw], r.(title := Kind(raw).title), section, ledeLines, true, ledeDone)
    ensures seenTitle ==>
      Reading(header, body + [raw], r.(lede := FlushLede(r.lede, ledeLines, seenTitle)), section, [], true, true)
  {
    hide Kind, Filed, ReadingLede, TitleOf, FlushLede, IsHeader;
    FiledMore(body, raw);
    if seenTitle {
      ReadOtherTitle(body, raw, r.lede, section, ledeLines, ledeDone);
    } else {
      ReadFirstTitle(body, raw, r.lede, section, ledeLines, ledeDone);
    }
  }

  lemma ReadSectionLine(header: string, body: seq<string>, raw: string, r: Release, section: Option<string>,
                        ledeLines: seq<string>, seenTitle: bool, ledeDone: bool)
    requires Reading(header, body, r, section, ledeLines, seenTitle, ledeDone) && Kind(raw).SectionHeading?
    ensures Reading(header, body + [raw],
              r.(lede := FlushLede(r.lede, ledeLines, seenTitle), sections := Opened(r.sections, Kind(raw).name)),
              Some(Kind(raw).name), [], seenTitle, ledeDone)
  {
    hide Kind, Filed, ReadingLede, TitleOf, FlushLede, IsHeader, Opened;
    FiledMore(body, raw);
    ReadSection(body, raw, r.lede, section, ledeLines, seenTitle, ledeDone);
  }

  lemma ReadPlainLine(header: string, body: seq<string>, raw: string, r: Release, section: Option<string>,
                      ledeLines: seq<string>, seenTitle: bool, ledeDone: bool)
    requires Reading(header, body, r, section, ledeLines, seenTitle, ledeDone) && Kind(raw).Plain?
    ensures section.Some? ==>
      Reading(header, body + [raw], r.(sections := AddedTo(r.sections, section.value, RStrip(raw))), section, ledeLines,
              seenTitle, ledeDone)
    ensures section.None? ==>
      Reading(header, body + [raw], r, section, if seenTitle && !ledeDone then ledeLines + [raw] else ledeLines,
              seenTitle, ledeDone)
  {
    hide Kind, Filed, ReadingLede, TitleOf, IsHeader, AddedTo, RStrip;
    FiledMore(body, raw);
    ReadPlain(body, raw, r.lede, section, ledeLines, seenTitle, ledeDone);
  }

  lemma ReleaseRead(header: string, body: seq<string>, r: Release, section: Option<string>,
                    ledeLines: seq<string>, seenTitle: bool, ledeDone: bool)
    requires Reading(header, body, r, section, ledeLines, seenTitle, ledeDone)
    ensures IsHeader(header) && r.(lede := FlushLede(r.lede, ledeLines, seenTitle)) == ReleaseOf(header, body)
  {
    hide Kind, Filed, ReadingLede, TitleOf, FlushLede, LedeOf;
    FlushedLede(body, r.lede, section, ledeLines, seenTitle, ledeDone);
  }

  /** Before line `i`, with the current release's body from line `k`. */
  ghost predicate ReadUpTo(lines: seq<string>, i: nat, k: nat, releases: seq<Release>, section: Option<string>,
                           ledeLines: seq<string>, seenTitle: bool, ledeDone: bool) {
    && k <= i <= |lines| && NoHeader(lines[k..i])
    && (if k == 0 then releases == [] && section.None? && ledeLines == [] && !seenTitle && !ledeDone
        else
          && releases != [] && releases[..|releases| - 1] == Releases(lines[..k - 1])
          && Reading(lines[k - 1], lines[k..i], releases[|releases| - 1], section, ledeLines, seenTitle, ledeDone))
  }

  /** `_flush_lede(current, ...)`; the current release is the last one. */
  function Flushed(releases: seq<Release>, ledeLines: seq<string>, seenTitle: bool): seq<Release> {
    if releases == [] then []
    else
      var r := releases[|releases| - 1];
      releases[|releases| - 1 := r.(lede := FlushLede(r.lede, ledeLines, seenTitle))]
  }

  lemma ReadToHeader(lines: seq<string>, i: nat, k: nat, releases: seq<Release>, section: Option<string>,
                     ledeLines: seq<string>, seenTitle: bool, ledeDone: bool)
    requires ReadUpTo(lines, i, k, releases, section, ledeLines, seenTitle, ledeDone)
    ensures Flushed(releases, ledeLines, seenTitle) == Releases(lines[..i])
  {
    hide Reading, Releases, FlushLede, IsHeader, ReleaseOf;
    if k == 0 {
      assert lines[0..i] == lines[..i];
      NoReleases(lines[..i]);
    } else {
      var l := |releases| - 1;
      ReleaseRead(lines[k - 1], lines[k..i], releases[l], section, ledeLines, seenTitle, ledeDone);
      OneRelease(lines[k - 1], lines[k..i]);
      ReleasesCut(lines[..k - 1], [lines[k - 1]] + lines[k..i]);
      assert lines[..i] == lines[..k - 1] + ([lines[k - 1]] + lines[k..i]);
    }
  }

  lemma ReadOn(lines: seq<string>, i: nat, k: nat)
    requires k <= i < |lines| && NoHeader(lines[k..i]) && !IsHeader(lines[i])
    ensures NoHeader(lines[k..i + 1]) && lines[k..i + 1] == lines[k..i] + [lines[i]]
  {
    hide IsHeader;
    var more := lines[k..i + 1];
    assert more == lines[k..i] + [lines[i]];
    forall j | 0 <= j < |more|
      ensures !IsHeader(more[j])
    {
      assert j < i - k ==> more[j] == lines[k..i][j];
    }
  }

  /** The line loop reads exactly the releases of the block-wise reading. */
  method ParseText(text: string) returns (releases: seq<Release>)
    ensures releases == Releases(Lines(text))
  {
    hide Kind, Lines, Releases, Reading, NoHeader, FlushLede, Opened, AddedTo, RStrip;
    var lines := Lines(text);
    releases := [];
    var section: Option<string> := None;
    var ledeLines: seq<string> := [];
    var seenTitle, ledeDone := false, false;
    ghost var k := 0;
    NoHeaderInNone();
    assert lines[0..0] == [];
    for i := 0 to |lines|
      invariant ReadUpTo(lines, i, k, releases, section, ledeLines, seenTitle, ledeDone)
    {
      var raw := lines[i];
      var line, kind := RStrip(raw), Kind(raw);
      if kind.ReleaseHeading? {
        ReadToHeader(lines, i, k, releases, section, ledeLines, seenTitle, ledeDone);
        releases := Flushed(releases, ledeLines, seenTitle);
        section, ledeLines, seenTitle, ledeDone := None, [], false, false;
        releases := releases + [Release(kind.version, kind.date, "", "", [])];
        ReadHeader(raw);
        NoHeaderInNone();
        k := i + 1;
        assert lines[k..k] == [] && releases[..|releases| - 1] == Releases(lines[..k - 1]);
        continue;
      }
      ReadOn(lines, i, k);
      if releases == [] {
        continue;
      }
      var l := |releases| - 1;
      var current := releases[l];
      if kind.TitleHeading? {
        ReadTitleLine(lines[k - 1], lines[k..i], raw, current, section, ledeLines, seenTitle, ledeDone);
        if !seenTitle {
          releases := releases[l := current.(title := kind.title)];
          seenTitle := true;
        } else {
          releases := Flushed(releases, ledeLines, seenTitle);
          ledeLines := [];
          ledeDone := true;
        }
      } else if kind.SectionHeading? {
        ReadSectionLine(lines[k - 1], lines[k..i], raw, current, section, ledeLines, seenTitle, ledeDone);
        releases := Flushed(releases, ledeLines, seenTitle);
        ledeLines := [];
        section := Some(kind.name);
        current := releases[l];
        releases := releases[l := current.(sections := Opened(current.sections, kind.name))];
      } else {
        ReadPlainLine(lines[k - 1], lines[k..i], raw, current, section, ledeLines, seenTitle, ledeDone);
        if section.Some? {
          releases := releases[l := current.(sections := AddedTo(current.sections, section.value, line))];
        } else if seenTitle && !ledeDone {
          ledeLines := ledeLines + [raw];
        }
      }
    }
    ReadToHeader(lines, |lines|, k, releases, section, ledeLines, seenTitle, ledeDone);
    assert lines[..|lines|] == lines;
    releases := Flushed(releases, ledeLines, seenTitle);
  }

  lemma NoHeaderInNone()
    ensures NoHeader([])
  {}

  /** Cutting the text itself, between two lines, before a release heading. */
  lemma ParseCut(a: string, b: string)
    requires Whole(a, b) && (b == [] || IsHeader(Lines(b)[0]))
    ensures Releases(Lines(a + b)) == Releases(Lines(a)) + Releases(Lines(b))
  {
    hide IsHeader, Releases, Whole;
    LinesSplit(a, b);
    ReleasesCut(Lines(a), Lines(b));
  }

  // --- the lede is clean --------------------------------------------------

  ghost predicate BlankRun(s: string, i: nat) { i + 2 < |s| && s[i] == '\n' && s[i + 1] == '\n' && s[i + 2] == '\n' }

  lemma {:induction false} CollapseShort(s: string, n: nat)
    requires n <= 2
    ensures forall i :: !BlankRun(Collapse(s, n), i)
    ensures n >= 1 ==> !("\n\n" <= Collapse(s, n))
    ensures n == 2 ==> !("\n" <= Collapse(s, n))
  {
    if s != [] {
      var m := if s[0] != '\n' then 0 else if n < 2 then n + 1 else n;
      CollapseShort(s[1..], m);
      var c, r := Collapse(s[1..], m), Collapse(s, n);
      if s[0] != '\n' || n < 2 {
        assert r == s[..1] + c && r[0] == s[0];
        forall i: nat | BlankRun(r, i)
          ensures false
        {
          if i > 0 {
            assert BlankRun(c, i - 1);
          }
        }
        if "\n\n" <= r {
          assert r[1] == "\n\n"[1] == '\n' && c[0] == r[1];
          assert c[..1] == "\n";
        }
      }
    }
  }

  /** No lede holds two blank lines in a row. */
  lemma LedeHasNoBlankRun(body: seq<string>)
    ensures forall i :: !BlankRun(LedeOf(body), i)
  {
    hide Strip, Collapse, HasProse, ProseOf;
    if HasProse(body) {
      CollapseShort(Strip(Join("\n", ProseOf(body))), 0);
    }
  }
}
