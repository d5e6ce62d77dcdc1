/**
 * The slide view and the PowerPoint export of `components/ExamDisplay.tsx`:
 * the theme tag the generator puts in front of a deck, the cut of the deck
 * into slides at `---`, the title and body of each slide, the bold runs of a
 * line and the descriptors handed to the export library.
 */
module Slides {
  import opened Wrappers
  import opened Text
  import opened Palette

  const DefaultTheme: string := "Xanh Dương"
  const ThemeOpen: string := "[THEME:"
  const SlideDelimiter: string := "---"
  const TitleMarker: string := "### "
  const SlideNumberMarker: string := "### Slide "
  const BoldMarker: string := "**"
  const DefaultTitle: string := "BÀI GIẢNG"
  const Footer: string := "HỆ SINH THÁI GIÁO DỤC SỐ - EDUGEN VN"

  // ------------------------------------------------------------ theme tag

  /** Where `/\[THEME:\s*([^\]]+)\]/` matches at `i`: the opener is at `i` and
      the first `]` after it leaves at least one character in between (the
      `\s*` gives back a blank if that is all there is). The result is the
      index of that `]`. */
  function ThemeTagAt(s: string, i: nat): (r: Option<nat>)
    ensures r.Some? ==> OccursAt(s, ThemeOpen, i) && i + |ThemeOpen| < r.value < |s| && s[r.value] == ']'
    ensures r.Some? ==> forall j :: i + |ThemeOpen| <= j < r.value ==> s[j] != ']'
    ensures (OccursAt(s, ThemeOpen, i) && i + |ThemeOpen| < |s| && s[i + |ThemeOpen|] != ']'
             && exists j :: i + |ThemeOpen| < j < |s| && s[j] == ']') ==> r.Some?
  {
    if !OccursAt(s, ThemeOpen, i) then None
    else match FindChar(s, ']', i + |ThemeOpen|)
      case Some(k) => if k > i + |ThemeOpen| then Some(k) else None
      case None => None
  }

  /** The theme and the slide text the view keeps for a piece of content. */
  datatype SlideSource = SlideSource(theme: string, slidesContent: string)

  /** What removing the first tag (and the blanks after it) leaves: the text
      before the tag, then the text after it from its first non-blank on. */
  predicate TagRemoved(s: string, i: nat, k: nat, rest: string)
    requires i <= k < |s|
  {
    && |rest| >= i
    && rest[..i] == s[..i]
    && |rest| - i <= |s| - (k + 1)
    && rest[i..] == s[|s| - (|rest| - i)..]
    && AllSpace(s[k + 1..|s| - (|rest| - i)])
    && (|rest| > i ==> !IsSpace(rest[i]))
  }

  /** The effect run when the content changes: in presentation mode the theme
      is the trimmed text of the first tag (`'Xanh Dương'` without one) and the
      tag is cut out; otherwise the content is kept and the theme stays. */
  function ApplyContent(content: string, isPresentation: bool, previousTheme: string): (r: SlideSource)
    ensures !isPresentation ==> r == SlideSource(previousTheme, content)
    ensures isPresentation && NoMatch(ThemeTagAt, content) ==> r == SlideSource(DefaultTheme, content)
    ensures isPresentation ==> forall i: nat :: FirstMatchAt(ThemeTagAt, content, i) ==>
              var k := ThemeTagAt(content, i).value;
              r.theme == Trim(content[i + |ThemeOpen|..k]) && TagRemoved(content, i, k, r.slidesContent)
  {
    FirstMatchFound(ThemeTagAt, content);
    if !isPresentation then SlideSource(previousTheme, content)
    else match FirstMatch(ThemeTagAt, content, 0)
      case None => SlideSource(DefaultTheme, content)
      case Some((i, k)) =>
        TagRemovedByTrimStart(content, i, k);
        SlideSource(Trim(content[i + |ThemeOpen|..k]), content[..i] + TrimStart(content[k + 1..]))
  }

  /** Cutting out the tag and the blanks that follow it does what `TagRemoved` describes. */
  lemma TagRemovedByTrimStart(s: string, i: nat, k: nat)
    requires i <= k < |s|
    ensures TagRemoved(s, i, k, s[..i] + TrimStart(s[k + 1..]))
  {
    var t := s[k + 1..];
    var after := TrimStart(t);
    assert after == s[|s| - |after|..] by {
      assert t[|t| - |after|..] == s[|s| - |after|..];
    }
    assert AllSpace(s[k + 1..|s| - |after|]) by {
      assert t[..|t| - |after|] == s[k + 1..|s| - |after|];
    }
    var rest := s[..i] + after;
    assert rest[..i] == s[..i] && rest[i..] == after;
  }

  /** Content without the tag opener is shown as it is, in the default theme. */
  lemma UntaggedContentUnchanged(content: string, previousTheme: string)
    requires forall j :: !OccursAt(content, ThemeOpen, j)
    ensures ApplyContent(content, true, previousTheme) == SlideSource(DefaultTheme, content)
  {
  }

  /** A tag at the very start names the theme and leaves the text after it. */
  lemma LeadingTagSetsTheme(name: string, body: string, previousTheme: string)
    requires |name| > 0 && ']' !in name
    ensures ApplyContent(ThemeOpen + name + "]" + body, true, previousTheme) == SlideSource(Trim(name), TrimStart(body))
  {
    var s := ThemeOpen + name + "]" + body;
    var k := |ThemeOpen| + |name|;
    assert s[..|ThemeOpen|] == ThemeOpen;
    assert forall j :: |ThemeOpen| <= j < k ==> s[j] == name[j - |ThemeOpen|];
    assert s[k] == ']';
    assert ThemeTagAt(s, 0) == Some(k);
    assert FirstMatchAt(ThemeTagAt, s, 0);
    assert s[|ThemeOpen|..k] == name;
    assert s[k + 1..] == body;
    assert s[..0] + TrimStart(body) == TrimStart(body);
  }

  // ------------------------------------------------------------- segments

  /** `s.trim().length > 5`, the length counted in UTF-16 code units. */
  predicate KeepSegment(p: string) {
    Utf16Len(Trim(p)) > 5
  }

  /** `slidesContent.split(/---/).filter(...)`, and no slides outside presentation mode. */
  function SlideSegments(slidesContent: string, isPresentation: bool): (r: seq<string>)
    ensures !isPresentation ==> r == []
    ensures forall i :: 0 <= i < |r| ==> KeepSegment(r[i]) && r[i] in Split(slidesContent, SlideDelimiter)
    ensures isPresentation ==> forall p :: p in Split(slidesContent, SlideDelimiter) && KeepSegment(p) ==> p in r
  {
    if !isPresentation then [] else Filter(KeepSegment, Split(slidesContent, SlideDelimiter))
  }

  /** Slides come out in the order of the text: the piece before the first
      delimiter is the first slide if it is long enough. */
  lemma SegmentsInOrder(a: string, b: string)
    requires InnerPiece(a, SlideDelimiter)
    ensures SlideSegments(a + SlideDelimiter + b, true)
         == (if KeepSegment(a) then [a] else []) + SlideSegments(b, true)
  {
    SplitCons(a, SlideDelimiter, b);
    FilterAppend(KeepSegment, [a], Split(b, SlideDelimiter));
  }

  /** Text without a delimiter is one slide, or none if it is too short. */
  lemma UndelimitedTextIsOneSlide(s: string)
    requires LastPiece(s, SlideDelimiter)
    ensures SlideSegments(s, true) == if KeepSegment(s) then [s] else []
  {
    SplitJoin([s], SlideDelimiter);
  }

  /** A run of four dashes cuts once, at the leftmost three. */
  lemma FourDashesCutOnce()
    ensures Split("----", SlideDelimiter) == ["", "-"]
  {
    assert Join(["", "-"], SlideDelimiter) == "----";
    SplitJoin(["", "-"], SlideDelimiter);
  }

  // ----------------------------------------------------------- slide text

  /** `cleanSlideText`: drop every `$`, then trim. */
  function CleanSlideText(text: string): (r: string)
    ensures '$' !in r
    ensures |r| > 0 ==> !IsSpace(r[0]) && !IsSpace(r[|r| - 1])
    ensures forall x :: x in r ==> x in text
    ensures var d := RemoveChar(text, '$'); var a := LeadingSpace(d);
            && a + |r| <= |d| && r == d[a..a + |r|]
            && AllSpace(d[..a]) && AllSpace(d[a + |r|..])
  {
    if text == "" then ""
    else
      var d := RemoveChar(text, '$');
      TrimKeepsCharacters(d);
      Trim(d)
  }

  /** Cleaning a cleaned text changes nothing. */
  lemma CleanSlideTextIdempotent(text: string)
    ensures CleanSlideText(CleanSlideText(text)) == CleanSlideText(text)
  {
    var r := CleanSlideText(text);
    if r != "" {
      RemoveCharAbsent(r, '$');
      TrimOfTrimmed(r);
    }
  }

  /** The end of the run of ASCII digits starting at `j`. */
  function DigitRunEnd(s: string, j: nat): (e: nat)
    requires j <= |s|
    ensures j <= e <= |s|
    ensures forall x :: j <= x < e ==> IsDigit(s[x])
    ensures e < |s| ==> !IsDigit(s[e])
    decreases |s| - j
  {
    if j < |s| && IsDigit(s[j]) then DigitRunEnd(s, j + 1) else j
  }

  /** A run of digits followed by a non-digit ends where the digits end. */
  lemma {:induction false} DigitRunEndAt(s: string, j: nat, e: nat)
    requires j <= e <= |s|
    requires forall x :: j <= x < e ==> IsDigit(s[x])
    requires e < |s| ==> !IsDigit(s[e])
    ensures DigitRunEnd(s, j) == e
    decreases e - j
  {
    if j < e {
      DigitRunEndAt(s, j + 1, e);
    }
  }

  /** Where `/### Slide \d+:/` matches at `i`: the end of the match. */
  function SlideNumberAt(s: string, i: nat): (r: Option<nat>)
    ensures r.Some? ==> OccursAt(s, SlideNumberMarker, i) && i + |SlideNumberMarker| + 2 <= r.value <= |s|
    ensures r.Some? ==> s[r.value - 1] == ':' && forall x :: i + |SlideNumberMarker| <= x < r.value - 1 ==> IsDigit(s[x])
    ensures (OccursAt(s, SlideNumberMarker, i)
             && (exists e :: i + |SlideNumberMarker| < e < |s| && s[e] == ':'
                  && forall x :: i + |SlideNumberMarker| <= x < e ==> IsDigit(s[x]))) ==> r.Some?
  {
    if !OccursAt(s, SlideNumberMarker, i) then None
    else
      var start := i + |SlideNumberMarker|;
      var e := DigitRunEnd(s, start);
      if start < e < |s| && s[e] == ':' then Some(e + 1) else None
  }

  /** `line.replace(/### Slide \d+:/, '')`: the first match is cut out. */
  function StripSlideNumber(s: string): (r: string)
    ensures NoMatch(SlideNumberAt, s) ==> r == s
    ensures forall i: nat :: FirstMatchAt(SlideNumberAt, s, i) ==>
              r == s[..i] + s[SlideNumberAt(s, i).value..]
  {
    FirstMatchFound(SlideNumberAt, s);
    match FirstMatch(SlideNumberAt, s, 0)
    case None => s
    case Some((i, e)) => s[..i] + s[e..]
  }

  /** A numbered heading loses its number and keeps the text after the colon. */
  lemma StripNumberedHeading(n: nat, rest: string)
    ensures StripSlideNumber(SlideNumberMarker + NatToString(n) + ":" + rest) == rest
  {
    var d := NatToString(n);
    var s := SlideNumberMarker + d + ":" + rest;
    var start := |SlideNumberMarker|;
    var e := start + |d|;
    assert s[..start] == SlideNumberMarker;
    assert forall x :: start <= x < e ==> s[x] == d[x - start];
    assert s[e] == ':';
    DigitRunEndAt(s, start, e);
    assert SlideNumberAt(s, 0) == Some(e + 1);
    assert FirstMatchAt(SlideNumberAt, s, 0);
    assert s[e + 1..] == rest;
  }

  // ------------------------------------------------------- title and body

  /** A trimmed line that sets the slide title. */
  predicate IsTitleLine(line: string) {
    StartsWith(line, TitleMarker)
  }

  /** A trimmed line that goes into the body: non-empty and not a title. */
  predicate IsBodyLine(line: string) {
    line != "" && !IsTitleLine(line)
  }

  /** The title a heading line gives: without a slide number the heading is
      only cleaned, so it keeps its `### `. */
  function TitleText(line: string): (t: string)
    ensures '$' !in t && (|t| > 0 ==> !IsSpace(t[0]) && !IsSpace(t[|t| - 1]))
    ensures NoMatch(SlideNumberAt, line) ==> t == CleanSlideText(line)
  {
    CleanSlideText(StripSlideNumber(line))
  }

  /** A numbered heading is titled by the cleaned text after its colon. */
  lemma NumberedHeadingTitle(n: nat, rest: string)
    ensures TitleText(SlideNumberMarker + NatToString(n) + ":" + rest) == CleanSlideText(rest)
  {
    StripNumberedHeading(n, rest);
  }

  /** `slideRaw.trim().split('\n')`, each line trimmed. */
  function SlideLines(raw: string): (ls: seq<string>)
    ensures |ls| >= 1
    ensures forall j :: 0 <= j < |ls| ==> |ls[j]| == 0 || (!IsSpace(ls[j][0]) && !IsSpace(ls[j][|ls[j]| - 1]))
  {
    TrimEach(Split(Trim(raw), "\n"))
  }

  /** Lines read back from their join: trimmed lines without a line feed,
      the first and the last not empty, are the lines of the slide they make. */
  lemma SlideLinesOfJoin(ls: seq<string>)
    requires |ls| >= 1 && ls[0] != "" && ls[|ls| - 1] != ""
    requires forall j :: 0 <= j < |ls| ==> '\n' !in ls[j]
    requires forall j :: 0 <= j < |ls| ==> |ls[j]| == 0 || (!IsSpace(ls[j][0]) && !IsSpace(ls[j][|ls[j]| - 1]))
    ensures SlideLines(Join(ls, "\n")) == ls
  {
    var t := Join(ls, "\n");
    JoinEnds(ls, "\n");
    TrimOfTrimmed(t);
    CharFreePieces(ls, '\n');
    SplitJoin(ls, "\n");
    forall j | 0 <= j < |ls| ensures Trim(ls[j]) == ls[j] {
      TrimOfTrimmed(ls[j]);
    }
  }

  function TrimEach(ps: seq<string>): seq<string> {
    seq(|ps|, j requires 0 <= j < |ps| => Trim(ps[j]))
  }

  /** The last heading line, scanning from the end. */
  function LastHeading(lines: seq<string>): Option<string>
    decreases |lines|
  {
    if |lines| == 0 then None
    else if IsTitleLine(lines[|lines| - 1]) then Some(lines[|lines| - 1])
    else LastHeading(lines[..|lines| - 1])
  }

  /** The title of a slide: from its last heading, `BÀI GIẢNG` without one. */
  function SlideTitle(lines: seq<string>): string {
    match LastHeading(lines)
    case None => DefaultTitle
    case Some(line) => TitleText(line)
  }

  /** Line `j` is a heading and no heading follows it. */
  predicate LastHeadingAt(lines: seq<string>, j: nat) {
    j < |lines| && IsTitleLine(lines[j]) && forall l :: j < l < |lines| ==> !IsTitleLine(lines[l])
  }

  /** The heading the title comes from is the last one. */
  lemma {:induction false} LastHeadingIsTitle(lines: seq<string>, j: nat)
    requires LastHeadingAt(lines, j)
    ensures LastHeading(lines) == Some(lines[j])
    decreases |lines|
  {
    var last := |lines| - 1;
    var front := lines[..last];
    if j < last {
      assert !IsTitleLine(lines[last]);
      assert forall l :: j <= l < |front| ==> front[l] == lines[l];
      LastHeadingIsTitle(front, j);
    }
  }

  /** A slide without a heading line is titled `BÀI GIẢNG`. */
  lemma {:induction false} NoHeadingDefaultTitle(lines: seq<string>)
    requires forall l :: 0 <= l < |lines| ==> !IsTitleLine(lines[l])
    ensures LastHeading(lines) == None
    ensures SlideTitle(lines) == DefaultTitle
    decreases |lines|
  {
    if |lines| > 0 {
      var front := lines[..|lines| - 1];
      assert forall l :: 0 <= l < |front| ==> front[l] == lines[l];
      NoHeadingDefaultTitle(front);
    }
  }

  /** The body lines of a slide, in order. */
  function SlideBody(lines: seq<string>): (b: seq<string>)
    ensures forall j :: 0 <= j < |b| ==> IsBodyLine(b[j]) && b[j] in lines
    ensures forall j :: 0 <= j < |lines| && IsBodyLine(lines[j]) ==> lines[j] in b
  {
    Filter(IsBodyLine, lines)
  }

  /** One more line: a body line is appended to the body, anything else is not. */
  lemma SlideBodyStep(front: seq<string>, line: string)
    ensures SlideBody(front + [line]) == SlideBody(front) + (if IsBodyLine(line) then [line] else [])
  {
    FilterAppend(IsBodyLine, front, [line]);
    assert [line][1..] == [];
  }

  /** One more line: a heading replaces the title, anything else keeps it. */
  lemma SlideTitleStep(front: seq<string>, line: string)
    ensures SlideTitle(front + [line]) == if IsTitleLine(line) then TitleText(line) else SlideTitle(front)
  {
    var lines := front + [line];
    assert lines[..|lines| - 1] == front;
    assert LastHeading(lines) == if IsTitleLine(line) then Some(line) else LastHeading(front);
  }

  /** The source's `forEach` over the trimmed lines: the title it keeps
      overwriting and the body lines it pushes are the last heading and the
      other non-empty lines. */
  method ScanLines(lines: seq<string>) returns (title: string, body: seq<string>)
    ensures title == SlideTitle(lines)
    ensures body == SlideBody(lines)
  {
    title := DefaultTitle;
    body := [];
    var i := 0;
    while i < |lines|
      invariant 0 <= i <= |lines|
      invariant title == SlideTitle(lines[..i])
      invariant body == Filter(IsBodyLine, lines[..i])
    {
      var clean := lines[i];
      assert lines[..i + 1] == lines[..i] + [clean];
      SlideTitleStep(lines[..i], clean);
      FilterAppend(IsBodyLine, lines[..i], [clean]);
      if IsTitleLine(clean) {
        title := TitleText(clean);
      } else if clean != "" {
        body := body + [clean];
      }
      i := i + 1;
    }
    assert lines[..i] == lines;
  }

  // ------------------------------------------------------------- text runs

  /** One text object handed to the export library; a break line is the empty
      text with `breakLine` set. */
  datatype PptxText = Run(text: string, bold: bool, color: string, bullet: bool) | BreakLine

  /** The text the objects display, in order. */
  function RunsText(objs: seq<PptxText>): string {
    if |objs| == 0 then ""
    else (if objs[0].Run? then objs[0].text else "") + RunsText(objs[1..])
  }

  /** Runs with text, no bullet, and the highlight colour exactly on the bold ones. */
  predicate PlainRuns(rs: seq<PptxText>, plain: string, highlight: string) {
    forall k :: 0 <= k < |rs| ==>
      rs[k].Run? && rs[k].text != "" && !rs[k].bullet
      && rs[k].color == (if rs[k].bold then highlight else plain)
  }

  /** The run for piece number `n`: odd-numbered pieces are bold and highlighted. */
  function PieceRun(text: string, n: nat, plain: string, highlight: string): PptxText {
    Run(text, n % 2 == 1, if n % 2 == 1 then highlight else plain, false)
  }

  predicate HasText(o: PptxText) {
    o.Run? && o.text != ""
  }

  /** The pieces between `**` markers from piece number `index` on: a run for
      each non-empty piece, as the source's `forEach` pushes them. */
  function PieceRuns(parts: seq<string>, index: nat, plain: string, highlight: string): (r: seq<PptxText>)
    ensures |r| <= |parts|
    ensures PlainRuns(r, plain, highlight)
    ensures RunsText(r) == Concat(parts)
    decreases |parts|
  {
    if |parts| == 0 then []
    else
      var rest := PieceRuns(parts[1..], index + 1, plain, highlight);
      if parts[0] == "" then rest
      else
        var r := [PieceRun(parts[0], index, plain, highlight)] + rest;
        assert r[1..] == rest;
        r
  }

  /** The reference reading: number every piece, then keep those with text. */
  function TaggedPieces(parts: seq<string>, index: nat, plain: string, highlight: string): (t: seq<PptxText>)
    ensures |t| == |parts|
    ensures forall j :: 0 <= j < |parts| ==> t[j] == PieceRun(parts[j], index + j, plain, highlight)
  {
    seq(|parts|, j requires 0 <= j < |parts| => PieceRun(parts[j], index + j, plain, highlight))
  }

  /** The pushed runs are exactly the numbered pieces that have text. */
  lemma {:induction false} PieceRunsAreTaggedPieces(parts: seq<string>, index: nat, plain: string, highlight: string)
    ensures PieceRuns(parts, index, plain, highlight) == Filter(HasText, TaggedPieces(parts, index, plain, highlight))
    decreases |parts|
  {
    if |parts| > 0 {
      var t := TaggedPieces(parts, index, plain, highlight);
      var tail := TaggedPieces(parts[1..], index + 1, plain, highlight);
      forall j | 0 <= j < |tail| ensures t[1..][j] == tail[j] {
        assert index + (j + 1) == (index + 1) + j;
        assert parts[1..][j] == parts[j + 1];
      }
      assert t[1..] == tail;
      PieceRunsAreTaggedPieces(parts[1..], index + 1, plain, highlight);
    }
  }

  /** `parseTextForPptx`: the cleaned line cut at `**`, one run per non-empty
      piece, bold and highlighted exactly on the odd-numbered pieces. */
  function ParseTextForPptx(line: string, plain: string, highlight: string): (r: seq<PptxText>)
    ensures PlainRuns(r, plain, highlight)
    ensures RunsText(r) == Concat(Split(CleanSlideText(line), BoldMarker))
  {
    PieceRuns(Split(CleanSlideText(line), BoldMarker), 0, plain, highlight)
  }

  /** The runs of a line are its numbered `**` pieces that have text. */
  lemma ParsedRunsAreTaggedPieces(line: string, plain: string, highlight: string)
    ensures ParseTextForPptx(line, plain, highlight)
         == Filter(HasText, TaggedPieces(Split(CleanSlideText(line), BoldMarker), 0, plain, highlight))
  {
    PieceRunsAreTaggedPieces(Split(CleanSlideText(line), BoldMarker), 0, plain, highlight);
  }

  // ------------------------------------------------------- body and deck

  /** Runs with the first marked as a bullet. */
  function Bulleted(rs: seq<PptxText>): (g: seq<PptxText>)
    requires forall k :: 0 <= k < |rs| ==> rs[k].Run?
    ensures |g| == |rs| && forall k :: 0 <= k < |g| ==> g[k] == rs[k].(bullet := k == 0 || rs[k].bullet)
  {
    if |rs| == 0 then [] else [rs[0].(bullet := true)] + rs[1..]
  }

  /** The runs of one body line, the first marked as a bullet. */
  function LineRuns(line: string, pal: PptxPalette): (rs: seq<PptxText>)
    ensures forall k :: 0 <= k < |rs| ==>
              && rs[k].Run? && rs[k].text != "" && (rs[k].bullet <==> k == 0)
              && rs[k].color == (if rs[k].bold then pal.highlight else pal.text)
    ensures RunsText(rs) == Concat(Split(CleanSlideText(line), BoldMarker))
  {
    var plain := ParseTextForPptx(line, pal.text, pal.highlight);
    RunsTextOfSameTexts(Bulleted(plain), plain);
    Bulleted(plain)
  }

  /** Run options do not change the text a sequence of runs spells. */
  lemma {:induction false} RunsTextOfSameTexts(a: seq<PptxText>, b: seq<PptxText>)
    requires |a| == |b| && forall k :: 0 <= k < |a| ==> a[k].Run? && b[k].Run? && a[k].text == b[k].text
    ensures RunsText(a) == RunsText(b)
    decreases |a|
  {
    if |a| > 0 {
      RunsTextOfSameTexts(a[1..], b[1..]);
    }
  }

  /** The runs of each body line. */
  function LineGroups(lines: seq<string>, pal: PptxPalette): (gs: seq<seq<PptxText>>)
    ensures |gs| == |lines| && forall j :: 0 <= j < |lines| ==> gs[j] == LineRuns(lines[j], pal)
  {
    seq(|lines|, j requires 0 <= j < |lines| => LineRuns(lines[j], pal))
  }

  /** The source's `flatMap`: each line with runs, followed by a break line. */
  function FlatBody(gs: seq<seq<PptxText>>): (f: seq<PptxText>)
    ensures f == [] <==> forall j :: 0 <= j < |gs| ==> gs[j] == []
    ensures f != [] ==> f[|f| - 1] == BreakLine
  {
    if |gs| == 0 then []
    else
      var rest := FlatBody(gs[1..]);
      assert forall j :: 1 <= j < |gs| ==> gs[j] == gs[1..][j - 1];
      (if |gs[0]| > 0 then gs[0] + [BreakLine] else []) + rest
  }

  /** The trailing break line is popped, and only that one. */
  function PopBreak(objs: seq<PptxText>): (r: seq<PptxText>)
    ensures objs == r || objs == r + [BreakLine]
    ensures objs == r <==> objs == [] || !objs[|objs| - 1].BreakLine?
  {
    if |objs| > 0 && objs[|objs| - 1].BreakLine? then objs[..|objs| - 1] else objs
  }

  /** The body handed to the export library: what the `flatMap` produced
      without its final break line, which is always there. */
  function BodyObjects(gs: seq<seq<PptxText>>): (b: seq<PptxText>)
    ensures FlatBody(gs) == (if b == [] && FlatBody(gs) == [] then [] else b + [BreakLine])
  {
    PopBreak(FlatBody(gs))
  }

  predicate NotEmptyGroup(g: seq<PptxText>) {
    |g| > 0
  }

  /** The reference layout: the lines that have runs, one break line between each two. */
  function JoinGroups(gs: seq<seq<PptxText>>): seq<PptxText> {
    if |gs| == 0 then []
    else if |gs| == 1 then gs[0]
    else gs[0] + [BreakLine] + JoinGroups(gs[1..])
  }

  /** The `flatMap` leaves one break line after every line that has runs. */
  lemma {:induction false} FlatBodyTerminated(gs: seq<seq<PptxText>>)
    ensures var kept := Filter(NotEmptyGroup, gs);
            FlatBody(gs) == if |kept| == 0 then [] else JoinGroups(kept) + [BreakLine]
  {
    if |gs| > 0 {
      FlatBodyTerminated(gs[1..]);
      var kept' := Filter(NotEmptyGroup, gs[1..]);
      if |gs[0]| > 0 && |kept'| > 0 {
        var kept := [gs[0]] + kept';
        assert kept[1..] == kept';
        assert JoinGroups(kept) == gs[0] + [BreakLine] + JoinGroups(kept');
      }
    }
  }

  /** Popping the last break line leaves the lines with runs joined by single
      break lines: no empty line, no trailing break. */
  lemma BodyObjectsJoinGroups(gs: seq<seq<PptxText>>)
    ensures BodyObjects(gs) == JoinGroups(Filter(NotEmptyGroup, gs))
  {
    FlatBodyTerminated(gs);
    var kept := Filter(NotEmptyGroup, gs);
    if |kept| > 0 {
      var flat := JoinGroups(kept) + [BreakLine];
      assert flat[..|flat| - 1] == JoinGroups(kept);
    }
  }

  /** Joined groups of runs end with a run, never with a break line. */
  lemma {:induction false} JoinGroupsEndsWithRun(gs: seq<seq<PptxText>>)
    requires forall j :: 0 <= j < |gs| ==> NotEmptyGroup(gs[j]) && forall k :: 0 <= k < |gs[j]| ==> gs[j][k].Run?
    ensures var b := JoinGroups(gs); |b| == 0 || b[|b| - 1].Run?
  {
    if |gs| > 1 {
      assert forall j :: 0 <= j < |gs| - 1 ==> gs[1..][j] == gs[j + 1];
      JoinGroupsEndsWithRun(gs[1..]);
    }
  }

  /** What one slide hands to the export library. */
  datatype SlideDescriptor = SlideDescriptor(background: string, title: seq<PptxText>, body: seq<PptxText>, footer: string)

  /** One exported slide: background and footer fixed by the palette, the title
      in the title colour, the body ending in a run rather than a break line. */
  function BuildSlide(raw: string, pal: PptxPalette): (d: SlideDescriptor)
    ensures d.background == pal.slideBg && d.footer == Footer
    ensures PlainRuns(d.title, pal.title, pal.highlight)
    ensures |d.body| == 0 || d.body[|d.body| - 1].Run?
  {
    var lines := SlideLines(raw);
    var groups := LineGroups(SlideBody(lines), pal);
    SlideBodyLayout(groups);
    SlideDescriptor(pal.slideBg, ParseTextForPptx(SlideTitle(lines), pal.title, pal.highlight), BodyObjects(groups), Footer)
  }

  /** The body of a slide is its lines with runs, separated by single break lines. */
  lemma SlideBodyLayout(groups: seq<seq<PptxText>>)
    requires forall j :: 0 <= j < |groups| ==> forall k :: 0 <= k < |groups[j]| ==> groups[j][k].Run?
    ensures BodyObjects(groups) == JoinGroups(Filter(NotEmptyGroup, groups))
    ensures var b := BodyObjects(groups); |b| == 0 || b[|b| - 1].Run?
  {
    var kept := Filter(NotEmptyGroup, groups);
    BodyObjectsJoinGroups(groups);
    assert forall j :: 0 <= j < |kept| ==> kept[j] in groups;
    JoinGroupsEndsWithRun(kept);
  }

  /** Where the title and the body of an exported slide come from. */
  lemma BuildSlideParts(raw: string, pal: PptxPalette)
    ensures var lines := SlideLines(raw);
            && BuildSlide(raw, pal).title == ParseTextForPptx(SlideTitle(lines), pal.title, pal.highlight)
            && BuildSlide(raw, pal).body == JoinGroups(Filter(NotEmptyGroup, LineGroups(SlideBody(lines), pal)))
  {
    var lines := SlideLines(raw);
    SlideBodyLayout(LineGroups(SlideBody(lines), pal));
  }

  /** One slide per segment, in order, all in one palette. */
  function BuildDeck(segments: seq<string>, pal: PptxPalette): (deck: seq<SlideDescriptor>)
    ensures |deck| == |segments|
    ensures forall i :: 0 <= i < |deck| ==> deck[i] == BuildSlide(segments[i], pal)
  {
    seq(|segments|, i requires 0 <= i < |segments| => BuildSlide(segments[i], pal))
  }

  /** `handleDownloadPptx`: the slides of the current content, in the palette
      of the theme it named (the default palette for a name it does not know). */
  function ExportDeck(content: string, isPresentation: bool, previousTheme: string): (deck: seq<SlideDescriptor>)
    ensures !isPresentation ==> deck == []
  {
    var src := ApplyContent(content, isPresentation, previousTheme);
    BuildDeck(SlideSegments(src.slidesContent, isPresentation), PptxPaletteFor(src.theme))
  }

  /** A theme name outside the four known ones gives every slide the default
      background, whatever the name. */
  lemma UnknownThemeUsesDefaultBackground(content: string, previousTheme: string)
    requires ApplyContent(content, true, previousTheme).theme !in KnownThemes
    ensures forall d :: d in ExportDeck(content, true, previousTheme) ==> d.background == PptxThemes[DefaultKey].slideBg
  {
  }

  /** A deck that opens with a tag is exported in the palette the tag names,
      one slide per long enough segment of the text after it. */
  lemma TaggedDeck(name: string, body: string, previousTheme: string)
    requires |name| > 0 && ']' !in name
    ensures var deck := ExportDeck(ThemeOpen + name + "]" + body, true, previousTheme);
            var segments := SlideSegments(TrimStart(body), true);
            && |deck| == |segments|
            && forall i :: 0 <= i < |deck| ==> deck[i] == BuildSlide(segments[i], PptxPaletteFor(Trim(name)))
  {
    LeadingTagSetsTheme(name, body, previousTheme);
  }
}
