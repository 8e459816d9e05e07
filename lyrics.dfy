/**
 * Lyrics to slides (src/lib/lyrics.ts): the text is read line by line;
 * blank lines and `[Label]` lines end a slide, a label line names the
 * slides after it, and a `[x3]`-style line at the end of a slide becomes the
 * slide's modifier.
 */
module Lyrics {
  import opened Wrappers
  import opened Text

  /** A slide as read from the lyrics; `section` is the source's `label` field (`label` is a reserved word in Dafny). */
  datatype SlideDraft = SlideDraft(text: string, section: Option<string>, modifier: Option<string>)

  // ---------------------------------------------------------------- lines

  /** A `\r` the split consumes together with the line break after it. */
  function DropCarriageReturn(s: string): (r: string)
    ensures '\n' !in s ==> '\n' !in r
  {
    if |s| > 0 && s[|s| - 1] == '\r' then s[..|s| - 1] else s
  }

  /**
   * `s` with every `\r\n` read as one `\n`, scanning from the left as the
   * split does; other `\r`s stay.
   */
  function UnifyBreaks(s: string): string
    decreases |s|
  {
    if |s| >= 2 && s[0] == '\r' && s[1] == '\n' then "\n" + UnifyBreaks(s[2..])
    else if s == [] then ""
    else [s[0]] + UnifyBreaks(s[1..])
  }

  lemma {:induction false} UnifyNoBreak(q: string)
    requires '\n' !in q
    ensures UnifyBreaks(q) == q
    decreases |q|
  {
    if q != [] {
      assert q[1..] == q[1..];
      assert '\n' !in q[1..] by { forall k | 0 <= k < |q[1..]| ensures q[1..][k] != '\n' { assert q[1..][k] == q[k + 1]; } }
      assert !(|q| >= 2 && q[1] == '\n') by { if |q| >= 2 { assert q[1] in q; } }
      UnifyNoBreak(q[1..]);
    }
  }

  /** A piece without line feeds that does not end in `\r` is kept as it is. */
  lemma {:induction false} UnifyPlain(p: string, y: string)
    requires '\n' !in p && (p == [] || p[|p| - 1] != '\r')
    ensures UnifyBreaks(p + y) == p + UnifyBreaks(y)
    decreases |p|
  {
    if p != [] {
      var s := p + y;
      assert s[0] == p[0] && p[0] in p;
      if |p| >= 2 {
        assert s[1] == p[1] && p[1] in p;
      }
      assert s[1..] == p[1..] + y;
      assert '\n' !in p[1..] by { forall k | 0 <= k < |p[1..]| ensures p[1..][k] != '\n' { assert p[1..][k] in p; } }
      assert p[1..] == [] || p[1..][|p[1..]| - 1] == p[|p| - 1];
      UnifyPlain(p[1..], y);
      assert UnifyBreaks(s) == [p[0]] + UnifyBreaks(s[1..]);
      assert [p[0]] + (p[1..] + UnifyBreaks(y)) == p + UnifyBreaks(y);
    } else {
      assert p + y == y;
    }
  }

  /** A piece without line feeds followed by `\r\n` keeps the piece and reads one `\n`. */
  lemma {:induction false} UnifyCrLf(q: string, x: string)
    requires '\n' !in q
    ensures UnifyBreaks(q + "\r\n" + x) == q + "\n" + UnifyBreaks(x)
    decreases |q|
  {
    var s := q + "\r\n" + x;
    if q == [] {
      assert s[2..] == x;
    } else {
      assert s[0] == q[0] && q[0] in q;
      if |q| >= 2 {
        assert s[1] == q[1] && q[1] in q;
      } else {
        assert s[1] == '\r';
      }
      assert s[1..] == q[1..] + "\r\n" + x;
      assert '\n' !in q[1..] by { forall k | 0 <= k < |q[1..]| ensures q[1..][k] != '\n' { assert q[1..][k] in q; } }
      UnifyCrLf(q[1..], x);
    }
  }

  /** One line break after a piece: a `\r` before it goes with the break. */
  lemma UnifyBreakAfter(p: string, x: string)
    requires '\n' !in p
    ensures UnifyBreaks(p + "\n" + x) == DropCarriageReturn(p) + "\n" + UnifyBreaks(x)
  {
    if |p| > 0 && p[|p| - 1] == '\r' {
      var q := p[..|p| - 1];
      assert p + "\n" + x == q + "\r\n" + x;
      assert '\n' !in q by { forall k | 0 <= k < |q| ensures q[k] != '\n' { assert q[k] in p; } }
      UnifyCrLf(q, x);
    } else {
      UnifyPlain(p, "\n" + x);
      assert p + "\n" + x == p + ("\n" + x);
      assert ("\n" + x)[1..] == x;
      assert UnifyBreaks("\n" + x) == "\n" + UnifyBreaks(x);
    }
  }

  /** The parts of the split on `\n`, each but the last without its trailing `\r`. */
  function LinesOf(parts: seq<string>): seq<string> {
    seq(|parts|, i requires 0 <= i < |parts| => if i < |parts| - 1 then DropCarriageReturn(parts[i]) else parts[i])
  }

  lemma {:induction false} JoinLines(parts: seq<string>)
    requires |parts| >= 1 && forall k | 0 <= k < |parts| :: '\n' !in parts[k]
    ensures Join(LinesOf(parts), "\n") == UnifyBreaks(Join(parts, "\n"))
    decreases |parts|
  {
    if |parts| == 1 {
      UnifyNoBreak(parts[0]);
    } else {
      var rest := parts[1..];
      assert LinesOf(parts)[1..] == LinesOf(rest);
      JoinLines(rest);
      UnifyBreakAfter(parts[0], Join(rest, "\n"));
    }
  }

  /**
   * Line 11: `split(/\r?\n/)`. The lines hold no line feed, and joined by
   * `\n` they give back `raw` with each `\r\n` read as `\n`; since no line
   * holds a `\n`, this fixes the lines.
   */
  function SplitLines(raw: string): (lines: seq<string>)
    ensures |lines| >= 1
    ensures forall k | 0 <= k < |lines| :: '\n' !in lines[k]
    ensures Join(lines, "\n") == UnifyBreaks(raw)
  {
    var parts := SplitOn(raw, '\n');
    JoinLines(parts);
    LinesOf(parts)
  }

  predicate IsX(c: char) { c == 'x' || c == 'X' }

  /** `x\d+|\d+x`, ignoring case. */
  predicate IsModifierBody(g: string) {
    |g| >= 2 && ((IsX(g[0]) && AllDigits(g[1..])) || (IsX(g[|g| - 1]) && AllDigits(g[..|g| - 1])))
  }

  /**
   * Line 8: group 1 of `/^\[(x\d+|\d+x)\]$/i`: a match exactly when the
   * line is a modifier body in brackets, and then that body.
   */
  function ModifierOf(t: string): (r: Option<string>)
    ensures r.Some? <==> |t| >= 2 && t[0] == '[' && t[|t| - 1] == ']' && IsModifierBody(t[1..|t| - 1])
    ensures r.Some? ==> r.value == t[1..|t| - 1] && IsModifierBody(r.value)
  {
    if |t| >= 2 && t[0] == '[' && t[|t| - 1] == ']' && IsModifierBody(t[1..|t| - 1]) then Some(t[1..|t| - 1]) else None
  }

  /** Every bracketed `x3`, `3X` and the like is read as a modifier, with its bracket content. */
  lemma ModifierOfBracketed(g: string)
    requires IsModifierBody(g)
    ensures ModifierOf("[" + g + "]") == Some(g)
  {
    var t := "[" + g + "]";
    assert t[1..|t| - 1] == g;
  }

  /** The characters `.` does not match. */
  predicate IsLineTerminator(c: char) { c == '\n' || c == '\r' || c == '\U{2028}' || c == '\U{2029}' }

  /** Line 7: group 1 of `/^\[(.+)\]$/`. */
  function LabelOf(t: string): Option<string> {
    if |t| >= 3 && t[0] == '[' && t[|t| - 1] == ']' && (forall k | 1 <= k < |t| - 1 :: !IsLineTerminator(t[k]))
    then Some(t[1..|t| - 1])
    else None
  }

  /** Lines 63-66: the first character in upper case. */
  function Capitalize(s: string): (r: string)
    ensures |r| == |s|
  {
    if s == [] then [] else [UpperChar(s[0])] + s[1..]
  }

  /** Lines 61-66: the label a label line sets. */
  function SectionOf(group: string): string {
    Capitalize(Trim(group))
  }

  // ---------------------------------------------------------------- the reader

  /** Line 30: `map((line) => line.trimEnd())`. */
  function TrimEnds(lines: seq<string>): (r: seq<string>)
    ensures |r| == |lines| && forall k | 0 <= k < |r| :: r[k] == TrimEnd(lines[k])
  {
    seq(|lines|, k requires 0 <= k < |lines| => TrimEnd(lines[k]))
  }

  /**
   * Lines 17-44: the slide a flush emits, if any. `pendingModifier` is
   * never given a value in the source, so `modifier ?? pendingModifier` is
   * the modifier found here.
   */
  function Flushed(buffer: seq<string>, section: Option<string>): Option<SlideDraft> {
    var modifier := if buffer != [] then ModifierOf(Trim(buffer[|buffer| - 1])) else None;
    var body := if modifier.Some? then buffer[..|buffer| - 1] else buffer;
    var text := Trim(Join(TrimEnds(body), "\n"));
    if text != [] then Some(SlideDraft(text, section, modifier)) else None
  }

  function Emitted(o: Option<SlideDraft>): seq<SlideDraft> {
    if o.Some? then [o.value] else []
  }

  /** The state of the loop: the slides so far, the buffered lines and the current label. */
  datatype Reader = Reader(slides: seq<SlideDraft>, buffer: seq<string>, section: Option<string>)

  function Flush(r: Reader): Reader {
    Reader(r.slides + Emitted(Flushed(r.buffer, r.section)), [], r.section)
  }

  /** Lines 46-77: one line. */
  function Step(r: Reader, line: string): Reader {
    var t := Trim(line);
    if ModifierOf(t).Some? then r.(buffer := r.buffer + [line])
    else if LabelOf(t).Some? then Flush(r).(section := Some(SectionOf(LabelOf(t).value)))
    else if t == [] then Flush(r)
    else r.(buffer := r.buffer + [line])
  }

  function Read(lines: seq<string>): Reader
    decreases |lines|
  {
    if lines == [] then Reader([], [], None) else Step(Read(lines[..|lines| - 1]), lines[|lines| - 1])
  }

  /** Lines 10-81: `parseLyricsToSlides` */
  function ParseLyrics(raw: string): seq<SlideDraft> {
    Flush(Read(SplitLines(raw))).slides
  }

  /** Lines 17-44 */
  method FlushBuffer(buffer: seq<string>, section: Option<string>) returns (emitted: seq<SlideDraft>)
    ensures emitted == Emitted(Flushed(buffer, section))
  {
    var lines := buffer;
    var modifier: Option<string> := None;
    if |lines| > 0 {
      var lastLine := Trim(lines[|lines| - 1]);
      var modMatch := ModifierOf(lastLine);
      if modMatch.Some? {
        modifier := modMatch;
        lines := lines[..|lines| - 1];
      }
    }
    var trimmed := Trim(Join(TrimEnds(lines), "\n"));
    if |trimmed| > 0 {
      emitted := [SlideDraft(trimmed, section, modifier)];
    } else {
      emitted := [];
    }
  }

  /** Lines 10-81: the loop over the lines. */
  method ParseLyricsToSlides(raw: string) returns (slides: seq<SlideDraft>)
    ensures slides == ParseLyrics(raw)
  {
    var lines := SplitLines(raw);
    slides := [];
    var buffer: seq<string> := [];
    var currentLabel: Option<string> := None;
    for i := 0 to |lines|
      invariant Reader(slides, buffer, currentLabel) == Read(lines[..i])
    {
      var line := lines[i];
      var trimmed := Trim(line);
      assert lines[..i + 1][..i] == lines[..i];
      if ModifierOf(trimmed).Some? {
        buffer := buffer + [line];
      } else if LabelOf(trimmed).Some? {
        var emitted := FlushBuffer(buffer, currentLabel);
        slides := slides + emitted;
        buffer := [];
        currentLabel := Some(SectionOf(LabelOf(trimmed).value));
      } else if |trimmed| == 0 {
        var emitted := FlushBuffer(buffer, currentLabel);
        slides := slides + emitted;
        buffer := [];
      } else {
        buffer := buffer + [line];
      }
    }
    assert lines[..|lines|] == lines;
    var emitted := FlushBuffer(buffer, currentLabel);
    slides := slides + emitted;
  }

  // ---------------------------------------------------------------- what the slides look like

  /** Every line break ends a line holding something other than whitespace. */
  predicate NoBlankLine(t: string) {
    forall i | 0 <= i < |t| && t[i] == '\n' :: i > 0 && !IsSpace(t[i - 1])
  }

  /** A label as set: trimmed, and not starting with a lower-case letter. */
  predicate IsSection(s: string) {
    IsTrimmed(s) && (s == [] || !('a' <= s[0] <= 'z'))
  }

  /**
   * An emitted slide: non-empty text without surrounding whitespace and
   * without an empty or blank line; a modifier of the form `x3` or `3x`; a
   * label as set by a label line.
   */
  predicate IsSlide(s: SlideDraft) {
    && s.text != [] && IsTrimmed(s.text) && NoBlankLine(s.text)
    && (s.modifier.Some? ==> IsModifierBody(s.modifier.value))
    && (s.section.Some? ==> IsSection(s.section.value))
  }

  /** A buffered line: it holds something, and no line break. */
  predicate IsContentLine(l: string) {
    HasNonSpace(l) && '\n' !in l
  }

  predicate IsGoodReader(r: Reader) {
    && (forall k | 0 <= k < |r.slides| :: IsSlide(r.slides[k]))
    && (forall k | 0 <= k < |r.buffer| :: IsContentLine(r.buffer[k]))
    && (r.section.Some? ==> IsSection(r.section.value))
  }

  lemma {:induction false} JoinNoBlank(ws: seq<string>)
    requires forall k | 0 <= k < |ws| :: ws[k] != [] && !IsSpace(ws[k][|ws[k]| - 1]) && '\n' !in ws[k]
    ensures NoBlankLine(Join(ws, "\n"))
    ensures Join(ws, "\n") == [] || Join(ws, "\n")[0] != '\n'
    decreases |ws|
  {
    if |ws| > 1 {
      var w := ws[0];
      var rest := Join(ws[1..], "\n");
      JoinNoBlank(ws[1..]);
      var t := w + "\n" + rest;
      assert Join(ws, "\n") == t;
      forall i | 0 <= i < |t| && t[i] == '\n' ensures i > 0 && !IsSpace(t[i - 1]) {
        if i == |w| {
          assert t[i - 1] == w[|w| - 1];
        } else if i > |w| {
          var j := i - |w| - 1;
          assert t[i] == rest[j];
          if j == 0 {
            assert false;
          } else {
            assert t[i - 1] == rest[j - 1];
          }
        }
      }
      assert t[0] == w[0] && w[0] in w;
    } else if |ws| == 1 {
      forall i | 0 <= i < |ws[0]| ensures ws[0][i] != '\n' {
        assert ws[0][i] in ws[0];
      }
    }
  }

  lemma TrimNoBlank(s: string)
    requires NoBlankLine(s)
    ensures NoBlankLine(Trim(s))
  {
    var a := SkipSpaces(s, 0);
    var r := Trim(s);
    forall i | 0 <= i < |r| && r[i] == '\n' ensures i > 0 && !IsSpace(r[i - 1]) {
      assert r[i] == s[a + i];
      assert r[i - 1] == s[a + i - 1];
    }
  }

  lemma TrimEndOfContent(l: string)
    requires IsContentLine(l)
    ensures var e := TrimEnd(l); e != [] && !IsSpace(e[|e| - 1]) && '\n' !in e
  {
    var e := TrimEnd(l);
    forall k | 0 <= k < |e| ensures e[k] != '\n' {
      assert e[k] == l[k] && l[k] in l;
    }
  }

  lemma UpperKeepsSpace(c: char)
    ensures IsSpace(UpperChar(c)) == IsSpace(c)
    ensures !('a' <= UpperChar(c) <= 'z')
  {
  }

  lemma SectionOfIsSection(group: string)
    ensures IsSection(SectionOf(group))
  {
    var t := Trim(group);
    if t != [] {
      UpperKeepsSpace(t[0]);
      var r := SectionOf(group);
      if |t| == 1 {
        assert r[|r| - 1] == UpperChar(t[0]);
      } else {
        assert r[|r| - 1] == t[|t| - 1];
      }
    }
  }

  /** A flush of content lines emits only a slide as described. */
  lemma FlushedIsSlide(buffer: seq<string>, section: Option<string>)
    requires forall k | 0 <= k < |buffer| :: IsContentLine(buffer[k])
    requires section.Some? ==> IsSection(section.value)
    ensures Flushed(buffer, section).Some? ==> IsSlide(Flushed(buffer, section).value)
  {
    var modifier := if buffer != [] then ModifierOf(Trim(buffer[|buffer| - 1])) else None;
    assert modifier.Some? ==> IsModifierBody(modifier.value);
    var body := if modifier.Some? then buffer[..|buffer| - 1] else buffer;
    assert forall k | 0 <= k < |body| :: body[k] == buffer[k];
    BodyTextNoBlank(body);
  }

  /** The text of buffered content lines has no blank line, once trimmed. */
  lemma BodyTextNoBlank(body: seq<string>)
    requires forall k | 0 <= k < |body| :: IsContentLine(body[k])
    ensures NoBlankLine(Trim(Join(TrimEnds(body), "\n")))
  {
    var ends := TrimEnds(body);
    forall k | 0 <= k < |ends| ensures ends[k] != [] && !IsSpace(ends[k][|ends[k]| - 1]) && '\n' !in ends[k] {
      TrimEndOfContent(body[k]);
    }
    JoinNoBlank(ends);
    TrimNoBlank(Join(ends, "\n"));
  }

  lemma BufferGood(r: Reader, line: string)
    requires IsGoodReader(r) && IsContentLine(line)
    ensures IsGoodReader(r.(buffer := r.buffer + [line]))
  {
  }

  lemma FlushGood(r: Reader, section: Option<string>)
    requires IsGoodReader(r)
    requires section.Some? ==> IsSection(section.value)
    ensures IsGoodReader(Flush(r).(section := section))
  {
    FlushedIsSlide(r.buffer, r.section);
  }

  lemma StepGood(r: Reader, line: string)
    requires IsGoodReader(r) && '\n' !in line
    ensures IsGoodReader(Step(r, line))
  {
    var t := Trim(line);
    if ModifierOf(t).Some? || (LabelOf(t).None? && t != []) {
      assert HasNonSpace(line);
      BufferGood(r, line);
    } else if LabelOf(t).Some? {
      SectionOfIsSection(LabelOf(t).value);
      FlushGood(r, Some(SectionOf(LabelOf(t).value)));
    } else {
      FlushGood(r, r.section);
    }
  }

  lemma {:induction false} ReadGood(lines: seq<string>)
    requires forall k | 0 <= k < |lines| :: '\n' !in lines[k]
    ensures IsGoodReader(Read(lines))
    decreases |lines|
  {
    if lines != [] {
      ReadGood(lines[..|lines| - 1]);
      StepGood(Read(lines[..|lines| - 1]), lines[|lines| - 1]);
    }
  }

  /**
   * Every slide has non-empty text with no whitespace around it and no
   * blank line in it, a modifier only of the form `x3`/`3x`, and a label
   * trimmed and capitalised.
   */
  lemma ParseLyricsSlides(raw: string)
    ensures forall k | 0 <= k < |ParseLyrics(raw)| :: IsSlide(ParseLyrics(raw)[k])
  {
    var r := Read(SplitLines(raw));
    ReadGood(SplitLines(raw));
    FlushedIsSlide(r.buffer, r.section);
  }

  // ---------------------------------------------------------------- labels

  /** A line that sets the label: a label line that is not a modifier line. */
  predicate IsLabelLine(line: string) {
    ModifierOf(Trim(line)).None? && LabelOf(Trim(line)).Some?
  }

  /** The label set by the last label line of `lines`. */
  function LastSection(lines: seq<string>): Option<string>
    decreases |lines|
  {
    if lines == [] then None
    else if IsLabelLine(lines[|lines| - 1]) then Some(SectionOf(LabelOf(Trim(lines[|lines| - 1])).value))
    else LastSection(lines[..|lines| - 1])
  }

  lemma {:induction false} ReadSection(lines: seq<string>)
    ensures Read(lines).section == LastSection(lines)
    decreases |lines|
  {
    if lines != [] {
      ReadSection(lines[..|lines| - 1]);
    }
  }

  /**
   * Reading a line only appends slides, and a slide emitted while reading
   * a line carries the label of the last label line before it; the label
   * line itself never enters a slide's text, as it is not buffered.
   */
  lemma StepSection(lines: seq<string>, line: string)
    ensures var before := Read(lines).slides;
      var after := Read(lines + [line]);
      && |before| <= |after.slides| && after.slides[..|before|] == before
      && (forall k | |before| <= k < |after.slides| :: after.slides[k].section == LastSection(lines))
      && (IsLabelLine(line) ==> after.buffer == [])
  {
    assert (lines + [line])[..|lines|] == lines;
    ReadSection(lines);
    StepSlides(Read(lines), line);
  }

  lemma StepSlides(r: Reader, line: string)
    ensures var after := Step(r, line).slides;
      && |r.slides| <= |after| && after[..|r.slides|] == r.slides
      && forall k | |r.slides| <= k < |after| :: after[k].section == r.section
  {
    var e := Emitted(Flushed(r.buffer, r.section));
    var t := Trim(line);
    if ModifierOf(t).Some? || (LabelOf(t).None? && t != []) {
      assert Step(r, line).slides == r.slides;
    } else {
      assert Step(r, line).slides == r.slides + e;
      assert (r.slides + e)[..|r.slides|] == r.slides;
    }
  }

  /** The slides of the last flush carry the label of the last label line. */
  lemma LastFlushSection(raw: string)
    ensures var r := Read(SplitLines(raw));
      forall k | |r.slides| <= k < |ParseLyrics(raw)| :: ParseLyrics(raw)[k].section == LastSection(SplitLines(raw))
  {
    var lines := SplitLines(raw);
    var r := Read(lines);
    ReadSection(lines);
    assert ParseLyrics(raw) == Flush(r).slides;
  }

  // ---------------------------------------------------------------- no lyrics

  /** A line that cannot put text on a slide: blank, or a label line. */
  predicate IsEmptyOrLabel(line: string) {
    Trim(line) == [] || IsLabelLine(line)
  }

  lemma {:induction false} ReadNothing(lines: seq<string>)
    requires forall k | 0 <= k < |lines| :: IsEmptyOrLabel(lines[k])
    ensures Read(lines).slides == [] && Read(lines).buffer == []
    decreases |lines|
  {
    if lines != [] {
      ReadNothing(lines[..|lines| - 1]);
      var r := Read(lines[..|lines| - 1]);
      assert Join(TrimEnds([]), "\n") == [];
    }
  }

  /** Lyrics made only of blank lines and label lines give no slides. */
  lemma NoLyricsNoSlides(raw: string)
    requires forall k | 0 <= k < |SplitLines(raw)| :: IsEmptyOrLabel(SplitLines(raw)[k])
    ensures ParseLyrics(raw) == []
  {
    ReadNothing(SplitLines(raw));
    assert Join(TrimEnds([]), "\n") == [];
  }

  // ---------------------------------------------------------------- slide labels

  /** Lines 84-93: `formatSlideLabel`, the parts joined by spaces. */
  function FormatSlideLabel(index: int, section: Option<string>, modifier: Option<string>): (r: string)
    ensures var number := IntToString(index + 1);
      r == number + (if section.Some? && section.value != "" then " " + section.value else "")
                  + (if modifier.Some? && modifier.value != "" then " " + modifier.value else "")
  {
    var number := IntToString(index + 1);
    var parts := [number] + (if section.Some? && section.value != "" then [section.value] else [])
                          + (if modifier.Some? && modifier.value != "" then [modifier.value] else []);
    assert |parts| == 3 ==>
      && parts[1..][1..] == parts[2..] && Join(parts[2..], " ") == parts[2]
      && Join(parts[1..], " ") == parts[1] + " " + parts[2]
      && Join(parts, " ") == parts[0] + " " + (parts[1] + " " + parts[2]);
    assert |parts| == 2 ==> Join(parts, " ") == parts[0] + " " + parts[1];
    Join(parts, " ")
  }
}
