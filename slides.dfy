/**
 * The text of the slides shown for looked-up verses
 * (src/features/scripture/lib/slides.ts): one string per verse, the verse
 * text with an optional verse number in front and the reference after it.
 */
module BibleSlides {
  import opened Wrappers
  import opened Text
  import opened ScriptureDb

  datatype NumberMode = Inline | Superscript | NoNumbers

  datatype SlideConfig = SlideConfig(maxLines: int, maxCharsPerLine: int, verseNumberMode: NumberMode)

  /** A template slot: `${x}` of a possibly missing string. */
  function Slot(s: Option<string>): string {
    if s.Some? then s.value else "undefined"
  }

  /** Lines 11-13 */
  function VersePrefix(v: Verse, mode: NumberMode): string {
    if mode == NoNumbers then "" else IntToString(v.verse) + ". "
  }

  /** Lines 15-17: the version id in upper case, when the verse names one. */
  function VersionSuffix(v: Verse): string {
    if v.version != "" then " (" + Upper(v.version) + ")" else ""
  }

  /** Line 19: the reference under the text. */
  function Caption(v: Verse): string {
    "\n\n[" + Slot(v.bookName) + " " + IntToString(v.chapter) + ":" + IntToString(v.verse) + VersionSuffix(v) + "]"
  }

  /** Lines 10-20: the slide of one verse. */
  function VerseSlide(v: Verse, mode: NumberMode): string {
    VersePrefix(v, mode) + v.text + Caption(v)
  }

  /** Lines 9-21: `generateBibleSlides` */
  function GenerateBibleSlides(verses: seq<Verse>, config: SlideConfig): (r: seq<string>)
    ensures |r| == |verses|
    ensures forall i | 0 <= i < |r| :: r[i] == VerseSlide(verses[i], config.verseNumberMode)
  {
    seq(|verses|, i requires 0 <= i < |verses| => VerseSlide(verses[i], config.verseNumberMode))
  }

  /**
   * The slide of a verse starts with its number and `. ` unless numbers are
   * off, then carries the text, and ends with the reference in brackets;
   * the version id, upper-cased, is at the end of it exactly when the verse
   * has one.
   */
  lemma VerseSlideShape(v: Verse, mode: NumberMode)
    ensures var s := VerseSlide(v, mode);
      && (mode == NoNumbers ==> StartsWith(s, v.text))
      && (mode != NoNumbers ==> StartsWith(s, IntToString(v.verse) + ". " + v.text))
      && EndsWith(s, Caption(v))
      && (v.version != "" <==> EndsWith(s, " (" + Upper(v.version) + ")]"))
  {
    var s := VerseSlide(v, mode);
    var c := Caption(v);
    StartsWithConcat(VersePrefix(v, mode) + v.text, c);
    assert s[|s| - |c|..] == c;
    var tail := " (" + Upper(v.version) + ")]";
    if v.version != "" {
      var head := "\n\n[" + Slot(v.bookName) + " " + IntToString(v.chapter) + ":" + IntToString(v.verse);
      assert c == head + tail;
      assert s == (VersePrefix(v, mode) + v.text + head) + tail;
      assert s[|s| - |tail|..] == tail;
    } else {
      assert Upper(v.version) == "";
      assert tail == " ()]";
      assert s[|s| - 1] == ']' && s[|s| - 2] != ')';
      assert s[|s| - |tail|..][2] != ')';
    }
  }

  /** The line limits do not change the slides, and `inline` and `superscript` give the same text. */
  lemma ConfigOnlyNumbering(verses: seq<Verse>, a: SlideConfig, b: SlideConfig)
    requires (a.verseNumberMode == NoNumbers) == (b.verseNumberMode == NoNumbers)
    ensures GenerateBibleSlides(verses, a) == GenerateBibleSlides(verses, b)
  {
    var ra := GenerateBibleSlides(verses, a);
    var rb := GenerateBibleSlides(verses, b);
    forall i | 0 <= i < |verses| ensures ra[i] == rb[i] {
      assert VersePrefix(verses[i], a.verseNumberMode) == VersePrefix(verses[i], b.verseNumberMode);
    }
  }
}
