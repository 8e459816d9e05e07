/**
 * What the present view derives from the selected song
 * (src/lib/present/selectors.ts): the grid of its slides, the text of the
 * slide an id points at, and the runs of equally labelled slides.
 */
module Selectors {
  import opened Wrappers
  import opened Text
  import opened Types

  // ---------------------------------------------------------------- the grid

  /** An entry of the slide grid. */
  datatype SlideData = SlideData(song: Song, slide: Slide, index: int)

  /** Lines 3-13: one entry per slide, numbered by position; none without a song. */
  function GetSlidesForGrid(song: Option<Song>): (r: seq<SlideData>)
    ensures song.None? ==> r == []
    ensures song.Some? ==> |r| == |song.value.slides|
    ensures song.Some? ==> forall i | 0 <= i < |r| :: r[i] == SlideData(song.value, song.value.slides[i], i)
  {
    if song.None? then []
    else seq(|song.value.slides|, i requires 0 <= i < |song.value.slides| => SlideData(song.value, song.value.slides[i], i))
  }

  // ---------------------------------------------------------------- the active slide

  /**
   * Line 22: `Number(s)` for a missing string (`NaN`) and for decimal
   * integers with optional sign and surrounding whitespace; blank reads 0.
   * `None` stands for every other result.
   */
  function NumberValue(s: Option<string>): Option<int> {
    if s.None? then None
    else
      var t := Trim(s.value);
      if t == [] then Some(0)
      else if (t[0] == '-' || t[0] == '+') && IsDigitRun(t[1..]) then
        Some(if t[0] == '-' then -(DigitsValue(t[1..]) as int) else DigitsValue(t[1..]) as int)
      else if IsDigitRun(t) then Some(DigitsValue(t) as int)
      else None
  }


  /** Lines 15-28: `getActiveSlideText`; the id is `<song id>:<slide index>`. */
  function GetActiveSlideText(activeSlideId: Option<string>, songs: seq<Song>): Option<string> {
    if activeSlideId.None? || activeSlideId.value == "" || songs == [] then None
    else
      var parts := SplitOn(activeSlideId.value, ':');
      var index := NumberValue(if |parts| > 1 then Some(parts[1]) else None);
      if index.None? then None
      else
        var k := FindSong(songs, parts[0]);
        if k == |songs| || !(0 <= index.value < |songs[k].slides|) then None
        else Some(songs[k].slides[index.value].text)
  }

  /** The id the present view gives to slide `index` of `song`. */
  function SlideId(song: Song, index: nat): string {
    song.id + ":" + IntToString(index)
  }

  lemma NumberOfNat(n: nat)
    ensures NumberValue(Some(IntToString(n))) == Some(n)
  {
    var d := NatToString(n);
    assert IsTrimmed(d);
    TrimOfTrimmed(d);
    DigitsOfNat(n);
  }

  /**
   * The slide an id points at: decoding the id of slide `index` of a song
   * gives that slide's text, provided the song is the first with its id and
   * the id holds no `:`.
   */
  lemma ActiveSlideOfId(songs: seq<Song>, k: nat, index: nat)
    requires k < |songs| && index < |songs[k].slides|
    requires ':' !in songs[k].id
    requires forall j | 0 <= j < k :: songs[j].id != songs[k].id
    ensures GetActiveSlideText(Some(SlideId(songs[k], index)), songs) == Some(songs[k].slides[index].text)
  {
    var id := songs[k].id;
    var digits := IntToString(index);
    var s := SlideId(songs[k], index);
    assert s == id + [':'] + digits;
    forall j | 0 <= j < |id| ensures s[j] != ':' {
      assert s[j] == id[j] && id[j] in id;
    }
    FindCharAt(s, ':', 0, |id|);
    assert ':' !in digits by {
      forall j | 0 <= j < |digits| ensures digits[j] != ':' {
        assert IsDigit(digits[j]);
      }
    }
    assert s[|id| + 1..] == digits;
    assert s[..|id|] == id;
    var parts := SplitOn(s, ':');
    assert SplitOn(digits, ':') == [digits];
    assert parts == [id, digits];
    NumberOfNat(index);
    assert FindSong(songs, id) == k;
  }

  /**
   * No text without an id, without songs, or when the part after `:` is
   * not a number; otherwise the text of that slide of the first song with
   * the id before `:`, or none when there is no such song or slide.
   */
  lemma ActiveSlideSpec(activeSlideId: Option<string>, songs: seq<Song>)
    ensures activeSlideId.None? || activeSlideId.value == "" || songs == [] ==> GetActiveSlideText(activeSlideId, songs).None?
    ensures GetActiveSlideText(activeSlideId, songs).Some? ==>
      var parts := SplitOn(activeSlideId.value, ':');
      && |parts| > 1
      && exists k, i | 0 <= k < |songs| && 0 <= i < |songs[k].slides| ::
           && songs[k].id == parts[0] && (forall j | 0 <= j < k :: songs[j].id != parts[0])
           && NumberValue(Some(parts[1])) == Some(i)
           && GetActiveSlideText(activeSlideId, songs) == Some(songs[k].slides[i].text)
  {
    var r := GetActiveSlideText(activeSlideId, songs);
    if r.Some? {
      var parts := SplitOn(activeSlideId.value, ':');
      var k := FindSong(songs, parts[0]);
      var i := NumberValue(Some(parts[1])).value;
      assert songs[k].id == parts[0];
    }
  }

  // ---------------------------------------------------------------- groups of slides

  /** A run of slides with one label. */
  datatype Group = Group(name: string, count: nat)

  /** Line 42: a missing or empty label reads `Untitled`. */
  function LabelName(s: Slide): (r: string)
    ensures r != ""
    ensures s.section.Some? && s.section.value != "" ==> r == s.section.value
    ensures s.section.None? || s.section.value == "" ==> r == "Untitled"
  {
    if s.section.Some? && s.section.value != "" then s.section.value else "Untitled"
  }

  function SlideLabels(slides: seq<Slide>): (r: seq<string>)
    ensures |r| == |slides|
    decreases |slides|
  {
    if slides == [] then [] else SlideLabels(slides[..|slides| - 1]) + [LabelName(slides[|slides| - 1])]
  }

  function Repeat(name: string, n: nat): (r: seq<string>)
    ensures |r| == n && forall i | 0 <= i < n :: r[i] == name
  {
    if n == 0 then [] else Repeat(name, n - 1) + [name]
  }

  /** Each group's label, `count` times over. */
  function Expand(groups: seq<Group>): seq<string>
    decreases |groups|
  {
    if groups == [] then [] else Expand(groups[..|groups| - 1]) + Repeat(groups[|groups| - 1].name, groups[|groups| - 1].count)
  }

  function Total(groups: seq<Group>): nat
    decreases |groups|
  {
    if groups == [] then 0 else Total(groups[..|groups| - 1]) + groups[|groups| - 1].count
  }

  /** Runs: no group is empty and neighbours have different labels. */
  predicate IsRuns(groups: seq<Group>) {
    && (forall i | 0 <= i < |groups| :: groups[i].count >= 1)
    && (forall i | 0 < i < |groups| :: groups[i - 1].name != groups[i].name)
  }

  /** Lines 33-53: `getSlideGroups` */
  method GetSlideGroups(song: Option<Song>) returns (groups: seq<Group>)
    ensures song.None? ==> groups == []
    ensures song.Some? ==> IsRuns(groups) && Expand(groups) == SlideLabels(song.value.slides)
  {
    if song.None? {
      return [];
    }
    var slides := song.value.slides;
    groups := [];
    var currentLabel := "";
    for i := 0 to |slides|
      invariant IsRuns(groups) && Expand(groups) == SlideLabels(slides[..i])
      invariant i == 0 <==> groups == []
      invariant groups == [] ==> currentLabel == ""
      invariant groups != [] ==> groups[|groups| - 1].name == currentLabel
    {
      LabelsStep(slides, i);
      var name := LabelName(slides[i]);
      if name != currentLabel {
        NewGroupStep(groups, name);
        groups := groups + [Group(name, 1)];
        currentLabel := name;
      } else {
        BumpStep(groups);
        var last := groups[|groups| - 1];
        groups := groups[|groups| - 1 := last.(count := last.count + 1)];
      }
    }
    assert slides[..|slides|] == slides;
  }

  lemma LabelsStep(slides: seq<Slide>, i: nat)
    requires i < |slides|
    ensures SlideLabels(slides[..i + 1]) == SlideLabels(slides[..i]) + [LabelName(slides[i])]
  {
    assert slides[..i + 1][..i] == slides[..i];
  }

  /** A label unlike the last group's opens a new group of one. */
  lemma NewGroupStep(groups: seq<Group>, name: string)
    requires IsRuns(groups) && (groups != [] ==> groups[|groups| - 1].name != name)
    ensures IsRuns(groups + [Group(name, 1)])
    ensures Expand(groups + [Group(name, 1)]) == Expand(groups) + [name]
  {
    var g := groups + [Group(name, 1)];
    forall i | 0 < i < |g| ensures g[i - 1].name != g[i].name {
      if i < |groups| {
        assert g[i - 1] == groups[i - 1] && g[i] == groups[i];
      } else {
        assert g[i - 1] == groups[|groups| - 1];
      }
    }
    assert forall i | 0 <= i < |groups| :: g[i] == groups[i];
    assert Expand(g) == Expand(groups) + [name] by {
      assert g[..|groups|] == groups;
      assert Repeat(name, 1) == [name];
    }
  }

  /** The last group's label again makes that group one longer. */
  lemma BumpStep(groups: seq<Group>)
    requires IsRuns(groups) && groups != []
    ensures var last := groups[|groups| - 1]; var g := groups[|groups| - 1 := last.(count := last.count + 1)];
      IsRuns(g) && Expand(g) == Expand(groups) + [last.name]
  {
    var last := groups[|groups| - 1];
    var g := groups[|groups| - 1 := last.(count := last.count + 1)];
    assert g[..|g| - 1] == groups[..|groups| - 1];
    assert Repeat(last.name, last.count + 1) == Repeat(last.name, last.count) + [last.name];
  }

  lemma {:induction false} ExpandLength(groups: seq<Group>)
    ensures |Expand(groups)| == Total(groups)
    decreases |groups|
  {
    if groups != [] {
      ExpandLength(groups[..|groups| - 1]);
    }
  }

  /** The counts add up to the number of slides. */
  lemma GroupsCountSlides(groups: seq<Group>, slides: seq<Slide>)
    requires Expand(groups) == SlideLabels(slides)
    ensures Total(groups) == |slides|
  {
    ExpandLength(groups);
  }

  /** How many elements at the end of `s` equal `v`. */
  function TrailingRun(s: seq<string>, v: string): nat
    decreases |s|
  {
    if s != [] && s[|s| - 1] == v then 1 + TrailingRun(s[..|s| - 1], v) else 0
  }

  lemma {:induction false} TrailingRunOfRepeat(x: seq<string>, v: string, n: nat)
    requires x == [] || x[|x| - 1] != v
    ensures TrailingRun(x + Repeat(v, n), v) == n
    decreases n
  {
    if n > 0 {
      assert (x + Repeat(v, n))[..|x| + n - 1] == x + Repeat(v, n - 1);
      TrailingRunOfRepeat(x, v, n - 1);
    } else {
      assert x + Repeat(v, 0) == x;
    }
  }

  lemma ExpandLast(groups: seq<Group>)
    requires groups != [] && IsRuns(groups)
    ensures var e := Expand(groups); e != [] && e[|e| - 1] == groups[|groups| - 1].name
  {
  }

  /** The last group of runs is the trailing run of the labels. */
  lemma LastGroup(groups: seq<Group>)
    requires groups != [] && IsRuns(groups)
    ensures var last := groups[|groups| - 1]; var e := Expand(groups);
      && e[|e| - 1] == last.name
      && TrailingRun(e, last.name) == last.count
      && Expand(groups[..|groups| - 1]) == e[..|e| - last.count]
  {
    var init := groups[..|groups| - 1];
    var last := groups[|groups| - 1];
    if init != [] {
      ExpandLast(init);
    }
    TrailingRunOfRepeat(Expand(init), last.name, last.count);
    ExpandLength(init);
    var e := Expand(groups);
    assert e[..|e| - last.count] == Expand(init);
  }

  lemma RunsInit(groups: seq<Group>)
    requires groups != [] && IsRuns(groups)
    ensures IsRuns(groups[..|groups| - 1])
  {
  }

  /** Runs with the same labels end in the same group, after the same labels. */
  lemma LastGroupsAgree(g1: seq<Group>, g2: seq<Group>)
    requires g1 != [] && g2 != [] && IsRuns(g1) && IsRuns(g2) && Expand(g1) == Expand(g2)
    ensures g1[|g1| - 1] == g2[|g2| - 1]
    ensures Expand(g1[..|g1| - 1]) == Expand(g2[..|g2| - 1])
  {
    var e := Expand(g1);
    var l1, l2 := g1[|g1| - 1], g2[|g2| - 1];
    LastGroup(g1);
    LastGroup(g2);
    assert l1.name == l2.name == e[|e| - 1];
    assert l1.count == TrailingRun(e, l1.name) == l2.count;
  }

  /** The runs of a label sequence are unique: the groups are its run-length encoding. */
  lemma {:induction false} RunsUnique(g1: seq<Group>, g2: seq<Group>)
    requires IsRuns(g1) && IsRuns(g2) && Expand(g1) == Expand(g2)
    ensures g1 == g2
    decreases |g1|
  {
    if g1 == [] || g2 == [] {
      if g1 != [] { ExpandLast(g1); }
      if g2 != [] { ExpandLast(g2); }
    } else {
      LastGroupsAgree(g1, g2);
      var i1 := g1[..|g1| - 1];
      var i2 := g2[..|g2| - 1];
      RunsInit(g1);
      RunsInit(g2);
      RunsUnique(i1, i2);
      assert g1 == i1 + [g1[|g1| - 1]];
      assert g2 == i2 + [g2[|g2| - 1]];
    }
  }
}
