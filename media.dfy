/**
 * The media library of the front end (src/features/media/hooks/useMediaFolders.ts):
 * the folders the user picked, stored by id in the browser's database with
 * their handles; the media files found in them; the folder filter; and the
 * per-item CSS filters of the live background.
 *
 * File handles, their permission prompts and object URLs are browser
 * services: a folder or record keeps its id and name, and the permission a
 * handle reports is a parameter.
 */
module Media {
  import opened Wrappers
  import opened Text
  import opened Sequences

  // ---------------------------------------------------------------- entities

  datatype MediaType = Image | Video

  /** Lines 6-13, without the object URL and the file. */
  datatype MediaItem = MediaItem(id: string, name: string, kind: MediaType, folderId: string)

  /** Lines 15-20, without the handle; `needsPermission` is an optional field. */
  datatype MediaFolder = MediaFolder(id: string, name: string, needsPermission: Option<bool>)

  /** A record of the folder-handle store, without the handle. */
  datatype HandleRecord = HandleRecord(id: string, name: string)

  /** What `queryPermission` resolves to; `Denied` stands for every other state. */
  datatype Permission = Granted | Prompt | Denied

  // ---------------------------------------------------------------- media type

  /** Lines 137-145 */
  const ImageExtensions: seq<string> := [".jpg", ".jpeg", ".png", ".gif", ".webp", ".svg", ".bmp"]

  /** Line 146 */
  const VideoExtensions: seq<string> := [".mp4", ".webm", ".mov", ".avi", ".mkv", ".m4v"]

  /** `exts.some((ext) => s.endsWith(ext))` */
  function EndsWithAny(s: string, exts: seq<string>): (b: bool)
    ensures b <==> exists k | 0 <= k < |exts| :: EndsWith(s, exts[k])
    decreases |exts|
  {
    if exts == [] then false
    else
      assert forall k | 1 <= k < |exts| :: exts[k] == exts[1..][k - 1];
      EndsWith(s, exts[0]) || EndsWithAny(s, exts[1..])
  }

  /**
   * Lines 148-153: `getMediaType` lower-cases the name, tries the image
   * extensions first, then the video ones.
   */
  function MediaTypeOf(fileName: string): (r: Option<MediaType>)
    ensures r == Some(Image) <==> exists k | 0 <= k < |ImageExtensions| :: EndsWith(Lower(fileName), ImageExtensions[k])
    ensures r == Some(Video) <==>
      && (forall k | 0 <= k < |ImageExtensions| :: !EndsWith(Lower(fileName), ImageExtensions[k]))
      && (exists k | 0 <= k < |VideoExtensions| :: EndsWith(Lower(fileName), VideoExtensions[k]))
    ensures r == None <==>
      && (forall k | 0 <= k < |ImageExtensions| :: !EndsWith(Lower(fileName), ImageExtensions[k]))
      && (forall k | 0 <= k < |VideoExtensions| :: !EndsWith(Lower(fileName), VideoExtensions[k]))
  {
    var lower := Lower(fileName);
    if EndsWithAny(lower, ImageExtensions) then Some(Image)
    else if EndsWithAny(lower, VideoExtensions) then Some(Video)
    else None
  }

  lemma LowerConcat(a: string, b: string)
    ensures Lower(a + b) == Lower(a) + Lower(b)
  {
    assert forall i | 0 <= i < |a + b| :: Lower(a + b)[i] == (Lower(a) + Lower(b))[i];
  }

  lemma EndsWithLast(s: string, p: string)
    requires |p| > 0 && EndsWith(s, p)
    ensures s[|s| - 1] == p[|p| - 1]
  {
    assert s[|s| - |p|..][|p| - 1] == s[|s| - 1];
  }

  lemma NotEndsWith(s: string, p: string)
    requires |s| > 0 && |p| > 0 && s[|s| - 1] != p[|p| - 1]
    ensures !EndsWith(s, p)
  {
    if |p| <= |s| {
      assert s[|s| - |p|..][|p| - 1] == s[|s| - 1];
    }
  }

  /** The last letters of the image extensions. */
  predicate ImageLast(c: char) {
    c == 'g' || c == 'f' || c == 'p'
  }

  lemma ImageEnding(j: nat)
    requires j < |ImageExtensions|
    ensures |ImageExtensions[j]| > 0 && ImageLast(ImageExtensions[j][|ImageExtensions[j]| - 1])
  {
  }

  lemma VideoEnding(k: nat)
    requires k < |VideoExtensions|
    ensures |VideoExtensions[k]| > 0 && !ImageLast(VideoExtensions[k][|VideoExtensions[k]| - 1])
  {
  }

  /** A name whose extension is an image extension in any letter case is an image. */
  lemma ImageByExtension(stem: string, ext: string, k: nat)
    requires k < |ImageExtensions| && Lower(ext) == ImageExtensions[k]
    ensures MediaTypeOf(stem + ext) == Some(Image)
  {
    LowerConcat(stem, ext);
    assert EndsWith(Lower(stem + ext), ImageExtensions[k]);
  }

  /**
   * A name whose extension is a video extension in any letter case is a
   * video: no image extension ends the same way.
   */
  lemma VideoByExtension(stem: string, ext: string, k: nat)
    requires k < |VideoExtensions| && Lower(ext) == VideoExtensions[k]
    ensures MediaTypeOf(stem + ext) == Some(Video)
  {
    var lower := Lower(stem + ext);
    LowerConcat(stem, ext);
    assert EndsWith(lower, VideoExtensions[k]);
    EndsWithLast(lower, VideoExtensions[k]);
    VideoEnding(k);
    forall j | 0 <= j < |ImageExtensions| ensures !EndsWith(lower, ImageExtensions[j]) {
      ImageEnding(j);
      NotEndsWith(lower, ImageExtensions[j]);
    }
  }

  // ---------------------------------------------------------------- filters

  /** Lines 28-36; CSS amounts as integers. */
  datatype Filters = Filters(brightness: int, contrast: int, saturation: int, blur: int,
                             grayscale: int, sepia: int, hueRotate: int)

  /** Lines 38-46 */
  const DefaultFilters := Filters(100, 100, 100, 0, 0, 0, 0)

  /** The CSS filter functions, in the order `filtersToCSS` writes them. */
  datatype FilterKind = Brightness | Contrast | Saturate | Blur | Grayscale | Sepia | HueRotate

  const FilterOrder: seq<FilterKind> := [Brightness, Contrast, Saturate, Blur, Grayscale, Sepia, HueRotate]

  function Amount(f: Filters, k: FilterKind): int {
    match k
    case Brightness => f.brightness
    case Contrast => f.contrast
    case Saturate => f.saturation
    case Blur => f.blur
    case Grayscale => f.grayscale
    case Sepia => f.sepia
    case HueRotate => f.hueRotate
  }

  function CssName(k: FilterKind): string {
    match k
    case Brightness => "brightness"
    case Contrast => "contrast"
    case Saturate => "saturate"
    case Blur => "blur"
    case Grayscale => "grayscale"
    case Sepia => "sepia"
    case HueRotate => "hue-rotate"
  }

  function CssUnit(k: FilterKind): string {
    match k
    case Blur => "px"
    case HueRotate => "deg"
    case _ => "%"
  }

  /** One CSS filter function call, such as `blur(4px)`. */
  function Component(k: FilterKind, amount: int): string {
    CssName(k) + "(" + IntToString(amount) + CssUnit(k) + ")"
  }

  /**
   * A component is written when its amount differs from the default; blur,
   * grayscale and sepia only when the amount is above it.
   */
  predicate Emitted(f: Filters, k: FilterKind) {
    && Amount(f, k) != Amount(DefaultFilters, k)
    && (k == Blur || k == Grayscale || k == Sepia ==> Amount(f, k) > 0)
  }

  /** The component of kind `k`, when it is written. */
  function Piece(f: Filters, k: FilterKind): seq<string> {
    if Emitted(f, k) then [Component(k, Amount(f, k))] else []
  }

  /** The components of the kinds `ks` that are written, in the order of `ks`. */
  function EmittedComponents(f: Filters, ks: seq<FilterKind>): seq<string>
    decreases |ks|
  {
    if ks == [] then [] else EmittedComponents(f, ks[..|ks| - 1]) + Piece(f, ks[|ks| - 1])
  }

  /** `if (c) parts.push(x)`, as the part it adds. */
  function PushIf(c: bool, x: string): seq<string> {
    if c then [x] else []
  }

  /** Lines 157-167: the pushes into `parts`, one condition at a time. */
  function CssParts(f: Filters): seq<string> {
    PushIf(f.brightness != 100, Component(Brightness, f.brightness))
    + PushIf(f.contrast != 100, Component(Contrast, f.contrast))
    + PushIf(f.saturation != 100, Component(Saturate, f.saturation))
    + PushIf(f.blur > 0, Component(Blur, f.blur))
    + PushIf(f.grayscale > 0, Component(Grayscale, f.grayscale))
    + PushIf(f.sepia > 0, Component(Sepia, f.sepia))
    + PushIf(f.hueRotate != 0, Component(HueRotate, f.hueRotate))
  }

  lemma EmittedStep(f: Filters, ks: seq<FilterKind>, i: nat)
    requires i < |ks|
    ensures EmittedComponents(f, ks[..i + 1]) == EmittedComponents(f, ks[..i]) + Piece(f, ks[i])
  {
    assert ks[..i + 1][..i] == ks[..i];
  }

  lemma PushIsPiece(f: Filters, k: FilterKind, c: bool, x: string)
    requires c == Emitted(f, k) && x == Component(k, Amount(f, k))
    ensures PushIf(c, x) == Piece(f, k)
  {
  }

  lemma PushesArePieces(f: Filters)
    ensures CssParts(f) == Piece(f, Brightness) + Piece(f, Contrast) + Piece(f, Saturate) + Piece(f, Blur)
                           + Piece(f, Grayscale) + Piece(f, Sepia) + Piece(f, HueRotate)
  {
    PushIsPiece(f, Brightness, f.brightness != 100, Component(Brightness, f.brightness));
    PushIsPiece(f, Contrast, f.contrast != 100, Component(Contrast, f.contrast));
    PushIsPiece(f, Saturate, f.saturation != 100, Component(Saturate, f.saturation));
    PushIsPiece(f, Blur, f.blur > 0, Component(Blur, f.blur));
    PushIsPiece(f, Grayscale, f.grayscale > 0, Component(Grayscale, f.grayscale));
    PushIsPiece(f, Sepia, f.sepia > 0, Component(Sepia, f.sepia));
    PushIsPiece(f, HueRotate, f.hueRotate != 0, Component(HueRotate, f.hueRotate));
  }

  lemma EmittedInOrder(f: Filters)
    ensures EmittedComponents(f, FilterOrder) == Piece(f, Brightness) + Piece(f, Contrast) + Piece(f, Saturate) + Piece(f, Blur)
                                                 + Piece(f, Grayscale) + Piece(f, Sepia) + Piece(f, HueRotate)
  {
    var ks := FilterOrder;
    assert ks[..0] == [];
    EmittedStep(f, ks, 0);
    assert EmittedComponents(f, ks[..1]) == Piece(f, Brightness);
    EmittedStep(f, ks, 1);
    EmittedStep(f, ks, 2);
    EmittedStep(f, ks, 3);
    EmittedStep(f, ks, 4);
    EmittedStep(f, ks, 5);
    EmittedStep(f, ks, 6);
    assert ks[..7] == ks;
  }

  /** The pushes write exactly the components that are emitted, in the fixed order. */
  lemma CssPartsSpec(f: Filters)
    ensures CssParts(f) == EmittedComponents(f, FilterOrder)
  {
    PushesArePieces(f);
    EmittedInOrder(f);
  }

  /** No component is written exactly when no kind is emitted. */
  lemma NoComponents(f: Filters)
    ensures CssParts(f) == [] <==> forall k: FilterKind :: !Emitted(f, k)
  {
    forall k: FilterKind | CssParts(f) == [] ensures !Emitted(f, k) {
      match k
      case Brightness =>
      case Contrast =>
      case Saturate =>
      case Blur =>
      case Grayscale =>
      case Sepia =>
      case HueRotate =>
    }
    if CssParts(f) != [] {
      if f.brightness != 100 { assert Emitted(f, Brightness); }
      else if f.contrast != 100 { assert Emitted(f, Contrast); }
      else if f.saturation != 100 { assert Emitted(f, Saturate); }
      else if f.blur > 0 { assert Emitted(f, Blur); }
      else if f.grayscale > 0 { assert Emitted(f, Grayscale); }
      else if f.sepia > 0 { assert Emitted(f, Sepia); }
      else { assert Emitted(f, HueRotate); }
    }
  }

  /** Every component starts with the name of its function, never with `n`. */
  lemma ComponentStart(k: FilterKind, amount: int)
    ensures |Component(k, amount)| > 0 && Component(k, amount)[0] == CssName(k)[0] != 'n'
  {
  }

  lemma {:induction false} EmittedStart(f: Filters, ks: seq<FilterKind>)
    requires EmittedComponents(f, ks) != []
    ensures var e := EmittedComponents(f, ks); |e[0]| > 0 && e[0][0] != 'n'
    decreases |ks|
  {
    var init := EmittedComponents(f, ks[..|ks| - 1]);
    if init != [] {
      EmittedStart(f, ks[..|ks| - 1]);
    } else {
      ComponentStart(ks[|ks| - 1], Amount(f, ks[|ks| - 1]));
    }
  }

  /** The first character of a join is that of its first part. */
  lemma JoinFirst(parts: seq<string>, sep: string)
    requires |parts| >= 1 && |parts[0]| > 0
    ensures |Join(parts, sep)| > 0 && Join(parts, sep)[0] == parts[0][0]
  {
  }

  /**
   * Lines 156-169: `filtersToCSS` is `"none"` exactly when no component is
   * emitted, and otherwise the emitted components, in the fixed order,
   * joined by single spaces.
   */
  function FiltersToCss(f: Filters): (r: string)
    ensures r == "none" <==> forall k: FilterKind :: !Emitted(f, k)
    ensures r != "none" ==> r == Join(EmittedComponents(f, FilterOrder), " ")
  {
    var parts := CssParts(f);
    CssPartsSpec(f);
    NoComponents(f);
    if |parts| > 0 then
      EmittedStart(f, FilterOrder);
      JoinFirst(parts, " ");
      Join(parts, " ")
    else "none"
  }

  /** The default filters write no CSS filter. */
  lemma DefaultsAreNone()
    ensures FiltersToCss(DefaultFilters) == "none"
  {
    assert forall k: FilterKind :: !Emitted(DefaultFilters, k);
  }

  // ---------------------------------------------------------------- per-item filters

  /** A `Partial<MediaFilters>`: the fields the caller gives. */
  datatype FilterPatch = FilterPatch(brightness: Option<int>, contrast: Option<int>, saturation: Option<int>,
                                     blur: Option<int>, grayscale: Option<int>, sepia: Option<int>,
                                     hueRotate: Option<int>)

  const NoPatch := FilterPatch(None, None, None, None, None, None, None)

  function PatchAmount(p: FilterPatch, k: FilterKind): Option<int> {
    match k
    case Brightness => p.brightness
    case Contrast => p.contrast
    case Saturate => p.saturation
    case Blur => p.blur
    case Grayscale => p.grayscale
    case Sepia => p.sepia
    case HueRotate => p.hueRotate
  }

  /** Lines 532-535: `{ ...f, ...p }` */
  function Merged(f: Filters, p: FilterPatch): (r: Filters) {
    Filters(p.brightness.GetOr(f.brightness), p.contrast.GetOr(f.contrast), p.saturation.GetOr(f.saturation),
            p.blur.GetOr(f.blur), p.grayscale.GetOr(f.grayscale), p.sepia.GetOr(f.sepia),
            p.hueRotate.GetOr(f.hueRotate))
  }

  /** Every given field wins; every other keeps its value. */
  lemma MergedSpec(f: Filters, p: FilterPatch)
    ensures forall k: FilterKind :: Amount(Merged(f, p), k) == if PatchAmount(p, k).Some? then PatchAmount(p, k).value else Amount(f, k)
    ensures Merged(f, NoPatch) == f
  {
    forall k: FilterKind
      ensures Amount(Merged(f, p), k) == if PatchAmount(p, k).Some? then PatchAmount(p, k).value else Amount(f, k)
    {
      match k
      case Brightness =>
      case Contrast =>
      case Saturate =>
      case Blur =>
      case Grayscale =>
      case Sepia =>
      case HueRotate =>
    }
  }

  /** Lines 511-514: the active item's stored filters, or the defaults. */
  function CurrentFilters(active: Option<MediaItem>, itemFilters: map<string, Filters>): Filters {
    if active.None? then DefaultFilters
    else if active.value.id in itemFilters then itemFilters[active.value.id]
    else DefaultFilters
  }

  /** Lines 527-539: the filter map after `updateMediaFilters(p)`. */
  function UpdatedFilters(itemFilters: map<string, Filters>, active: Option<MediaItem>, p: FilterPatch): map<string, Filters> {
    if active.None? then itemFilters
    else itemFilters[active.value.id := Merged(CurrentFilters(active, itemFilters), p)]
  }

  /** Lines 541-547: the filter map after `resetMediaFilters`. */
  function ResetFilters(itemFilters: map<string, Filters>, active: Option<MediaItem>): map<string, Filters> {
    if active.None? then itemFilters else itemFilters[active.value.id := DefaultFilters]
  }

  /**
   * An update merges the patch over the active item's current filters and
   * touches no other item; without an active item nothing changes.
   */
  lemma UpdatedFiltersSpec(itemFilters: map<string, Filters>, active: Option<MediaItem>, p: FilterPatch)
    ensures var r := UpdatedFilters(itemFilters, active, p);
      && (active.None? ==> r == itemFilters)
      && (active.Some? ==> CurrentFilters(active, r) == Merged(CurrentFilters(active, itemFilters), p))
      && (forall id | id in itemFilters && (active.None? || id != active.value.id) :: id in r && r[id] == itemFilters[id])
      && (forall id | id in r :: id in itemFilters || (active.Some? && id == active.value.id))
  {
  }

  /** Two updates of the same item are one update with the later given fields. */
  lemma UpdatedTwice(itemFilters: map<string, Filters>, active: Option<MediaItem>, p: FilterPatch, q: FilterPatch)
    ensures var r := UpdatedFilters(UpdatedFilters(itemFilters, active, p), active, q);
      var both := FilterPatch(q.brightness.OrElse(p.brightness), q.contrast.OrElse(p.contrast),
                              q.saturation.OrElse(p.saturation), q.blur.OrElse(p.blur),
                              q.grayscale.OrElse(p.grayscale), q.sepia.OrElse(p.sepia),
                              q.hueRotate.OrElse(p.hueRotate));
      r == UpdatedFilters(itemFilters, active, both)
  {
  }

  /** After a reset the active item shows no CSS filter, and the other items keep theirs. */
  lemma ResetFiltersSpec(itemFilters: map<string, Filters>, active: Option<MediaItem>)
    ensures var r := ResetFilters(itemFilters, active);
      && FiltersToCss(CurrentFilters(active, r)) == "none"
      && (forall id | id in itemFilters && (active.None? || id != active.value.id) :: id in r && r[id] == itemFilters[id])
  {
    DefaultsAreNone();
  }

  // ---------------------------------------------------------------- lists

  /** The callbacks given to `filter`. */
  function InFolder(folderId: string): MediaItem -> bool { (item: MediaItem) => item.folderId == folderId }
  function OutsideFolder(folderId: string): MediaItem -> bool { (item: MediaItem) => item.folderId != folderId }
  function OtherFolder(folderId: string): MediaFolder -> bool { (f: MediaFolder) => f.id != folderId }
  function OfKind(kind: MediaType): MediaItem -> bool { (item: MediaItem) => item.kind == kind }

  /**
   * Lines 373-376: `mediaItems`, all items while no folder is selected,
   * otherwise exactly the selected folder's items, in their order.
   */
  function MediaItems(all: seq<MediaItem>, selected: Option<string>): (r: seq<MediaItem>)
    ensures selected.None? || selected.value == "" ==> r == all
    ensures selected.Some? && selected.value != "" ==>
      && (forall x | x in r :: x in all && x.folderId == selected.value)
      && (forall x | x in all && x.folderId == selected.value :: x in r)
    ensures SubsequenceOf(r, all)
  {
    if selected.None? || selected.value == "" then
      SubsequenceOfSelf(all);
      all
    else
      FilterIsSubsequence(all, InFolder(selected.value));
      Filter(all, InFolder(selected.value))
  }

  /** Lines 479-486: `images` and `videos`, the listed items of one type, in their order. */
  function ItemsOfKind(items: seq<MediaItem>, kind: MediaType): (r: seq<MediaItem>)
    ensures forall x | x in r :: x in items && x.kind == kind
    ensures forall x | x in items && x.kind == kind :: x in r
    ensures SubsequenceOf(r, items)
  {
    FilterIsSubsequence(items, OfKind(kind));
    Filter(items, OfKind(kind))
  }

  /** Line 459: the items left after a folder is removed, in their order. */
  function ItemsOutside(items: seq<MediaItem>, folderId: string): (r: seq<MediaItem>)
    ensures forall x | x in r :: x in items && x.folderId != folderId
    ensures forall x | x in items && x.folderId != folderId :: x in r
    ensures SubsequenceOf(r, items)
  {
    FilterIsSubsequence(items, OutsideFolder(folderId));
    Filter(items, OutsideFolder(folderId))
  }

  /** Line 462: the folders left after a folder is removed, in their order. */
  function FoldersOutside(folders: seq<MediaFolder>, folderId: string): (r: seq<MediaFolder>)
    ensures forall f | f in r :: f in folders && f.id != folderId
    ensures forall f | f in folders && f.id != folderId :: f in r
    ensures SubsequenceOf(r, folders)
  {
    FilterIsSubsequence(folders, OtherFolder(folderId));
    Filter(folders, OtherFolder(folderId))
  }

  /** Lines 336-340: a reconnected folder no longer needs permission. */
  function Reconnected(folders: seq<MediaFolder>, folderId: string): (r: seq<MediaFolder>)
    ensures |r| == |folders|
    ensures forall k | 0 <= k < |r| :: r[k].id == folders[k].id && r[k].name == folders[k].name
    ensures forall k | 0 <= k < |r| :: r[k].id == folderId ==> r[k].needsPermission == Some(false)
    ensures forall k | 0 <= k < |r| :: r[k].id != folderId ==> r[k] == folders[k]
  {
    seq(|folders|, k requires 0 <= k < |folders| =>
      if folders[k].id == folderId then folders[k].(needsPermission := Some(false)) else folders[k])
  }

  // ---------------------------------------------------------------- duplicate names

  function Names(hs: seq<HandleRecord>): set<string> {
    set h | h in hs :: h.name
  }

  function Ids(hs: seq<HandleRecord>): set<string> {
    set h | h in hs :: h.id
  }

  function ToSet(s: seq<string>): set<string> {
    set x | x in s
  }

  lemma NamesAppend(hs: seq<HandleRecord>, h: HandleRecord)
    ensures Names(hs + [h]) == Names(hs) + {h.name}
    ensures Ids(hs + [h]) == Ids(hs) + {h.id}
  {
    assert forall x :: x in hs + [h] <==> x in hs || x == h;
  }

  lemma ToSetAppend(s: seq<string>, x: string)
    ensures ToSet(s + [x]) == ToSet(s) + {x}
  {
    assert forall y :: y in s + [x] <==> y in s || y == x;
  }

  /** The store's key: no two records share an id. */
  predicate UniqueIds(hs: seq<HandleRecord>)
    decreases |hs|
  {
    hs == [] || (UniqueIds(hs[..|hs| - 1]) && hs[|hs| - 1].id !in Ids(hs[..|hs| - 1]))
  }

  /** Record `i` has a name an earlier record already has. */
  predicate SeenBefore(hs: seq<HandleRecord>, i: nat)
    requires i < |hs|
  {
    exists j | 0 <= j < i :: hs[j].name == hs[i].name
  }

  /** The first record of each name, in their order. */
  function Firsts(hs: seq<HandleRecord>): seq<HandleRecord>
    decreases |hs|
  {
    if hs == [] then []
    else
      var init := hs[..|hs| - 1];
      if hs[|hs| - 1].name in Names(init) then Firsts(init) else Firsts(init) + [hs[|hs| - 1]]
  }

  /** The ids of the records whose name was already seen, in their order. */
  function DuplicateIds(hs: seq<HandleRecord>): seq<string>
    decreases |hs|
  {
    if hs == [] then []
    else
      var init := hs[..|hs| - 1];
      if hs[|hs| - 1].name in Names(init) then DuplicateIds(init) + [hs[|hs| - 1].id] else DuplicateIds(init)
  }

  /** The records whose id is not in `ids`, in their order. */
  function WithoutIds(hs: seq<HandleRecord>, ids: set<string>): seq<HandleRecord>
    decreases |hs|
  {
    if hs == [] then []
    else
      var init := WithoutIds(hs[..|hs| - 1], ids);
      if hs[|hs| - 1].id in ids then init else init + [hs[|hs| - 1]]
  }

  /** Whether a record was seen before does not depend on the records after it. */
  lemma SeenBeforePrefix(hs: seq<HandleRecord>, n: nat, i: nat)
    requires i < n <= |hs|
    ensures SeenBefore(hs[..n], i) <==> SeenBefore(hs, i)
  {
    if SeenBefore(hs, i) {
      var j :| 0 <= j < i && hs[j].name == hs[i].name;
      assert hs[..n][j].name == hs[..n][i].name;
    }
    if SeenBefore(hs[..n], i) {
      var j :| 0 <= j < i && hs[..n][j].name == hs[..n][i].name;
      assert hs[j].name == hs[i].name;
    }
  }

  /** The last name is among the earlier ones exactly when the last record was seen before. */
  lemma LastSeen(hs: seq<HandleRecord>)
    requires hs != []
    ensures hs[|hs| - 1].name in Names(hs[..|hs| - 1]) <==> SeenBefore(hs, |hs| - 1)
  {
    var init := hs[..|hs| - 1];
    if hs[|hs| - 1].name in Names(init) {
      var h :| h in init && h.name == hs[|hs| - 1].name;
      var j :| 0 <= j < |init| && init[j] == h;
      assert hs[j].name == hs[|hs| - 1].name;
    }
    if SeenBefore(hs, |hs| - 1) {
      var j :| 0 <= j < |hs| - 1 && hs[j].name == hs[|hs| - 1].name;
      assert init[j] in init;
    }
  }

  lemma {:induction false} FirstsNames(hs: seq<HandleRecord>)
    ensures Names(Firsts(hs)) == Names(hs)
    ensures forall h | h in Firsts(hs) :: h in hs
    decreases |hs|
  {
    if hs != [] {
      var init := hs[..|hs| - 1];
      var last := hs[|hs| - 1];
      FirstsNames(init);
      assert hs == init + [last];
      NamesAppend(init, last);
      NamesAppend(Firsts(init), last);
    }
  }

  /**
   * The first records of each name: each comes from the list, the record
   * that first has a name is among them, no two share a name, and every
   * name survives.
   */
  lemma FirstsSpec(hs: seq<HandleRecord>)
    ensures var r := Firsts(hs);
      && (forall h | h in r :: h in hs)
      && (forall i | 0 <= i < |hs| && !SeenBefore(hs, i) :: hs[i] in r)
      && (forall a, b | 0 <= a < b < |r| :: r[a].name != r[b].name)
      && Names(r) == Names(hs)
  {
    FirstsNames(hs);
    FirstsKeepFirst(hs);
    FirstsDistinct(hs);
  }

  lemma {:induction false} FirstsKeepFirst(hs: seq<HandleRecord>)
    ensures forall i | 0 <= i < |hs| && !SeenBefore(hs, i) :: hs[i] in Firsts(hs)
    decreases |hs|
  {
    if hs != [] {
      var init := hs[..|hs| - 1];
      FirstsKeepFirst(init);
      LastSeen(hs);
      forall i | 0 <= i < |hs| && !SeenBefore(hs, i) ensures hs[i] in Firsts(hs) {
        if i < |hs| - 1 {
          SeenBeforePrefix(hs, |hs| - 1, i);
          assert hs[i] == init[i];
        }
      }
    }
  }

  /** No two records share a name. */
  predicate DistinctRecordNames(hs: seq<HandleRecord>) {
    forall a, b | 0 <= a < b < |hs| :: hs[a].name != hs[b].name
  }

  lemma {:induction false} FirstsDistinct(hs: seq<HandleRecord>)
    ensures DistinctRecordNames(Firsts(hs))
    decreases |hs|
  {
    if hs != [] {
      var init := hs[..|hs| - 1];
      var last := hs[|hs| - 1];
      FirstsDistinct(init);
      if last.name !in Names(init) {
        FirstsNames(init);
        var r0 := Firsts(init);
        var r := r0 + [last];
        forall a, b | 0 <= a < b < |r| ensures r[a].name != r[b].name {
          if b == |r| - 1 {
            assert r[a] == r0[a] && r0[a] in r0;
          } else {
            assert r[a] == r0[a] && r[b] == r0[b];
          }
        }
      }
    }
  }

  /** Without its last record a list of distinct names is one still, and the last name was not seen before. */
  lemma DistinctInit(hs: seq<HandleRecord>)
    requires hs != [] && DistinctRecordNames(hs)
    ensures DistinctRecordNames(hs[..|hs| - 1])
    ensures !SeenBefore(hs, |hs| - 1) && hs[|hs| - 1].name !in Names(hs[..|hs| - 1])
  {
    var init := hs[..|hs| - 1];
    forall a, b | 0 <= a < b < |init| ensures init[a].name != init[b].name {
      assert init[a] == hs[a] && init[b] == hs[b];
    }
    LastSeen(hs);
  }

  /** A list whose names are all different is its own first records. */
  lemma {:induction false} FirstsOfDistinct(hs: seq<HandleRecord>)
    requires DistinctRecordNames(hs)
    ensures Firsts(hs) == hs
    decreases |hs|
  {
    if hs != [] {
      var init, last := hs[..|hs| - 1], hs[|hs| - 1];
      DistinctInit(hs);
      FirstsOfDistinct(init);
      assert hs == init + [last];
    }
  }

  /** Keeping the first records a second time changes nothing. */
  lemma FirstsIdempotent(hs: seq<HandleRecord>)
    ensures Firsts(Firsts(hs)) == Firsts(hs)
  {
    FirstsSpec(hs);
    FirstsOfDistinct(Firsts(hs));
  }

  lemma {:induction false} DuplicateIdsIn(hs: seq<HandleRecord>)
    ensures ToSet(DuplicateIds(hs)) <= Ids(hs)
    decreases |hs|
  {
    if hs != [] {
      var init := hs[..|hs| - 1];
      var last := hs[|hs| - 1];
      DuplicateIdsIn(init);
      assert hs == init + [last];
      NamesAppend(init, last);
      ToSetAppend(DuplicateIds(init), last.id);
    }
  }

  lemma {:induction false} WithoutNone(hs: seq<HandleRecord>)
    ensures WithoutIds(hs, {}) == hs
    decreases |hs|
  {
    if hs != [] {
      WithoutNone(hs[..|hs| - 1]);
    }
  }

  lemma {:induction false} WithoutIrrelevant(hs: seq<HandleRecord>, ids: set<string>, id: string)
    requires id !in Ids(hs)
    ensures WithoutIds(hs, ids + {id}) == WithoutIds(hs, ids)
    decreases |hs|
  {
    if hs != [] {
      var init := hs[..|hs| - 1];
      assert hs == init + [hs[|hs| - 1]];
      NamesAppend(init, hs[|hs| - 1]);
      WithoutIrrelevant(init, ids, id);
    }
  }

  lemma {:induction false} WithoutTwice(hs: seq<HandleRecord>, ids: set<string>, id: string)
    ensures WithoutIds(WithoutIds(hs, ids), {id}) == WithoutIds(hs, ids + {id})
    decreases |hs|
  {
    if hs != [] {
      var init := hs[..|hs| - 1];
      WithoutTwice(init, ids, id);
      var w := WithoutIds(hs, ids);
      if hs[|hs| - 1].id !in ids {
        assert w[..|w| - 1] == WithoutIds(init, ids);
      }
    }
  }

  lemma {:induction false} WithoutKeepsIds(hs: seq<HandleRecord>, ids: set<string>)
    requires UniqueIds(hs)
    ensures UniqueIds(WithoutIds(hs, ids)) && Ids(WithoutIds(hs, ids)) <= Ids(hs)
    decreases |hs|
  {
    if hs != [] {
      var init := hs[..|hs| - 1];
      var last := hs[|hs| - 1];
      WithoutKeepsIds(init, ids);
      assert hs == init + [last];
      NamesAppend(init, last);
      var w0 := WithoutIds(init, ids);
      if last.id !in ids {
        var w := WithoutIds(hs, ids);
        assert w == w0 + [last];
        assert w[..|w| - 1] == w0;
        NamesAppend(w0, last);
      }
    }
  }

  /** Deleting the duplicate ids leaves the first record of each name. */
  lemma {:induction false} CleanupKeepsFirsts(hs: seq<HandleRecord>)
    requires UniqueIds(hs)
    ensures WithoutIds(hs, ToSet(DuplicateIds(hs))) == Firsts(hs)
    decreases |hs|
  {
    if hs != [] {
      var init := hs[..|hs| - 1];
      var last := hs[|hs| - 1];
      CleanupKeepsFirsts(init);
      DuplicateIdsIn(init);
      if last.name in Names(init) {
        ToSetAppend(DuplicateIds(init), last.id);
        WithoutIrrelevant(init, ToSet(DuplicateIds(init)), last.id);
      }
    }
  }

  /**
   * Lines 123-129: the ids `cleanupDuplicateHandles` deletes are exactly
   * those of the records whose name an earlier record has.
   */
  lemma {:induction false} DuplicateIdsSpec(hs: seq<HandleRecord>)
    requires UniqueIds(hs)
    ensures forall i | 0 <= i < |hs| :: hs[i].id in ToSet(DuplicateIds(hs)) <==> SeenBefore(hs, i)
    decreases |hs|
  {
    if hs != [] {
      var init := hs[..|hs| - 1];
      var last := hs[|hs| - 1];
      DuplicateIdsSpec(init);
      DuplicateIdsIn(init);
      LastSeen(hs);
      ToSetAppend(DuplicateIds(init), last.id);
      var d := ToSet(DuplicateIds(hs));
      forall i | 0 <= i < |hs| ensures hs[i].id in d <==> SeenBefore(hs, i) {
        if i < |hs| - 1 {
          SeenBeforePrefix(hs, |hs| - 1, i);
          assert hs[i] == init[i] && hs[i] in init;
        }
      }
    }
  }

  /** Lines 123-129: the selection loop of `cleanupDuplicateHandles`. */
  method DuplicatesOf(handles: seq<HandleRecord>) returns (toDelete: seq<string>)
    ensures toDelete == DuplicateIds(handles)
  {
    var seenNames: set<string> := {};
    toDelete := [];
    for i := 0 to |handles|
      invariant seenNames == Names(handles[..i])
      invariant toDelete == DuplicateIds(handles[..i])
    {
      var h := handles[i];
      assert handles[..i + 1] == handles[..i] + [h];
      assert handles[..i + 1][..i] == handles[..i];
      NamesAppend(handles[..i], h);
      if h.name in seenNames {
        toDelete := toDelete + [h.id];
      } else {
        seenNames := seenNames + {h.name};
      }
    }
    assert handles[..|handles|] == handles;
  }

  // ---------------------------------------------------------------- saved folders

  /** Lines 239-244: a granted folder is kept, one that asks is kept as needing permission. */
  function Classify(h: HandleRecord, p: Permission): seq<MediaFolder> {
    match p
    case Granted => [MediaFolder(h.id, h.name, None)]
    case Prompt => [MediaFolder(h.id, h.name, Some(true))]
    case Denied => []
  }

  /** The folders the records give, in their order. */
  function Classified(hs: seq<HandleRecord>, query: HandleRecord -> Permission): seq<MediaFolder>
    decreases |hs|
  {
    if hs == [] then []
    else Classified(hs[..|hs| - 1], query) + Classify(hs[|hs| - 1], query(hs[|hs| - 1]))
  }

  /**
   * Each folder comes from a record that was granted or asks for
   * permission, marked as needing it exactly in the second case; every
   * such record gives its folder; and into folders of different names.
   */
  lemma {:induction false} ClassifiedSpec(hs: seq<HandleRecord>, query: HandleRecord -> Permission)
    ensures var r := Classified(hs, query);
      && (forall f | f in r :: exists h | h in hs :: f in Classify(h, query(h)))
      && (forall h | h in hs && query(h) == Granted :: MediaFolder(h.id, h.name, None) in r)
      && (forall h | h in hs && query(h) == Prompt :: MediaFolder(h.id, h.name, Some(true)) in r)
      && (forall f | f in r :: f.name in Names(hs))
    decreases |hs|
  {
    if hs != [] {
      var init := hs[..|hs| - 1];
      ClassifiedSpec(init, query);
      assert hs == init + [hs[|hs| - 1]];
    }
  }

  lemma ClassifyOne(h: HandleRecord, p: Permission)
    ensures |Classify(h, p)| <= 1 && forall f | f in Classify(h, p) :: f.name == h.name
  {
  }

  lemma {:induction false} ClassifiedNames(hs: seq<HandleRecord>, query: HandleRecord -> Permission)
    ensures forall f | f in Classified(hs, query) :: f.name in Names(hs)
    decreases |hs|
  {
    if hs != [] {
      var init := hs[..|hs| - 1];
      var last := hs[|hs| - 1];
      ClassifiedNames(init, query);
      assert hs == init + [last];
      NamesAppend(init, last);
      ClassifyOne(last, query(last));
    }
  }

  /** No two folders share a name. */
  predicate DistinctNames(fs: seq<MediaFolder>) {
    forall a, b | 0 <= a < b < |fs| :: fs[a].name != fs[b].name
  }

  lemma DistinctAppend(r0: seq<MediaFolder>, c: seq<MediaFolder>, names: set<string>, name: string)
    requires DistinctNames(r0) && |c| <= 1 && name !in names
    requires forall f | f in r0 :: f.name in names
    requires forall f | f in c :: f.name == name
    ensures DistinctNames(r0 + c)
  {
    var r := r0 + c;
    forall a, b | 0 <= a < b < |r| ensures r[a].name != r[b].name {
      if b >= |r0| {
        assert r[b] == c[b - |r0|] && r[b] in c;
        assert r[a] == r0[a] && r0[a] in r0;
      } else {
        assert r[a] == r0[a] && r[b] == r0[b];
      }
    }
  }

  lemma {:induction false} ClassifiedDistinct(hs: seq<HandleRecord>, query: HandleRecord -> Permission)
    requires DistinctRecordNames(hs)
    ensures DistinctNames(Classified(hs, query))
    decreases |hs|
  {
    if hs != [] {
      var init := hs[..|hs| - 1];
      var last := hs[|hs| - 1];
      DistinctInit(hs);
      ClassifiedDistinct(init, query);
      ClassifiedNames(init, query);
      ClassifyOne(last, query(last));
      DistinctAppend(Classified(init, query), Classify(last, query(last)), Names(init), last.name);
    }
  }

  /** The saved folders have different names, and every first record granted or asking is among them. */
  lemma SavedFoldersSpec(hs: seq<HandleRecord>, query: HandleRecord -> Permission)
    ensures var r := Classified(Firsts(hs), query);
      && DistinctNames(r)
      && (forall i | 0 <= i < |hs| && !SeenBefore(hs, i) && query(hs[i]) == Granted ::
            MediaFolder(hs[i].id, hs[i].name, None) in r)
      && (forall i | 0 <= i < |hs| && !SeenBefore(hs, i) && query(hs[i]) == Prompt ::
            MediaFolder(hs[i].id, hs[i].name, Some(true)) in r)
      && (forall f | f in r :: exists h | h in hs :: f in Classify(h, query(h)))
  {
    FirstsSpec(hs);
    ClassifiedSpec(Firsts(hs), query);
    ClassifiedDistinct(Firsts(hs), query);
  }

  lemma FirstsStep(hs: seq<HandleRecord>, i: nat)
    requires i < |hs|
    ensures Names(hs[..i + 1]) == Names(hs[..i]) + {hs[i].name}
    ensures Firsts(hs[..i + 1]) == if hs[i].name in Names(hs[..i]) then Firsts(hs[..i]) else Firsts(hs[..i]) + [hs[i]]
  {
    assert hs[..i + 1] == hs[..i] + [hs[i]];
    assert hs[..i + 1][..i] == hs[..i];
  }

  lemma ClassifiedAppend(hs: seq<HandleRecord>, h: HandleRecord, query: HandleRecord -> Permission)
    ensures Classified(hs + [h], query) == Classified(hs, query) + Classify(h, query(h))
  {
    assert (hs + [h])[..|hs|] == hs;
  }

  /**
   * Lines 229-245: the loop over the saved records skips a name already
   * seen and keeps granted and prompting folders: the first records of each
   * name, classified.
   */
  method ValidFolders(saved: seq<HandleRecord>, query: HandleRecord -> Permission) returns (valid: seq<MediaFolder>)
    ensures valid == Classified(Firsts(saved), query)
  {
    valid := [];
    var seenNames: set<string> := {};
    for i := 0 to |saved|
      invariant seenNames == Names(saved[..i])
      invariant valid == Classified(Firsts(saved[..i]), query)
    {
      var h := saved[i];
      FirstsStep(saved, i);
      if h.name in seenNames {
        continue;
      }
      seenNames := seenNames + {h.name};
      var permission := query(h);
      ClassifiedAppend(Firsts(saved[..i]), h, query);
      if permission == Granted {
        valid := valid + [MediaFolder(h.id, h.name, None)];
      } else if permission == Prompt {
        valid := valid + [MediaFolder(h.id, h.name, Some(true))];
      }
    }
    assert saved[..|saved|] == saved;
  }

  // ---------------------------------------------------------------- the store

  /** Lines 50-115: the folder-handle store, its records in key order. */
  class HandleStore {
    var records: seq<HandleRecord>

    ghost predicate Valid()
      reads this
    {
      UniqueIds(records)
    }

    constructor(records: seq<HandleRecord>)
      requires UniqueIds(records)
      ensures Valid() && this.records == records
    {
      this.records := records;
    }

    /** Lines 96-105: `removeHandle` */
    method RemoveHandle(id: string)
      requires Valid()
      modifies this
      ensures Valid()
      ensures records == WithoutIds(old(records), {id})
    {
      WithoutKeepsIds(records, {id});
      records := WithoutIds(records, {id});
    }

    /** Lines 118-134: `cleanupDuplicateHandles` keeps the first record of each name. */
    method CleanupDuplicateHandles()
      requires Valid()
      modifies this
      ensures Valid()
      ensures records == Firsts(old(records))
    {
      var handles := records;
      var toDelete := DuplicatesOf(handles);
      ghost var gone: set<string> := {};
      WithoutNone(handles);
      for k := 0 to |toDelete|
        invariant Valid()
        invariant gone == ToSet(toDelete[..k])
        invariant records == WithoutIds(handles, gone)
      {
        PrefixStep(toDelete, k);
        ToSetAppend(toDelete[..k], toDelete[k]);
        WithoutTwice(handles, gone, toDelete[k]);
        RemoveHandle(toDelete[k]);
        gone := gone + {toDelete[k]};
      }
      assert toDelete[..|toDelete|] == toDelete;
      CleanupKeepsFirsts(handles);
    }
  }

  // ---------------------------------------------------------------- the hook

  /** Lines 212-578: the state of `useMediaFolders`. */
  class MediaLibrary {
    var folders: seq<MediaFolder>
    var allMediaItems: seq<MediaItem>
    var selectedFolderId: Option<string>
    var activeMediaItem: Option<MediaItem>
    var itemFilters: map<string, Filters>
    const store: HandleStore

    /** Lines 213-217, 489-503; the filters read back from local storage are a parameter. */
    constructor(store: HandleStore, storedFilters: map<string, Filters>)
      ensures this.store == store
      ensures folders == [] && allMediaItems == [] && selectedFolderId == None && activeMediaItem == None
      ensures itemFilters == storedFilters
    {
      this.store := store;
      folders := [];
      allMediaItems := [];
      selectedFolderId := None;
      activeMediaItem := None;
      itemFilters := storedFilters;
    }

    /**
     * Lines 223-253: on mount, clean up the store, then list its records;
     * `mounted` says whether the component is still mounted when they arrive.
     */
    method LoadSavedFolders(query: HandleRecord -> Permission, mounted: bool)
      requires store.Valid()
      modifies this, store
      ensures store.Valid() && store.records == Firsts(old(store.records))
      ensures mounted ==> folders == Classified(Firsts(old(store.records)), query)
      ensures !mounted ==> folders == old(folders)
      ensures allMediaItems == old(allMediaItems) && selectedFolderId == old(selectedFolderId)
      ensures activeMediaItem == old(activeMediaItem) && itemFilters == old(itemFilters)
    {
      store.CleanupDuplicateHandles();
      var saved := store.records;
      var valid := ValidFolders(saved, query);
      FirstsIdempotent(old(store.records));
      if mounted {
        folders := valid;
      }
    }

    /**
     * Lines 326-347: `reconnectFolder`; `permission` is what the prompt
     * resolved to. Nothing happens for an unknown folder.
     */
    method ReconnectFolder(folderId: string, permission: Permission)
      modifies this
      ensures (exists k | 0 <= k < |old(folders)| :: old(folders)[k].id == folderId) && permission == Granted ==>
        folders == Reconnected(old(folders), folderId)
      ensures !((exists k | 0 <= k < |old(folders)| :: old(folders)[k].id == folderId) && permission == Granted) ==>
        folders == old(folders)
      ensures allMediaItems == old(allMediaItems) && selectedFolderId == old(selectedFolderId)
      ensures activeMediaItem == old(activeMediaItem) && itemFilters == old(itemFilters)
    {
      var found := exists k | 0 <= k < |folders| :: folders[k].id == folderId;
      if found && permission == Granted {
        folders := Reconnected(folders, folderId);
      }
    }

    /**
     * Lines 449-470: `removeFolder` deletes the record, drops the folder and
     * its items, and clears the selection when it was the removed folder.
     */
    method RemoveFolder(folderId: string)
      requires store.Valid()
      modifies this, store
      ensures store.Valid() && store.records == WithoutIds(old(store.records), {folderId})
      ensures allMediaItems == ItemsOutside(old(allMediaItems), folderId)
      ensures folders == FoldersOutside(old(folders), folderId)
      ensures selectedFolderId == if old(selectedFolderId) == Some(folderId) then None else old(selectedFolderId)
      ensures activeMediaItem == old(activeMediaItem) && itemFilters == old(itemFilters)
    {
      store.RemoveHandle(folderId);
      allMediaItems := ItemsOutside(allMediaItems, folderId);
      folders := FoldersOutside(folders, folderId);
      if selectedFolderId == Some(folderId) {
        selectedFolderId := None;
      }
    }

    /** Lines 516-518: `selectMediaForOutput` */
    method SelectMediaForOutput(item: Option<MediaItem>)
      modifies this
      ensures activeMediaItem == item
      ensures folders == old(folders) && allMediaItems == old(allMediaItems)
      ensures selectedFolderId == old(selectedFolderId) && itemFilters == old(itemFilters)
    {
      activeMediaItem := item;
    }

    /** Lines 527-539: `updateMediaFilters` */
    method UpdateMediaFilters(p: FilterPatch)
      modifies this
      ensures itemFilters == UpdatedFilters(old(itemFilters), activeMediaItem, p)
      ensures activeMediaItem.Some? ==> CurrentFilters(activeMediaItem, itemFilters) == Merged(CurrentFilters(activeMediaItem, old(itemFilters)), p)
      ensures folders == old(folders) && allMediaItems == old(allMediaItems)
      ensures selectedFolderId == old(selectedFolderId) && activeMediaItem == old(activeMediaItem)
    {
      if activeMediaItem.None? {
        return;
      }
      var id := activeMediaItem.value.id;
      var current := if id in itemFilters then itemFilters[id] else DefaultFilters;
      itemFilters := itemFilters[id := Merged(current, p)];
    }

    /** Lines 541-547: `resetMediaFilters` */
    method ResetMediaFilters()
      modifies this
      ensures itemFilters == ResetFilters(old(itemFilters), activeMediaItem)
      ensures FiltersToCss(CurrentFilters(activeMediaItem, itemFilters)) == "none"
      ensures folders == old(folders) && allMediaItems == old(allMediaItems)
      ensures selectedFolderId == old(selectedFolderId) && activeMediaItem == old(activeMediaItem)
    {
      DefaultsAreNone();
      if activeMediaItem.None? {
        return;
      }
      itemFilters := itemFilters[activeMediaItem.value.id := DefaultFilters];
    }
  }
}
