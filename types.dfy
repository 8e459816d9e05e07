/**
 * The shared record types of the app (src/types/index.ts) and the colour
 * class of a slide label.
 *
 * Document ids are strings; times are integers.
 */
module Types {
  import opened Wrappers
  import opened Text

  /** A slide of a song; `section` is the source's `label` field, such as `Verse 1` (`label` is a reserved word in Dafny). */
  datatype Slide = Slide(text: string, section: Option<string>, modifier: Option<string>, backgroundId: Option<string>)

  datatype Song = Song(id: string, creationTime: int, orgId: string, categoryId: Option<string>, title: string,
                       lyrics: string, slides: seq<Slide>, createdAt: int, updatedAt: Option<int>)

  /**
   * `rows.find((r) => r._id === id)`, as the selectors and the songs and
   * services hooks write it: the index of the first row whose id is `id`,
   * or `|rows|` when there is none.
   */
  function FindById<R>(rows: seq<R>, idOf: R -> string, id: string): (i: nat)
    ensures i <= |rows|
    ensures forall j | 0 <= j < i :: idOf(rows[j]) != id
    ensures i < |rows| ==> idOf(rows[i]) == id
    decreases |rows|
  {
    if rows == [] || idOf(rows[0]) == id then 0 else 1 + FindById(rows[1..], idOf, id)
  }

  function SongId(s: Song): string { s.id }

  /** The first song with id `id`. */
  function FindSong(songs: seq<Song>, id: string): nat {
    FindById(songs, SongId, id)
  }

  datatype ItemType = SongItem | MediaItem | ScriptureItem

  /** An entry of a service's running order. */
  datatype ServiceItem = ServiceItem(kind: ItemType, refId: string, itemLabel: Option<string>, addedAt: int)

  datatype Service = Service(id: string, creationTime: int, orgId: string, name: string, date: Option<string>,
                             items: seq<ServiceItem>, createdAt: int)

  function ServiceId(s: Service): string { s.id }

  /** The first service with id `id`. */
  function FindService(services: seq<Service>, id: string): nat {
    FindById(services, ServiceId, id)
  }

  datatype Category = Category(id: string, creationTime: int, orgId: string, name: string, isDefault: bool,
                               order: int, createdAt: int)

  // ---------------------------------------------------------------- label colours

  /** Lines 88-101: `LABEL_COLORS`, its keys in declaration order. */
  const LabelColors: seq<(string, string)> := [
    ("verse", "bg-blue-600 text-white"),
    ("chorus", "bg-primary text-primary-foreground"),
    ("bridge", "bg-purple-600 text-white"),
    ("intro", "bg-green-600 text-white"),
    ("outro", "bg-orange-600 text-white"),
    ("tag", "bg-yellow-500 text-black"),
    ("pre-chorus", "bg-cyan-600 text-white"),
    ("opening", "bg-indigo-600 text-white"),
    ("closing", "bg-rose-600 text-white"),
    ("praise", "bg-violet-600 text-white"),
    ("worship", "bg-fuchsia-600 text-white"),
    ("default", "bg-secondary text-secondary-foreground")
  ]

  const DefaultColor := "bg-secondary text-secondary-foreground"
  const ChorusColor := "bg-primary text-primary-foreground"

  /** The classes of the table. */
  predicate IsLabelColor(c: string) {
    exists i | 0 <= i < |LabelColors| :: LabelColors[i].1 == c
  }

  /** Lines 106-109: the class of the first key of `keys` that occurs in `lower`. */
  function FirstColor(lower: string, keys: seq<(string, string)>): (r: string)
    ensures r == DefaultColor || exists i | 0 <= i < |keys| :: keys[i].1 == r
    decreases |keys|
  {
    if keys == [] then DefaultColor
    else if Contains(lower, keys[0].0) then keys[0].1
    else FirstColor(lower, keys[1..])
  }

  /** Lines 103-110: `getLabelColor` */
  function GetLabelColor(tag: Option<string>): (r: string)
    ensures IsLabelColor(r)
  {
    assert LabelColors[11].1 == DefaultColor;
    if tag.None? || tag.value == "" then DefaultColor else FirstColor(Lower(tag.value), LabelColors)
  }

  /** Where the search over `keys` stops: at the first key that occurs in `lower`. */
  function FirstKey(lower: string, keys: seq<(string, string)>): (i: nat)
    ensures i <= |keys|
    ensures forall j | 0 <= j < i :: !Contains(lower, keys[j].0)
    ensures i < |keys| ==> Contains(lower, keys[i].0)
    decreases |keys|
  {
    if keys == [] || Contains(lower, keys[0].0) then 0 else 1 + FirstKey(lower, keys[1..])
  }

  /** The search gives the class of the first key occurring in the text, or the default class. */
  lemma {:induction false} FirstColorSpec(lower: string, keys: seq<(string, string)>)
    ensures var i := FirstKey(lower, keys);
      FirstColor(lower, keys) == if i < |keys| then keys[i].1 else DefaultColor
    decreases |keys|
  {
    if keys != [] && !Contains(lower, keys[0].0) {
      FirstColorSpec(lower, keys[1..]);
    }
  }

  /**
   * A missing or empty label takes the default class; any other takes the
   * class of the first key, in declaration order, that occurs in the label
   * in lower case, or the default class when none does.
   */
  lemma GetLabelColorSpec(tag: Option<string>)
    ensures tag.None? || tag.value == "" ==> GetLabelColor(tag) == DefaultColor
    ensures tag.Some? && tag.value != "" ==>
      var i := FirstKey(Lower(tag.value), LabelColors);
      GetLabelColor(tag) == if i < |LabelColors| then LabelColors[i].1 else DefaultColor
  {
    if tag.Some? && tag.value != "" {
      FirstColorSpec(Lower(tag.value), LabelColors);
    }
  }

  /** Matching ignores case: labels equal up to case get the same class. */
  lemma LabelColorIgnoresCase(a: string, b: string)
    requires Lower(a) == Lower(b)
    ensures GetLabelColor(Some(a)) == GetLabelColor(Some(b))
  {
    assert |a| == |Lower(a)| == |b|;
  }

  lemma ContainsWithin(s: string, p: string, i: int, q: string, k: int)
    requires OccursAt(s, p, i) && OccursAt(p, q, k)
    ensures Contains(s, q)
  {
    forall j | 0 <= j < |q| ensures s[i + k + j] == q[j] {
      assert q[j] == p[k..k + |q|][j] == p[k + j];
      assert p[k + j] == s[i..i + |p|][k + j];
    }
    assert s[i + k..i + k + |q|] == q;
    assert OccursAt(s, q, i + k);
  }

  /**
   * Every label holding `pre-chorus` also holds `chorus`, which comes first
   * in the table, so it gets the chorus class unless it also holds `verse`.
   */
  lemma PreChorusShadowed(tag: string)
    requires Contains(Lower(tag), "pre-chorus") && !Contains(Lower(tag), "verse")
    ensures GetLabelColor(Some(tag)) == ChorusColor
  {
    var lower := Lower(tag);
    var i :| 0 <= i <= |lower| && OccursAt(lower, "pre-chorus", i);
    assert OccursAt("pre-chorus", "chorus", 4);
    ContainsWithin(lower, "pre-chorus", i, "chorus", 4);
    assert tag != "";
  }
}
