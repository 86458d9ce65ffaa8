/**
 * The blog page's data preparation (src/components/Blog.js): the 32-bit
 * string hash, the choice of a stock cover, the author's initials, the
 * normalisation of every post, and the typing animation's counter.
 */
module Blog {
  import opened Wrappers
  import JsText
  import Lists
  import opened JsValue

  // ---------------------------------------------------------------------------
  // hashInt

  const Two31: int := 0x8000_0000
  const Two32: int := 0x1_0000_0000

  /** ToInt32: the 32-bit two's-complement value congruent to `x`, as `|0` and `<<` apply it. */
  function ToInt32(x: int): (r: int)
    ensures -Two31 <= r < Two31
    ensures (x - r) % Two32 == 0
    ensures -Two31 <= x < Two31 ==> r == x
  {
    var m := x % Two32;
    if m >= Two31 then m - Two32 else m
  }

  function Abs(x: int): nat { if x < 0 then -x else x }

  /**
   * One round of the loop, `h = (h << 5) - h + code`: the shift works on the
   * 32-bit form of `h` and wraps, while the subtraction uses `h` itself.
   */
  function HashStep(h: int, code: int): int
  {
    ToInt32(ToInt32(h) * 32) - h + code
  }

  /** The value of `h` after the loop has read the code units `units`, one round per unit from the left. */
  function HashOf(units: seq<int>): int
    decreases |units|
  {
    if units == [] then 0 else HashStep(HashOf(units[..|units| - 1]), units[|units| - 1])
  }

  /** `hashInt(s)`: `Math.abs(h | 0)` over the UTF-16 code units of `s`; never negative, at most 2^31. */
  function Hash(s: string): (r: nat)
    ensures r <= Two31
  {
    Abs(ToInt32(HashOf(JsText.CodeUnits(s))))
  }

  /** `hashInt` as the loop it is, reading one code unit per round. */
  method HashInt(s: string) returns (r: nat)
    ensures r == Hash(s)
    ensures r <= Two31
  {
    var units := JsText.CodeUnits(s);
    var h := 0;
    var i := 0;
    while i < |units|
      invariant 0 <= i <= |units|
      invariant h == HashOf(units[..i])
    {
      assert units[..i + 1][..i] == units[..i];
      h := HashStep(h, units[i]);
      i := i + 1;
    }
    assert units[..|units|] == units;
    r := Abs(ToInt32(h));
  }

  /** The empty string hashes to 0. */
  lemma HashOfEmpty()
    ensures Hash("") == 0
  {
    assert JsText.CodeUnits("") == [];
  }

  /** A one-character string of the Basic Multilingual Plane hashes to the character's code. */
  lemma HashOfOneCharacter(c: char)
    requires c as int < 0x10000
    ensures Hash([c]) == c as int
  {
    JsText.CodeUnitsOfBmp([c]);
    assert JsText.CodeUnits([c]) == [c as int];
    HashOfOneUnit(c as int);
  }

  lemma HashOfOneUnit(u: int)
    requires 0 <= u < 0x10000
    ensures HashOf([u]) == u
  {
    assert [u][..0] == [];
  }

  /**
   * The unwrapped `h` grows by less than 2^32 per code unit, so for texts
   * below 2^21 code units it stays below 2^53 and the engine's doubles hold
   * it exactly, as the integers here do.
   */
  lemma {:induction false} HashMagnitude(units: seq<int>)
    requires forall k :: 0 <= k < |units| ==> 0 <= units[k] < 0x10000
    ensures -|units| * Two32 <= HashOf(units) <= |units| * Two32
    decreases |units|
  {
    if units != [] {
      var n := |units| - 1;
      HashMagnitude(units[..n]);
      var h := HashOf(units[..n]);
      assert HashOf(units) == ToInt32(ToInt32(h) * 32) - h + units[n];
      assert -n * Two32 <= h <= n * Two32;
    }
  }

  // ---------------------------------------------------------------------------
  // pickCover

  /** A stock cover's URL from its photo identifier; it has no white space at either end. */
  function Stock(id: string): (r: string)
    ensures r != [] && JsText.Trim(r) == r
  {
    var r := "https://images.unsplash.com/photo-" + id + "?q=80&w=1600&auto=format&fit=crop";
    assert r[0] == 'h' && r[|r| - 1] == 'p';
    JsText.TrimOfTrimmed(r);
    r
  }

  /** The URLs of a list of photo identifiers, in order. */
  function Covers(ids: seq<string>): (r: seq<string>)
    ensures |r| == |ids| && forall k :: 0 <= k < |ids| ==> r[k] == Stock(ids[k])
  {
    seq(|ids|, k requires 0 <= k < |ids| => Stock(ids[k]))
  }

  const GeneralIds: seq<string> := ["1519389950473-47ba0277781c", "1500530855697-b586d89ba3ee"]

  /** The photo identifiers behind `POOL`'s own properties: two for each of its four categories. */
  function PoolIds(key: string): (r: Option<seq<string>>)
    ensures r.Some? ==> |r.value| == 2
    ensures key == "General" ==> r == Some(GeneralIds)
  {
    if key == "Design" then Some(["1545239351-1141bd82e8a6", "1529336953121-ad5a0d43d0d2"])
    else if key == "Engineering" then Some(["1487058792275-0ad4aaf24ca7", "1555066931-4365d14bab8c"])
    else if key == "Growth" then Some(["1454165205744-3b78555e5572", "1504384308090-c894fdcc538d"])
    else if key == "General" then Some(GeneralIds)
    else None
  }

  /** The identifiers a category key draws from: its own, or the general pool's. */
  function IdsFor(key: string): (r: seq<string>)
    ensures |r| == 2
    ensures PoolIds(key).Some? ==> r == PoolIds(key).value
    ensures PoolIds(key).None? ==> r == GeneralIds
  {
    if PoolIds(key).Some? then PoolIds(key).value else GeneralIds
  }

  /**
   * `pickCover(cat, seed)` for the property key `key` (`String(cat)`): the
   * category's pool, or the general one when `POOL` has no such own
   * property, at position `hashInt(seed) % length`.
   */
  function PickCover(key: string, seed: string): (r: string)
    ensures r in Covers(IdsFor(key))
    ensures PoolIds(key).None? ==> r in Covers(GeneralIds)
    ensures r != "" && JsText.Trim(r) == r
  {
    var ids := IdsFor(key);
    var i := Hash(seed) % |ids|;
    assert Covers(ids)[i] == Stock(ids[i]);
    Stock(ids[i])
  }

  /** The same key and seed always give the same cover, the one at position `hashInt(seed) % 2`, always in bounds. */
  lemma PickCoverPosition(key: string, seed: string)
    ensures PickCover(key, seed) == Covers(IdsFor(key))[Hash(seed) % 2]
  {
  }

  /** The members every object inherits from `Object.prototype`: each is a function, or the prototype itself. */
  const InheritedKeys: set<string> := {
    "constructor", "hasOwnProperty", "isPrototypeOf", "propertyIsEnumerable", "toLocaleString",
    "toString", "valueOf", "__proto__", "__defineGetter__", "__defineSetter__",
    "__lookupGetter__", "__lookupSetter__"}

  /** What `POOL[key]` finds: an own list, an inherited member (truthy, with nothing at any index), or nothing. */
  datatype Lookup = OwnList(ids: seq<string>) | InheritedMember | NotFound

  function LookupPool(key: string): (r: Lookup)
    ensures r.OwnList? <==> PoolIds(key).Some?
    ensures r.InheritedMember? <==> PoolIds(key).None? && key in InheritedKeys
  {
    if PoolIds(key).Some? then OwnList(PoolIds(key).value)
    else if key in InheritedKeys then InheritedMember
    else NotFound
  }

  /**
   * `pickCover` as written: `POOL[cat] || POOL.General` also finds inherited
   * members, which are truthy, so the general pool is skipped; indexing a
   * function or the prototype by `hash % length` (a number, or NaN when the
   * function's `length` is 0 or missing) then finds nothing.
   */
  function PickCoverAsWritten(key: string, seed: string): (r: Value)
    ensures LookupPool(key).InheritedMember? <==> r.Undefined?
    ensures !r.Undefined? ==> r == Str(PickCover(key, seed))
  {
    var list := match LookupPool(key)
      case NotFound => OwnList(GeneralIds)
      case found => found;
    match list
    case OwnList(ids) => Str(Stock(ids[Hash(seed) % |ids|]))
    case _ => Undefined
  }

  /** As written, a post filed under the category "constructor" or "toString" gets no cover at all, whatever its seed. */
  lemma InheritedCategoryHasNoCover(seed: string)
    ensures PickCoverAsWritten("constructor", seed) == Undefined
    ensures PickCoverAsWritten("toString", seed) == Undefined
  {
    ConstructorIsInherited("constructor");
    ToStringIsInherited("toString");
  }

  lemma ToStringIsInherited(key: string)
    requires key == "toString"
    ensures LookupPool(key).InheritedMember? && PoolIds(key).None?
  {
    assert key in InheritedKeys;
  }

  /** The two agree on every category key that is not the name of an inherited member. */
  lemma AsWrittenAgreesElsewhere(key: string, seed: string)
    requires key !in InheritedKeys || PoolIds(key).Some?
    ensures PickCoverAsWritten(key, seed) == Str(PickCover(key, seed))
  {
  }

  // ---------------------------------------------------------------------------
  // avatar

  /** `n[0]` joined into the initials: the first character, or nothing for an empty piece. */
  function FirstOf(piece: string): (r: string)
    ensures piece == [] ==> r == []
    ensures piece != [] ==> r == [piece[0]]
  {
    if piece == [] then "" else [piece[0]]
  }

  /**
   * `name.split(" ").map(n => n[0]).slice(0, 2).join("")`: the first
   * characters of the first two pieces between single spaces (an empty piece
   * contributes nothing).
   */
  function Initials(name: string): (r: string)
    ensures |r| <= 2
    ensures ' ' !in r
  {
    var pieces := JsText.Split(name, ' ');
    var firsts := seq(|pieces|, k requires 0 <= k < |pieces| => FirstOf(pieces[k]));
    if |firsts| == 1 then firsts[0] else firsts[0] + firsts[1]
  }

  /** A word followed by a space and the rest of the text splits off as the first piece. */
  lemma {:induction false} SplitAtFirstSpace(a: string, t: string)
    requires ' ' !in a
    ensures JsText.Split(a + " " + t, ' ') == [a] + JsText.Split(t, ' ')
    decreases |a|
  {
    if a == [] {
      assert a + " " + t == [' '] + t;
      assert (a + " " + t)[1..] == t;
    } else {
      assert (a + " " + t)[1..] == a[1..] + " " + t;
      SplitAtFirstSpace(a[1..], t);
      assert [a[0]] + a[1..] == a;
    }
  }

  /** A text without spaces is a single piece. */
  lemma {:induction false} SplitWithoutSpace(a: string)
    requires ' ' !in a
    ensures JsText.Split(a, ' ') == [a]
    decreases |a|
  {
    if a != [] {
      SplitWithoutSpace(a[1..]);
      assert [a[0]] + a[1..] == a;
    }
  }

  /** A one-word name gives its first character: the default "CS" gives "C". */
  lemma InitialsOfOneWord(a: string)
    requires a != [] && ' ' !in a
    ensures Initials(a) == [a[0]]
  {
    SplitWithoutSpace(a);
  }

  /** Two words separated by one space give their two first characters; what follows a further space is ignored. */
  lemma InitialsOfTwoWords(a: string, b: string, t: string)
    requires a != [] && b != [] && ' ' !in a && ' ' !in b
    ensures Initials(a + " " + b) == [a[0], b[0]]
    ensures Initials(a + " " + b + " " + t) == [a[0], b[0]]
  {
    SplitAtFirstSpace(a, b);
    SplitWithoutSpace(b);
    SplitAtFirstSpace(a, b + " " + t);
    SplitAtFirstSpace(b, t);
    assert a + " " + b + " " + t == a + " " + (b + " " + t);
  }

  /** A name typed with a leading space loses its second initial: only the first word's letter is left. */
  lemma LeadingSpaceDropsInitial(a: string, t: string)
    requires a != [] && ' ' !in a
    ensures Initials(" " + a + " " + t) == [a[0]]
  {
    SplitAtFirstSpace("", a + " " + t);
    SplitAtFirstSpace(a, t);
    assert " " + a + " " + t == "" + " " + (a + " " + t);
  }

  const AvatarBase := "https://dummyimage.com/" + "96x96/111827/ffffff&text="

  /** `avatar(name)`, with `encodeURIComponent` as the parameter `encode`. */
  function AvatarUrl(name: string, encode: string -> string): string
  {
    AvatarBase + encode(Initials(name))
  }

  // ---------------------------------------------------------------------------
  // normalize

  /** A post as the page receives it: its own properties. */
  type Post = map<string, Value>

  function Prop(p: Post, k: string): Value { if k in p then p[k] else Undefined }

  const Overridden: set<string> := {"cover", "author", "readingTime", "_avatar"}
  const DefaultAuthor := "Creative Sparkles"
  const DefaultReadingTime := "5 min"

  /** `(p.tags || []).join(",")`: `None` when truthy tags are not an array, which has no `join` and throws. */
  function TagsText(tags: Value): (r: Option<string>)
    ensures r.None? <==> Truthy(tags) && !tags.Arr?
    ensures !Truthy(tags) ==> r == Some("")
  {
    var t := Or(tags, Arr([]));
    if t.Arr? then Some(ToStr(t)) else None
  }

  /** The hash seed `${title}|${category}|${tags}`. */
  function Seed(p: Post): (r: Option<string>)
    ensures r.Some? <==> TagsText(Prop(p, "tags")).Some?
  {
    match TagsText(Prop(p, "tags"))
    case None => None
    case Some(tags) => Some(ToStr(Prop(p, "title")) + "|" + ToStr(Prop(p, "category")) + "|" + tags)
  }

  /** A cover given as text that is not all white space. */
  predicate HasOwnCover(p: Post) {
    var c := Prop(p, "cover");
    c.Str? && JsText.Trim(c.s) != ""
  }

  /** `POOL[p.category]` looks the category up by its property key, `String(p.category)`. */
  function CategoryKey(p: Post): string { ToStr(Prop(p, "category")) }

  /**
   * `(p.cover && p.cover.trim()) || pickCover(...)` as written: `None` when a
   * truthy cover is not text (no `trim`) or when the seed's tags throw; the
   * seed is only built when the post has no cover of its own; a category
   * named after an inherited member leaves the cover `undefined`.
   */
  function CoverOf(p: Post): (r: Option<Value>)
    ensures HasOwnCover(p) ==> r == Some(Str(JsText.Trim(Prop(p, "cover").s)))
    ensures r.None? <==> (Truthy(Prop(p, "cover")) && !Prop(p, "cover").Str?) || (!HasOwnCover(p) && Seed(p).None?)
    ensures r.Some? && !HasOwnCover(p) ==> (r.value.Undefined? <==> LookupPool(CategoryKey(p)).InheritedMember?)
    ensures r.Some? && !HasOwnCover(p) && !r.value.Undefined? ==> r.value.Str? && r.value.s in Covers(IdsFor(CategoryKey(p)))
    ensures r.Some? && !r.value.Undefined? ==> r.value.Str? && r.value.s != "" && JsText.Trim(r.value.s) == r.value.s
  {
    var c := Prop(p, "cover");
    if Truthy(c) && !c.Str? then None
    else if HasOwnCover(p) then
      JsText.TrimIdempotent(c.s);
      Some(Str(JsText.Trim(c.s)))
    else match Seed(p)
      case None => None
      case Some(seed) => Some(PickCoverAsWritten(CategoryKey(p), seed))
  }

  /** The cover with the general pool as the fallback for every category `POOL` does not own. */
  function CoverFixed(p: Post): (r: Option<string>)
    ensures HasOwnCover(p) ==> r == Some(JsText.Trim(Prop(p, "cover").s))
    ensures r.None? <==> (Truthy(Prop(p, "cover")) && !Prop(p, "cover").Str?) || (!HasOwnCover(p) && Seed(p).None?)
    ensures r.Some? && !HasOwnCover(p) ==> r.value in Covers(IdsFor(CategoryKey(p)))
    ensures r.Some? ==> r.value != "" && JsText.Trim(r.value) == r.value
  {
    var c := Prop(p, "cover");
    if Truthy(c) && !c.Str? then None
    else if HasOwnCover(p) then
      JsText.TrimIdempotent(c.s);
      Some(JsText.Trim(c.s))
    else match Seed(p)
      case None => None
      case Some(seed) => Some(PickCover(CategoryKey(p), seed))
  }

  /**
   * The cover as written and the corrected one fail together, and differ
   * only where the first is `undefined`: for a post without its own cover
   * whose category names an inherited member.
   */
  lemma CoverOfAgreesWithFixed(p: Post)
    ensures CoverOf(p).None? <==> CoverFixed(p).None?
    ensures CoverOf(p).Some? && !CoverOf(p).value.Undefined? ==> CoverOf(p).value == Str(CoverFixed(p).value)
    ensures CoverOf(p).Some? && CoverOf(p).value.Undefined? ==>
      !HasOwnCover(p) && CategoryKey(p) in InheritedKeys && PoolIds(CategoryKey(p)).None?
  {
    CoverFailsLikeFixed(p);
    UndefinedNeedsInheritedKey(p);
    if CoverOf(p).Some? && !CoverOf(p).value.Undefined? {
      if HasOwnCover(p) { OwnCoverAgrees(p); } else { SeededCoverAgrees(p); }
    }
  }

  lemma CoverFailsLikeFixed(p: Post)
    ensures CoverOf(p).None? <==> CoverFixed(p).None?
  {
  }

  lemma OwnCoverAgrees(p: Post)
    requires CoverOf(p).Some? && HasOwnCover(p)
    ensures CoverOf(p).value == Str(CoverFixed(p).value)
  {
  }

  lemma SeededCoverAgrees(p: Post)
    requires CoverOf(p).Some? && !HasOwnCover(p) && !CoverOf(p).value.Undefined?
    ensures CoverOf(p).value == Str(CoverFixed(p).value)
  {
    CoverFromSeed(p);
    FixedCoverFromSeed(p);
  }

  lemma UndefinedNeedsInheritedKey(p: Post)
    ensures CoverOf(p).Some? && CoverOf(p).value.Undefined? ==>
      !HasOwnCover(p) && CategoryKey(p) in InheritedKeys && PoolIds(CategoryKey(p)).None?
  {
  }

  /** Without an own cover, the corrected cover is the corrected pick from the seed. */
  lemma FixedCoverFromSeed(p: Post)
    requires CoverFixed(p).Some? && !HasOwnCover(p)
    ensures Seed(p).Some? && CoverFixed(p) == Some(PickCover(CategoryKey(p), Seed(p).value))
  {
  }

  /** A post filed under "constructor" with no cover of its own gets `undefined` as written, and a general cover once corrected. */
  lemma ConstructorPostHasNoCover(p: Post)
    requires !Truthy(Prop(p, "cover")) && Seed(p).Some? && CategoryKey(p) == "constructor"
    ensures CoverOf(p) == Some(Undefined)
    ensures CoverFixed(p).Some? && CoverFixed(p).value in Covers(GeneralIds)
  {
    var key, seed := CategoryKey(p), Seed(p).value;
    ConstructorIsInherited(key);
    assert !HasOwnCover(p);
    assert CoverOf(p) == Some(PickCoverAsWritten(key, seed));
    assert CoverFixed(p) == Some(PickCover(key, seed));
  }

  lemma ConstructorIsInherited(key: string)
    requires key == "constructor"
    ensures LookupPool(key).InheritedMember? && PoolIds(key).None?
  {
    assert key in InheritedKeys;
  }

  /** `avatar(p.author || "CS")`: `None` when a truthy author is not text (no `split`). */
  function AvatarOf(p: Post, encode: string -> string): (r: Option<string>)
    ensures r.None? <==> Truthy(Prop(p, "author")) && !Prop(p, "author").Str?
    ensures !Truthy(Prop(p, "author")) ==> r == Some(AvatarUrl("CS", encode))
  {
    var name := Or(Prop(p, "author"), Str("CS"));
    if name.Str? then Some(AvatarUrl(name.s, encode)) else None
  }

  /** `{ ...p, cover, author, readingTime, _avatar }`: the four set, every other own property kept. */
  function Override(p: Post, cover: Value, author: Value, readingTime: Value, avatar: Value): (q: Post)
    ensures forall k :: k in q <==> k in p || k in Overridden
    ensures forall k :: k in p && k !in Overridden ==> q[k] == p[k]
    ensures q["cover"] == cover && q["author"] == author && q["readingTime"] == readingTime && q["_avatar"] == avatar
  {
    p["cover" := cover]["author" := author]["readingTime" := readingTime]["_avatar" := avatar]
  }

  /**
   * One post of `normalize`: every own property kept except the four it sets;
   * `None` when one of the calls on a field throws.
   */
  function NormalizePost(p: Post, encode: string -> string): (r: Option<Post>)
    ensures r.Some? <==> CoverOf(p).Some? && AvatarOf(p, encode).Some?
    ensures r.Some? ==> forall k :: k in r.value <==> k in p || k in Overridden
    ensures r.Some? ==> forall k :: k in p && k !in Overridden ==> r.value[k] == p[k]
  {
    match (CoverOf(p), AvatarOf(p, encode))
    case (Some(cover), Some(url)) =>
      Some(Override(p, cover, Or(Prop(p, "author"), Str(DefaultAuthor)),
                    Or(Prop(p, "readingTime"), Str(DefaultReadingTime)), Str(url)))
    case _ => None
  }

  /**
   * The four fields a normalised post always carries: a cover that is
   * non-empty text or, for an inherited-member category, `undefined`; an
   * author and a reading time that are truthy; and an avatar.
   */
  lemma NormalizedFields(p: Post, encode: string -> string)
    requires NormalizePost(p, encode).Some?
    ensures var q := NormalizePost(p, encode).value;
      && q["cover"] == CoverOf(p).value
      && (q["cover"].Undefined? || (q["cover"].Str? && q["cover"].s != ""))
      && (q["cover"].Undefined? ==> CategoryKey(p) in InheritedKeys)
      && q["author"] == (if Truthy(Prop(p, "author")) then Prop(p, "author") else Str(DefaultAuthor))
      && q["readingTime"] == (if Truthy(Prop(p, "readingTime")) then Prop(p, "readingTime") else Str(DefaultReadingTime))
      && q["_avatar"] == Str(AvatarOf(p, encode).value)
  {
    CoverOfAgreesWithFixed(p);
  }

  /** `normalize(arr)`: every post normalised, in order; `None` when any of them throws. */
  function Normalize(arr: seq<Post>, encode: string -> string): (r: Option<seq<Post>>)
    ensures r.Some? <==> forall i :: 0 <= i < |arr| ==> NormalizePost(arr[i], encode).Some?
    ensures r.Some? ==> |r.value| == |arr|
    ensures r.Some? ==> forall i :: 0 <= i < |arr| ==> r.value[i] == NormalizePost(arr[i], encode).value
  {
    Lists.MapAll(arr, p => NormalizePost(p, encode))
  }

  /** Normalising a normalised post again succeeds and keeps its cover, `undefined` included. */
  lemma NormalizeSettles(p: Post, encode: string -> string)
    requires NormalizePost(p, encode).Some?
    ensures var q := NormalizePost(p, encode).value;
      NormalizePost(q, encode).Some? && NormalizePost(q, encode).value["cover"] == q["cover"]
  {
    var q := NormalizePost(p, encode).value;
    assert Prop(q, "author") == Or(Prop(p, "author"), Str(DefaultAuthor));
    if CoverOf(p).value.Undefined? {
      UndefinedCoverSettles(p, q);
    } else {
      assert Prop(q, "cover") == CoverOf(p).value;
      assert HasOwnCover(q);
    }
  }

  /** A post left with an `undefined` cover reads the same seed again and is left without one again. */
  lemma UndefinedCoverSettles(p: Post, q: Post)
    requires CoverOf(p).Some? && CoverOf(p).value.Undefined?
    requires forall k :: k in p && k !in Overridden ==> k in q && q[k] == p[k]
    requires forall k :: k in q && k !in Overridden ==> k in p
    requires "cover" in q && q["cover"] == Undefined
    ensures CoverOf(q) == Some(Undefined)
  {
    SameSeed(p, q);
    CoverFromSeed(p);
    CoverWithoutOwn(q);
  }

  /** Posts that agree outside the four overridden fields have the same seed and category key. */
  lemma SameSeed(p: Post, q: Post)
    requires forall k :: k in p && k !in Overridden ==> k in q && q[k] == p[k]
    requires forall k :: k in q && k !in Overridden ==> k in p
    ensures Seed(q) == Seed(p) && CategoryKey(q) == CategoryKey(p)
  {
    assert Prop(q, "title") == Prop(p, "title");
    assert Prop(q, "category") == Prop(p, "category");
    assert Prop(q, "tags") == Prop(p, "tags");
  }

  /** A cover that is not the post's own comes from the seed. */
  lemma CoverFromSeed(p: Post)
    requires CoverOf(p).Some? && !HasOwnCover(p)
    ensures Seed(p).Some? && CoverOf(p) == Some(PickCoverAsWritten(CategoryKey(p), Seed(p).value))
  {
  }

  /** A post whose cover is falsy takes the picked one. */
  lemma CoverWithoutOwn(p: Post)
    requires !Truthy(Prop(p, "cover")) && Seed(p).Some?
    ensures CoverOf(p) == Some(PickCoverAsWritten(CategoryKey(p), Seed(p).value))
  {
    FalsyCoverIsNotOwn(Prop(p, "cover"));
  }

  lemma FalsyCoverIsNotOwn(c: Value)
    requires !Truthy(c)
    ensures !(c.Str? && JsText.Trim(c.s) != "")
  {
    if c.Str? { JsText.TrimOfTrimmed(c.s); }
  }

  // ---------------------------------------------------------------------------
  // TypingWord

  /** One interval tick: `setI(v => v >= word.length ? v : v + 1)`, with `len` the word's length. */
  function Tick(len: nat, v: int): int
  {
    if v >= len then v else v + 1
  }

  /** `n` ticks in a row. */
  function Ticks(len: nat, v: int, n: nat): int
    decreases n
  {
    if n == 0 then v else Ticks(len, Tick(len, v), n - 1)
  }

  /** The counter never leaves `0..word.length` once it is in it. */
  lemma TickKeepsRange(len: nat, v: int)
    requires 0 <= v <= len
    ensures 0 <= Tick(len, v) <= len
    ensures Tick(len, v) == len <==> v >= len - 1
  {
  }

  /** From a counter in range, after `n` ticks it reads `min(v + n, word.length)`. */
  lemma {:induction false} TicksReach(len: nat, v: int, n: nat)
    requires 0 <= v <= len
    ensures Ticks(len, v, n) == if v + n <= len then v + n else len
    decreases n
  {
    if n > 0 {
      TicksReach(len, Tick(len, v), n - 1);
    }
  }

  /** The text shown: the first `i` UTF-16 code units of the word. */
  function Shown(word: string, i: nat): (r: seq<int>)
    requires i <= JsText.Length(word)
    ensures |r| == i && r == JsText.CodeUnits(word)[..i]
  {
    JsText.CodeUnits(word)[..i]
  }

  /** Starting from 0, the text shown after `n` ticks is the first `n` units, and the whole word from `word.length` ticks on. */
  lemma TypingShowsPrefix(word: string, n: nat)
    ensures var i := Ticks(JsText.Length(word), 0, n);
      && 0 <= i <= JsText.Length(word)
      && (n >= JsText.Length(word) ==> Shown(word, i) == JsText.CodeUnits(word))
      && (n < JsText.Length(word) ==> i == n)
  {
    TicksReach(JsText.Length(word), 0, n);
  }
}
