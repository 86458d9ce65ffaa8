/**
 * The testimonials page (src/components/T.js): default avatars, the star
 * row, the rating shown for an item, the demo items and fallback logos, and
 * the submission form with its reset.
 */
module TestimonialPage {
  import JsText
  import opened JsNumber
  import opened JsValue

  // ---------------------------------------------------------------------------
  // Avatars

  /** The photo identifiers of the seven stock head shots, in order. */
  const HeadshotIds: seq<string> := [
    "1556157382-97eda2d62296", "1552374196-c4e7ffc6e126", "1548142813-c348350df52b",
    "1547425260-76bcadfb4f2c", "1547425260-1abd7459fc66", "1519345182560-3f2917c472ef",
    "1554151228-14d9def656e4"]

  const ShotPrefix := "https://images.unsplash.com/photo-"
  const ShotSuffix := "?q=80&w=800&auto=format&fit=crop"

  /** A head shot's URL from its photo identifier. */
  function Shot(id: string): string { ShotPrefix + id + ShotSuffix }

  /** `UNSPLASH_HEADSHOTS` */
  function Headshots(): (r: seq<string>)
    ensures |r| == 7
    ensures forall k :: 0 <= k < 7 ==> r[k] == Shot(HeadshotIds[k])
  {
    seq(7, k requires 0 <= k < 7 => Shot(HeadshotIds[k]))
  }

  /** `defaultAvatar(i)` for a card position `i` (never negative): the head shots in turn, always one of them. */
  function DefaultAvatar(i: nat): (r: string)
    ensures r in Headshots()
  {
    Headshots()[i % |Headshots()|]
  }

  /** Cards seven apart get the same default head shot. */
  lemma DefaultAvatarPeriodic(i: nat)
    ensures DefaultAvatar(i + 7) == DefaultAvatar(i)
  {
    assert (i + 7) % 7 == i % 7;
  }

  /** The first seven cards get seven different head shots. */
  lemma DefaultAvatarDistinct(i: nat, j: nat)
    requires i < 7 && j < 7
    ensures DefaultAvatar(i) == DefaultAvatar(j) <==> i == j
  {
    if i != j {
      var h := Headshots();
      assert i % 7 == i && j % 7 == j;
      assert DefaultAvatar(i) == h[i] && DefaultAvatar(j) == h[j];
      IdsDistinct(i, j);
      ShotInjective(HeadshotIds[i], HeadshotIds[j]);
    }
  }

  lemma ShotInjective(a: string, b: string)
    ensures Shot(a) == Shot(b) ==> a == b
  {
    if Shot(a) == Shot(b) {
      JsText.FrameInjective(ShotPrefix, a, b, ShotSuffix);
    }
  }

  lemma IdsDistinct(i: nat, j: nat)
    requires i < 7 && j < 7 && i != j
    ensures HeadshotIds[i] != HeadshotIds[j]
  {
    // the identifiers differ at their fourth or their twelfth character
    assert HeadshotIds[i][3] != HeadshotIds[j][3] || HeadshotIds[i][11] != HeadshotIds[j][11];
  }

  /** A record as the page reads it: the five fields the cards, the modal and the form use. */
  datatype Item = Item(name: Value, role: Value, quote: Value, rating: Value, avatar: Value)

  /** The card's picture: `item.avatar || defaultAvatar(i)`. */
  function CardAvatar(item: Item, i: nat): Value
  {
    Or(item.avatar, Str(DefaultAvatar(i)))
  }

  /** The modal's picture: `item.avatar || defaultAvatar(0)`, whatever the card's position. */
  function ModalAvatar(item: Item): Value
  {
    Or(item.avatar, Str(DefaultAvatar(0)))
  }

  /** An item without its own picture shows a different face in the modal than on its card, except on every seventh card. */
  lemma ModalAvatarDiffers(item: Item, i: nat)
    requires !Truthy(item.avatar)
    ensures CardAvatar(item, i) == ModalAvatar(item) <==> i % 7 == 0
  {
    assert DefaultAvatar(i) == DefaultAvatar(i % 7) by { assert (i % 7) % 7 == i % 7; }
    DefaultAvatarDistinct(i % 7, 0);
  }

  // ---------------------------------------------------------------------------
  // Stars and ratings

  /** `item.rating ?? 5`: the card and the modal both show this. */
  function ShownRating(item: Item): (r: Value)
    ensures !Nullish(r)
  {
    Coalesce(item.rating, Num(FromInt(5)))
  }

  /** `Stars({ n = 5 })`: five stars, star `i` filled when `i < n`. */
  function Stars(n: Value): (r: seq<bool>)
    ensures |r| == 5
    ensures forall i :: 0 <= i < 5 ==> r[i] == Less(FromInt(i), ToNumber(if n.Undefined? then Num(FromInt(5)) else n))
  {
    var x := ToNumber(if n.Undefined? then Num(FromInt(5)) else n);
    seq(5, i => Less(FromInt(i), x))
  }

  /** For a whole rating `k`, the filled stars are exactly the first `k` of the five (all five beyond 5, none below 1). */
  lemma StarsOfWhole(k: int)
    ensures forall i :: 0 <= i < 5 ==> (Stars(Num(FromInt(k)))[i] <==> i < k)
  {
    var r := Stars(Num(FromInt(k)));
    forall i | 0 <= i < 5 ensures r[i] <==> i < k {
      assert r[i] == Less(FromInt(i), FromInt(k));
      WholeLess(i, k);
    }
  }

  /** `<` on two whole numbers is `<` on the integers. */
  lemma WholeLess(i: int, k: int)
    ensures Less(FromInt(i), FromInt(k)) <==> i < k
  {
    MagnitudeOfInt(i);
    MagnitudeOfInt(k);
  }

  /** A rating that is not a number fills no star. */
  lemma StarsOfNaN(n: Value)
    requires !n.Undefined? && ToNumber(n).NaN?
    ensures forall i :: 0 <= i < 5 ==> !Stars(n)[i]
  {
  }

  /** An item with a missing or null rating shows five filled stars. */
  lemma MissingRatingShowsFive(item: Item)
    requires Nullish(item.rating)
    ensures forall i :: 0 <= i < 5 ==> Stars(ShownRating(item))[i]
  {
    StarsOfWhole(5);
  }

  // ---------------------------------------------------------------------------
  // Items and logos

  /** The six demo testimonials shown when the page is given none. */
  function DemoItems(): (r: seq<Item>)
    ensures |r| == 6
  {
    [ Demo("They shipped in half the time and doubled our conversion.", "Adams A.", "Growth Lead, Fintech", 5),
      Demo("Engineering rigor with design taste rare and valuable.", "Doris B.", "Founder, Media", 5),
      Demo("From strategy to ship, the team just gets it.", "Evans O.", "Head of Product", 5),
      Demo("World class UI and blazing performance.", "Sofia M.", "Marketing Director", 4),
      Demo("Clear communication and tight execution.", "Chinedu K.", "Product Manager", 5),
      Demo("Truly a partner, not just a vendor.", "Ifeoma I.", "Operations Lead", 5) ]
  }

  function Demo(quote: string, name: string, role: string, rating: int): Item
  {
    Item(Str(name), Str(role), Str(quote), Num(FromInt(rating)), Undefined)
  }

  /** `testimonials.length ? testimonials : demo`: the grid is never empty, and given items are shown as given. */
  function Items(testimonials: seq<Item>): (r: seq<Item>)
    ensures |r| > 0
    ensures |testimonials| > 0 ==> r == testimonials
    ensures |testimonials| == 0 ==> r == DemoItems()
  {
    if |testimonials| > 0 then testimonials else DemoItems()
  }

  /** The demo items all carry a rating, so no demo card falls back to the default. */
  lemma DemoRatingsPresent(k: nat)
    requires k < 6
    ensures !Nullish(DemoItems()[k].rating) && ShownRating(DemoItems()[k]) == DemoItems()[k].rating
  {
  }

  /** The names the generated logos carry. */
  const FallbackNames: seq<string> := ["ACME", "NOVA", "AURORA", "ZENCO", "PULSE", "KINETIC"]

  /**
   * `logos.length ? logos : names.map(logoData)`, with `logoData` (an SVG
   * data URL built with `encodeURIComponent`) as a parameter.
   */
  function Logos(given: seq<string>, logoData: string -> string): (r: seq<string>)
    ensures |given| > 0 ==> r == given
    ensures |given| == 0 ==> |r| == 6 && forall k :: 0 <= k < 6 ==> r[k] == logoData(FallbackNames[k])
  {
    if |given| > 0 then given else seq(6, k requires 0 <= k < 6 => logoData(FallbackNames[k]))
  }

  /** The marquee repeats the logo row once, so it scrolls half its width and starts over seamlessly. */
  function Marquee(given: seq<string>, logoData: string -> string): (r: seq<string>)
    ensures var safe := Logos(given, logoData);
      |r| == 2 * |safe| && r[..|safe|] == safe && r[|safe|..] == safe
  {
    Logos(given, logoData) + Logos(given, logoData)
  }

  // ---------------------------------------------------------------------------
  // SubmitTestimonialForm

  /** The form's fields; the rating comes from a select of 5 down to 1. */
  datatype Draft = Draft(name: string, role: string, quote: string, rating: int, avatar: string)

  function BlankDraft(): Draft { Draft("", "", "", 5, "") }

  datatype FormState = FormState(draft: Draft, sent: bool, error: string, loading: bool)

  const FillIn := "Please fill in your name and a short quote."
  const SubmitFailed := "Could not submit. Please try again."

  /** How `onSubmit?.(form)` settled: no handler (which resolves at once), resolved, or threw. */
  datatype Call = NoHandler | Resolved | Threw

  /** The only check: the trimmed name and quote are both non-empty. */
  predicate Complete(d: Draft) {
    JsText.Trim(d.name) != "" && JsText.Trim(d.quote) != ""
  }

  /**
   * `submit(e)`, with `call` the way the awaited handler settled for this
   * draft: the form resets after a success, keeps the draft after a failure,
   * and is not left loading once the handler settled.
   */
  function Submit(s: FormState, call: Call): (r: FormState)
    ensures Complete(s.draft) ==> !r.loading
    ensures !Complete(s.draft) ==> r == s.(error := FillIn)
    ensures Complete(s.draft) && !call.Threw? ==> r == FormState(BlankDraft(), true, "", false)
    ensures Complete(s.draft) && call.Threw? ==> r == FormState(s.draft, s.sent, SubmitFailed, false)
  {
    if !Complete(s.draft) then s.(error := FillIn)
    else if call.Threw? then FormState(s.draft, s.sent, SubmitFailed, false)
    else FormState(BlankDraft(), true, "", false)
  }

  /** The "sent" flag is cleared four seconds later. */
  function HideSent(s: FormState): (r: FormState)
    ensures !r.sent && r.draft == s.draft && r.error == s.error && r.loading == s.loading
  {
    s.(sent := false)
  }

  /** An incomplete draft never reaches the handler: the result is the same however the handler would settle. */
  lemma IncompleteNeverCalls(s: FormState, c1: Call, c2: Call)
    requires !Complete(s.draft)
    ensures Submit(s, c1) == Submit(s, c2)
  {
  }

  /** A reset form is incomplete again, and submitting it straight away only shows the fill-in message. */
  lemma ResetIsIncomplete(s: FormState, c1: Call, c2: Call)
    requires Complete(s.draft) && !c1.Threw?
    ensures !Complete(Submit(s, c1).draft)
    ensures Submit(Submit(s, c1), c2).error == FillIn
  {
    assert JsText.Trim("") == "";
  }

  /** Without a handler the form still thanks the author, although nothing was sent anywhere. */
  lemma NoHandlerStillThanks(s: FormState)
    requires Complete(s.draft)
    ensures Submit(s, NoHandler).sent && Submit(s, NoHandler).draft == BlankDraft()
  {
  }
}
