/**
 * The hero header (src/components/Header.js): the slide index the timer and
 * the indicators move, the icon beside each statistic, and the label made
 * from a statistic's key.
 */
module Hero {
  import JsText

  // ---------------------------------------------------------------------------
  // Slides

  /** `slides.length` */
  const SlideCount: nat := 3

  /** The keys of each slide's `stats`, in insertion order (the order `Object.entries` lists them). */
  const StatKeys: seq<seq<string>> := [
    ["projects", "clients", "awards"],
    ["experience", "satisfaction", "growth"],
    ["technologies", "uptime", "performance"]]

  /** One timer tick: `setCurrentSlide(prev => (prev + 1) % slides.length)`. */
  function Tick(prev: nat): nat
  {
    (prev + 1) % SlideCount
  }

  /** `n` ticks in a row. */
  function Ticks(prev: nat, n: nat): nat
    decreases n
  {
    if n == 0 then prev else Ticks(Tick(prev), n - 1)
  }

  /** A tick always lands on an existing slide, and from the last slide it wraps to the first. */
  lemma TickInRange(prev: nat)
    ensures Tick(prev) < SlideCount
    ensures prev == SlideCount - 1 ==> Tick(prev) == 0
    ensures prev < SlideCount - 1 ==> Tick(prev) == prev + 1
  {
  }

  /** After `n` ticks from slide `prev` the index is `(prev + n) mod 3`. */
  lemma {:induction false} TicksAdvance(prev: nat, n: nat)
    requires prev < SlideCount
    ensures Ticks(prev, n) == (prev + n) % SlideCount
    decreases n
  {
    if n > 0 {
      TicksAdvance(Tick(prev), n - 1);
      assert (Tick(prev) + (n - 1)) % SlideCount == (prev + n) % SlideCount by {
        assert Tick(prev) == (prev + 1) % SlideCount;
        ModShift(prev + 1, n - 1);
      }
    }
  }

  lemma ModShift(a: nat, b: nat)
    ensures (a % SlideCount + b) % SlideCount == (a + b) % SlideCount
  {
  }

  /** Three ticks bring any slide back to itself. */
  lemma FullCycle(prev: nat)
    requires prev < SlideCount
    ensures Ticks(prev, SlideCount) == prev
  {
    TicksAdvance(prev, SlideCount);
  }

  /** The indicators, one per slide: a click on indicator `index` sets `currentSlide` to it. */
  function Indicators(): (r: seq<nat>)
    ensures |r| == SlideCount && forall k :: 0 <= k < |r| ==> r[k] == k && r[k] < SlideCount
  {
    seq(SlideCount, k => k)
  }

  /** Whichever slide is current, exactly one indicator is highlighted (`index === currentSlide`). */
  lemma OneIndicatorActive(current: nat)
    requires current < SlideCount
    ensures exists k :: 0 <= k < |Indicators()| && Indicators()[k] == current
    ensures forall j, k :: 0 <= j < |Indicators()| && 0 <= k < |Indicators()| && Indicators()[j] == current && Indicators()[k] == current ==> j == k
  {
    assert Indicators()[current] == current;
  }

  // ---------------------------------------------------------------------------
  // Statistics

  datatype Icon = Award | Users | TrendingUp | Star

  /** `icons[index] || Star` */
  function IconAt(index: nat): (r: Icon)
    ensures index >= 3 ==> r == Star
    ensures index < 3 ==> r != Star
  {
    if index == 0 then Award else if index == 1 then Users else if index == 2 then TrendingUp else Star
  }

  /** Every slide has exactly three statistics, so the `Star` fallback is never shown. */
  lemma NoFallbackIcon(slide: nat, index: nat)
    requires slide < SlideCount && index < |StatKeys[slide]|
    ensures IconAt(index) != Star
  {
  }

  /** The image of one character under `replace(/([A-Z])/g, ' $1')`. */
  function Spaced(c: char): (r: string)
    ensures JsText.IsUpperAscii(c) ==> r == [' ', c]
    ensures !JsText.IsUpperAscii(c) ==> r == [c]
  {
    if JsText.IsUpperAscii(c) then [' ', c] else [c]
  }

  /** `key.replace(/([A-Z])/g, ' $1')`: a space inserted before each uppercase ASCII letter. */
  function Label(key: string): (r: string)
    ensures |r| == |key| + UpperCount(key)
    ensures r == [] || !JsText.IsUpperAscii(r[0])
  {
    if key == [] then [] else Spaced(key[0]) + Label(key[1..])
  }

  function UpperCount(s: string): nat
  {
    if s == [] then 0 else (if JsText.IsUpperAscii(s[0]) then 1 else 0) + UpperCount(s[1..])
  }

  /** The inverse: drop each space that stands right before an uppercase ASCII letter. */
  function Unlabel(t: string): string
    decreases |t|
  {
    if t == [] then []
    else if |t| >= 2 && t[0] == ' ' && JsText.IsUpperAscii(t[1]) then [t[1]] + Unlabel(t[2..])
    else [t[0]] + Unlabel(t[1..])
  }

  /** The label changes nothing but the inserted spaces: removing them gives the key back. */
  lemma {:induction false} UnlabelLabel(key: string)
    ensures Unlabel(Label(key)) == key
    decreases |key|
  {
    if key != [] {
      UnlabelLabel(key[1..]);
      var rest := Label(key[1..]);
      var c := key[0];
      if JsText.IsUpperAscii(c) {
        assert Label(key) == [' ', c] + rest;
        assert (Label(key))[2..] == rest;
      } else {
        assert Label(key) == [c] + rest;
        assert (Label(key))[1..] == rest;
        if c == ' ' && rest != [] {
          assert !JsText.IsUpperAscii(rest[0]);
        }
      }
      assert key == [c] + key[1..];
    }
  }

  /** A key without uppercase letters is its own label, and only such keys are. */
  lemma {:induction false} LabelUnchangedIff(key: string)
    ensures Label(key) == key <==> UpperCount(key) == 0
    decreases |key|
  {
    if key != [] {
      LabelUnchangedIff(key[1..]);
      if UpperCount(key) == 0 {
        assert Label(key) == [key[0]] + Label(key[1..]);
        assert key == [key[0]] + key[1..];
      }
    }
  }

  /** A key of lowercase ASCII letters has no uppercase letter to count. */
  lemma {:induction false} LowercaseCount(key: string)
    requires forall i :: 0 <= i < |key| ==> 'a' <= key[i] <= 'z'
    ensures UpperCount(key) == 0
    decreases |key|
  {
    if key != [] { LowercaseCount(key[1..]); }
  }

  /** The site's own statistic keys are all lowercase, so their labels are the keys themselves. */
  lemma SiteLabelsUnchanged(slide: nat, index: nat)
    requires slide < SlideCount && index < |StatKeys[slide]|
    ensures Label(StatKeys[slide][index]) == StatKeys[slide][index]
  {
    var key := StatKeys[slide][index];
    assert forall i :: 0 <= i < |key| ==> 'a' <= key[i] <= 'z';
    LowercaseCount(key);
    LabelUnchangedIff(key);
  }
}
