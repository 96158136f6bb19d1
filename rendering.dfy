/**
 * The static tables and the geometry of the overlay: `getExpressionColor`
 * (app.js:100-111) and the computations of `drawEmoji` (app.js:117-144).
 */
module Rendering {
  import opened Wrappers

  /** `face.detection.box`, in canvas pixels. */
  datatype Box = Box(x: real, y: real, width: real, height: real)

  datatype Point = Point(x: real, y: real)

  /** One `fillText` call: the glyph, its font size in pixels, its anchor and its fill colour. */
  datatype Stroke = Stroke(glyph: string, size: real, at: Point, fill: string)

  /** `obj[key]` on a plain object literal: the value, or `undefined`. */
  function Lookup<V>(m: map<string, V>, key: string): (v: Option<V>)
  {
    if key in m then Some(m[key]) else None
  }

  /** `v || fallback` for a value that is a string or `undefined`: the empty string is falsy too. */
  function OrElse(v: Option<string>, fallback: string): (s: string)
  {
    if v.Some? && v.value != "" then v.value else fallback
  }

  /** `arr[k]`: the element, or `undefined` outside the array. */
  function At(arr: seq<Option<string>>, k: int): (v: Option<string>)
  {
    if 0 <= k < |arr| then arr[k] else None
  }

  const DefaultColor: string := "#000"

  /** The `colors` table of `getExpressionColor`. */
  const Colors: map<string, string> := map[
    "happy" := "#4CAF50",
    "sad" := "#2196F3",
    "angry" := "#f44336",
    "fearful" := "#FF9800",
    "disgusted" := "#9C27B0",
    "surprised" := "#FFEB3B",
    "neutral" := "#9E9E9E"
  ]

  /** `colors[expression] || '#000'`: the table colour, and the default exactly for unlisted labels. */
  function ExpressionColor(expression: string): (c: string)
    ensures expression in Colors ==> c == Colors[expression]
    ensures c == DefaultColor <==> expression !in Colors
  {
    OrElse(Lookup(Colors, expression), DefaultColor)
  }

  /** The seven listed expressions get seven different colours, so the readout colour names the expression. */
  lemma ColorIdentifiesExpression(a: string, b: string)
    requires a in Colors && b in Colors
    requires ExpressionColor(a) == ExpressionColor(b)
    ensures a == b
  {
  }

  /** An `emojiMap` value: a single glyph or an array of glyphs. */
  datatype EmojiValue = Glyph(glyph: string) | Glyphs(glyphs: seq<string>)

  const Placeholder: string := "❓"

  /** The `emojiMap` table of `drawEmoji`. */
  const EmojiMap: map<string, EmojiValue> := map[
    "neutral" := Glyph("😐"),
    "happy" := Glyphs(["😀", "😄", "😁", "😆", "🥰"]),
    "sad" := Glyphs(["😢", "😭", "😞", "💔"]),
    "angry" := Glyphs(["😠", "👿", "🤬", "💢"]),
    "fearful" := Glyphs(["😨", "😰", "😖"]),
    "disgusted" := Glyphs(["🤢", "🤮", "👺"]),
    "surprised" := Glyphs(["😲", "😯", "🤯"]),
    "excited" := Glyph("🤩"),
    "confused" := Glyph("🤔"),
    "sleepy" := Glyph("😴"),
    "winking" := Glyph("😉")
  ]

  /** Every expression with a colour also has glyphs of its own. */
  lemma ColoredExpressionsHaveGlyphs()
    ensures Colors.Keys <= EmojiMap.Keys
  {
  }

  /**
   * `emojiSet`: the mapped array when `Array.isArray` holds, otherwise the mapped
   * value in a one-element array; for an unmapped label that value is `undefined`.
   */
  function EmojiSet(expression: string): (candidates: seq<Option<string>>)
    ensures |candidates| > 0
    ensures expression !in EmojiMap ==> candidates == [None]
    ensures expression in EmojiMap ==> forall c :: c in candidates ==> c.Some? && c.value != ""
  {
    match Lookup<EmojiValue>(EmojiMap, expression)
    case Some(Glyphs(gs)) => seq(|gs|, k requires 0 <= k < |gs| => Some(gs[k]))
    case Some(Glyph(g)) => [Some(g)]
    case None => [None]
  }

  /**
   * `Math.floor(random * length)` for a draw `random` in [0, 1): the integer part
   * of `random * length`, hence an index of the array, or 0 for an empty one.
   */
  function DrawIndex(random: real, length: nat): (k: int)
    requires 0.0 <= random < 1.0
    ensures k as real <= random * length as real < k as real + 1.0
    ensures 0 <= k
    ensures k < length || (length == 0 && k == 0)
  {
    var scaled := random * length as real;
    assert scaled < length as real || length == 0 by {
      if length > 0 {
        assert (1.0 - random) * length as real > 0.0;
      }
    }
    scaled.Floor
  }

  /**
   * Index `k` is drawn exactly by the draws in [k / length, (k + 1) / length): each
   * index gets an interval of width 1 / length, so a uniform draw picks each alike.
   */
  lemma DrawIndexInterval(random: real, length: nat, k: int)
    requires 0.0 <= random < 1.0 && length > 0
    ensures DrawIndex(random, length) == k <==>
      k as real / length as real <= random < (k + 1) as real / length as real
  {
    var n := length as real;
    var i := DrawIndex(random, length);
    assert i as real <= random * n < i as real + 1.0;
    QuotientScale(k as real, n, random);
    QuotientScale((k + 1) as real, n, random);
  }

  /** Comparing a draw with `a / n` is comparing the scaled draw with `a`. */
  lemma QuotientScale(a: real, n: real, r: real)
    requires n > 0.0
    ensures (a / n <= r) == (a <= r * n)
    ensures (r < a / n) == (r * n < a)
  {
    var q := a / n;
    assert q * n == a;
    ScaleBelow(q, r, n);
    ScaleBelow(r, q, n);
  }

  /** Multiplying by a positive factor keeps the order. */
  lemma ScaleBelow(a: real, b: real, n: real)
    requires n > 0.0
    ensures a <= b <==> a * n <= b * n
    ensures a < b <==> a * n < b * n
  {
    if a <= b {
      assert (b - a) * n >= 0.0;
    } else {
      assert (a - b) * n > 0.0;
    }
  }

  /** The draw `k / length` lands on index `k`: every index of the array can be drawn. */
  lemma DrawIndexReaches(k: nat, length: nat)
    requires k < length
    ensures 0.0 <= k as real / length as real < 1.0
    ensures DrawIndex(k as real / length as real, length) == k
  {
    QuotientBelowOne(k as real, length as real);
    var r := k as real / length as real;
    assert r * length as real == k as real;
  }

  lemma QuotientBelowOne(a: real, b: real)
    requires 0.0 <= a < b
    ensures 0.0 <= a / b < 1.0
  {
    assert a / b * b == a;
  }

  /** `emojiSet[Math.floor(random * emojiSet.length)] || '❓'`: the glyph drawn for `expression`. */
  function ChooseEmoji(expression: string, random: real): (glyph: string)
    requires 0.0 <= random < 1.0
    ensures expression in EmojiMap && EmojiMap[expression].Glyphs? ==>
      var gs := EmojiMap[expression].glyphs;
      glyph == gs[DrawIndex(random, |gs|)] && glyph in gs
    ensures expression in EmojiMap && EmojiMap[expression].Glyph? ==>
      glyph == EmojiMap[expression].glyph
    ensures glyph == Placeholder <==> expression !in EmojiMap
  {
    var candidates := EmojiSet(expression);
    OrElse(At(candidates, DrawIndex(random, |candidates|)), Placeholder)
  }

  /** Every glyph of an array-mapped expression is chosen by some draw. */
  lemma EveryGlyphCanBeChosen(expression: string, k: nat)
    requires expression in EmojiMap && EmojiMap[expression].Glyphs?
    requires k < |EmojiMap[expression].glyphs|
    ensures exists random :: 0.0 <= random < 1.0 && ChooseEmoji(expression, random) == EmojiMap[expression].glyphs[k]
  {
    var n := |EmojiMap[expression].glyphs|;
    DrawIndexReaches(k, n);
    var r := k as real / n as real;
    assert ChooseEmoji(expression, r) == EmojiMap[expression].glyphs[k];
  }

  /** A single-glyph expression gets the same glyph on every draw. */
  lemma SingleGlyphIgnoresDraw(expression: string, r1: real, r2: real)
    requires expression in EmojiMap && EmojiMap[expression].Glyph?
    requires 0.0 <= r1 < 1.0 && 0.0 <= r2 < 1.0
    ensures ChooseEmoji(expression, r1) == ChooseEmoji(expression, r2)
  {
  }

  const MaxFontSize: real := 120.0

  /** `Math.min(faceBox.width * 0.8, 120)`: 80% of the face width, never above 120 pixels. */
  function FontSize(width: real): (size: real)
    ensures size <= MaxFontSize && size <= width * 0.8
    ensures size == MaxFontSize || size == width * 0.8
  {
    if width * 0.8 < MaxFontSize then width * 0.8 else MaxFontSize
  }

  /** A wider face never gets a smaller glyph. */
  lemma FontSizeMonotone(w1: real, w2: real)
    requires w1 <= w2
    ensures FontSize(w1) <= FontSize(w2)
  {
  }

  /**
   * The `fillText` position: the horizontal centre of the box, a tenth of the box
   * height above its vertical centre.
   */
  function Anchor(box: Box): (p: Point)
    ensures p.x - box.x == box.x + box.width - p.x
    ensures p.y - box.y == 0.4 * box.height
    ensures box.width >= 0.0 && box.height >= 0.0 ==>
      box.x <= p.x <= box.x + box.width && box.y <= p.y <= box.y + box.height
  {
    Point(box.x + box.width / 2.0, box.y + box.height / 2.0 - box.height * 0.1)
  }

  /** The one glyph `drawEmoji(faceBox, expression)` paints, for the draw `random`. */
  function EmojiStroke(box: Box, expression: string, random: real): (s: Stroke)
    requires 0.0 <= random < 1.0
    ensures s.size <= MaxFontSize
  {
    Stroke(ChooseEmoji(expression, random), FontSize(box.width), Anchor(box), ExpressionColor(expression))
  }

  /**
   * The painted glyph is at most 120 pixels, anchored inside a face box of
   * non-negative size, in the default colour exactly for an uncoloured expression,
   * and the placeholder exactly for an unmapped one.
   */
  lemma EmojiStrokeIsCappedAndLabelled(box: Box, expression: string, random: real)
    requires 0.0 <= random < 1.0
    ensures EmojiStroke(box, expression, random).size <= MaxFontSize
    ensures box.width >= 0.0 && box.height >= 0.0 ==>
      var at := EmojiStroke(box, expression, random).at;
      box.x <= at.x <= box.x + box.width && box.y <= at.y <= box.y + box.height
    ensures EmojiStroke(box, expression, random).fill == DefaultColor <==> expression !in Colors
    ensures EmojiStroke(box, expression, random).glyph == Placeholder <==> expression !in EmojiMap
  {
  }
}
