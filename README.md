# emoji-camera: the session logic of `app.js`, in Dafny

The page shows the webcam and runs an external face-expression detector every 150 ms. It writes the
strongest expression of the first face to a text readout and paints a matching emoji over the face.
This project models the part of `app.js` that does not depend on the detector or the browser:

- `Selection`: how one tick picks its expression. The page takes the first face's `[label, confidence]`
  entries and sorts them by descending confidence with the engine's stable sort. It then takes the first entry.
- `Rendering`: the colour table of `getExpressionColor` and the emoji table of `drawEmoji`. Also the
  choice of a glyph from `Math.floor(Math.random() * length)`, the capped font size and the anchor point.
- `Detection`: the page's state as a class `App`. It holds `modelsLoaded`, `detectionActive`,
  `detectionInterval`, the live interval handles, the start button, the readout and the overlay canvas.
  Its methods are `loadModels`, the button step of `startVideo`, `startDetection`, one tick of the
  interval, `updateExpressionDisplay`, `drawEmoji` and `stopDetection`.
- `Wrappers`: `Option`, which stands for a value that may be `undefined`.

Inputs the page gets from outside become parameters:
- the outcome of the three model loads;
- whether the camera was granted;
- what the detector promise settles to in a tick;
- the `Math.random()` draw, a real in [0, 1).

Confidences, box sizes and font sizes are `real` values. A `setInterval` handle is a number taken from a counter.

The object invariant `App.Valid` has two parts:
- exactly one live interval exists while detection is active, and none otherwise, so a second start never leaks a timer;
- the start button is enabled only once the models are loaded.

The constructor assumes the button starts disabled. The page markup is not part of this model.

Facts about the code that the model keeps:
- Ties between equal confidences: `Array.prototype.sort` is stable, so the earliest entry among
  equal maxima wins (`Selection.Top`).
- A failed load never disables the start button; it keeps the button as it was (`App.LoadModels`).
- `modelsLoaded` is written but never read in `app.js`. The start button is the only gate.

## Model

| member | source | states |
|---|---|---|
| `Selection.Insert` | app.js:81-82 | inserting an earlier entry gives the old entries plus that one (as a multiset), headed by the new entry or the old head |
| `Selection.InsertKeepsDescending` | app.js:81-82 | inserting into a run of non-increasing confidence keeps it non-increasing |
| `Selection.SortDescending` | app.js:81-82 | the comparator sort `(a, b) => b[1] - a[1]` returns a permutation of the entries in non-increasing confidence |
| `Selection.SortHeadIsEarliestMaximum` | app.js:81-82 | the first sorted entry is an input entry of highest confidence, and every entry before it has strictly lower confidence |
| `Selection.Top` | app.js:80-82 | no pick exactly when the expression map is empty; otherwise the pick is the unique earliest entry of maximal confidence |
| `Rendering.ExpressionColor` | app.js:100-111 | each of the seven listed expressions gets its table colour; `'#000'` is returned exactly for the labels not in the table |
| `Rendering.ColorIdentifiesExpression` | app.js:101-109 | the seven table colours are pairwise different |
| `Rendering.ColoredExpressionsHaveGlyphs` | app.js:101-129 | every expression with a colour also has an entry in the emoji table |
| `Rendering.EmojiSet` | app.js:131-133 | the candidate array is never empty; an unmapped label gives `[undefined]`; every candidate of a mapped label is a non-empty glyph |
| `Rendering.DrawIndex` | app.js:135 | the index is the integer part of `random * length`, so with `random` in [0, 1) it is an index of the array, or 0 for an empty array |
| `Rendering.DrawIndexInterval` | app.js:135 | index `k` is drawn exactly by the draws in [k/length, (k+1)/length), an interval of width 1/length for every index |
| `Rendering.DrawIndexReaches` | app.js:135 | the draw `k / length` selects index `k`, so every index is reachable |
| `Rendering.ChooseEmoji` | app.js:117-135 | an array-mapped expression gets the element at the drawn index, a member of its array; a single-glyph expression gets its glyph; the placeholder `'❓'` is returned exactly for unmapped labels |
| `Rendering.EveryGlyphCanBeChosen` | app.js:119-135 | every glyph of an array-mapped expression is chosen by some draw |
| `Rendering.SingleGlyphIgnoresDraw` | app.js:118-135 | a single-glyph expression gets the same glyph whatever the draw |
| `Rendering.FontSize` | app.js:137 | the font size is the lesser of 80% of the face width and 120, so it never exceeds 120 |
| `Rendering.FontSizeMonotone` | app.js:137 | a wider face never gets a smaller glyph |
| `Rendering.Anchor` | app.js:141-145 | the glyph is centred horizontally on the box and sits 40% of the box height below its top, inside any box of non-negative size |
| `Rendering.EmojiStroke` | app.js:137-145 | the `fillText` glyph is drawn at a font size of at most 120 px |
| `Rendering.EmojiStrokeIsCappedAndLabelled` | app.js:113-145 | the painted glyph is at most 120 px and anchored inside any face box of non-negative size; its fill is `'#000'` exactly for uncoloured labels and its glyph is the placeholder exactly for unmapped labels |
| `Detection.TickPick` | app.js:78-82 | a tick shows an entry exactly when the detector resolves with a face whose map is non-empty; the entry shown is that first face's earliest maximum |
| `Detection.App.constructor` | app.js:6-8 | the page starts with models not loaded, detection inactive, no interval and no live timer |
| `Detection.App.LoadModels` | app.js:10-28 | `modelsLoaded` becomes true and the button enabled only if all three loads succeed; the failure path never enables the button; the invariant holds |
| `Detection.App.StartVideo` | app.js:41-64 | a granted camera disables the button and marks it active; a camera error marks it red, leaves it as it was, and throws |
| `Detection.App.StartDetection` | app.js:68-93 | while active, nothing changes; otherwise detection becomes active with exactly one fresh interval handle, the only live timer |
| `Detection.App.StopDetection` | app.js:148-152 | detection is inactive afterwards and the handle in `detectionInterval` is cleared, leaving no live timer |
| `Detection.App.UpdateExpressionDisplay` | app.js:95-98 | the readout shows the expression and its confidence in the expression's colour |
| `Detection.App.DrawEmoji` | app.js:113-146 | the canvas is cleared first, so afterwards it holds exactly the one new glyph |
| `Detection.App.ShowFace` | app.js:79-86 | an empty expression map (destructuring `undefined` throws) stops detection and leaves readout and overlay unchanged; otherwise the face's top expression is shown in its colour and its glyph drawn at its box |
| `Detection.App.Tick` | app.js:71-91 | a rejecting detector or an empty expression map stops detection and leaves readout and overlay unchanged; zero faces change nothing; otherwise the first face's top expression is shown in its colour and its glyph drawn at its box |
| `Detection.StopTwiceIsStopOnce` | app.js:148-150 | the state after a second `stopDetection` equals the state after the first: inactive, no live timer, every other field untouched |

## Left out

- The `faceapi` calls (`loadFromUri`, `detectAllFaces`, `withFaceExpressions`) belong to an external library. Their results are parameters.
- `getUserMedia`, `onloadedmetadata`, `play()` and the promise that `startVideo` returns are browser I/O. `App.StartVideo` models only the button writes and whether the call throws. A playback failure that leaves the promise pending forever is not modelled.
- The click listener and the `loadModels().catch` bootstrap (app.js:154-166) are wiring only.
- `setInterval`/`clearInterval` timing is not modelled. Neither is the possibility of a tick still in flight after a stop, or of two ticks overlapping. The interval is an opaque handle, and `App.Tick` may be called in any state.
- `Math.random` is a parameter. The percentage `Math.round(confidence * 100)` in the readout text is floating-point formatting; the readout keeps the confidence itself.
- Canvas details are UI: the `ctx.font` string, `textAlign`, `textBaseline` and pixel output. The same goes for `console.*`, `alert` and the canvas resize to the video size.
- JavaScript numbers are modelled as exact reals, not IEEE doubles.
- Inherited object properties are not modelled: a label such as `constructor` would find a value in `colors` or `emojiMap` through the prototype. The detector only produces the seven plain labels.
- Selection.SortDescending: stability is not stated for the whole sorted sequence. It is stated only for its consequence for the first entry, in `Selection.SortHeadIsEarliestMaximum`.
