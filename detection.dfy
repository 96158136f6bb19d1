/**
 * The page's session state (app.js:6-8) and the handlers that update it:
 * `loadModels`, the button step of `startVideo`, `startDetection`, one tick of
 * its interval, `updateExpressionDisplay`, `drawEmoji` and `stopDetection`.
 * The detector, the camera and `Math.random` are parameters; `setInterval`
 * handles are numbers drawn from a counter.
 */
module Detection {
  import opened Wrappers
  import opened Selection
  import opened Rendering

  /** One result of `detectAllFaces(...).withFaceExpressions()`. */
  datatype Face = Face(box: Box, expressions: seq<Score>)

  /** How the detector promise of a tick settles. */
  datatype DetectorOutcome = Rejected | Resolved(detections: seq<Face>)

  /** The text of the expression readout: a status message, or an expression with its confidence. */
  datatype Readout = Message(text: string) | ExpressionReadout(expression: string, confidence: real)

  const ReadyText: string := "Ready! Click 'Enable Camera'"
  const LoadFailedText: string := "Failed to load AI models!"
  const CameraActiveText: string := "Camera Active"
  const ReadyButtonColor: string := "#4CAF50"
  const ActiveButtonColor: string := "#2196F3"
  const ErrorButtonColor: string := "#f44336"

  /** A tick that throws: the detector rejects, or the first face has no expression entries. */
  predicate TickThrows(outcome: DetectorOutcome)
  {
    outcome.Rejected? || (|outcome.detections| > 0 && outcome.detections[0].expressions == [])
  }

  /** The entry a tick shows, if it gets that far: the top expression of the first face. */
  function TickPick(outcome: DetectorOutcome): (pick: Option<Score>)
    ensures pick.Some? <==> outcome.Resolved? && |outcome.detections| > 0 && !TickThrows(outcome)
    ensures pick.Some? ==> exists i :: IsEarliestMaximum(outcome.detections[0].expressions, i)
                                       && pick.value == outcome.detections[0].expressions[i]
  {
    if outcome.Resolved? && |outcome.detections| > 0 then Top(outcome.detections[0].expressions) else None
  }

  class App {
    var modelsLoaded: bool
    var detectionActive: bool
    /** `detectionInterval`: `null`, or the handle of the last `setInterval`. */
    var detectionInterval: Option<nat>
    /** The interval handles not yet cleared. */
    var timers: set<nat>
    /** The handle the next `setInterval` returns. */
    var nextTimer: nat
    var buttonDisabled: bool
    var buttonText: string
    var buttonColor: string
    var readout: Readout
    var readoutColor: string
    /** The glyphs now painted on the overlay canvas. */
    var overlay: seq<Stroke>

    /** Exactly one live timer while detection is active, none otherwise; handles are never reused. */
    ghost predicate TimersValid()
      reads this
    {
      && (detectionActive ==> detectionInterval.Some?)
      && timers == (if detectionActive then {detectionInterval.value} else {})
      && (detectionInterval.Some? ==> detectionInterval.value < nextTimer)
    }

    /** The start button is enabled only once the models are loaded. */
    ghost predicate ButtonGated()
      reads this
    {
      !buttonDisabled ==> modelsLoaded
    }

    ghost predicate Valid()
      reads this
    {
      TimersValid() && ButtonGated()
    }

    /** The page as loaded: nothing started, the start button disabled, an empty overlay. */
    constructor (text: string, textColor: string, caption: string, color: string)
      ensures Valid()
      ensures !modelsLoaded && !detectionActive && detectionInterval == None && timers == {}
      ensures buttonDisabled && buttonText == caption && buttonColor == color
      ensures readout == Message(text) && readoutColor == textColor && overlay == []
    {
      modelsLoaded, detectionActive, detectionInterval := false, false, None;
      timers, nextTimer := {}, 1;
      buttonDisabled, buttonText, buttonColor := true, caption, color;
      readout, readoutColor, overlay := Message(text), textColor, [];
    }

    /**
     * `loadModels`: all three networks load (`Promise.all`) or the load fails as a
     * whole. Only success sets `modelsLoaded` and enables the start button.
     */
    method LoadModels(detectorLoads: bool, landmarksLoad: bool, expressionsLoad: bool)
      requires Valid()
      modifies this`modelsLoaded, this`buttonDisabled, this`readout, this`buttonColor
      ensures Valid()
      ensures var ok := detectorLoads && landmarksLoad && expressionsLoad;
        && modelsLoaded == (old(modelsLoaded) || ok)
        && buttonDisabled == (old(buttonDisabled) && !ok)
        && readout == Message(if ok then ReadyText else LoadFailedText)
        && buttonColor == (if ok then ReadyButtonColor else ErrorButtonColor)
    {
      if detectorLoads && landmarksLoad && expressionsLoad {
        modelsLoaded := true;
        readout := Message(ReadyText);
        buttonDisabled := false;
        buttonColor := ReadyButtonColor;
      } else {
        readout := Message(LoadFailedText);
        buttonColor := ErrorButtonColor;
      }
    }

    /**
     * The button step of `startVideo`: with the camera granted the button is
     * disabled and marked active; on a camera error it is marked red, left as it
     * was otherwise, and the call throws (`ok` is false).
     */
    method StartVideo(granted: bool) returns (ok: bool)
      requires Valid()
      modifies this`buttonDisabled, this`buttonText, this`buttonColor
      ensures Valid()
      ensures ok == granted
      ensures granted ==> buttonDisabled && buttonText == CameraActiveText && buttonColor == ActiveButtonColor
      ensures !granted ==> buttonDisabled == old(buttonDisabled) && buttonText == old(buttonText)
                           && buttonColor == ErrorButtonColor
    {
      if granted {
        buttonDisabled := true;
        buttonText := CameraActiveText;
        buttonColor := ActiveButtonColor;
        ok := true;
      } else {
        buttonColor := ErrorButtonColor;
        ok := false;
      }
    }

    /** `startDetection`: a no-op while active; otherwise arms exactly one new interval. */
    method StartDetection()
      requires Valid()
      modifies this`detectionActive, this`detectionInterval, this`timers, this`nextTimer
      ensures Valid()
      ensures old(detectionActive) ==>
        && detectionActive && detectionInterval == old(detectionInterval)
        && timers == old(timers) && nextTimer == old(nextTimer)
      ensures !old(detectionActive) ==>
        && detectionActive && detectionInterval == Some(old(nextTimer))
        && old(nextTimer) !in old(timers) && timers == old(timers) + {old(nextTimer)}
        && nextTimer == old(nextTimer) + 1
      ensures timers == {detectionInterval.value}
    {
      if !detectionActive {
        detectionActive := true;
        detectionInterval := Some(nextTimer);
        timers := timers + {nextTimer};
        nextTimer := nextTimer + 1;
      }
    }

    /** `stopDetection`: always inactive afterwards, and the handle in `detectionInterval` is cleared. */
    method StopDetection()
      requires Valid()
      modifies this`detectionActive, this`timers
      ensures Valid()
      ensures !detectionActive
      ensures timers == old(timers) - (if detectionInterval.Some? then {detectionInterval.value} else {})
      ensures timers == {}
    {
      detectionActive := false;
      if detectionInterval.Some? {
        timers := timers - {detectionInterval.value};
      }
    }

    /** `updateExpressionDisplay`: the readout shows the expression, in its colour. */
    method UpdateExpressionDisplay(expression: string, confidence: real)
      modifies this`readout, this`readoutColor
      ensures readout == ExpressionReadout(expression, confidence)
      ensures readoutColor == ExpressionColor(expression)
    {
      readout := ExpressionReadout(expression, confidence);
      readoutColor := ExpressionColor(expression);
    }

    /** `drawEmoji`: the canvas is cleared, then holds exactly the one new glyph. */
    method DrawEmoji(faceBox: Box, expression: string, random: real)
      requires 0.0 <= random < 1.0
      modifies this`overlay
      ensures overlay == [EmojiStroke(faceBox, expression, random)]
    {
      overlay := [];
      overlay := overlay + [EmojiStroke(faceBox, expression, random)];
    }

    /**
     * The body of a tick once the detector has found a face: show and draw the
     * face's top expression, or stop when its expression map is empty.
     */
    method ShowFace(face: Face, random: real)
      requires Valid()
      requires 0.0 <= random < 1.0
      modifies this`detectionActive, this`timers, this`readout, this`readoutColor, this`overlay
      ensures Valid()
      ensures face.expressions == [] ==>
        && !detectionActive && timers == {}
        && readout == old(readout) && readoutColor == old(readoutColor) && overlay == old(overlay)
      ensures face.expressions != [] ==>
        var pick := Top(face.expressions).value;
        && detectionActive == old(detectionActive) && timers == old(timers)
        && readout == ExpressionReadout(pick.expression, pick.confidence)
        && readoutColor == ExpressionColor(pick.expression)
        && overlay == [EmojiStroke(face.box, pick.expression, random)]
    {
      var top := Top(face.expressions);
      if top.None? {
        // destructuring `undefined` throws a TypeError
        StopDetection();
      } else {
        var pick := top.value;
        UpdateExpressionDisplay(pick.expression, pick.confidence);
        DrawEmoji(face.box, pick.expression, random);
      }
    }

    /**
     * One run of the interval callback of `startDetection`, given how the detector
     * settles and the draw of `Math.random`. Only the first face is used; a throw
     * anywhere in the tick stops detection.
     */
    method Tick(outcome: DetectorOutcome, random: real)
      requires Valid()
      requires 0.0 <= random < 1.0
      modifies this`detectionActive, this`timers, this`readout, this`readoutColor, this`overlay
      ensures Valid()
      ensures TickThrows(outcome) ==>
        && !detectionActive && timers == {}
        && readout == old(readout) && readoutColor == old(readoutColor) && overlay == old(overlay)
      ensures outcome == Resolved([]) ==>
        && detectionActive == old(detectionActive) && timers == old(timers)
        && readout == old(readout) && readoutColor == old(readoutColor) && overlay == old(overlay)
      ensures TickPick(outcome).Some? ==>
        var face, pick := outcome.detections[0], TickPick(outcome).value;
        && detectionActive == old(detectionActive) && timers == old(timers)
        && readout == ExpressionReadout(pick.expression, pick.confidence)
        && readoutColor == ExpressionColor(pick.expression)
        && overlay == [EmojiStroke(face.box, pick.expression, random)]
    {
      match outcome
      case Rejected =>
        StopDetection();
      case Resolved(detections) =>
        if |detections| > 0 {
          ShowFace(detections[0], random);
        }
    }
  }

  /**
   * Calling `stopDetection` twice leaves the same state as calling it once:
   * `onceActive` and `onceTimers` are the fields after the first call.
   */
  method StopTwiceIsStopOnce(app: App) returns (ghost onceActive: bool, ghost onceTimers: set<nat>)
    requires app.Valid()
    modifies app`detectionActive, app`timers
    ensures !onceActive && onceTimers == {}
    ensures app.Valid() && app.detectionActive == onceActive && app.timers == onceTimers
  {
    app.StopDetection();
    onceActive, onceTimers := app.detectionActive, app.timers;
    app.StopDetection();
  }
}
