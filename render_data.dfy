/**
 * The render model: per-glyph depth contexts, the first-wins colour map, the colour lookup,
 * the per-frame keyframe update of the colour map, and the assembly of the model from the
 * sections already extracted from the document.
 */
module RenderData {
  import opened Wrappers
  import opened SvgTypes
  import opened CollectionExtensions
  import opened Decimal
  import opened GlyphGrid
  import opened CharSets

  // ---------------------------------------------------------------------------------------
  // Glyph contexts and the first-wins colour map
  // ---------------------------------------------------------------------------------------

  /**
   * The context Initialize gives a cell of class `associatedClass`: depth
   * |classIds| - IndexOf(class), and the class as both original and active class.
   */
  function ContextOf(classIds: seq<char>, associatedClass: char): (ctx: ContextInfo)
    ensures ctx.originalClass == associatedClass && ctx.activeClass == associatedClass
    ensures ctx.h != 0
    ensures associatedClass in classIds ==>
              && 1 <= ctx.h <= |classIds|
              && classIds[|classIds| - ctx.h] == associatedClass
              && associatedClass !in classIds[..|classIds| - ctx.h]
    ensures associatedClass !in classIds ==> ctx.h == |classIds| + 1
  {
    ContextInfo(|classIds| - ClassIndex(classIds, associatedClass), associatedClass, associatedClass)
  }

  /** FirstIndex over the colour styles with `style.Class == associatedClass` as the condition. */
  function ClassColorIndex(styles: seq<ColorStyle>, associatedClass: char): (i: int)
    ensures -1 <= i < |styles|
    ensures i == -1 <==> forall k :: 0 <= k < |styles| ==> styles[k].classLabel != associatedClass
    ensures 0 <= i ==> styles[i].classLabel == associatedClass &&
                       forall k :: 0 <= k < i ==> styles[k].classLabel != associatedClass
  {
    FirstIndex(styles, (style: ColorStyle) => style.classLabel == associatedClass)
  }

  /** The colour map that `TryAdd` over the styles in order builds: a class keeps its first colour. */
  function FirstWins(styles: seq<ColorStyle>): (m: map<char, Color32>)
    ensures forall c :: c in m <==> exists k :: 0 <= k < |styles| && styles[k].classLabel == c
    decreases |styles|
  {
    if styles == [] then map[]
    else
      var m := FirstWins(styles[..|styles| - 1]);
      var style := styles[|styles| - 1];
      if style.classLabel in m then m else m[style.classLabel := style.color]
  }

  /** Every class in the map holds the colour of its first style. */
  lemma {:induction false} FirstWinsLookup(styles: seq<ColorStyle>, c: char)
    ensures c in FirstWins(styles) <==> ClassColorIndex(styles, c) >= 0
    ensures c in FirstWins(styles) ==> FirstWins(styles)[c] == styles[ClassColorIndex(styles, c)].color
    decreases |styles|
  {
    if styles != [] {
      var n := |styles| - 1;
      var prefix := styles[..n];
      FirstWinsLookup(prefix, c);
      if c in FirstWins(prefix) {
        var i := ClassColorIndex(prefix, c);
        assert styles[i] == prefix[i];
        forall k | 0 <= k < i ensures styles[k].classLabel != c {
          assert styles[k] == prefix[k];
        }
      } else if styles[n].classLabel == c {
        forall k | 0 <= k < n ensures styles[k].classLabel != c {
          assert styles[k] == prefix[k];
        }
      } else {
        forall k | 0 <= k < |styles| ensures styles[k].classLabel != c {
          if k < n {
            assert styles[k] == prefix[k];
          }
        }
      }
    }
  }

  // ---------------------------------------------------------------------------------------
  // Animation time and keyframe lookup
  // ---------------------------------------------------------------------------------------

  /** Truncation toward zero, as a float-to-int conversion performs it. */
  function Truncate(x: real): int {
    if x >= 0.0 then x.Floor else -((-x).Floor)
  }

  /** The floating-point `%`: the remainder of a division truncated toward zero. */
  function FloatRem(x: real, d: real): real
    requires d != 0.0
  {
    x - d * (Truncate(x / d) as real)
  }

  /** FloorToInt(time / duration * 100): the keyframe percentage a time falls on. */
  function Ratio(time: real, duration: real): int
    requires duration != 0.0
  {
    (time / duration * 100.0).Floor
  }

  predicate NonZeroDurations(animations: seq<AnimationData>) {
    forall i :: 0 <= i < |animations| ==> animations[i].animationDuration != 0.0
  }

  /** The state an animation starts in: a full cycle of time left and its whole delay. */
  function StartState(animation: AnimationData): AnimationState {
    AnimationState(animation.associatedClass, animation.animationDuration, animation.animationDelay)
  }

  /**
   * One frame of an animation state: while delayed only the delay counts down; afterwards the
   * time steps back by `deltaTime`, wrapping around the duration.
   */
  function StepState(state: AnimationState, animation: AnimationData, deltaTime: real): AnimationState
    requires animation.animationDuration != 0.0
  {
    if state.currentDelay <= 0.0 then
      var d := animation.animationDuration;
      state.(currentTime := FloatRem(state.currentTime + d - deltaTime, d))
    else
      state.(currentDelay := state.currentDelay - deltaTime)
  }

  /** FirstIndex over the keyframes with `Percentage == ratio` as the condition. */
  function KeyframeIndex(keyframes: seq<Keyframe>, ratio: int): (i: int)
    ensures -1 <= i < |keyframes|
    ensures i == -1 <==> forall k :: 0 <= k < |keyframes| ==> keyframes[k].percentage != ratio
    ensures 0 <= i ==> keyframes[i].percentage == ratio &&
                       forall k :: 0 <= k < i ==> keyframes[k].percentage != ratio
  {
    FirstIndex(keyframes, (keyframe: Keyframe) => keyframe.percentage == ratio)
  }

  /** The colour of the first keyframe at `ratio`, if any. */
  function KeyframeColor(keyframes: seq<Keyframe>, ratio: int): Option<Color32> {
    var i := KeyframeIndex(keyframes, ratio);
    if i >= 0 then Some(keyframes[i].color) else None
  }

  /** The keyframe write: the first keyframe at `ratio` sets the class's colour; none leaves the map. */
  function WithKeyframe(colorMap: map<char, Color32>, associatedClass: char, keyframes: seq<Keyframe>,
                        ratio: int): map<char, Color32>
  {
    match KeyframeColor(keyframes, ratio)
    case Some(color) => colorMap[associatedClass := color]
    case None => colorMap
  }

  /** What one animation state does to the colour map in a frame. */
  function FrameWrite(colorMap: map<char, Color32>, state: AnimationState, animation: AnimationData,
                      keyframes: seq<Keyframe>, deltaTime: real): map<char, Color32>
    requires animation.animationDuration != 0.0
  {
    if state.currentDelay <= 0.0 then
      var time := StepState(state, animation, deltaTime).currentTime;
      WithKeyframe(colorMap, animation.associatedClass, keyframes, Ratio(time, animation.animationDuration))
    else colorMap
  }

  /**
   * The colour map after one frame over the animation states `states` (as they were before the
   * frame): each state past its delay writes its animation's class with the first keyframe at
   * its new ratio, in state order.
   */
  function ColorsAfter(colorMap: map<char, Color32>, states: seq<AnimationState>, animations: seq<AnimationData>,
                       keyframes: seq<Keyframe>, deltaTime: real): map<char, Color32>
    requires |states| <= |animations| && NonZeroDurations(animations)
    decreases |states|
  {
    if states == [] then colorMap
    else
      var i := |states| - 1;
      FrameWrite(ColorsAfter(colorMap, states[..i], animations, keyframes, deltaTime), states[i], animations[i],
                 keyframes, deltaTime)
  }

  /**
   * A frame never removes a class from the colour map, and a class whose colour changes is the
   * class of an animation past its delay and now holds some keyframe's colour.
   */
  lemma {:induction false} ColorsAfterWrites(colorMap: map<char, Color32>, states: seq<AnimationState>,
                                             animations: seq<AnimationData>, keyframes: seq<Keyframe>, deltaTime: real)
    requires |states| <= |animations| && NonZeroDurations(animations)
    ensures colorMap.Keys <= ColorsAfter(colorMap, states, animations, keyframes, deltaTime).Keys
    ensures var after := ColorsAfter(colorMap, states, animations, keyframes, deltaTime);
            forall c :: c in after && (c !in colorMap || after[c] != colorMap[c]) ==>
              && (exists i :: 0 <= i < |states| && states[i].currentDelay <= 0.0 && animations[i].associatedClass == c)
              && (exists j :: 0 <= j < |keyframes| && after[c] == keyframes[j].color)
    decreases |states|
  {
    if states != [] {
      var n := |states| - 1;
      var prefix := states[..n];
      ColorsAfterWrites(colorMap, prefix, animations, keyframes, deltaTime);
      var m := ColorsAfter(colorMap, prefix, animations, keyframes, deltaTime);
      var after := ColorsAfter(colorMap, states, animations, keyframes, deltaTime);
      forall c | c in after && (c !in colorMap || after[c] != colorMap[c])
        ensures exists i :: 0 <= i < |states| && states[i].currentDelay <= 0.0 && animations[i].associatedClass == c
        ensures exists j :: 0 <= j < |keyframes| && after[c] == keyframes[j].color
      {
        if c in m && after[c] == m[c] {
          var i :| 0 <= i < |prefix| && prefix[i].currentDelay <= 0.0 && animations[i].associatedClass == c;
          assert states[i] == prefix[i];
        } else {
          var time := StepState(states[n], animations[n], deltaTime).currentTime;
          var j := KeyframeIndex(keyframes, Ratio(time, animations[n].animationDuration));
          assert 0 <= j && after[c] == keyframes[j].color;
        }
      }
    }
  }

  /** A frame in which every animation is still delayed leaves the colour map as it was. */
  lemma {:induction false} DelayedFrameKeepsColors(colorMap: map<char, Color32>, states: seq<AnimationState>,
                                                   animations: seq<AnimationData>, keyframes: seq<Keyframe>, deltaTime: real)
    requires |states| <= |animations| && NonZeroDurations(animations)
    requires forall i :: 0 <= i < |states| ==> states[i].currentDelay > 0.0
    ensures ColorsAfter(colorMap, states, animations, keyframes, deltaTime) == colorMap
    decreases |states|
  {
    if states != [] {
      var n := |states| - 1;
      DelayedFrameKeepsColors(colorMap, states[..n], animations, keyframes, deltaTime);
    }
  }

  /** The remainder of a non-negative value by a positive duration lies in [0, duration). */
  lemma FloatRemRange(x: real, d: real)
    requires 0.0 <= x && 0.0 < d
    ensures 0.0 <= FloatRem(x, d) < d
  {
    var q := x / d;
    assert d * q == x;
    if q < 0.0 {
      ScaleNegative(d, q);
    }
    var t := Truncate(q) as real;
    RemainderBounds(x, d, q, t);
  }

  lemma RemainderBounds(x: real, d: real, q: real, t: real)
    requires 0.0 < d && d * q == x && t <= q < t + 1.0
    ensures 0.0 <= x - d * t < d
  {
    var u := q - t;
    var p := d * u;
    assert x - d * t == p;
    ScaleFraction(d, u);
    assert 0.0 <= p < d;
  }

  /** A fraction of a positive duration is shorter than it. */
  lemma ScaleFraction(d: real, u: real)
    requires 0.0 < d && 0.0 <= u < 1.0
    ensures 0.0 <= d * u < d
  {
    assert d - d * u == d * (1.0 - u);
  }

  /** An animation's time stays within one cycle [0, duration]. */
  predicate InCycle(state: AnimationState, animation: AnimationData) {
    0.0 <= state.currentTime <= animation.animationDuration
  }

  /**
   * With a positive duration and a frame no longer than one cycle, a state that starts in its
   * cycle stays in it, and once the delay is over its ratio lies in [0, 99]: a keyframe at
   * 100% is never selected.
   */
  lemma StepStaysInCycle(state: AnimationState, animation: AnimationData, deltaTime: real)
    requires 0.0 < animation.animationDuration && 0.0 <= deltaTime <= animation.animationDuration
    requires InCycle(state, animation)
    ensures InCycle(StepState(state, animation, deltaTime), animation)
    ensures state.currentDelay <= 0.0 ==>
              var time := StepState(state, animation, deltaTime).currentTime;
              0 <= Ratio(time, animation.animationDuration) < 100
  {
    if state.currentDelay <= 0.0 {
      var d := animation.animationDuration;
      var x := state.currentTime + d - deltaTime;
      FloatRemRange(x, d);
      var time := FloatRem(x, d);
      QuotientInUnit(time, d);
    }
  }

  lemma QuotientInUnit(time: real, d: real)
    requires 0.0 < d && 0.0 <= time < d
    ensures 0.0 <= time / d < 1.0
  {
    var q := time / d;
    assert d * q == time;
    if q >= 1.0 {
      ScaleAtLeastOne(d, q);
    } else if q < 0.0 {
      ScaleNegative(d, q);
    }
  }

  lemma ScaleAtLeastOne(d: real, q: real)
    requires 0.0 < d && 1.0 <= q
    ensures d <= d * q
  {
    assert d * q - d == d * (q - 1.0);
  }

  lemma ScaleNegative(d: real, q: real)
    requires 0.0 < d && q < 0.0
    ensures d * q < 0.0
  {
    assert d * q == -(d * -q);
  }

  // ---------------------------------------------------------------------------------------
  // The render model
  // ---------------------------------------------------------------------------------------

  class SvgRenderData {
    var inputs: AnimationInput
    var baseColors: seq<ColorStyle>
    var keyframes: seq<Keyframe>
    var animations: seq<AnimationData>
    var classIds: seq<char>
    var mainCharSet: array<int>
    var charSet: array<int>
    var unicodes: seq<int>
    var glyphContexts: array<ContextInfo>
    var backgroundColor: Color32
    var associatedClasses: seq<char>
    var currentGlyphs: seq<int>
    var animationStates: array<AnimationState>
    var airShip: UInt32
    var colorMap: map<char, Color32>

    /** The parsed sections; contexts and colour map are empty until Initialize. */
    constructor (inputs: AnimationInput, baseColors: seq<ColorStyle>, keyframes: seq<Keyframe>,
                 animations: seq<AnimationData>, animationStates: array<AnimationState>, backgroundColor: Color32,
                 associatedClasses: seq<char>, currentGlyphs: seq<int>, classIds: seq<char>, unicodes: seq<int>,
                 charSet: array<int>, mainCharSet: array<int>)
      ensures this.inputs == inputs && this.baseColors == baseColors && this.keyframes == keyframes
      ensures this.animations == animations && this.animationStates == animationStates
      ensures this.backgroundColor == backgroundColor
      ensures this.associatedClasses == associatedClasses && this.currentGlyphs == currentGlyphs
      ensures this.classIds == classIds && this.unicodes == unicodes
      ensures this.charSet == charSet && this.mainCharSet == mainCharSet
      ensures glyphContexts.Length == 0 && colorMap == map[] && airShip == 0
    {
      this.inputs := inputs;
      this.baseColors := baseColors;
      this.keyframes := keyframes;
      this.animations := animations;
      this.animationStates := animationStates;
      this.backgroundColor := backgroundColor;
      this.associatedClasses := associatedClasses;
      this.currentGlyphs := currentGlyphs;
      this.classIds := classIds;
      this.unicodes := unicodes;
      this.charSet := charSet;
      this.mainCharSet := mainCharSet;
      glyphContexts := new ContextInfo[0];
      colorMap := map[];
      airShip := 0;
    }

    /**
     * Gives each of the 1024 cells its context (depth from the class-id order, original and
     * active class) and builds the colour map from the base colours, first colour per class.
     */
    method Initialize()
      requires |associatedClasses| >= GridSize
      modifies this`glyphContexts, this`colorMap
      ensures fresh(glyphContexts) && glyphContexts.Length == GridSize
      ensures forall i :: 0 <= i < GridSize ==> glyphContexts[i] == ContextOf(classIds, associatedClasses[i])
      ensures colorMap == FirstWins(baseColors)
    {
      var contexts := new ContextInfo[GridSize];
      for i := 0 to GridSize
        invariant forall k :: 0 <= k < i ==> contexts[k] == ContextOf(classIds, associatedClasses[k])
      {
        var associatedClass := associatedClasses[i];
        var idx := ClassIndex(classIds, associatedClass);
        contexts[i] := ContextInfo(|classIds| - idx, associatedClass, associatedClass);
      }
      glyphContexts := contexts;

      // TryAdd: a class already in the map keeps its colour.
      var initial := map[];
      for i := 0 to |baseColors|
        invariant initial == FirstWins(baseColors[..i])
      {
        assert baseColors[..i + 1][..i] == baseColors[..i];
        var associatedColor := baseColors[i];
        if associatedColor.classLabel !in initial {
          initial := initial[associatedColor.classLabel := associatedColor.color];
        }
      }
      assert baseColors[..|baseColors|] == baseColors;
      colorMap := initial;
    }

    /**
     * The colour of the first base style of the class, or the default colour: the colour the
     * map starts with for that class, and the default for a class the map lacks.
     */
    function GetAssociatedColor(associatedClass: char): (color: Color32)
      reads this
      ensures associatedClass in FirstWins(baseColors) ==> color == FirstWins(baseColors)[associatedClass]
      ensures associatedClass !in FirstWins(baseColors) ==> color == DefaultColor
    {
      FirstWinsLookup(baseColors, associatedClass);
      var i := ClassColorIndex(baseColors, associatedClass);
      if i >= 0 then baseColors[i].color else DefaultColor
    }

    /**
     * One frame of colour animation: every state steps, and each state past its delay writes
     * its animation's class with the first keyframe at its new ratio, if there is one.
     */
    method UpdateColors(deltaTime: real)
      requires animationStates.Length <= |animations| && NonZeroDurations(animations)
      modifies this`colorMap, animationStates
      ensures forall i :: 0 <= i < animationStates.Length ==>
                animationStates[i] == StepState(old(animationStates[i]), animations[i], deltaTime)
      ensures colorMap == ColorsAfter(old(colorMap), old(animationStates[..]), animations, keyframes, deltaTime)
    {
      ghost var states := animationStates[..];
      ghost var initialColors := colorMap;
      for i := 0 to animationStates.Length
        invariant forall k :: 0 <= k < i ==> animationStates[k] == StepState(states[k], animations[k], deltaTime)
        invariant forall k :: i <= k < animationStates.Length ==> animationStates[k] == states[k]
        invariant colorMap == ColorsAfter(initialColors, states[..i], animations, keyframes, deltaTime)
      {
        assert states[..i + 1][..i] == states[..i];
        ghost var before := colorMap;
        assert ColorsAfter(initialColors, states[..i + 1], animations, keyframes, deltaTime)
            == FrameWrite(before, states[i], animations[i], keyframes, deltaTime);
        var animationState := animationStates[i];
        if animationState.currentDelay <= 0.0 {
          var animationData := animations[i];
          var time := FloatRem(animationState.currentTime + animationData.animationDuration - deltaTime,
                               animationData.animationDuration);
          animationStates[i] := animationState.(currentTime := time);
          var ratio := Ratio(time, animationData.animationDuration);
          UpdateFromKeyframes(animationData.associatedClass, ratio);
        } else {
          animationStates[i] := animationState.(currentDelay := animationState.currentDelay - deltaTime);
        }
      }
      assert states[..animationStates.Length] == states;
    }

    /** The keyframe scan: the first keyframe at `ratio` sets the class's colour; none leaves it. */
    method UpdateFromKeyframes(associatedClass: char, ratio: int)
      modifies this`colorMap
      ensures colorMap == WithKeyframe(old(colorMap), associatedClass, keyframes, ratio)
    {
      for j := 0 to |keyframes|
        invariant forall k :: 0 <= k < j ==> keyframes[k].percentage != ratio
        invariant colorMap == old(colorMap)
      {
        if keyframes[j].percentage == ratio {
          colorMap := colorMap[associatedClass := keyframes[j].color];
          return;
        }
      }
    }
  }

  // ---------------------------------------------------------------------------------------
  // Assembling the model from the extracted sections
  // ---------------------------------------------------------------------------------------

  /** ParseArray: one converted element per pattern match, in match order. */
  method ParseArray<T(0)>(elements: seq<string>, perElementConversion: string --> T) returns (output: array<T>)
    requires forall i :: 0 <= i < |elements| ==> perElementConversion.requires(elements[i])
    ensures output.Length == |elements|
    ensures forall i :: 0 <= i < |elements| ==> output[i] == perElementConversion(elements[i])
  {
    output := new T[|elements|];
    for i := 0 to |elements|
      invariant forall k :: 0 <= k < i ==> output[k] == perElementConversion(elements[k])
    {
      output[i] := perElementConversion(elements[i]);
    }
  }

  /** The initial animation states, one per animation in order. */
  method InitialAnimationStates(animations: seq<AnimationData>) returns (animationStates: array<AnimationState>)
    ensures fresh(animationStates)
    ensures animationStates[..] == seq(|animations|, j requires 0 <= j < |animations| => StartState(animations[j]))
  {
    animationStates := new AnimationState[|animations|];
    for j := 0 to |animations|
      invariant forall k :: 0 <= k < j ==> animationStates[k] == StartState(animations[k])
    {
      var animation := animations[j];
      animationStates[j] := AnimationState(animation.associatedClass, animation.animationDuration,
                                           animation.animationDelay);
    }
  }

  /**
   * The sections of a document as the stylesheet, grid and script extraction deliver them:
   * the style rules' animations, keyframes and base colours, the colours of the rules that
   * declare a background colour, the grid cells, the script constants, and the `classIds`
   * and `uni` array element matches.
   */
  datatype Sections = Sections(
    animations: seq<AnimationData>,
    keyframes: seq<Keyframe>,
    baseColors: seq<ColorStyle>,
    backgroundColors: seq<Color32>,
    cells: seq<GlyphCell>,
    inputs: AnimationInput,
    classIdMatches: seq<string>,
    unicodeMatches: seq<string>)

  /** What the element patterns match: single letters for class ids, digit runs for anchors. */
  predicate WellMatched(sections: Sections) {
    && (forall i :: 0 <= i < |sections.classIdMatches| ==> |sections.classIdMatches[i]| == 1)
    && (forall i :: 0 <= i < |sections.unicodeMatches| ==>
          IsDigits(sections.unicodeMatches[i]) && |sections.unicodeMatches[i]| >= 1)
  }

  datatype ParseError =
    | MissingBackgroundColor   // `.First()` over no background-colour rule
    | MissingGlyphs            // no glyph cells: the class array stays null and is then read
    | BadGrid(error: GridError)
    | UnicodeOverflow          // an anchor beyond the 32-bit range fails `int.Parse`
    | AnchorOutOfRange         // the seed selects an anchor index outside the array

  function ClassIdsOf(sections: Sections): (classIds: seq<char>)
    requires WellMatched(sections)
    ensures |classIds| == |sections.classIdMatches|
  {
    seq(|sections.classIdMatches|, i requires 0 <= i < |sections.classIdMatches| => sections.classIdMatches[i][0])
  }

  function UnicodesOf(sections: Sections): (unicodes: seq<int>)
    requires WellMatched(sections)
    ensures |unicodes| == |sections.unicodeMatches|
  {
    seq(|sections.unicodeMatches|, i requires 0 <= i < |sections.unicodeMatches| => DecimalValue(sections.unicodeMatches[i]))
  }

  /**
   * The render model a document's sections describe: the style sections as given, animation
   * states at their start, the grid as decoded, the script's class ids and anchors, the two
   * palettes, one context per cell, the first-wins colour map, and a tick counter at zero.
   */
  ghost predicate ModelOf(data: SvgRenderData, sections: Sections)
    requires WellMatched(sections) && RunsDefined(sections.inputs, UnicodesOf(sections))
    reads data, data.animationStates, data.charSet, data.mainCharSet, data.glyphContexts
  {
    var classIds := ClassIdsOf(sections);
    var unicodes := UnicodesOf(sections);
    && data.inputs == sections.inputs
    && data.animations == sections.animations
    && data.keyframes == sections.keyframes
    && data.baseColors == sections.baseColors
    && |sections.backgroundColors| > 0 && data.backgroundColor == sections.backgroundColors[0]
    && data.animationStates.Length == |sections.animations|
    && (forall j :: 0 <= j < |sections.animations| ==> data.animationStates[j] == StartState(sections.animations[j]))
    && data.classIds == classIds
    && data.unicodes == unicodes
    && |data.associatedClasses| == GridSize && |data.currentGlyphs| == GridSize
    && |sections.cells| <= GridSize
    && (forall j :: 0 <= j < |sections.cells| ==>
          |sections.cells[j].classAttribute| > 0 &&
          data.associatedClasses[j] == sections.cells[j].classAttribute[0] &&
          DecodeCell(sections.cells[j].text) == Success(data.currentGlyphs[j]))
    && (forall j :: |sections.cells| <= j < GridSize ==>
          data.associatedClasses[j] == '\0' && data.currentGlyphs[j] == 0)
    && data.charSet[..] == CharSetOf(sections.inputs, classIds, data.associatedClasses, data.currentGlyphs, unicodes)
    && data.mainCharSet[..] == MainCharSetOf(sections.inputs, classIds, data.associatedClasses, data.currentGlyphs, unicodes)
    && (sections.inputs.seed > 9950 ==> data.mainCharSet == data.charSet)
    && data.glyphContexts.Length == GridSize
    && (forall i :: 0 <= i < GridSize ==> data.glyphContexts[i] == ContextOf(classIds, data.associatedClasses[i]))
    && data.colorMap == FirstWins(sections.baseColors)
    && data.airShip == 0
  }

  /** The script section's palettes, then the model object and its initialization. */
  method Assemble(sections: Sections, animationStates: array<AnimationState>, associatedClasses: seq<char>,
                  currentGlyphs: seq<int>)
    returns (data: SvgRenderData)
    requires WellMatched(sections) && RunsDefined(sections.inputs, UnicodesOf(sections))
    requires AnchorsInRange(UnicodesOf(sections))
    requires |sections.backgroundColors| > 0
    requires animationStates.Length == |sections.animations|
    requires forall j :: 0 <= j < |sections.animations| ==> animationStates[j] == StartState(sections.animations[j])
    requires |associatedClasses| == GridSize && |currentGlyphs| == GridSize && |sections.cells| <= GridSize
    requires forall j :: 0 <= j < |sections.cells| ==>
               |sections.cells[j].classAttribute| > 0 &&
               associatedClasses[j] == sections.cells[j].classAttribute[0] &&
               DecodeCell(sections.cells[j].text) == Success(currentGlyphs[j])
    requires forall j :: |sections.cells| <= j < GridSize ==> associatedClasses[j] == '\0' && currentGlyphs[j] == 0
    ensures ModelOf(data, sections)
  {
    var classIdArray := ParseArray(sections.classIdMatches, (text: string) requires |text| == 1 => text[0]);
    var classIds := classIdArray[..];
    assert classIds == ClassIdsOf(sections);
    var unicodeArray := ParseArray(sections.unicodeMatches, (text: string) requires IsDigits(text) => DecimalValue(text));
    var unicodes := unicodeArray[..];
    assert unicodes == UnicodesOf(sections);
    var charSet, mainCharSet := BuildCharSets(sections.inputs, classIds, associatedClasses, currentGlyphs, unicodes);
    data := new SvgRenderData(sections.inputs, sections.baseColors, sections.keyframes, sections.animations,
                              animationStates, sections.backgroundColors[0], associatedClasses, currentGlyphs,
                              classIds, unicodes, charSet, mainCharSet);
    data.Initialize();
  }

  /**
   * Builds the render model from the style, grid and script sections, in that order, and
   * initializes it. Each failure is the first of the modelled exceptions the source raises:
   * the missing background colour, a malformed grid, an anchor beyond `int`, the null class
   * array read by the originalChars loop when there are class ids but no cells, an anchor
   * index outside the array, and the null class array read by Initialize.
   */
  method Parse(sections: Sections) returns (r: Result<SvgRenderData, ParseError>)
    requires WellMatched(sections)
    ensures sections.backgroundColors == [] ==> r == Failure(MissingBackgroundColor)
    ensures sections.backgroundColors != [] && sections.cells != [] && !GridWellFormed(sections.cells) ==>
              r.Failure? && r.error.BadGrid?
    ensures sections.backgroundColors != [] && (sections.cells == [] || GridWellFormed(sections.cells)) &&
            !AnchorsInRange(UnicodesOf(sections)) ==>
              r == Failure(UnicodeOverflow)
    ensures sections.backgroundColors != [] && sections.cells == [] && AnchorsInRange(UnicodesOf(sections)) &&
            sections.classIdMatches != [] ==>
              r == Failure(MissingGlyphs)
    ensures sections.backgroundColors != [] && (sections.cells == [] ==> sections.classIdMatches == []) &&
            (sections.cells == [] || GridWellFormed(sections.cells)) && AnchorsInRange(UnicodesOf(sections)) &&
            !RunsDefined(sections.inputs, UnicodesOf(sections)) ==>
              r == Failure(AnchorOutOfRange)
    ensures sections.backgroundColors != [] && sections.cells == [] && AnchorsInRange(UnicodesOf(sections)) &&
            RunsDefined(sections.inputs, UnicodesOf(sections)) ==>
              r == Failure(MissingGlyphs)
    ensures r.Success? <==>
              && sections.backgroundColors != [] && sections.cells != [] && GridWellFormed(sections.cells)
              && AnchorsInRange(UnicodesOf(sections)) && RunsDefined(sections.inputs, UnicodesOf(sections))
    ensures r.Success? ==> RunsDefined(sections.inputs, UnicodesOf(sections)) && ModelOf(r.value, sections)
  {
    // style
    var animationStates := InitialAnimationStates(sections.animations);
    if |sections.backgroundColors| == 0 {
      return Failure(MissingBackgroundColor);
    }

    // foreignObject: with no cells the class and glyph arrays stay null
    var currentGlyphs: seq<int> := [];
    var associatedClasses: seq<char> := [];
    if |sections.cells| > 0 {
      var grid := FillGrid(sections.cells);
      if grid.Failure? {
        return Failure(BadGrid(grid.error));
      }
      currentGlyphs, associatedClasses := grid.value.0, grid.value.1;
    }

    // script
    var unicodes := UnicodesOf(sections);
    if !AnchorsInRange(unicodes) {
      return Failure(UnicodeOverflow);
    }
    if |sections.cells| == 0 && |sections.classIdMatches| > 0 {
      return Failure(MissingGlyphs);
    }
    if !RunsDefined(sections.inputs, unicodes) {
      return Failure(AnchorOutOfRange);
    }
    if |sections.cells| == 0 {
      return Failure(MissingGlyphs);
    }
    var data := Assemble(sections, animationStates, associatedClasses, currentGlyphs);
    return Success(data);
  }
}
