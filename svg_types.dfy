/**
 * The value types of the render model: colours, generation parameters, per-cell context,
 * animation declarations and their running state.
 */
module SvgTypes {

  type Byte = x: int | 0 <= x < 0x100

  /** A C# `uint`: the animation driver wraps modulo 2^32. */
  type UInt32 = x: int | 0 <= x < 0x1_0000_0000

  const UInt32Modulus: int := 0x1_0000_0000

  /** The range of a C# `int`. */
  const Int32Min: int := -0x8000_0000
  const Int32Max: int := 0x7FFF_FFFF

  /**
   * A C# `int` sum as unchecked arithmetic leaves it: the mathematical value brought back into
   * the `int` range modulo 2^32.
   */
  function Int32Wrap(x: int): (r: int)
    ensures Int32Min <= r <= Int32Max
    ensures Int32Min <= x <= Int32Max ==> r == x
    ensures Int32Max < x <= Int32Max + UInt32Modulus ==> r == x - UInt32Modulus
  {
    (x - Int32Min) % UInt32Modulus + Int32Min
  }

  /** Unity's Color32: four 8-bit channels. */
  datatype Color32 = Color32(r: Byte, g: Byte, b: Byte, a: Byte)

  /** `default(Color32)`: transparent black. */
  const DefaultColor: Color32 := Color32(0, 0, 0, 0)

  /**
   * The generation parameters read from the script section. `resource` is a float in the
   * source (the raw value divided by 1e4) and a real here.
   */
  datatype AnimationInput = AnimationInput(mode: int, seed: int, direction: int, resource: real) {

    predicate IsDayDream() {
      mode == 1 || mode == 3
    }

    predicate IsTerraformed() {
      mode == 3 || mode == 4
    }

    predicate IsOrigin() {
      mode == 3 || mode == 4
    }

    /** The divisor of the tick counter in the depth formula: never zero. */
    function SpeedFactor(): (f: int)
      ensures f >= 1
      ensures f == 30 <==> seed > 6500
      ensures f != 30 ==> f == 1
    {
      if seed > 6500 then 30 else 1
    }
  }

  /** The two mode predicates that select the palette and animation branches coincide. */
  lemma OriginIsTerraformed(inputs: AnimationInput)
    ensures inputs.IsOrigin() <==> inputs.IsTerraformed()
    ensures inputs.IsOrigin() <==> inputs.mode in {3, 4}
  {
  }

  /** The glyph animation runs its day-dream/terraformed branch exactly in modes 1, 3 and 4. */
  lemma AnimatedModes(inputs: AnimationInput)
    ensures inputs.IsDayDream() || inputs.IsTerraformed() <==> inputs.mode in {1, 3, 4}
    ensures inputs.IsDayDream() <==> inputs.mode in {1, 3}
  {
  }

  /** A plain `color` rule: the class label is the selector's second character. */
  datatype ColorStyle = ColorStyle(classLabel: char, color: Color32)

  /** One keyframe of a track: a byte percentage and its colour. */
  datatype Keyframe = Keyframe(percentage: Byte, color: Color32)

  /** Per-cell context: depth `h`, and the original and active class labels. */
  datatype ContextInfo = ContextInfo(h: int, originalClass: char, activeClass: char)

  /** The running state of one animation declaration; times are floats in the source. */
  datatype AnimationState = AnimationState(associatedClass: char, currentTime: real, currentDelay: real)

  /** One rule with an `animation` shorthand; duration and delay are in seconds. */
  datatype AnimationData = AnimationData(
    associatedClass: char,
    animationDuration: real,
    animationDelay: real,
    animationDirection: string,
    animationTimingFunction: string,
    animationFillMode: string,
    animationIterationCount: string,
    animationName: string,
    animationPlayState: string)
}
