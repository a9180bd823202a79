/**
 * One tick of the procedural glyph animation: a 32 by 32 scan that, by mode and cell depth,
 * emits glyph and font-size events for the renderer, then advances the tick counter.
 * The callbacks become a returned event sequence, in emission order; the random draw of each
 * cell is an input.
 */
module Animation {
  import opened SvgTypes
  import opened GlyphGrid

  /** Cells per row and per column. */
  const Side: nat := 32

  datatype Event =
    | TextUpdate(index: int, unicode: int)
    | FontSize(index: int, size: int)

  /** Integer `%` truncating toward zero: a negative dividend gives a non-positive remainder. */
  function TruncRem(a: int, n: int): (r: int)
    requires n > 0
    ensures -n < r < n
    ensures a >= 0 ==> r == a % n
  {
    if a >= 0 then a % n else -((-a) % n)
  }

  predicate Animated(inputs: AnimationInput) {
    inputs.IsDayDream() || inputs.IsTerraformed()
  }

  /** Mode 0: floor(airShip / 4 + (h + x / 2 + direction * y / 10)). */
  function WaveIndex(inputs: AnimationInput, airShip: UInt32, h: int, x: int, y: int): int {
    (0.25 * (airShip as real) + ((h as real) + 0.5 * (x as real) + 0.1 * (inputs.direction as real) * (y as real))).Floor
  }

  /** Mode 0: a cell shows a glyph when its depth exceeds 6 - resource. */
  predicate Emerged(inputs: AnimationInput, h: int) {
    (h as real) > 6.0 - inputs.resource
  }

  /** Depth 0 in the animated modes: a slow drift for seeds below 8000, a fast one otherwise. */
  function DriftIndex(inputs: AnimationInput, airShip: UInt32, x: int, y: int): int {
    if inputs.seed < 8000 then
      ((airShip as real) / 1000.0 + 0.05 * (x as real) + 0.005 * (y as real)).Floor
    else
      ((airShip as real) / 2.0 + 0.05 * (x as real)).Floor
  }

  /** Other depths in the animated modes: integer division of the tick by the speed factor. */
  function DepthIndex(inputs: AnimationInput, airShip: UInt32, x: int, h: int): int {
    airShip / inputs.SpeedFactor() + x + h
  }

  /** The glyph is blanked when the original or the active class is 'j'. */
  predicate Blanked(ctx: ContextInfo) {
    !('j' != ctx.originalClass && 'j' != ctx.activeClass)
  }

  /** The palette indices of the cell at row `x`, column `y` are within the palettes. */
  predicate CellDefined(inputs: AnimationInput, mainSet: seq<int>, charSet: seq<int>, ctx: ContextInfo,
                        airShip: UInt32, x: int, y: int) {
    if inputs.mode == 0 then
      Emerged(inputs, ctx.h) ==> |mainSet| > 0 && TruncRem(WaveIndex(inputs, airShip, ctx.h, x, y), |mainSet|) >= 0
    else if Animated(inputs) then
      if ctx.h == 0 then |mainSet| > 0 && TruncRem(DriftIndex(inputs, airShip, x, y), |mainSet|) >= 0
      else |charSet| > 0 && TruncRem(DepthIndex(inputs, airShip, x, ctx.h), |charSet|) >= 0
    else true
  }

  /** The events the cell at row `x`, column `y` emits, in order. */
  function CellEvents(inputs: AnimationInput, mainSet: seq<int>, charSet: seq<int>, ctx: ContextInfo,
                      airShip: UInt32, x: int, y: int, draw: bool): seq<Event>
    requires CellDefined(inputs, mainSet, charSet, ctx, airShip, x, y)
  {
    var index := y + Side * x;
    if inputs.mode == 0 then
      if Emerged(inputs, ctx.h) then
        [TextUpdate(index, mainSet[TruncRem(WaveIndex(inputs, airShip, ctx.h, x, y), |mainSet|)])]
      else []
    else if Animated(inputs) then
      if ctx.h == 0 then
        [TextUpdate(index, mainSet[TruncRem(DriftIndex(inputs, airShip, x, y), |mainSet|)])]
      else
        [TextUpdate(index, charSet[TruncRem(DepthIndex(inputs, airShip, x, ctx.h), |charSet|)])]
        + (if draw && inputs.seed > 5000 then [FontSize(index, 3 + airShip % 34)] else [])
        + (if Blanked(ctx) then [TextUpdate(index, Space)] else [])
    else []
  }

  /** Every cell of the grid has its palette indices in range. */
  predicate UpdateDefined(inputs: AnimationInput, mainSet: seq<int>, charSet: seq<int>, contexts: seq<ContextInfo>,
                          airShip: UInt32) {
    && |contexts| >= GridSize
    && forall k :: 0 <= k < GridSize ==> CellDefined(inputs, mainSet, charSet, contexts[k], airShip, k / Side, k % Side)
  }

  /**
   * The events of cell `k` in scan order, at row k / 32 and column k % 32: all address cell
   * `k`, and font sizes come only from an animated cell of non-zero depth whose draw fired,
   * for seeds above 5000, with a size in [3, 36].
   */
  function CellAt(inputs: AnimationInput, mainSet: seq<int>, charSet: seq<int>, contexts: seq<ContextInfo>,
                  airShip: UInt32, draws: seq<bool>, k: nat): (events: seq<Event>)
    requires k < GridSize && |draws| >= GridSize
    requires UpdateDefined(inputs, mainSet, charSet, contexts, airShip)
    ensures forall i :: 0 <= i < |events| ==> events[i].index == k
    ensures forall i :: 0 <= i < |events| && events[i].FontSize? ==>
              && inputs.mode != 0 && Animated(inputs) && inputs.seed > 5000 && contexts[k].h != 0 && draws[k]
              && 3 <= events[i].size <= 36
  {
    assert k % Side + Side * (k / Side) == k;
    CellEvents(inputs, mainSet, charSet, contexts[k], airShip, k / Side, k % Side, draws[k])
  }

  /** The events of the first `n` cells in scan order. */
  function UpdateEvents(inputs: AnimationInput, mainSet: seq<int>, charSet: seq<int>, contexts: seq<ContextInfo>,
                        airShip: UInt32, draws: seq<bool>, n: nat): seq<Event>
    requires n <= GridSize && |draws| >= GridSize
    requires UpdateDefined(inputs, mainSet, charSet, contexts, airShip)
  {
    if n == 0 then []
    else
      UpdateEvents(inputs, mainSet, charSet, contexts, airShip, draws, n - 1)
        + CellAt(inputs, mainSet, charSet, contexts, airShip, draws, n - 1)
  }

  /** The tick counter's increment, wrapping at 2^32. */
  function Tick(airShip: UInt32): UInt32 {
    (airShip + 1) % UInt32Modulus
  }

  /**
   * One tick: scans rows `x` and columns `y`, emitting each cell's events, then advances the
   * counter. The contexts and palettes are only read.
   */
  method Update(inputs: AnimationInput, mainSet: array<int>, charSet: array<int>, glyphContexts: array<ContextInfo>,
                airShip: UInt32, draws: seq<bool>)
    returns (events: seq<Event>, nextAirShip: UInt32)
    requires |draws| >= GridSize
    requires UpdateDefined(inputs, mainSet[..], charSet[..], glyphContexts[..], airShip)
    ensures events == UpdateEvents(inputs, mainSet[..], charSet[..], glyphContexts[..], airShip, draws, GridSize)
    ensures nextAirShip == Tick(airShip)
  {
    events := [];
    for x := 0 to Side
      invariant events == UpdateEvents(inputs, mainSet[..], charSet[..], glyphContexts[..], airShip, draws, Side * x)
    {
      for y := 0 to Side
        invariant events == UpdateEvents(inputs, mainSet[..], charSet[..], glyphContexts[..], airShip, draws, Side * x + y)
      {
        var index := y + Side * x;
        var ctx := glyphContexts[index];
        assert index / Side == x && index % Side == y;
        assert CellDefined(inputs, mainSet[..], charSet[..], ctx, airShip, x, y);
        var cell := CellUpdate(inputs, mainSet, charSet, ctx, airShip, x, y, draws[index]);
        events := events + cell;
      }
    }
    nextAirShip := (airShip + 1) % UInt32Modulus;
  }

  /** The body of the scan for one cell: the dispatch on mode and depth. */
  method CellUpdate(inputs: AnimationInput, mainSet: array<int>, charSet: array<int>, ctx: ContextInfo,
                    airShip: UInt32, x: int, y: int, draw: bool)
    returns (events: seq<Event>)
    requires CellDefined(inputs, mainSet[..], charSet[..], ctx, airShip, x, y)
    ensures events == CellEvents(inputs, mainSet[..], charSet[..], ctx, airShip, x, y, draw)
  {
    var index := y + Side * x;
    events := [];
    if inputs.mode == 0 {
      if (ctx.h as real) > 6.0 - inputs.resource {
        var unicode := mainSet[TruncRem(WaveIndex(inputs, airShip, ctx.h, x, y), mainSet.Length)];
        events := events + [TextUpdate(index, unicode)];
      }
    } else if inputs.IsDayDream() || inputs.IsTerraformed() {
      if ctx.h == 0 {
        var unicode := mainSet[TruncRem(DriftIndex(inputs, airShip, x, y), mainSet.Length)];
        events := events + [TextUpdate(index, unicode)];
      } else {
        var unicode := charSet[TruncRem(airShip / inputs.SpeedFactor() + x + ctx.h, charSet.Length)];
        events := events + [TextUpdate(index, unicode)];
        if draw && inputs.seed > 5000 {
          events := events + [FontSize(index, 3 + airShip % 34)];
        }
        if !('j' != ctx.originalClass && 'j' != ctx.activeClass) {
          events := events + [TextUpdate(index, Space)];
        }
      }
    }
  }

  // ---------------------------------------------------------------------------------------
  // Properties of a tick
  // ---------------------------------------------------------------------------------------

  /** The events addressed to cell `k`, in order. */
  function EventsAt(events: seq<Event>, k: int): (r: seq<Event>)
    ensures forall i :: 0 <= i < |r| ==> r[i].index == k
    decreases |events|
  {
    if events == [] then []
    else
      var last := events[|events| - 1];
      EventsAt(events[..|events| - 1], k) + (if last.index == k then [last] else [])
  }

  lemma {:induction false} EventsAtConcat(a: seq<Event>, b: seq<Event>, k: int)
    ensures EventsAt(a + b, k) == EventsAt(a, k) + EventsAt(b, k)
    decreases |b|
  {
    if b == [] {
      assert a + b == a;
    } else {
      var n := |b| - 1;
      assert (a + b)[..|a + b| - 1] == a + b[..n];
      EventsAtConcat(a, b[..n], k);
    }
  }

  /** Events that all address cell `j` are all or nothing of what cell `k` receives. */
  lemma {:induction false} EventsAtOwn(events: seq<Event>, j: int, k: int)
    requires forall i :: 0 <= i < |events| ==> events[i].index == j
    ensures EventsAt(events, k) == if j == k then events else []
    decreases |events|
  {
    if events != [] {
      var n := |events| - 1;
      EventsAtOwn(events[..n], j, k);
      if j == k {
        assert events == events[..n] + [events[n]];
      }
    }
  }

  /**
   * Per cell and branch: what one cell emits. Mode 0 gives one main-palette glyph exactly
   * when the cell has emerged; modes outside 0, 1, 3, 4 give nothing; depth 0 gives one
   * main-palette glyph; other depths give the char-palette glyph at the integer index, then
   * an optional font size in [3, 36], then a blank exactly when the original or the active
   * class is 'j'. Every event addresses index y + 32 x.
   */
  lemma CellEventsShape(inputs: AnimationInput, mainSet: seq<int>, charSet: seq<int>, ctx: ContextInfo,
                        airShip: UInt32, x: int, y: int, draw: bool)
    requires CellDefined(inputs, mainSet, charSet, ctx, airShip, x, y)
    ensures var events := CellEvents(inputs, mainSet, charSet, ctx, airShip, x, y, draw);
            && (inputs.mode == 0 ==>
                  (|events| == 1 <==> Emerged(inputs, ctx.h)) && |events| <= 1 &&
                  (|events| == 1 ==> events[0].TextUpdate? && events[0].unicode in mainSet))
            && (inputs.mode != 0 && !Animated(inputs) ==> events == [])
            && (inputs.mode != 0 && Animated(inputs) && ctx.h == 0 ==>
                  |events| == 1 && events[0].TextUpdate? && events[0].unicode in mainSet)
            && (inputs.mode != 0 && Animated(inputs) && ctx.h != 0 ==>
                  && 1 <= |events| <= 3
                  && events[0] == TextUpdate(y + Side * x, charSet[TruncRem(DepthIndex(inputs, airShip, x, ctx.h), |charSet|)])
                  && (DepthIndex(inputs, airShip, x, ctx.h) >= 0 ==>
                        events[0].unicode == charSet[DepthIndex(inputs, airShip, x, ctx.h) % |charSet|])
                  && (Blanked(ctx) <==> events[|events| - 1] == TextUpdate(y + Side * x, Space) && |events| >= 2))
  {
  }

  /** The events of cell `k` in a whole tick are exactly that cell's events: each cell is visited once. */
  lemma {:induction false} EachCellOnce(inputs: AnimationInput, mainSet: seq<int>, charSet: seq<int>,
                                         contexts: seq<ContextInfo>, airShip: UInt32, draws: seq<bool>, n: nat, k: int)
    requires n <= GridSize && |draws| >= GridSize
    requires UpdateDefined(inputs, mainSet, charSet, contexts, airShip)
    ensures EventsAt(UpdateEvents(inputs, mainSet, charSet, contexts, airShip, draws, n), k) ==
              if 0 <= k < n then CellAt(inputs, mainSet, charSet, contexts, airShip, draws, k) else []
  {
    if n > 0 {
      var j := n - 1;
      var cell := CellAt(inputs, mainSet, charSet, contexts, airShip, draws, j);
      EachCellOnce(inputs, mainSet, charSet, contexts, airShip, draws, j, k);
      EventsAtConcat(UpdateEvents(inputs, mainSet, charSet, contexts, airShip, draws, j), cell, k);
      EventsAtOwn(cell, j, k);
    }
  }

  /** A tick's events address cells 0 .. n-1 in non-decreasing order: the scan is row by row. */
  lemma {:induction false} ScanOrder(inputs: AnimationInput, mainSet: seq<int>, charSet: seq<int>,
                                     contexts: seq<ContextInfo>, airShip: UInt32, draws: seq<bool>, n: nat)
    requires n <= GridSize && |draws| >= GridSize
    requires UpdateDefined(inputs, mainSet, charSet, contexts, airShip)
    ensures forall i :: 0 <= i < |UpdateEvents(inputs, mainSet, charSet, contexts, airShip, draws, n)| ==>
              0 <= UpdateEvents(inputs, mainSet, charSet, contexts, airShip, draws, n)[i].index < n
    ensures forall i, j :: 0 <= i < j < |UpdateEvents(inputs, mainSet, charSet, contexts, airShip, draws, n)| ==>
              UpdateEvents(inputs, mainSet, charSet, contexts, airShip, draws, n)[i].index <=
              UpdateEvents(inputs, mainSet, charSet, contexts, airShip, draws, n)[j].index
  {
    if n > 0 {
      var k := n - 1;
      ScanOrder(inputs, mainSet, charSet, contexts, airShip, draws, k);
      OrderedAppend(UpdateEvents(inputs, mainSet, charSet, contexts, airShip, draws, k),
                    CellAt(inputs, mainSet, charSet, contexts, airShip, draws, k), k);
    }
  }

  /** Events ordered by cell below `k`, followed by events of cell `k`, are ordered by cell below `k + 1`. */
  lemma OrderedAppend(before: seq<Event>, cell: seq<Event>, k: nat)
    requires forall i :: 0 <= i < |before| ==> 0 <= before[i].index < k
    requires forall i, j :: 0 <= i < j < |before| ==> before[i].index <= before[j].index
    requires forall i :: 0 <= i < |cell| ==> cell[i].index == k
    ensures forall i :: 0 <= i < |before + cell| ==> 0 <= (before + cell)[i].index < k + 1
    ensures forall i, j :: 0 <= i < j < |before + cell| ==> (before + cell)[i].index <= (before + cell)[j].index
  {
    var events := before + cell;
    forall i | 0 <= i < |events| ensures 0 <= events[i].index < k + 1 {
      if i >= |before| {
        assert events[i] == cell[i - |before|];
      }
    }
    forall i, j | 0 <= i < j < |events| ensures events[i].index <= events[j].index {
      if j < |before| {
        assert events[i] == before[i] && events[j] == before[j];
      } else if i < |before| {
        assert events[j] == cell[j - |before|];
      } else {
        assert events[i] == cell[i - |before|] && events[j] == cell[j - |before|];
      }
    }
  }

  /** In a mode outside 0, 1, 3 and 4 a tick emits nothing. */
  lemma {:induction false} InactiveModeEmitsNothing(inputs: AnimationInput, mainSet: seq<int>, charSet: seq<int>,
                                                    contexts: seq<ContextInfo>, airShip: UInt32, draws: seq<bool>, n: nat)
    requires n <= GridSize && |draws| >= GridSize
    requires UpdateDefined(inputs, mainSet, charSet, contexts, airShip)
    requires inputs.mode !in {0, 1, 3, 4}
    ensures UpdateEvents(inputs, mainSet, charSet, contexts, airShip, draws, n) == []
  {
    if n > 0 {
      InactiveModeEmitsNothing(inputs, mainSet, charSet, contexts, airShip, draws, n - 1);
    }
  }

  /** A font-size event of one of the first `n` cells that the source can emit. */
  predicate FontSizeFrom(inputs: AnimationInput, contexts: seq<ContextInfo>, draws: seq<bool>, n: nat, e: Event)
    requires e.FontSize? && |contexts| >= n && |draws| >= n
  {
    && 0 <= e.index < n
    && Animated(inputs) && inputs.mode != 0 && inputs.seed > 5000
    && contexts[e.index].h != 0 && draws[e.index]
    && 3 <= e.size <= 36
  }

  /**
   * Font-size events of a tick come only from animated cells of non-zero depth whose draw
   * fired, for seeds above 5000, and set a size in [3, 36].
   */
  lemma {:induction false} FontSizesInRange(inputs: AnimationInput, mainSet: seq<int>, charSet: seq<int>,
                                            contexts: seq<ContextInfo>, airShip: UInt32, draws: seq<bool>, n: nat)
    requires n <= GridSize && |draws| >= GridSize
    requires UpdateDefined(inputs, mainSet, charSet, contexts, airShip)
    ensures forall i :: 0 <= i < |UpdateEvents(inputs, mainSet, charSet, contexts, airShip, draws, n)| &&
                        UpdateEvents(inputs, mainSet, charSet, contexts, airShip, draws, n)[i].FontSize? ==>
              FontSizeFrom(inputs, contexts, draws, n, UpdateEvents(inputs, mainSet, charSet, contexts, airShip, draws, n)[i])
  {
    if n > 0 {
      var k := n - 1;
      FontSizesInRange(inputs, mainSet, charSet, contexts, airShip, draws, k);
      var before := UpdateEvents(inputs, mainSet, charSet, contexts, airShip, draws, k);
      var cell := CellAt(inputs, mainSet, charSet, contexts, airShip, draws, k);
      var events := before + cell;
      forall i | 0 <= i < |events| && events[i].FontSize?
        ensures FontSizeFrom(inputs, contexts, draws, n, events[i])
      {
        if i < |before| {
          assert events[i] == before[i];
          assert FontSizeFrom(inputs, contexts, draws, k, before[i]);
        } else {
          assert events[i] == cell[i - |before|];
          assert events[i].index == k;
        }
      }
    }
  }

  /** The counter after `n` ticks. */
  function Ticks(airShip: UInt32, n: nat): UInt32 {
    if n == 0 then airShip else Tick(Ticks(airShip, n - 1))
  }

  /** `n` ticks add `n` to the counter modulo 2^32. */
  lemma {:induction false} TicksWrap(airShip: UInt32, n: nat)
    ensures Ticks(airShip, n) == (airShip + n) % UInt32Modulus
  {
    if n > 0 {
      TicksWrap(airShip, n - 1);
      SuccessorMod(airShip + n - 1);
    }
  }

  /** Adding one after reducing modulo 2^32 is adding one before. */
  lemma SuccessorMod(a: nat)
    ensures (a % UInt32Modulus + 1) % UInt32Modulus == (a + 1) % UInt32Modulus
  {
    var q := a / UInt32Modulus;
    var r := a % UInt32Modulus;
    if r + 1 < UInt32Modulus {
      assert a + 1 == q * UInt32Modulus + (r + 1);
    } else {
      assert a + 1 == (q + 1) * UInt32Modulus;
    }
  }

  /**
   * Contexts of depth at least 1, as Initialize builds them, make every cell of an animated
   * tick index within a non-empty char palette, and every cell of a mode-0 tick within a
   * non-empty main palette when the direction is not negative.
   */
  lemma DeepContextsDefined(inputs: AnimationInput, mainSet: seq<int>, charSet: seq<int>,
                            contexts: seq<ContextInfo>, airShip: UInt32)
    requires |contexts| >= GridSize
    requires forall k :: 0 <= k < GridSize ==> contexts[k].h >= 1
    requires inputs.mode == 0 ==> |mainSet| > 0 && inputs.direction >= 0
    requires Animated(inputs) ==> |charSet| > 0
    ensures UpdateDefined(inputs, mainSet, charSet, contexts, airShip)
  {
    forall k | 0 <= k < GridSize
      ensures CellDefined(inputs, mainSet, charSet, contexts[k], airShip, k / Side, k % Side)
    {
      var x := k / Side;
      var y := k % Side;
      if inputs.mode == 0 {
        var d := inputs.direction as real;
        assert 0.0 <= d * (y as real) by { ScaleNonNegative(d, y as real); }
        assert WaveIndex(inputs, airShip, contexts[k].h, x, y) >= 0;
      }
    }
  }

  lemma ScaleNonNegative(a: real, b: real)
    requires 0.0 <= a && 0.0 <= b
    ensures 0.0 <= a * b
  {
  }
}
