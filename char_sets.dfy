/**
 * The palettes derived when the script section is read: `originalChars` (one glyph per class
 * id, in class-id order), `CharSet` (those glyphs followed by ten-codepoint runs chosen by mode
 * and seed) and `MainCharSet` (CharSet for seeds above 9950, otherwise originalChars reversed).
 */
module CharSets {
  import opened SvgTypes
  import opened CollectionExtensions
  import opened FixedLists

  /** The number of consecutive codepoints MakeSet appends. */
  const RunLength: nat := 10

  /** FirstIndex with `cls == id` as the condition: the first cell of class `id`, or -1. */
  function ClassIndex(classes: seq<char>, id: char): (i: int)
    ensures -1 <= i < |classes|
    ensures i == -1 <==> id !in classes
    ensures 0 <= i ==> classes[i] == id && id !in classes[..i]
  {
    FirstIndex(classes, (cls: char) => cls == id)
  }

  /**
   * originalChars: for each class id in order, the glyph of the first cell of that class;
   * ids that no cell carries are skipped.
   */
  function OriginalChars(classIds: seq<char>, classes: seq<char>, glyphs: seq<int>): (r: seq<int>)
    requires |classes| <= |glyphs|
    ensures |r| <= |classIds|
    decreases |classIds|
  {
    if classIds == [] then []
    else
      var prefix := OriginalChars(classIds[..|classIds| - 1], classes, glyphs);
      var index := ClassIndex(classes, classIds[|classIds| - 1]);
      if index > -1 then prefix + [glyphs[index]] else prefix
  }

  /** Whether `unicode + 10` stays within the `int` range; past it the sum wraps negative. */
  predicate Fits(unicode: int) {
    unicode + RunLength <= Int32Max
  }

  /**
   * The run MakeSet appends: `unicode` and the nine codepoints after it. For an anchor of
   * 2147483638 or more the loop bound `unicode + 10` wraps negative and nothing is appended.
   */
  function Run(unicode: int): (r: seq<int>)
    ensures |r| == if Fits(unicode) then RunLength else 0
    ensures forall i :: 0 <= i < |r| ==> r[i] <= Int32Max
  {
    if Fits(unicode) then seq(RunLength, i => unicode + i) else []
  }

  /** One run per anchor, in anchor order. */
  function Runs(anchors: seq<int>): (r: seq<int>)
    ensures |r| <= RunLength * |anchors|
    decreases |anchors|
  {
    if anchors == [] then [] else Runs(anchors[..|anchors| - 1]) + Run(anchors[|anchors| - 1])
  }

  /** The anchors in `unicodes` whose runs are not lost to the wrap, in order. */
  function Fitting(anchors: seq<int>): (r: seq<int>)
    ensures |r| <= |anchors|
    ensures forall k :: 0 <= k < |r| ==> Fits(r[k]) && r[k] in anchors
    ensures (forall k :: 0 <= k < |anchors| ==> Fits(anchors[k])) ==> r == anchors
    decreases |anchors|
  {
    if anchors == [] then []
    else
      var n := |anchors| - 1;
      assert anchors == anchors[..n] + [anchors[n]];
      Fitting(anchors[..n]) + (if Fits(anchors[n]) then [anchors[n]] else [])
  }

  /** The anchors of a C# `int[]`. */
  predicate AnchorsInRange(unicodes: seq<int>) {
    forall i :: 0 <= i < |unicodes| ==> Int32Min <= unicodes[i] <= Int32Max
  }

  /**
   * What the source demands for the anchor indexing not to throw: a non-negative seed where
   * the origin branch takes it modulo the anchor count, and an anchor at `seed % 3` where the
   * non-origin branch reads one.
   */
  predicate RunsDefined(inputs: AnimationInput, unicodes: seq<int>) {
    if inputs.IsOrigin() then
      (inputs.seed <= 9000 && |unicodes| > 0 ==> inputs.seed >= 0)
    else
      (5000 < inputs.seed <= 9970 ==> inputs.seed % 3 < |unicodes|)
  }

  /** How many times each branch of the seed table calls MakeSet, for `count` anchors. */
  function RunCount(inputs: AnimationInput, count: nat): nat {
    if inputs.IsOrigin() then count
    else if inputs.seed > 9970 then count
    else if inputs.seed > 5000 then 1
    else 0
  }

  /**
   * The seed table: the anchors MakeSet is called with, in call order. Origin tokens take
   * every anchor above seed 9000 and the anchor at `seed % |unicodes|`, once per anchor,
   * otherwise; other tokens take every anchor above seed 9970, the anchor at `seed % 3` above
   * seed 5000, and none otherwise.
   */
  function Selected(inputs: AnimationInput, unicodes: seq<int>): (anchors: seq<int>)
    requires RunsDefined(inputs, unicodes)
    ensures |anchors| == RunCount(inputs, |unicodes|) <= |unicodes|
    ensures forall k :: 0 <= k < |anchors| ==> anchors[k] in unicodes
  {
    if inputs.IsOrigin() then
      if inputs.seed > 9000 then unicodes
      else if |unicodes| == 0 then []
      else seq(|unicodes|, _ => unicodes[inputs.seed % |unicodes|])
    else if inputs.seed > 9970 then unicodes
    else if inputs.seed > 5000 then [unicodes[inputs.seed % 3]]
    else []
  }

  /** The codepoints the seed table appends after originalChars. */
  function AnchorRuns(inputs: AnimationInput, unicodes: seq<int>): (r: seq<int>)
    requires RunsDefined(inputs, unicodes)
    ensures |r| <= RunLength * RunCount(inputs, |unicodes|)
  {
    Runs(Selected(inputs, unicodes))
  }

  /** The selected anchors whose runs are appended: those whose `unicode + 10` does not wrap. */
  function Appended(inputs: AnimationInput, unicodes: seq<int>): seq<int>
    requires RunsDefined(inputs, unicodes)
  {
    Fitting(Selected(inputs, unicodes))
  }

  function CharSetOf(inputs: AnimationInput, classIds: seq<char>, classes: seq<char>, glyphs: seq<int>,
                     unicodes: seq<int>): seq<int>
    requires |classes| <= |glyphs|
    requires RunsDefined(inputs, unicodes)
  {
    OriginalChars(classIds, classes, glyphs) + AnchorRuns(inputs, unicodes)
  }

  function MainCharSetOf(inputs: AnimationInput, classIds: seq<char>, classes: seq<char>, glyphs: seq<int>,
                         unicodes: seq<int>): seq<int>
    requires |classes| <= |glyphs|
    requires RunsDefined(inputs, unicodes)
  {
    if inputs.seed > 9950 then CharSetOf(inputs, classIds, classes, glyphs, unicodes)
    else Reversed(OriginalChars(classIds, classes, glyphs))
  }

  /**
   * MakeSet: appends `unicode`, ..., `unicode + 9` to the list while the counter is below
   * the `int` value of `unicode + 10`.
   */
  method MakeSet(unicode: int, result: FixedList<int>)
    requires Int32Min <= unicode <= Int32Max
    requires result.Valid() && result.length + RunLength <= result.Capacity()
    modifies result`length, result.collection
    ensures result.Valid() && result.collection == old(result.collection)
    ensures result.Items() == old(result.Items()) + Run(unicode)
  {
    var bound := Int32Wrap(unicode + RunLength);
    var i := unicode;
    while i < bound
      invariant unicode <= i <= unicode + |Run(unicode)|
      invariant result.Valid() && result.collection == old(result.collection)
      invariant result.length == old(result.length) + (i - unicode)
      invariant result.Items() == old(result.Items()) + Run(unicode)[..i - unicode]
      decreases bound - i
    {
      assert Run(unicode)[..i + 1 - unicode] == Run(unicode)[..i - unicode] + [i];
      result.Add(i);
      i := i + 1;
    }
    assert Run(unicode)[..i - unicode] == Run(unicode);
  }

  /** The branch table: appends the runs that mode and seed select. */
  method AppendRuns(inputs: AnimationInput, unicodes: seq<int>, charSet: FixedList<int>)
    requires RunsDefined(inputs, unicodes) && AnchorsInRange(unicodes)
    requires charSet.Valid() && charSet.length + RunLength * |unicodes| <= charSet.Capacity()
    modifies charSet`length, charSet.collection
    ensures charSet.Valid() && charSet.collection == old(charSet.collection)
    ensures charSet.Items() == old(charSet.Items()) + AnchorRuns(inputs, unicodes)
  {
    if inputs.IsOrigin() {
      if inputs.seed > 9000 {
        AppendEachRun(unicodes, charSet);
      } else if |unicodes| > 0 {
        AppendSameRun(unicodes[inputs.seed % |unicodes|], |unicodes|, charSet);
      }
    } else if inputs.seed > 9970 {
      AppendEachRun(unicodes, charSet);
    } else if inputs.seed > 5000 {
      MakeSet(unicodes[inputs.seed % 3], charSet);
      assert [unicodes[inputs.seed % 3]][..0] == [];
    }
  }

  /** The `foreach` of the origin branch up to seed 9000: one run from the same anchor per anchor. */
  method AppendSameRun(anchor: int, count: nat, charSet: FixedList<int>)
    requires Int32Min <= anchor <= Int32Max
    requires charSet.Valid() && charSet.length + RunLength * count <= charSet.Capacity()
    modifies charSet`length, charSet.collection
    ensures charSet.Valid() && charSet.collection == old(charSet.collection)
    ensures charSet.Items() == old(charSet.Items()) + Runs(seq(count, _ => anchor))
  {
    ghost var before := charSet.Items();
    for k := 0 to count
      invariant charSet.Valid() && charSet.collection == old(charSet.collection)
      invariant charSet.length <= old(charSet.length) + RunLength * k
      invariant charSet.Items() == before + Runs(seq(k, _ => anchor))
    {
      assert seq(k + 1, _ => anchor)[..k] == seq(k, _ => anchor);
      AppendAssociates(before, Runs(seq(k, _ => anchor)), Run(anchor));
      MakeSet(anchor, charSet);
    }
  }

  /** The `foreach` over the anchors that appends one run per anchor. */
  method AppendEachRun(unicodes: seq<int>, charSet: FixedList<int>)
    requires AnchorsInRange(unicodes)
    requires charSet.Valid() && charSet.length + RunLength * |unicodes| <= charSet.Capacity()
    modifies charSet`length, charSet.collection
    ensures charSet.Valid() && charSet.collection == old(charSet.collection)
    ensures charSet.Items() == old(charSet.Items()) + Runs(unicodes)
  {
    ghost var before := charSet.Items();
    for k := 0 to |unicodes|
      invariant charSet.Valid() && charSet.collection == old(charSet.collection)
      invariant charSet.length <= old(charSet.length) + RunLength * k
      invariant charSet.Items() == before + Runs(unicodes[..k])
    {
      RunsSnoc(unicodes, k);
      AppendAssociates(before, Runs(unicodes[..k]), Run(unicodes[k]));
      MakeSet(unicodes[k], charSet);
    }
    assert unicodes[..|unicodes|] == unicodes;
  }

  /** The runs of one more anchor are the runs so far followed by its run. */
  lemma RunsSnoc(anchors: seq<int>, k: nat)
    requires k < |anchors|
    ensures Runs(anchors[..k + 1]) == Runs(anchors[..k]) + Run(anchors[k])
  {
    assert anchors[..k + 1][..k] == anchors[..k];
  }

  /** Concatenation associates; stated once so that loop steps need not rediscover it. */
  lemma AppendAssociates(a: seq<int>, b: seq<int>, c: seq<int>)
    ensures a + b + c == a + (b + c)
  {
  }

  /** The loop that fills originalChars: one glyph per class id carried by some cell. */
  method CollectOriginalChars(classIds: seq<char>, associatedClasses: seq<char>, currentGlyphs: seq<int>)
    returns (originalChars: FixedList<int>)
    requires |associatedClasses| <= |currentGlyphs|
    ensures fresh(originalChars) && fresh(originalChars.collection)
    ensures originalChars.Valid() && originalChars.Capacity() == |classIds|
    ensures originalChars.Items() == OriginalChars(classIds, associatedClasses, currentGlyphs)
  {
    originalChars := new FixedList<int>(|classIds|);
    for i := 0 to |classIds|
      invariant originalChars.Valid() && originalChars.Capacity() == |classIds|
      invariant fresh(originalChars.collection)
      invariant originalChars.Items() == OriginalChars(classIds[..i], associatedClasses, currentGlyphs)
    {
      assert classIds[..i + 1][..i] == classIds[..i];
      var index := ClassIndex(associatedClasses, classIds[i]);
      if index > -1 {
        originalChars.Add(currentGlyphs[index]);
      }
    }
    assert classIds[..|classIds|] == classIds;
  }

  /**
   * The charset list: sized for originalChars and one run per anchor, filled with
   * originalChars and then the selected runs, trimmed and copied out.
   */
  method AssembleCharSet(inputs: AnimationInput, original: seq<int>, capacity: nat, unicodes: seq<int>)
    returns (charSet: array<int>)
    requires RunsDefined(inputs, unicodes) && AnchorsInRange(unicodes)
    requires |original| <= capacity
    ensures fresh(charSet)
    ensures charSet[..] == original + AnchorRuns(inputs, unicodes)
  {
    var chars := new FixedList<int>(capacity + |unicodes| * RunLength);
    chars.AddRange(original);
    assert chars.Items() == original;
    AppendRuns(inputs, unicodes, chars);
    chars.TrimExcess();
    charSet := chars.ToArray();
  }

  /**
   * The charset section of Parse: builds originalChars in a trimmed fixed list, builds CharSet
   * from it, and picks MainCharSet. For seeds above 9950 both palettes are the same array;
   * otherwise MainCharSet is a reversed copy of originalChars.
   */
  method BuildCharSets(inputs: AnimationInput, classIds: seq<char>, associatedClasses: seq<char>,
                       currentGlyphs: seq<int>, unicodes: seq<int>)
    returns (charSet: array<int>, mainCharSet: array<int>)
    requires |associatedClasses| <= |currentGlyphs|
    requires RunsDefined(inputs, unicodes) && AnchorsInRange(unicodes)
    ensures charSet[..] == CharSetOf(inputs, classIds, associatedClasses, currentGlyphs, unicodes)
    ensures mainCharSet[..] == MainCharSetOf(inputs, classIds, associatedClasses, currentGlyphs, unicodes)
    ensures inputs.seed > 9950 ==> mainCharSet == charSet
  {
    var originalChars := CollectOriginalChars(classIds, associatedClasses, currentGlyphs);
    originalChars.TrimExcess();
    charSet := AssembleCharSet(inputs, originalChars.collection[..], |classIds|, unicodes);
    if inputs.seed > 9950 {
      mainCharSet := charSet;
    } else {
      originalChars.Reverse();
      mainCharSet := originalChars.ToArray();
    }
  }

  /**
   * The runs of `anchors` by position: ten codepoints per anchor that does not wrap, run `k`
   * counting up from the `k`-th such anchor.
   */
  lemma {:induction false} RunsAt(anchors: seq<int>, p: nat)
    ensures |Runs(anchors)| == RunLength * |Fitting(anchors)|
    ensures p < |Runs(anchors)| ==>
              p / RunLength < |Fitting(anchors)| && Runs(anchors)[p] == Fitting(anchors)[p / RunLength] + p % RunLength
    decreases |anchors|
  {
    if anchors != [] {
      var n := |anchors| - 1;
      RunsAt(anchors[..n], p);
      if |Runs(anchors[..n])| <= p < |Runs(anchors)| {
        assert p / RunLength == |Fitting(anchors[..n])|;
      }
    }
  }

  /**
   * CharSet by position (CharSetOf is `original` followed by AnchorRuns, `original` being
   * originalChars): `original` first, then ten consecutive codepoints for each selected
   * anchor whose run does not wrap, each within the `int` range; when no anchor wraps,
   * every selected anchor contributes its run.
   */
  lemma CharSetLayout(inputs: AnimationInput, original: seq<int>, unicodes: seq<int>)
    requires RunsDefined(inputs, unicodes)
    ensures var charSet := original + AnchorRuns(inputs, unicodes);
            var appended := Appended(inputs, unicodes);
            && |charSet| == |original| + RunLength * |appended|
            && |appended| <= RunCount(inputs, |unicodes|)
            && (forall k :: 0 <= k < |original| ==> charSet[k] == original[k])
            && (forall p :: |original| <= p < |charSet| ==>
                  (p - |original|) / RunLength < |appended| &&
                  charSet[p] == appended[(p - |original|) / RunLength] + (p - |original|) % RunLength &&
                  charSet[p] <= Int32Max)
            && ((forall u :: u in unicodes ==> Fits(u)) ==> appended == Selected(inputs, unicodes))
  {
    var selected := Selected(inputs, unicodes);
    PrefixThenRuns(original, selected, original + AnchorRuns(inputs, unicodes), Appended(inputs, unicodes));
    AllFit(selected, unicodes);
  }

  /** `original` followed by the runs of `anchors`, by position. */
  lemma PrefixThenRuns(original: seq<int>, anchors: seq<int>, charSet: seq<int>, appended: seq<int>)
    requires charSet == original + Runs(anchors) && appended == Fitting(anchors)
    ensures |charSet| == |original| + RunLength * |appended|
    ensures forall k :: 0 <= k < |original| ==> charSet[k] == original[k]
    ensures forall p :: |original| <= p < |charSet| ==>
              (p - |original|) / RunLength < |appended| &&
              charSet[p] == appended[(p - |original|) / RunLength] + (p - |original|) % RunLength &&
              charSet[p] <= Int32Max
  {
    RunsAt(anchors, 0);
    forall p | |original| <= p < |charSet|
      ensures (p - |original|) / RunLength < |appended|
      ensures charSet[p] == appended[(p - |original|) / RunLength] + (p - |original|) % RunLength
    {
      RunsAt(anchors, p - |original|);
    }
  }

  /** When every codepoint fits, so does every anchor drawn from them, and none is dropped. */
  lemma AllFit(anchors: seq<int>, unicodes: seq<int>)
    requires forall k :: 0 <= k < |anchors| ==> anchors[k] in unicodes
    ensures (forall u :: u in unicodes ==> Fits(u)) ==> Fitting(anchors) == anchors
  {
  }

  /**
   * Anchors of 2147483638 or more add nothing: when every anchor wraps, CharSet is
   * originalChars alone.
   */
  lemma WrappingAnchorsAddNothing(inputs: AnimationInput, classIds: seq<char>, classes: seq<char>, glyphs: seq<int>,
                                  unicodes: seq<int>)
    requires |classes| <= |glyphs|
    requires RunsDefined(inputs, unicodes)
    requires forall u :: u in unicodes ==> Int32Max - RunLength < u
    ensures CharSetOf(inputs, classIds, classes, glyphs, unicodes) == OriginalChars(classIds, classes, glyphs)
  {
    var selected := Selected(inputs, unicodes);
    RunsAt(selected, 0);
  }

  /** originalChars has one glyph per class id exactly when every class id is carried by some cell. */
  lemma {:induction false} OriginalCharsComplete(classIds: seq<char>, classes: seq<char>, glyphs: seq<int>)
    requires |classes| <= |glyphs|
    ensures |OriginalChars(classIds, classes, glyphs)| == |classIds| <==> forall id :: id in classIds ==> id in classes
    decreases |classIds|
  {
    if classIds != [] {
      var n := |classIds| - 1;
      OriginalCharsComplete(classIds[..n], classes, glyphs);
      assert classIds == classIds[..n] + [classIds[n]];
    }
  }

  /** When every class id is on the grid, entry `k` is the glyph of the first cell of class id `k`. */
  lemma OriginalCharsFirstCells(classIds: seq<char>, classes: seq<char>, glyphs: seq<int>)
    requires |classes| <= |glyphs|
    requires forall id :: id in classIds ==> id in classes
    ensures |OriginalChars(classIds, classes, glyphs)| == |classIds|
    ensures forall k :: 0 <= k < |classIds| ==>
              OriginalChars(classIds, classes, glyphs)[k] == glyphs[ClassIndex(classes, classIds[k])]
  {
    OriginalCharsComplete(classIds, classes, glyphs);
    forall k | 0 <= k < |classIds|
      ensures OriginalChars(classIds, classes, glyphs)[k] == glyphs[ClassIndex(classes, classIds[k])]
    {
      OriginalCharAt(classIds, classes, glyphs, k);
    }
  }

  /** When no class id was skipped, entry `k` is the glyph of the first cell of class id `k`. */
  lemma {:induction false} OriginalCharAt(classIds: seq<char>, classes: seq<char>, glyphs: seq<int>, k: nat)
    requires |classes| <= |glyphs|
    requires |OriginalChars(classIds, classes, glyphs)| == |classIds|
    requires k < |classIds|
    ensures 0 <= ClassIndex(classes, classIds[k])
    ensures OriginalChars(classIds, classes, glyphs)[k] == glyphs[ClassIndex(classes, classIds[k])]
    decreases |classIds|
  {
    var n := |classIds| - 1;
    var prefix := classIds[..n];
    assert ClassIndex(classes, classIds[n]) > -1;
    if k < n {
      OriginalCharAt(prefix, classes, glyphs, k);
      assert prefix[k] == classIds[k];
    }
  }

  /** Every entry of originalChars is the glyph of a grid cell whose class is one of the class ids. */
  lemma {:induction false} OriginalCharsOnGrid(classIds: seq<char>, classes: seq<char>, glyphs: seq<int>)
    requires |classes| <= |glyphs|
    ensures forall k :: 0 <= k < |OriginalChars(classIds, classes, glyphs)| ==>
              exists j :: 0 <= j < |classes| && classes[j] in classIds && OriginalChars(classIds, classes, glyphs)[k] == glyphs[j]
    decreases |classIds|
  {
    if classIds != [] {
      var n := |classIds| - 1;
      OriginalCharsOnGrid(classIds[..n], classes, glyphs);
      var original := OriginalChars(classIds, classes, glyphs);
      var prefix := OriginalChars(classIds[..n], classes, glyphs);
      forall k | 0 <= k < |original|
        ensures exists j :: 0 <= j < |classes| && classes[j] in classIds && original[k] == glyphs[j]
      {
        if k < |prefix| {
          var j :| 0 <= j < |classes| && classes[j] in classIds[..n] && prefix[k] == glyphs[j];
          assert classes[j] in classIds;
          assert original[k] == prefix[k];
        } else {
          var j := ClassIndex(classes, classIds[n]);
          assert original == prefix + [glyphs[j]];
          assert classes[j] in classIds;
        }
      }
    } else {
      assert OriginalChars(classIds, classes, glyphs) == [];
    }
  }

  /** Some class id on the grid makes originalChars non-empty. */
  lemma {:induction false} OriginalCharsNonEmpty(classIds: seq<char>, classes: seq<char>, glyphs: seq<int>, id: char)
    requires |classes| <= |glyphs|
    requires id in classIds && id in classes
    ensures |OriginalChars(classIds, classes, glyphs)| >= 1
    decreases |classIds|
  {
    var n := |classIds| - 1;
    if classIds[n] != id {
      assert classIds == classIds[..n] + [classIds[n]];
      OriginalCharsNonEmpty(classIds[..n], classes, glyphs, id);
    }
  }

  /**
   * MainCharSet is CharSet itself for seeds above 9950; otherwise it is originalChars
   * back to front.
   */
  lemma MainCharSetShape(inputs: AnimationInput, classIds: seq<char>, classes: seq<char>, glyphs: seq<int>,
                         unicodes: seq<int>)
    requires |classes| <= |glyphs|
    requires RunsDefined(inputs, unicodes)
    ensures inputs.seed > 9950 ==>
              MainCharSetOf(inputs, classIds, classes, glyphs, unicodes) == CharSetOf(inputs, classIds, classes, glyphs, unicodes)
    ensures inputs.seed <= 9950 ==>
              var original := OriginalChars(classIds, classes, glyphs);
              var main := MainCharSetOf(inputs, classIds, classes, glyphs, unicodes);
              |main| == |original| && forall k :: 0 <= k < |original| ==> main[k] == original[|original| - 1 - k]
  {
    if inputs.seed <= 9950 {
      var original := OriginalChars(classIds, classes, glyphs);
      forall k | 0 <= k < |original| {
        ReversedAt(original, k);
      }
    }
  }

  /** Both palettes are non-empty once one class id is carried by a cell. */
  lemma PalettesNonEmpty(inputs: AnimationInput, classIds: seq<char>, classes: seq<char>, glyphs: seq<int>,
                         unicodes: seq<int>, id: char)
    requires |classes| <= |glyphs|
    requires RunsDefined(inputs, unicodes)
    requires id in classIds && id in classes
    ensures |CharSetOf(inputs, classIds, classes, glyphs, unicodes)| >= 1
    ensures |MainCharSetOf(inputs, classIds, classes, glyphs, unicodes)| >= 1
  {
    OriginalCharsNonEmpty(classIds, classes, glyphs, id);
  }
}
