/**
 * The palettes the parser's tests pin for five tokens, derived from the model. Each fixture
 * takes the glyphs the token's grid contributes (originalChars) and the anchor branch its seed
 * selects, and shows that CharSet and MainCharSet come out exactly as the tests expect.
 */
module Fixtures {
  import opened SvgTypes
  import opened FixedLists
  import opened CharSets

  /** Reversal of a concrete palette, element by element. */
  lemma ReversedIs(s: seq<int>, r: seq<int>)
    requires |r| == |s|
    requires forall k :: 0 <= k < |s| ==> r[k] == s[|s| - 1 - k]
    ensures Reversed(s) == r
  {
    forall k | 0 <= k < |s|
      ensures Reversed(s)[k] == r[k]
    {
      ReversedAt(s, k);
    }
  }

  /** The non-origin branch between seeds 5000 and 9970: one run, from the anchor at `seed % 3`. */
  lemma OneRun(inputs: AnimationInput, classIds: seq<char>, classes: seq<char>, glyphs: seq<int>, unicodes: seq<int>)
    requires |classes| <= |glyphs| && RunsDefined(inputs, unicodes)
    requires !inputs.IsOrigin() && 5000 < inputs.seed <= 9970
    ensures CharSetOf(inputs, classIds, classes, glyphs, unicodes) ==
              OriginalChars(classIds, classes, glyphs) + Run(unicodes[inputs.seed % 3])
  {
    var anchor := unicodes[inputs.seed % 3];
    assert Selected(inputs, unicodes) == [anchor];
    assert [anchor][..0] == [];
  }

  /** A run of a non-wrapping anchor, spelled out. */
  lemma RunIs(unicode: int, r: seq<int>)
    requires Fits(unicode) && |r| == RunLength
    requires forall i :: 0 <= i < RunLength ==> r[i] == unicode + i
    ensures Run(unicode) == r
  {
  }

  /** Token 1122's CharSet: originalChars, then the run from 9620. */
  lemma CharSet1122(original: seq<int>, run: seq<int>)
    requires original == [127956, 9552, 9552, 9552, 9552, 9552, 9552, 9552, 127956]
    requires run == [9620, 9621, 9622, 9623, 9624, 9625, 9626, 9627, 9628, 9629]
    ensures original + run ==
      [127956, 9552, 9552, 9552, 9552, 9552, 9552, 9552, 127956, 9620, 9621, 9622, 9623, 9624, 9625, 9626, 9627, 9628, 9629]
  {
  }

  /** Token 8857's CharSet: originalChars, then the run from 9610. */
  lemma CharSet8857(original: seq<int>, run: seq<int>)
    requires original == [9617, 9618, 9618, 9618, 9619, 9619, 9618, 9617]
    requires run == [9610, 9611, 9612, 9613, 9614, 9615, 9616, 9617, 9618, 9619]
    ensures original + run ==
      [9617, 9618, 9618, 9618, 9619, 9619, 9618, 9617, 9610, 9611, 9612, 9613, 9614, 9615, 9616, 9617, 9618, 9619]
  {
  }

  /** Token 556: nine class ids, no anchor runs, MainCharSet the reversed originalChars. */
  lemma Fixture556(inputs: AnimationInput, classIds: seq<char>, classes: seq<char>, glyphs: seq<int>, unicodes: seq<int>)
    requires |classes| <= |glyphs| && RunsDefined(inputs, unicodes)
    requires classIds == ['i', 'h', 'g', 'f', 'e', 'd', 'c', 'b', 'a']
    requires OriginalChars(classIds, classes, glyphs) == [9053, 10007, 46, 46, 9617, 9617, 9617, 46, 9053]
    requires RunCount(inputs, |unicodes|) == 0 && inputs.seed <= 9950
    ensures CharSetOf(inputs, classIds, classes, glyphs, unicodes) == [9053, 10007, 46, 46, 9617, 9617, 9617, 46, 9053]
    ensures MainCharSetOf(inputs, classIds, classes, glyphs, unicodes) == [9053, 46, 9617, 9617, 9617, 46, 46, 10007, 9053]
    ensures forall id :: id in classIds ==> id in classes
  {
    var original := OriginalChars(classIds, classes, glyphs);
    assert |AnchorRuns(inputs, unicodes)| == 0;
    assert CharSetOf(inputs, classIds, classes, glyphs, unicodes) == original + [];
    ReversedIs(original, [9053, 46, 9617, 9617, 9617, 46, 46, 10007, 9053]);
    OriginalCharsComplete(classIds, classes, glyphs);
  }

  /** Token 1122: one anchor run from 9620 after a palindromic originalChars. */
  lemma Fixture1122(inputs: AnimationInput, classIds: seq<char>, classes: seq<char>, glyphs: seq<int>, unicodes: seq<int>)
    requires |classes| <= |glyphs| && RunsDefined(inputs, unicodes)
    requires OriginalChars(classIds, classes, glyphs) == [127956, 9552, 9552, 9552, 9552, 9552, 9552, 9552, 127956]
    requires !inputs.IsOrigin() && 5000 < inputs.seed <= 9950 && unicodes[inputs.seed % 3] == 9620
    ensures CharSetOf(inputs, classIds, classes, glyphs, unicodes) ==
      [127956, 9552, 9552, 9552, 9552, 9552, 9552, 9552, 127956, 9620, 9621, 9622, 9623, 9624, 9625, 9626, 9627, 9628, 9629]
    ensures MainCharSetOf(inputs, classIds, classes, glyphs, unicodes) ==
      [127956, 9552, 9552, 9552, 9552, 9552, 9552, 9552, 127956]
  {
    var original := OriginalChars(classIds, classes, glyphs);
    OneRun(inputs, classIds, classes, glyphs, unicodes);
    RunIs(9620, [9620, 9621, 9622, 9623, 9624, 9625, 9626, 9627, 9628, 9629]);
    CharSet1122(original, Run(9620));
    ReversedIs(original, original);
  }

  /** Token 7034: no anchor runs; MainCharSet the reversed originalChars. */
  lemma Fixture7034(inputs: AnimationInput, classIds: seq<char>, classes: seq<char>, glyphs: seq<int>, unicodes: seq<int>)
    requires |classes| <= |glyphs| && RunsDefined(inputs, unicodes)
    requires OriginalChars(classIds, classes, glyphs) == [9820, 9814, 9814, 9814, 32, 32, 32, 9816, 9820]
    requires RunCount(inputs, |unicodes|) == 0 && inputs.seed <= 9950
    ensures CharSetOf(inputs, classIds, classes, glyphs, unicodes) == [9820, 9814, 9814, 9814, 32, 32, 32, 9816, 9820]
    ensures MainCharSetOf(inputs, classIds, classes, glyphs, unicodes) == [9820, 9816, 32, 32, 32, 9814, 9814, 9814, 9820]
  {
    var original := OriginalChars(classIds, classes, glyphs);
    assert |AnchorRuns(inputs, unicodes)| == 0;
    assert CharSetOf(inputs, classIds, classes, glyphs, unicodes) == original + [];
    ReversedIs(original, [9820, 9816, 32, 32, 32, 9814, 9814, 9814, 9820]);
  }

  /**
   * Token 8857: nine class ids but only eight glyphs, so one class id has no cell; one anchor
   * run from 9610.
   */
  lemma Fixture8857(inputs: AnimationInput, classIds: seq<char>, classes: seq<char>, glyphs: seq<int>, unicodes: seq<int>)
    requires |classes| <= |glyphs| && RunsDefined(inputs, unicodes)
    requires |classIds| == 9
    requires OriginalChars(classIds, classes, glyphs) == [9617, 9618, 9618, 9618, 9619, 9619, 9618, 9617]
    requires !inputs.IsOrigin() && 5000 < inputs.seed <= 9950 && unicodes[inputs.seed % 3] == 9610
    ensures CharSetOf(inputs, classIds, classes, glyphs, unicodes) ==
      [9617, 9618, 9618, 9618, 9619, 9619, 9618, 9617, 9610, 9611, 9612, 9613, 9614, 9615, 9616, 9617, 9618, 9619]
    ensures MainCharSetOf(inputs, classIds, classes, glyphs, unicodes) == [9617, 9618, 9619, 9619, 9618, 9618, 9618, 9617]
    ensures exists id :: id in classIds && id !in classes
  {
    var original := OriginalChars(classIds, classes, glyphs);
    OneRun(inputs, classIds, classes, glyphs, unicodes);
    RunIs(9610, [9610, 9611, 9612, 9613, 9614, 9615, 9616, 9617, 9618, 9619]);
    CharSet8857(original, Run(9610));
    ReversedIs(original, [9617, 9618, 9619, 9619, 9618, 9618, 9618, 9617]);
    MissingClassId(classIds, classes, glyphs);
  }

  /** Fewer glyphs than class ids: some class id is carried by no cell. */
  lemma MissingClassId(classIds: seq<char>, classes: seq<char>, glyphs: seq<int>)
    requires |classes| <= |glyphs|
    requires |OriginalChars(classIds, classes, glyphs)| < |classIds|
    ensures exists id :: id in classIds && id !in classes
  {
    OriginalCharsComplete(classIds, classes, glyphs);
  }

  /** Token 7702: no anchor runs; MainCharSet the reversed originalChars. */
  lemma Fixture7702(inputs: AnimationInput, classIds: seq<char>, classes: seq<char>, glyphs: seq<int>, unicodes: seq<int>)
    requires |classes| <= |glyphs| && RunsDefined(inputs, unicodes)
    requires OriginalChars(classIds, classes, glyphs) == [9604, 9617, 9600, 9619, 9618, 9617, 9617, 9604, 9608]
    requires RunCount(inputs, |unicodes|) == 0 && inputs.seed <= 9950
    ensures CharSetOf(inputs, classIds, classes, glyphs, unicodes) == [9604, 9617, 9600, 9619, 9618, 9617, 9617, 9604, 9608]
    ensures MainCharSetOf(inputs, classIds, classes, glyphs, unicodes) == [9608, 9604, 9617, 9617, 9618, 9619, 9600, 9617, 9604]
  {
    var original := OriginalChars(classIds, classes, glyphs);
    assert |AnchorRuns(inputs, unicodes)| == 0;
    assert CharSetOf(inputs, classIds, classes, glyphs, unicodes) == original + [];
    ReversedIs(original, [9608, 9604, 9617, 9617, 9618, 9619, 9600, 9617, 9604]);
  }
}
