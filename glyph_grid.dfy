/**
 * The glyph grid of the document: each cell's text (0, 1 or 2 UTF-16 code units) becomes
 * a codepoint, and the first character of its class attribute becomes its class label.
 */
module GlyphGrid {
  import opened Wrappers

  /** A UTF-16 code unit (a C# `char`). */
  type CodeUnit = x: int | 0 <= x < 0x1_0000

  /** The grid is 32 by 32 cells. */
  const GridSize: nat := 32 * 32

  /** The codepoint of a blank cell: a space. */
  const Space: int := 32

  datatype GridError =
    | InvalidHighSurrogate
    | InvalidLowSurrogate
    | EmptyClassAttribute
    | TooManyCells

  predicate IsHighSurrogate(u: int) {
    0xD800 <= u <= 0xDBFF
  }

  predicate IsLowSurrogate(u: int) {
    0xDC00 <= u <= 0xDFFF
  }

  /** A Unicode scalar value: a codepoint that is not a surrogate. */
  predicate IsScalarValue(cp: int) {
    0 <= cp <= 0x10FFFF && !(0xD800 <= cp <= 0xDFFF)
  }

  /**
   * `char.ConvertToUtf32(text, index)`: a non-surrogate unit is its own codepoint, a high
   * surrogate followed by a low surrogate is decoded as in section 2.2 of RFC 2781, and any
   * other surrogate throws an ArgumentException.
   */
  function ConvertToUtf32(text: seq<CodeUnit>, index: nat): (r: Result<int, GridError>)
    requires index < |text|
    ensures r.Success? ==> 0 <= r.value <= 0x10FFFF
    ensures r.Success? && !IsHighSurrogate(text[index]) ==> r.value == text[index]
    ensures r.Failure? <==> IsLowSurrogate(text[index])
                            || (IsHighSurrogate(text[index]) && (index + 1 == |text| || !IsLowSurrogate(text[index + 1])))
  {
    var hi: int := text[index];
    if IsHighSurrogate(hi) then
      if index + 1 < |text| && IsLowSurrogate(text[index + 1]) then
        var lo: int := text[index + 1];
        Success(0x10000 + (hi - 0xD800) * 0x400 + (lo - 0xDC00))
      else
        Failure(InvalidHighSurrogate)
    else if IsLowSurrogate(hi) then
      Failure(InvalidLowSurrogate)
    else
      Success(hi)
  }

  /**
   * The codepoint of a cell's text: a space for an empty text, the unit itself for one unit,
   * `ConvertToUtf32` for two units, and 0 (the array's initial value) for any other length.
   */
  function DecodeCell(text: seq<CodeUnit>): (r: Result<int, GridError>)
    ensures r.Failure? ==> |text| == 2
    ensures r.Success? ==> 0 <= r.value <= 0x10FFFF
    ensures |text| == 0 ==> r == Success(Space)
    ensures |text| == 1 ==> r == Success(text[0])
    ensures |text| > 2 ==> r == Success(0)
  {
    match |text|
    case 0 => Success(Space)
    case 1 => Success(text[0])
    case 2 => ConvertToUtf32(text, 0)
    case _ => Success(0)
  }

  /** UTF-16 encoding of a scalar value, section 2.1 of RFC 2781. */
  function EncodeUtf16(cp: int): (units: seq<CodeUnit>)
    requires IsScalarValue(cp)
    ensures 1 <= |units| <= 2
    ensures |units| == 2 <==> cp >= 0x10000
  {
    if cp < 0x10000 then [cp]
    else
      var u := cp - 0x10000;
      [0xD800 + u / 0x400, 0xDC00 + u % 0x400]
  }

  /** Every scalar value written as one or two code units is read back unchanged. */
  lemma DecodeEncode(cp: int)
    requires IsScalarValue(cp)
    ensures DecodeCell(EncodeUtf16(cp)) == Success(cp)
  {
    if cp >= 0x10000 {
      var u := cp - 0x10000;
      assert u == (u / 0x400) * 0x400 + u % 0x400;
    }
  }

  /** A surrogate pair decodes to a supplementary-plane codepoint whose encoding is that pair. */
  lemma SurrogatePair(hi: CodeUnit, lo: CodeUnit)
    requires IsHighSurrogate(hi) && IsLowSurrogate(lo)
    ensures DecodeCell([hi, lo]) == Success(0x10000 + (hi - 0xD800) * 0x400 + (lo - 0xDC00))
    ensures 0x10000 <= DecodeCell([hi, lo]).value <= 0x10FFFF
    ensures EncodeUtf16(DecodeCell([hi, lo]).value) == [hi, lo]
  {
    var u := (hi - 0xD800) * 0x400 + (lo - 0xDC00);
    assert u / 0x400 == hi - 0xD800 && u % 0x400 == lo - 0xDC00;
  }

  /** Two units that are not surrogates keep only the first: the second is dropped. */
  lemma TwoPlainUnitsKeepFirst(a: CodeUnit, b: CodeUnit)
    requires !IsHighSurrogate(a) && !IsLowSurrogate(a)
    ensures DecodeCell([a, b]) == Success(a)
  {
  }

  /** One extracted grid cell: its text and the value of its first attribute. */
  datatype GlyphCell = GlyphCell(text: seq<CodeUnit>, classAttribute: string)

  /** The source can fill the grid from these cells without an exception. */
  predicate GridWellFormed(cells: seq<GlyphCell>) {
    && |cells| <= GridSize
    && forall j :: 0 <= j < |cells| ==> |cells[j].classAttribute| > 0 && DecodeCell(cells[j].text).Success?
  }

  /**
   * Fills the 1024 glyphs and class labels from the extracted cells, in order. Cells past the
   * end keep 0 and the NUL label.
   */
  method FillGrid(cells: seq<GlyphCell>) returns (r: Result<(seq<int>, seq<char>), GridError>)
    ensures r.Success? <==> GridWellFormed(cells)
    ensures r.Success? ==> |r.value.0| == GridSize && |r.value.1| == GridSize
    ensures r.Success? ==> forall j :: 0 <= j < |cells| ==>
      DecodeCell(cells[j].text) == Success(r.value.0[j]) && r.value.1[j] == cells[j].classAttribute[0]
    ensures r.Success? ==> forall j :: |cells| <= j < GridSize ==> r.value.0[j] == 0 && r.value.1[j] == '\0'
  {
    var glyphs := new int[GridSize](_ => 0);
    var classes := new char[GridSize](_ => '\0');
    for j := 0 to |cells|
      invariant j <= GridSize
      invariant forall k :: 0 <= k < j ==> |cells[k].classAttribute| > 0 && DecodeCell(cells[k].text) == Success(glyphs[k])
      invariant forall k :: 0 <= k < j ==> classes[k] == cells[k].classAttribute[0]
      invariant forall k :: j <= k < GridSize ==> glyphs[k] == 0 && classes[k] == '\0'
    {
      if j >= GridSize {
        return Failure(TooManyCells);
      }
      var current := cells[j];
      if |current.classAttribute| == 0 {
        return Failure(EmptyClassAttribute);
      }
      classes[j] := current.classAttribute[0];
      var text := current.text;
      if |text| == 0 {
        glyphs[j] := Space;
      } else if |text| == 1 {
        glyphs[j] := text[0];
      } else if |text| == 2 {
        var unicode := ConvertToUtf32(text, 0);
        if unicode.Failure? {
          return Failure(unicode.error);
        }
        glyphs[j] := unicode.value;
      }
    }
    return Success((glyphs[..], classes[..]));
  }
}
