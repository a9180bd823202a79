/**
 * SvgUtils.ToColor32: reads the `[0-9]{1,3}` matches of a colour text. Exactly three
 * matches give an opaque colour; any other count gives the default colour; a match above
 * 255 makes `byte.Parse` throw, which is the failure result here.
 */
module ColorCodec {
  import opened Wrappers
  import opened SvgTypes
  import opened Decimal

  /** The length of the run of digits that starts `s`, at most `max`. */
  function LeadingDigits(s: string, max: nat): (n: nat)
    ensures n <= max && n <= |s|
    ensures forall i :: 0 <= i < n ==> IsDigit(s[i])
    ensures n < max && n < |s| ==> !IsDigit(s[n])
    decreases max
  {
    if max == 0 || s == [] || !IsDigit(s[0]) then 0 else 1 + LeadingDigits(s[1..], max - 1)
  }

  /**
   * The matches of `[0-9]{1,3}` in `s`: leftmost first, each as long as possible, the next
   * search starting where the previous match ended.
   */
  function DigitGroups(s: string): (groups: seq<string>)
    ensures forall k :: 0 <= k < |groups| ==> 1 <= |groups[k]| <= 3 && IsDigits(groups[k])
    decreases |s|
  {
    if s == [] then []
    else if !IsDigit(s[0]) then DigitGroups(s[1..])
    else
      var n := LeadingDigits(s, 3);
      [s[..n]] + DigitGroups(s[n..])
  }

  datatype ColorError = ByteOverflow

  /** `byte.Parse` of a digit string. */
  function ParseByte(s: string): (r: Option<Byte>)
    requires IsDigits(s)
    ensures r.Some? <==> DecimalValue(s) < 0x100
    ensures r.Some? ==> r.value == DecimalValue(s)
  {
    var v := DecimalValue(s);
    if v < 0x100 then Some(v) else None
  }

  function ToColor32(value: string): (r: Result<Color32, ColorError>)
    ensures r.Failure? <==>
      |DigitGroups(value)| == 3 && exists k :: 0 <= k < 3 && DecimalValue(DigitGroups(value)[k]) >= 0x100
    ensures r.Success? ==> (r.value.a == 255 <==> |DigitGroups(value)| == 3)
    ensures r.Success? && |DigitGroups(value)| != 3 ==> r.value == DefaultColor
    ensures r.Success? && |DigitGroups(value)| == 3 ==>
      var groups := DigitGroups(value);
      r.value == Color32(DecimalValue(groups[0]), DecimalValue(groups[1]), DecimalValue(groups[2]), 255)
  {
    var groups := DigitGroups(value);
    if |groups| == 3 then
      var r, g, b := ParseByte(groups[0]), ParseByte(groups[1]), ParseByte(groups[2]);
      if r.None? || g.None? || b.None? then Failure(ByteOverflow)
      else Success(Color32(r.value, g.value, b.value, 255))
    else Success(DefaultColor)
  }

  /** The CSS text `rgb(r, g, b)` as the generator writes it. */
  function RgbText(r: Byte, g: Byte, b: Byte): string {
    "rgb(" + NatToDecimal(r) + ", " + NatToDecimal(g) + ", " + NatToDecimal(b) + ")"
  }

  /** Text without digits contributes no match. */
  lemma {:induction false} DigitGroupsSkip(p: string, s: string)
    requires forall i :: 0 <= i < |p| ==> !IsDigit(p[i])
    ensures DigitGroups(p + s) == DigitGroups(s)
    decreases |p|
  {
    if p != [] {
      assert (p + s)[0] == p[0] && !IsDigit(p[0]);
      assert (p + s)[1..] == p[1..] + s;
      assert forall i :: 0 <= i < |p[1..]| ==> p[1..][i] == p[i + 1];
      DigitGroupsSkip(p[1..], s);
    } else {
      assert p + s == s;
    }
  }

  lemma {:induction false} LeadingDigitsOf(d: string, s: string, max: nat)
    requires IsDigits(d) && |d| <= max
    requires s == [] || !IsDigit(s[0])
    ensures LeadingDigits(d + s, max) == |d|
    decreases max
  {
    if d != [] {
      assert (d + s)[1..] == d[1..] + s;
      LeadingDigitsOf(d[1..], s, max - 1);
    }
  }

  /** A run of one to three digits followed by a non-digit is exactly one match. */
  lemma DigitGroupsTake(d: string, s: string)
    requires IsDigits(d) && 1 <= |d| <= 3
    requires s == [] || !IsDigit(s[0])
    ensures DigitGroups(d + s) == [d] + DigitGroups(s)
  {
    LeadingDigitsOf(d, s, 3);
    assert (d + s)[..|d|] == d;
    assert (d + s)[|d|..] == s;
  }

  /** A number followed by the `, ` separator is one match. */
  lemma DigitGroupsSeparated(d: string, rest: string)
    requires IsDigits(d) && 1 <= |d| <= 3
    ensures DigitGroups(d + (", " + rest)) == [d] + DigitGroups(rest)
  {
    assert (", " + rest)[0] == ',';
    DigitGroupsTake(d, ", " + rest);
    DigitGroupsSkip(", ", rest);
  }

  /** The three numbers of `rgb(r, g, b)` are its three matches. */
  lemma RgbTextGroups(r: Byte, g: Byte, b: Byte)
    ensures DigitGroups(RgbText(r, g, b)) == [NatToDecimal(r), NatToDecimal(g), NatToDecimal(b)]
  {
    var dr, dg, db := NatToDecimal(r), NatToDecimal(g), NatToDecimal(b);
    var tail3 := db + ")";
    var tail2 := dg + (", " + tail3);
    var tail1 := dr + (", " + tail2);
    RgbTextShape(dr, dg, db);
    LastGroup(db);
    DigitGroupsSeparated(dg, tail3);
    DigitGroupsSeparated(dr, tail2);
    DigitGroupsSkip("rgb(", tail1);
  }

  lemma RgbTextShape(dr: string, dg: string, db: string)
    ensures "rgb(" + dr + ", " + dg + ", " + db + ")" == "rgb(" + (dr + (", " + (dg + (", " + (db + ")")))))
  {
  }

  /** The last number, closed by `)`, is one match. */
  lemma LastGroup(d: string)
    requires IsDigits(d) && 1 <= |d| <= 3
    ensures DigitGroups(d + ")") == [d]
  {
    DigitGroupsSkip(")", []);
    assert ")" + [] == ")";
    DigitGroupsTake(d, ")");
  }

  /** Reading back the text of an opaque colour gives that colour. */
  lemma ToColor32RoundTrip(c: Color32)
    requires c.a == 255
    ensures ToColor32(RgbText(c.r, c.g, c.b)) == Success(c)
  {
    RgbTextGroups(c.r, c.g, c.b);
    DecimalRoundTrip(c.r);
    DecimalRoundTrip(c.g);
    DecimalRoundTrip(c.b);
  }
}
