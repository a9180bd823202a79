/**
 * The editor's token-id query: a comma-separated list of ids and `a=>b` ranges, expanded into
 * the distinct ids in (0, maxId] that it names.
 */
module TerraformQuery {
  import opened Wrappers
  import opened Decimal

  const Int32Min: int := -0x8000_0000
  const Int32Max: int := 0x7FFF_FFFF

  /** The integers of the closed interval [lo, hi]. */
  function Interval(lo: int, hi: int): (r: set<int>)
    ensures forall i :: i in r <==> lo <= i <= hi
    decreases hi - lo
  {
    if lo > hi then {} else Interval(lo, hi - 1) + {hi}
  }

  /** An id that exists: positive and at most the highest minted id. */
  predicate ValidTerraformRange(value: int, maxId: int) {
    value > 0 && value <= maxId
  }

  // ---------------------------------------------------------------------------------------
  // Splitting
  // ---------------------------------------------------------------------------------------

  /** `sep` occurs in `s`. */
  predicate Contains(s: string, sep: string)
    requires |sep| > 0
    decreases |s|
  {
    |s| >= |sep| && (s[..|sep|] == sep || Contains(s[1..], sep))
  }

  /** Split on every occurrence of `sep`, left to right, keeping empty parts. */
  function SplitOn(s: string, sep: string): (parts: seq<string>)
    requires |sep| > 0
    ensures |parts| >= 1
    decreases |s|
  {
    if |s| < |sep| then [s]
    else if s[..|sep|] == sep then [""] + SplitOn(s[|sep|..], sep)
    else
      var rest := SplitOn(s[1..], sep);
      [[s[0]] + rest[0]] + rest[1..]
  }

  /** The parts glued back together with the separator. */
  function Join(parts: seq<string>, sep: string): string
    requires |parts| >= 1
    decreases |parts|
  {
    if |parts| == 1 then parts[0] else parts[0] + sep + Join(parts[1..], sep)
  }

  /** Splitting loses nothing: joining the parts gives the text back. */
  lemma {:induction false} JoinSplit(s: string, sep: string)
    requires |sep| > 0
    ensures Join(SplitOn(s, sep), sep) == s
    decreases |s|
  {
    if |s| >= |sep| {
      if s[..|sep|] == sep {
        var tail := SplitOn(s[|sep|..], sep);
        JoinSplit(s[|sep|..], sep);
        assert ([""] + tail)[1..] == tail;
        assert s == "" + sep + s[|sep|..];
      } else {
        var rest := SplitOn(s[1..], sep);
        JoinSplit(s[1..], sep);
        JoinHead(s[0], rest, sep);
        assert s == [s[0]] + s[1..];
      }
    }
  }

  /** A character put in front of the first part comes first in the joined text. */
  lemma JoinHead(c: char, parts: seq<string>, sep: string)
    requires |parts| >= 1
    ensures Join([[c] + parts[0]] + parts[1..], sep) == [c] + Join(parts, sep)
  {
    var glued := [[c] + parts[0]] + parts[1..];
    if |parts| > 1 {
      assert glued[1..] == parts[1..];
    }
  }

  /** Text containing the separator splits into at least two parts. */
  lemma {:induction false} ContainsSplits(s: string, sep: string)
    requires |sep| > 0 && Contains(s, sep)
    ensures |SplitOn(s, sep)| >= 2
    decreases |s|
  {
    if s[..|sep|] != sep {
      ContainsSplits(s[1..], sep);
    }
  }

  // ---------------------------------------------------------------------------------------
  // int.TryParse
  // ---------------------------------------------------------------------------------------

  predicate IsWhite(c: char) {
    c == ' ' || '\t' <= c <= '\r'
  }

  function TrimStart(s: string): string
    decreases |s|
  {
    if |s| > 0 && IsWhite(s[0]) then TrimStart(s[1..]) else s
  }

  function TrimEnd(s: string): string
    decreases |s|
  {
    if |s| > 0 && IsWhite(s[|s| - 1]) then TrimEnd(s[..|s| - 1]) else s
  }

  /**
   * int.TryParse with the integer style: surrounding white space, an optional sign, one or
   * more ASCII digits, and a value within the 32-bit range.
   */
  function ParseInt32(s: string): (r: Option<int>)
    ensures r.Some? ==> Int32Min <= r.value <= Int32Max
  {
    var t := TrimEnd(TrimStart(s));
    var negative := |t| > 0 && t[0] == '-';
    var digits := if |t| > 0 && (t[0] == '-' || t[0] == '+') then t[1..] else t;
    if |digits| == 0 || !IsDigits(digits) then None
    else
      var magnitude: int := DecimalValue(digits);
      var value := if negative then -magnitude else magnitude;
      if Int32Min <= value <= Int32Max then Some(value) else None
  }

  /** The decimal rendering of every 32-bit value parses back to it. */
  lemma ParseInt32RoundTrip(n: int)
    requires Int32Min <= n <= Int32Max
    ensures n >= 0 ==> ParseInt32(NatToDecimal(n)) == Some(n)
    ensures n < 0 ==> ParseInt32("-" + NatToDecimal(-n)) == Some(n)
  {
    if n >= 0 {
      ParseNonNegative(n);
    } else {
      ParseNegative(-n);
    }
  }

  /** A non-negative value's digits parse back to it. */
  lemma ParseNonNegative(n: nat)
    requires n <= Int32Max
    ensures ParseInt32(NatToDecimal(n)) == Some(n)
  {
    var s := NatToDecimal(n);
    DecimalRoundTrip(n);
    assert TrimStart(s) == s;
    assert TrimEnd(s) == s;
  }

  /** A minus sign before the digits of `m` parses to `-m`. */
  lemma ParseNegative(m: nat)
    requires 0 < m <= -Int32Min
    ensures ParseInt32("-" + NatToDecimal(m)) == Some(-(m as int))
  {
    var d := NatToDecimal(m);
    var s := "-" + d;
    DecimalRoundTrip(m);
    assert TrimStart(s) == s;
    assert s[|s| - 1] == d[|d| - 1];
    assert TrimEnd(s) == s;
    assert s[1..] == d;
  }

  // ---------------------------------------------------------------------------------------
  // The query
  // ---------------------------------------------------------------------------------------

  /**
   * The ids one comma-separated token adds. `a=>b` with a < b adds the valid ids of [a, b];
   * otherwise it adds every integer of [b, a] when `a` itself is valid, and nothing when it is
   * not. Parts after the second are ignored; a token that does not parse adds nothing.
   */
  function TokenIds(token: string, maxId: int): set<int> {
    if Contains(token, "=>") then
      ContainsSplits(token, "=>");
      var parts := SplitOn(token, "=>");
      match (ParseInt32(parts[0]), ParseInt32(parts[1]))
      case (Some(a), Some(b)) =>
        if a < b then set i | a <= i <= b && ValidTerraformRange(i, maxId)
        else if ValidTerraformRange(a, maxId) then Interval(b, a)
        else {}
      case _ => {}
    else
      match ParseInt32(token)
      case Some(v) => if ValidTerraformRange(v, maxId) then {v} else {}
      case None => {}
  }

  /** The ids the tokens add together. */
  function QueryIds(tokens: seq<string>, maxId: int): set<int>
    decreases |tokens|
  {
    if tokens == [] then {} else QueryIds(tokens[..|tokens| - 1], maxId) + TokenIds(tokens[|tokens| - 1], maxId)
  }

  /** Every id a token adds is in the query. */
  lemma {:induction false} QueryIdsIncludeTokens(tokens: seq<string>, maxId: int, k: nat, id: int)
    requires k < |tokens| && id in TokenIds(tokens[k], maxId)
    ensures id in QueryIds(tokens, maxId)
    decreases |tokens|
  {
    var n := |tokens| - 1;
    assert QueryIds(tokens, maxId) == QueryIds(tokens[..n], maxId) + TokenIds(tokens[n], maxId);
    if k < n {
      assert tokens[..n][k] == tokens[k];
      QueryIdsIncludeTokens(tokens[..n], maxId, k, id);
    }
  }

  /** Every id in the query was added by one of the tokens. */
  lemma {:induction false} QueryIdsFromTokens(tokens: seq<string>, maxId: int, id: int) returns (k: nat)
    requires id in QueryIds(tokens, maxId)
    ensures k < |tokens| && id in TokenIds(tokens[k], maxId)
    decreases |tokens|
  {
    var n := |tokens| - 1;
    if id in TokenIds(tokens[n], maxId) {
      k := n;
    } else {
      k := QueryIdsFromTokens(tokens[..n], maxId, id);
      assert tokens[..n][k] == tokens[k];
    }
  }

  /** A single token without a range adds its value exactly when it parses to a valid id. */
  lemma SingleToken(n: int, maxId: int)
    requires 0 <= n <= Int32Max
    ensures TokenIds(NatToDecimal(n), maxId) == if ValidTerraformRange(n, maxId) then {n} else {}
  {
    ParseInt32RoundTrip(n);
    var s := NatToDecimal(n);
    if Contains(s, "=>") {
      ContainsDigitsOnly(s);
    }
  }

  /** Digit strings have no `=>` in them. */
  lemma {:induction false} ContainsDigitsOnly(s: string)
    requires IsDigits(s)
    ensures !Contains(s, "=>")
    decreases |s|
  {
    if |s| >= 2 {
      assert !IsDigit('=');
      assert s[..2] != "=>" by { assert IsDigit(s[0]); }
      ContainsDigitsOnly(s[1..]);
    }
  }

  // ---------------------------------------------------------------------------------------
  // The query in insertion order
  // ---------------------------------------------------------------------------------------

  predicate Distinct(s: seq<int>) {
    forall i, j :: 0 <= i < j < |s| ==> s[i] != s[j]
  }

  /** lo, lo + 1, ..., hi. */
  function CountUp(lo: int, hi: int): (r: seq<int>)
    ensures forall x :: x in r <==> lo <= x <= hi
    decreases hi - lo
  {
    if hi < lo then [] else CountUp(lo, hi - 1) + [hi]
  }

  /** The valid ids among a, a + 1, ..., hi, in that order. */
  function AscendingIds(a: int, hi: int, maxId: int): (r: seq<int>)
    ensures forall x :: x in r <==> a <= x <= hi && ValidTerraformRange(x, maxId)
    decreases hi - a
  {
    if hi < a then [] else AscendingIds(a, hi - 1, maxId) + (if ValidTerraformRange(hi, maxId) then [hi] else [])
  }

  /** The ids a parsed `a=>b` adds, in the order its loop visits them. */
  function RangeIds(a: int, b: int, maxId: int): seq<int> {
    if a < b then AscendingIds(a, b, maxId)
    else if ValidTerraformRange(a, maxId) then CountUp(b, a)
    else []
  }

  /** The ids one token adds, in the order it adds them. */
  function TokenIdList(token: string, maxId: int): seq<int> {
    if Contains(token, "=>") then
      ContainsSplits(token, "=>");
      var parts := SplitOn(token, "=>");
      match (ParseInt32(parts[0]), ParseInt32(parts[1]))
      case (Some(a), Some(b)) => RangeIds(a, b, maxId)
      case _ => []
    else
      match ParseInt32(token)
      case Some(v) => if ValidTerraformRange(v, maxId) then [v] else []
      case None => []
  }

  /** Adding `ids` one by one to an insertion-ordered set: an id already present is skipped. */
  function AppendNew(list: seq<int>, ids: seq<int>): seq<int>
    decreases |ids|
  {
    if ids == [] then list
    else
      var previous := AppendNew(list, ids[..|ids| - 1]);
      var id := ids[|ids| - 1];
      if id in previous then previous else previous + [id]
  }

  /** The ids of the whole query, in the order they are first added. */
  function QueryList(tokens: seq<string>, maxId: int): seq<int>
    decreases |tokens|
  {
    if tokens == [] then [] else AppendNew(QueryList(tokens[..|tokens| - 1], maxId), TokenIdList(tokens[|tokens| - 1], maxId))
  }

  /** Appending keeps the list free of repeats, keeps what was there, and adds exactly `ids`. */
  lemma {:induction false} AppendNewProperties(list: seq<int>, ids: seq<int>)
    requires Distinct(list)
    ensures Distinct(AppendNew(list, ids))
    ensures |AppendNew(list, ids)| >= |list| && AppendNew(list, ids)[..|list|] == list
    ensures forall x :: x in AppendNew(list, ids) <==> x in list || x in ids
    decreases |ids|
  {
    if ids != [] {
      var init := ids[..|ids| - 1];
      AppendNewProperties(list, init);
      assert ids == init + [ids[|ids| - 1]];
    }
  }

  /** A token's ordered ids are exactly the ids of its set definition. */
  lemma TokenIdListMatches(token: string, maxId: int)
    ensures forall x :: x in TokenIdList(token, maxId) <==> x in TokenIds(token, maxId)
  {
  }

  /** The ordered query holds each id once, and exactly the ids of the set definition. */
  lemma {:induction false} QueryListMatches(tokens: seq<string>, maxId: int)
    ensures Distinct(QueryList(tokens, maxId))
    ensures forall x :: x in QueryList(tokens, maxId) <==> x in QueryIds(tokens, maxId)
    decreases |tokens|
  {
    if tokens != [] {
      var init := tokens[..|tokens| - 1];
      var last := tokens[|tokens| - 1];
      QueryListMatches(init, maxId);
      AppendNewProperties(QueryList(init, maxId), TokenIdList(last, maxId));
      TokenIdListMatches(last, maxId);
    }
  }

  /** `HashSet.Add`: appends the id when it is not already present. */
  function AddId(list: seq<int>, id: int): seq<int> {
    if id in list then list else list + [id]
  }

  lemma AppendNewStep(list: seq<int>, ids: seq<int>, id: int)
    ensures AppendNew(list, ids + [id]) == AddId(AppendNew(list, ids), id)
  {
    assert (ids + [id])[..|ids|] == ids;
  }

  /**
   * The query: null or empty text gives nothing (the source's null); otherwise every id the
   * comma-separated tokens add, once each, in the order they were first added.
   */
  method GenerateTerraformList(ids: Option<string>, maxId: int) returns (result: Option<seq<int>>)
    ensures result.None? <==> ids.None? || ids.value == ""
    ensures result.Some? ==> result.value == QueryList(SplitOn(ids.value, ","), maxId)
    ensures result.Some? ==> Distinct(result.value)
    ensures result.Some? ==> forall id :: id in result.value <==> id in QueryIds(SplitOn(ids.value, ","), maxId)
  {
    if ids.None? || ids.value == "" {
      return None;
    }
    var workingSet: seq<int> := [];
    var tokens := SplitOn(ids.value, ",");
    for index := 0 to |tokens|
      invariant workingSet == QueryList(tokens[..index], maxId)
    {
      assert tokens[..index + 1][..index] == tokens[..index];
      workingSet := AddToken(tokens[index], maxId, workingSet);
    }
    assert tokens[..|tokens|] == tokens;
    QueryListMatches(tokens, maxId);
    return Some(workingSet);
  }

  /**
   * One pass of the token loop: a token containing `=>` is a range whose two parts must both
   * parse (otherwise the token is skipped); any other token is a single id.
   */
  method AddToken(token: string, maxId: int, workingSet: seq<int>) returns (next: seq<int>)
    ensures next == AppendNew(workingSet, TokenIdList(token, maxId))
  {
    next := workingSet;
    if Contains(token, "=>") {
      ContainsSplits(token, "=>");
      var subIndexString := SplitOn(token, "=>");
      var first := ParseInt32(subIndexString[0]);
      var second := ParseInt32(subIndexString[1]);
      if first.Some? && second.Some? {
        next := ExpandRange(first.value, second.value, maxId, workingSet);
      }
      return;
    }
    var parsedInt := ParseInt32(token);
    if parsedInt.Some? {
      if ValidTerraformRange(parsedInt.value, maxId) {
        next := AddId(next, parsedInt.value);
        AppendNewStep(workingSet, [], parsedInt.value);
      }
    }
  }

  /**
   * The two range loops of a parsed `a=>b`: counting `a` up to `b` adding the valid ids, or
   * counting `b` up to `a` adding every value when `a` is valid.
   */
  method ExpandRange(a: int, b: int, maxId: int, workingSet: seq<int>) returns (next: seq<int>)
    ensures next == AppendNew(workingSet, RangeIds(a, b, maxId))
  {
    if a < b {
      next := CountAscending(a, b, maxId, workingSet);
    } else {
      next := CountDescending(a, b, maxId, workingSet);
    }
  }

  /** The ascending loop: the counter runs from `a` to `b`, adding each valid id. */
  method CountAscending(a: int, b: int, maxId: int, workingSet: seq<int>) returns (next: seq<int>)
    requires a < b
    ensures next == AppendNew(workingSet, AscendingIds(a, b, maxId))
  {
    next := workingSet;
    var firstIndex := a;
    while firstIndex <= b
      invariant a <= firstIndex <= b + 1
      invariant next == AppendNew(workingSet, AscendingIds(a, firstIndex - 1, maxId))
      decreases b - firstIndex
    {
      assert AscendingIds(a, firstIndex, maxId) ==
        AscendingIds(a, firstIndex - 1, maxId) + (if ValidTerraformRange(firstIndex, maxId) then [firstIndex] else []);
      if ValidTerraformRange(firstIndex, maxId) {
        AppendNewStep(workingSet, AscendingIds(a, firstIndex - 1, maxId), firstIndex);
        next := AddId(next, firstIndex);
      } else {
        assert AscendingIds(a, firstIndex, maxId) == AscendingIds(a, firstIndex - 1, maxId);
      }
      firstIndex := firstIndex + 1;
    }
  }

  /**
   * The descending loop: the counter runs from `b` to `a`; each value is added when `a`
   * (not the counter) is a valid id.
   */
  method CountDescending(a: int, b: int, maxId: int, workingSet: seq<int>) returns (next: seq<int>)
    requires b <= a
    ensures next == if ValidTerraformRange(a, maxId) then AppendNew(workingSet, CountUp(b, a)) else workingSet
  {
    next := workingSet;
    var secondIndex := b;
    while secondIndex <= a
      invariant b <= secondIndex <= a + 1
      invariant ValidTerraformRange(a, maxId) ==> next == AppendNew(workingSet, CountUp(b, secondIndex - 1))
      invariant !ValidTerraformRange(a, maxId) ==> next == workingSet
      decreases a - secondIndex
    {
      if ValidTerraformRange(a, maxId) {
        CountUpStep(workingSet, b, secondIndex);
        next := AddId(next, secondIndex);
      }
      secondIndex := secondIndex + 1;
    }
  }

  lemma CountUpStep(workingSet: seq<int>, b: int, i: int)
    requires b <= i
    ensures AppendNew(workingSet, CountUp(b, i)) == AddId(AppendNew(workingSet, CountUp(b, i - 1)), i)
  {
    assert CountUp(b, i) == CountUp(b, i - 1) + [i];
    AppendNewStep(workingSet, CountUp(b, i - 1), i);
  }

  /** With `a` valid and `b` <= 0, a descending range adds ids that are not valid. */
  lemma DescendingAddsInvalidIds(token: string, a: int, b: int, maxId: int)
    requires Contains(token, "=>") && |SplitOn(token, "=>")| >= 2
    requires ParseInt32(SplitOn(token, "=>")[0]) == Some(a) && ParseInt32(SplitOn(token, "=>")[1]) == Some(b)
    requires ValidTerraformRange(a, maxId) && b <= 0
    ensures b in TokenIdList(token, maxId) && !ValidTerraformRange(b, maxId)
  {
  }

  /** The query `5=>0` adds the id 0, which is not a valid terraform id. */
  lemma DescendingAddsZero(maxId: int)
    requires maxId >= 5
    ensures 0 in TokenIdList("5=>0", maxId) && !ValidTerraformRange(0, maxId)
  {
    assert "5=>0"[..2] != "=>" && "5=>0"[1..] == "=>0";
    assert "=>0"[..2] == "=>" && "=>0"[2..] == "0";
    assert SplitOn("0", "=>") == ["0"];
    assert SplitOn("=>0", "=>") == ["", "0"];
    assert ['5'] + "" == "5";
    assert SplitOn("5=>0", "=>") == ["5", "0"];
    assert ParseInt32("5") == Some(5);
    assert ParseInt32("0") == Some(0);
    DescendingAddsInvalidIds("5=>0", 5, 0, maxId);
  }

  // ---------------------------------------------------------------------------------------
  // The range loops with the source's 32-bit counter
  // ---------------------------------------------------------------------------------------

  /** `++` on a 32-bit counter: the largest value wraps to the smallest. */
  function WrapIncrement(i: int): int
    requires Int32Min <= i <= Int32Max
  {
    if i == Int32Max then Int32Min else i + 1
  }

  /** The counter after `n` iterations of a range loop, as the source computes it. */
  function CounterAfter(start: int, n: nat): (c: int)
    requires Int32Min <= start <= Int32Max
    ensures Int32Min <= c <= Int32Max
  {
    if n == 0 then start else WrapIncrement(CounterAfter(start, n - 1))
  }

  /**
   * With the bound at the largest 32-bit value, the guard `counter <= bound` holds after
   * every number of iterations: the range loop as written never exits.
   */
  lemma {:induction false} RangeLoopAtInt32MaxNeverExits(start: int, n: nat)
    requires Int32Min <= start <= Int32Max
    ensures CounterAfter(start, n) <= Int32Max
    ensures start + n <= Int32Max ==> CounterAfter(start, n) == start + n
    ensures start + n == Int32Max + 1 ==> CounterAfter(start, n) == Int32Min
  {
    if n > 0 {
      RangeLoopAtInt32MaxNeverExits(start, n - 1);
    }
  }
}
