/**
 The text that lists free units: maximal ranges, separated by commas. Nothing is
 lost in it: two lists of units have the same text only if they are the same list.
 */
module UnitText {
  import opened ControllerAddress
  import opened UnitCapacity

  /** An integer in decimal. */
  function Decimal(n: int): string {
    if n < 0 then "-" + Numeral(-n) else Numeral(n)
  }

  /** formatUnitRange */
  function RangeText(r: Range): string {
    if r.first == r.last then Decimal(r.first) else Decimal(r.first) + "-" + Decimal(r.last)
  }

  function RangesText(ranges: seq<Range>): string
    requires ranges != []
  {
    if |ranges| == 1 then RangeText(ranges[0]) else RangeText(ranges[0]) + ", " + RangesText(ranges[1..])
  }

  /** The text stands for the list of units. */
  ghost predicate Lists(text: string, units: seq<int>) {
    if units == [] then text == "none"
    else exists ranges :: ranges != [] && Maximal(ranges) && Expand(ranges) == units && text == RangesText(ranges)
  }

  method FormatAvailableUnits(units: seq<int>) returns (text: string)
    ensures Lists(text, units)
  {
    if |units| == 0 {
      return "none";
    }
    var ranges := CompactUnits(units);
    assert Expand([]) == [];
    text := RangesText(ranges);
  }

  lemma ExampleRanges(ranges: seq<Range>)
    requires ranges == [Range(0, 2), Range(5, 5), Range(10, 11)]
    ensures Expand(ranges) == [0, 1, 2, 5, 10, 11] && Maximal(ranges)
  {
    var two, one := ranges[..2], ranges[..1];
    assert two[..1] == one && one[..0] == [];
    ExpandRangeAt(ranges[0]);
    ExpandRangeAt(ranges[2]);
    SingleUnit(5);
    hide ExpandRange;
    assert Expand(one) == [0, 1, 2];
    assert Expand(two) == [0, 1, 2, 5];
  }

  lemma ExampleText(ranges: seq<Range>)
    requires ranges == [Range(0, 2), Range(5, 5), Range(10, 11)]
    ensures RangesText(ranges) == "0-2, 5, 10-11"
  {
    ExampleNumerals();
    hide Numeral;
    assert ranges[1..] == [Range(5, 5), Range(10, 11)] && ranges[1..][1..] == [Range(10, 11)];
    assert RangesText(ranges[1..][1..]) == "10-11";
    assert RangesText(ranges[1..]) == "5, 10-11";
  }

  /** For example. */
  lemma ListsExample()
    ensures Lists("0-2, 5, 10-11", [0, 1, 2, 5, 10, 11]) && Lists("none", [])
  {
    var ranges := [Range(0, 2), Range(5, 5), Range(10, 11)];
    ExampleRanges(ranges);
    ExampleText(ranges);
    hide Expand, RangesText, Maximal;
  }

  lemma ExampleNumerals()
    ensures Numeral(0) == "0" && Numeral(2) == "2" && Numeral(5) == "5" && Numeral(10) == "10" && Numeral(11) == "11"
  {
  }

  // ----- reading it back -----

  /** Two texts cut at the first place where a separator stands. */
  lemma CutAt(x: string, y: string, x': string, y': string, sep: char)
    requires sep !in x && sep !in x' && x + y == x' + y'
    requires (y == "" || y[0] == sep) && (y' == "" || y'[0] == sep)
    ensures x == x' && y == y'
  {
    var s := x + y;
    assert s[..|x|] == x && s[|x|..] == y && s[..|x'|] == x' && s[|x'|..] == y';
    assert forall i :: 0 <= i < |x| ==> s[i] == x[i];
    assert forall i :: 0 <= i < |x'| ==> s[i] == x'[i];
    assert y != "" ==> s[|x|] == sep;
    assert y' != "" ==> s[|x'|] == sep;
  }

  lemma NumeralHasOnlyDigits(n: nat, c: char)
    requires !IsDigit(c)
    ensures c !in Numeral(n)
  {
  }

  ghost predicate Plain(r: Range) {
    0 <= r.first <= r.last
  }

  lemma RangeTextParts(r: Range) returns (rest: string)
    requires Plain(r)
    ensures RangeText(r) == Numeral(r.first) + rest && (rest == "" || rest[0] == '-')
    ensures rest == if r.first == r.last then "" else "-" + Numeral(r.last)
    ensures ',' !in RangeText(r) && RangeText(r) != "" && IsDigit(RangeText(r)[0])
  {
    NumeralHasOnlyDigits(r.first, ',');
    NumeralHasOnlyDigits(r.last, ',');
    hide Numeral;
    rest := if r.first == r.last then "" else "-" + Numeral(r.last);
    assert Numeral(r.first) + "-" + Numeral(r.last) == Numeral(r.first) + ("-" + Numeral(r.last));
    assert RangeText(r) == Numeral(r.first) + rest;
  }

  lemma RangeTextInjective(a: Range, b: Range)
    requires Plain(a) && Plain(b) && RangeText(a) == RangeText(b)
    ensures a == b
  {
    hide Numeral, RangeText;
    var restA := RangeTextParts(a);
    var restB := RangeTextParts(b);
    NumeralHasOnlyDigits(a.first, '-');
    NumeralHasOnlyDigits(b.first, '-');
    CutAt(Numeral(a.first), restA, Numeral(b.first), restB, '-');
    NumeralInjective(a.first, b.first);
    if restA != "" {
      assert restA[1..] == Numeral(a.last) && restB[1..] == Numeral(b.last);
      NumeralInjective(a.last, b.last);
    }
  }

  /** Everything after the first range. */
  function Tail(ranges: seq<Range>): string
    requires ranges != []
  {
    if |ranges| == 1 then "" else ", " + RangesText(ranges[1..])
  }

  lemma FirstThenTail(ranges: seq<Range>)
    requires ranges != []
    ensures RangesText(ranges) == RangeText(ranges[0]) + Tail(ranges)
    ensures Tail(ranges) == "" || Tail(ranges)[0] == ','
  {
  }

  lemma TailRest(ranges: seq<Range>)
    requires ranges != []
    ensures if |ranges| == 1 then Tail(ranges) == ""
            else |Tail(ranges)| >= 2 && Tail(ranges)[2..] == RangesText(ranges[1..])
  {
  }

  lemma {:induction false} RangesTextInjective(a: seq<Range>, b: seq<Range>)
    requires a != [] && b != [] && (forall r :: r in a ==> Plain(r)) && (forall r :: r in b ==> Plain(r))
    requires RangesText(a) == RangesText(b)
    ensures a == b
  {
    hide *;
    FirstThenTail(a);
    FirstThenTail(b);
    TailRest(a);
    TailRest(b);
    assert a[0] in a && b[0] in b;
    var restA := RangeTextParts(a[0]);
    var restB := RangeTextParts(b[0]);
    CutAt(RangeText(a[0]), Tail(a), RangeText(b[0]), Tail(b), ',');
    RangeTextInjective(a[0], b[0]);
    if |a| > 1 {
      RangesTextInjective(a[1..], b[1..]);
      assert a == [a[0]] + a[1..] && b == [b[0]] + b[1..];
    }
  }

  lemma {:induction false} RangesAreListed(ranges: seq<Range>)
    requires Maximal(ranges)
    ensures forall r :: r in ranges ==> r.first in Expand(ranges)
  {
    if ranges != [] {
      var front, last := ranges[..|ranges| - 1], ranges[|ranges| - 1];
      RangesAreListed(front);
      ExpandRangeAt(last);
      assert ExpandRange(last)[0] == last.first;
    }
  }

  lemma {:induction false} ListedRanges(text: string, units: seq<int>) returns (ranges: seq<Range>)
    requires units != [] && Lists(text, units) && forall u :: u in units ==> u >= 0
    ensures ranges != [] && Maximal(ranges) && Expand(ranges) == units && text == RangesText(ranges)
    ensures (forall r :: r in ranges ==> Plain(r)) && text != "none"
  {
    ranges :| ranges != [] && Maximal(ranges) && Expand(ranges) == units && text == RangesText(ranges);
    hide RangesText, Expand, RangeText;
    RangesAreListed(ranges);
    FirstThenTail(ranges);
    var rest := RangeTextParts(ranges[0]);
    assert text[0] == RangeText(ranges[0])[0];
  }

  /** Listings of units are equal exactly when the units are. */
  lemma {:induction false} TextIsExact(text: string, units: seq<int>, text': string, units': seq<int>)
    requires Lists(text, units) && Lists(text', units')
    requires forall u :: u in units || u in units' ==> u >= 0
    ensures text == text' <==> units == units'
  {
    if units != [] && units' != [] {
      var a := ListedRanges(text, units);
      var b := ListedRanges(text', units');
      hide *;
      if units == units' {
        MaximalRangesUnique(a, b);
      }
      if text == text' {
        RangesTextInjective(a, b);
      }
    } else if units != [] {
      var a := ListedRanges(text, units);
    } else if units' != [] {
      var b := ListedRanges(text', units');
    }
  }
}
