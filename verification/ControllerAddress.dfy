/**
 Explicit controller addresses such as "scsi0:1": the parser, the printer, and
 the exact set of spellings that denote one address.
 */
module ControllerAddress {
  import opened Wrappers

  /** A storage controller bus family. */
  datatype Kind = SCSI | NVMe | SATA

  datatype Address = Address(kind: Kind, bus: nat, unit: nat)

  const MAX_BUS: nat := 3

  function Prefix(kind: Kind): (s: string)
    ensures |s| == 4
  {
    match kind
    case SCSI => "scsi"
    case NVMe => "nvme"
    case SATA => "sata"
  }

  // ----- decimal numerals -----

  predicate IsDigit(c: char) {
    '0' <= c <= '9'
  }

  predicate AllDigits(s: string) {
    forall i :: 0 <= i < |s| ==> IsDigit(s[i])
  }

  function DigitChar(d: nat): (c: char)
    requires d < 10
    ensures IsDigit(c) && DigitValue(c) == d
  {
    (d + '0' as int) as char
  }

  function DigitValue(c: char): (d: nat)
    requires IsDigit(c)
    ensures d < 10 && (d + '0' as int) as char == c
  {
    c as int - '0' as int
  }

  /** The decimal numeral of n, without leading zeros. */
  function Numeral(n: nat): (s: string)
    ensures s != [] && AllDigits(s)
  {
    if n < 10 then [DigitChar(n)] else Numeral(n / 10) + [DigitChar(n % 10)]
  }

  /** The number a digit string denotes; leading zeros are allowed. */
  function NumeralValue(s: string): nat
    requires AllDigits(s)
  {
    if s == [] then 0 else NumeralValue(s[..|s| - 1]) * 10 + DigitValue(s[|s| - 1])
  }

  predicate AllZeros(s: string) {
    forall i :: 0 <= i < |s| ==> s[i] == '0'
  }

  lemma {:induction false} ZeroPaddedValue(zeros: string, n: nat)
    requires AllZeros(zeros)
    ensures AllDigits(zeros + Numeral(n))
    ensures NumeralValue(zeros + Numeral(n)) == n
    decreases |zeros| + n
  {
    var s := zeros + Numeral(n);
    if n >= 10 {
      ZeroPaddedValue(zeros, n / 10);
      assert s[..|s| - 1] == zeros + Numeral(n / 10);
    } else {
      assert s[..|s| - 1] == zeros;
      ZerosValue(zeros);
    }
  }

  lemma {:induction false} NumeralInjective(m: nat, n: nat)
    requires Numeral(m) == Numeral(n)
    ensures m == n
  {
    ZeroPaddedValue([], m);
    ZeroPaddedValue([], n);
    assert [] + Numeral(m) == Numeral(m) && [] + Numeral(n) == Numeral(n);
  }

  lemma {:induction false} ZerosValue(zeros: string)
    requires AllZeros(zeros)
    ensures AllDigits(zeros) && NumeralValue(zeros) == 0
  {
    if zeros != [] {
      ZerosValue(zeros[..|zeros| - 1]);
    }
  }

  lemma NumeralGrows(n: nat, d: nat)
    requires n > 0 && d < 10
    ensures Numeral(n * 10 + d) == Numeral(n) + [DigitChar(d)]
  {
  }

  lemma LastDigit(s: string)
    requires s != [] && AllDigits(s)
    ensures var init, last := s[..|s| - 1], s[|s| - 1];
            && AllDigits(init) && IsDigit(last) && s == init + [last]
            && NumeralValue(s) == NumeralValue(init) * 10 + DigitValue(last)
  {
  }

  lemma DigitNumeral(c: char)
    requires IsDigit(c)
    ensures Numeral(DigitValue(c)) == [c] && DigitChar(DigitValue(c)) == c && NumeralValue([]) == 0 && AllZeros([])
  {
  }

  /** Every digit string is a run of zeros followed by the canonical numeral of its value. */
  lemma {:induction false} DigitsAreZeroPadded(s: string) returns (zeros: string)
    requires s != [] && AllDigits(s)
    ensures AllZeros(zeros) && s == zeros + Numeral(NumeralValue(s))
  {
    hide *;
    LastDigit(s);
    var init, last := s[..|s| - 1], s[|s| - 1];
    if init == [] {
      DigitNumeral(last);
      zeros := [];
    } else {
      zeros := DigitsAreZeroPadded(init);
      if NumeralValue(init) == 0 {
        DigitNumeral(last);
        ZerosEnd(zeros);
        zeros := init;
      } else {
        NumeralGrows(NumeralValue(init), DigitValue(last));
        DigitNumeral(last);
        assert s == zeros + (Numeral(NumeralValue(init)) + [last]);
      }
    }
  }

  lemma ZerosEnd(zeros: string)
    requires AllZeros(zeros)
    ensures AllZeros(zeros + Numeral(0))
  {
  }

  // ----- surrounding white space -----

  /** The code points strings.TrimSpace removes. */
  predicate IsSpace(c: char) {
    var n := c as int;
    || 9 <= n <= 13 || n == 32 || n == 0x85 || n == 0xA0 || n == 0x1680
    || 0x2000 <= n <= 0x200a || n == 0x2028 || n == 0x2029 || n == 0x202f
    || n == 0x205f || n == 0x3000
  }

  predicate AllSpace(s: string) {
    forall i :: 0 <= i < |s| ==> IsSpace(s[i])
  }

  function TrimLeft(s: string): string {
    if s != [] && IsSpace(s[0]) then TrimLeft(s[1..]) else s
  }

  function TrimRight(s: string): string {
    if s != [] && IsSpace(s[|s| - 1]) then TrimRight(s[..|s| - 1]) else s
  }

  function TrimSpace(s: string): string {
    TrimRight(TrimLeft(s))
  }

  predicate Trimmed(s: string) {
    s != [] && !IsSpace(s[0]) && !IsSpace(s[|s| - 1])
  }

  lemma {:induction false} TrimLeftPadded(left: string, s: string)
    requires AllSpace(left)
    requires s == [] || !IsSpace(s[0])
    ensures TrimLeft(left + s) == s
  {
    if left == [] {
      assert left + s == s;
    } else {
      assert (left + s)[1..] == left[1..] + s;
      TrimLeftPadded(left[1..], s);
    }
  }

  lemma {:induction false} TrimRightPadded(s: string, right: string)
    requires AllSpace(right)
    requires s == [] || !IsSpace(s[|s| - 1])
    ensures TrimRight(s + right) == s
  {
    if right == [] {
      assert s + right == s;
    } else {
      assert (s + right)[..|s + right| - 1] == s + right[..|right| - 1];
      TrimRightPadded(s, right[..|right| - 1]);
    }
  }

  lemma {:induction false} TrimPadded(left: string, s: string, right: string)
    requires AllSpace(left) && AllSpace(right) && Trimmed(s)
    ensures TrimSpace(left + s + right) == s
  {
    assert left + s + right == left + (s + right);
    TrimLeftPadded(left, s + right);
    TrimRightPadded(s, right);
  }

  lemma {:induction false} TrimLeftSplit(s: string) returns (left: string)
    ensures AllSpace(left) && s == left + TrimLeft(s)
  {
    if s != [] && IsSpace(s[0]) {
      var l := TrimLeftSplit(s[1..]);
      left := [s[0]] + l;
    } else {
      left := [];
    }
  }

  lemma {:induction false} TrimRightSplit(s: string) returns (right: string)
    ensures AllSpace(right) && s == TrimRight(s) + right
  {
    if s != [] && IsSpace(s[|s| - 1]) {
      var r := TrimRightSplit(s[..|s| - 1]);
      right := r + [s[|s| - 1]];
      assert s == s[..|s| - 1] + [s[|s| - 1]];
    } else {
      right := [];
    }
  }

  // ----- addresses -----

  /** ControllerAddress.String for the addresses the parser can produce. */
  function Print(a: Address): string {
    Head(a.kind, a.bus) + Numeral(a.unit)
  }

  function Head(kind: Kind, bus: nat): string {
    Prefix(kind) + Numeral(bus) + ":"
  }

  function KindOfPrefix(s: string): Option<Kind> {
    if s == "scsi" then Some(SCSI)
    else if s == "nvme" then Some(NVMe)
    else if s == "sata" then Some(SATA)
    else None
  }

  /** The pattern (scsi|nvme|sata)([0-3]):([0-9]+), anchored at both ends. */
  predicate MatchesPattern(s: string) {
    && |s| >= 7
    && KindOfPrefix(s[..4]).Some?
    && '0' <= s[4] <= '3'
    && s[5] == ':'
    && AllDigits(s[6..])
  }

  /** ParseControllerUnit. */
  function Parse(raw: string): (r: Option<Address>)
    ensures r.Some? ==> r.value.bus <= MAX_BUS
  {
    var s := TrimSpace(raw);
    if MatchesPattern(s) then
      Some(Address(KindOfPrefix(s[..4]).value, DigitValue(s[4]), NumeralValue(s[6..])))
    else
      None
  }

  /** raw spells a: white space, the bus, any zeros, the canonical unit, white space. */
  predicate Spells(raw: string, a: Address, left: string, zeros: string, right: string) {
    && AllSpace(left) && AllZeros(zeros) && AllSpace(right)
    && raw == left + (Head(a.kind, a.bus) + zeros + Numeral(a.unit)) + right
  }

  lemma {:induction false} SpelledMatches(a: Address, digits: string)
    requires a.bus <= MAX_BUS && digits != [] && AllDigits(digits)
    ensures var s := Head(a.kind, a.bus) + digits;
            && MatchesPattern(s) && Trimmed(s)
            && s[..4] == Prefix(a.kind) && s[4] == DigitChar(a.bus) && s[6..] == digits
  {
  }

  /** What the pattern reads off a spelled address. */
  lemma {:induction false} ReadOff(raw: string, a: Address, digits: string)
    requires a.bus <= MAX_BUS && digits != [] && AllDigits(digits) && NumeralValue(digits) == a.unit
    requires TrimSpace(raw) == Head(a.kind, a.bus) + digits
    ensures Parse(raw) == Some(a)
  {
    SpelledMatches(a, digits);
    hide MatchesPattern, TrimSpace, Head, NumeralValue;
  }

  lemma {:induction false} SpelledParses(raw: string, a: Address, left: string, zeros: string, right: string)
    requires a.bus <= MAX_BUS && Spells(raw, a, left, zeros, right)
    ensures Parse(raw) == Some(a)
  {
    var digits := zeros + Numeral(a.unit);
    var s := Head(a.kind, a.bus) + digits;
    hide Head, Numeral, NumeralValue, AllDigits, IsSpace, AllSpace, AllZeros, TrimSpace, MatchesPattern, Parse, Trimmed;
    ZeroPaddedValue(zeros, a.unit);
    SpelledMatches(a, digits);
    assert Head(a.kind, a.bus) + zeros + Numeral(a.unit) == s;
    TrimPadded(left, s, right);
    ReadOff(raw, a, digits);
  }

  lemma {:induction false} PatternSplits(s: string)
    requires MatchesPattern(s)
    ensures s == Head(KindOfPrefix(s[..4]).value, DigitValue(s[4])) + s[6..]
  {
  }

  lemma {:induction false} ParsedIsSpelled(raw: string) returns (left: string, zeros: string, right: string)
    requires Parse(raw).Some?
    ensures Spells(raw, Parse(raw).value, left, zeros, right)
  {
    hide IsSpace, Head;
    var a := Parse(raw).value;
    left := TrimLeftSplit(raw);
    right := TrimRightSplit(TrimLeft(raw));
    var s := TrimSpace(raw);
    PatternSplits(s);
    zeros := DigitsAreZeroPadded(s[6..]);
    assert Head(a.kind, a.bus) + zeros + Numeral(a.unit) == Head(a.kind, a.bus) + (zeros + Numeral(a.unit)) == s;
    assert left + (s + right) == left + s + right;
  }

  /**
   The parser accepts exactly the padded spellings of an address: a raw string
   denotes a iff it is Print(a) up to surrounding white space and leading zeros
   of the unit.
   */
  lemma {:induction false} ParseExactly(raw: string, a: Address)
    ensures Parse(raw) == Some(a) <==>
            a.bus <= MAX_BUS && exists left, zeros, right :: Spells(raw, a, left, zeros, right)
  {
    if Parse(raw) == Some(a) {
      var left, zeros, right := ParsedIsSpelled(raw);
    }
    if a.bus <= MAX_BUS {
      forall left, zeros, right | Spells(raw, a, left, zeros, right)
        ensures Parse(raw) == Some(a)
      {
        SpelledParses(raw, a, left, zeros, right);
      }
    }
  }

  /** The parser inverts the printer. */
  lemma {:induction false} ParsePrint(a: Address)
    requires a.bus <= MAX_BUS
    ensures Parse(Print(a)) == Some(a)
  {
    assert Print(a) == [] + (Head(a.kind, a.bus) + [] + Numeral(a.unit)) + [];
    SpelledParses(Print(a), a, [], [], []);
  }

  /** Printing normalises: accepted strings denote one address iff they reprint alike. */
  lemma {:induction false} ReprintIsCanonical(raw: string, other: string)
    requires Parse(raw).Some? && Parse(other).Some?
    ensures Parse(Print(Parse(raw).value)) == Parse(raw)
    ensures Parse(raw) == Parse(other) <==> Print(Parse(raw).value) == Print(Parse(other).value)
  {
    ParsePrint(Parse(raw).value);
    ParsePrint(Parse(other).value);
  }

  // ----- the spellings, letter by letter -----

  /** Numerals are decimal. */
  lemma NumeralIsDecimal(n: nat)
    ensures n < 10 ==> Numeral(n) == ["0123456789"[n]]
    ensures n >= 10 ==> Numeral(n) == Numeral(n / 10) + ["0123456789"[n % 10]]
  {
    if n < 10 {
      DigitLetter(n);
    } else {
      DigitLetter(n % 10);
    }
  }

  lemma DigitLetter(d: nat)
    requires d < 10
    ensures DigitChar(d) == "0123456789"[d]
  {
  }

  /** The three words stand for the three kinds. */
  lemma {:induction false} WordsParse(bus: nat, unit: nat)
    requires bus <= 3
    ensures Parse("scsi" + Numeral(bus) + ":" + Numeral(unit)) == Some(Address(SCSI, bus, unit))
    ensures Parse("nvme" + Numeral(bus) + ":" + Numeral(unit)) == Some(Address(NVMe, bus, unit))
    ensures Parse("sata" + Numeral(bus) + ":" + Numeral(unit)) == Some(Address(SATA, bus, unit))
  {
    ParsePrint(Address(SCSI, bus, unit));
    ParsePrint(Address(NVMe, bus, unit));
    ParsePrint(Address(SATA, bus, unit));
    hide Parse, Numeral;
  }

  /** What is accepted is, trimmed, the word of its kind, one of the digits 0 to 3, a colon and digits. */
  lemma {:induction false} AcceptedReads(raw: string)
    requires Parse(raw).Some?
    ensures var a, s := Parse(raw).value, TrimSpace(raw);
            && |s| >= 7 && s[5] == ':'
            && (s[..4] == "scsi" || s[..4] == "nvme" || s[..4] == "sata")
            && (a.kind == SCSI <==> s[..4] == "scsi")
            && (a.kind == NVMe <==> s[..4] == "nvme")
            && (a.kind == SATA <==> s[..4] == "sata")
            && a.bus <= 3 && s[4] == "0123"[a.bus]
            && forall i :: 6 <= i < |s| ==> s[i] in "0123456789"
  {
    var s := TrimSpace(raw);
    assert MatchesPattern(s);
    hide TrimSpace, NumeralValue;
    assert forall c :: IsDigit(c) ==> c == "0123456789"[c as int - '0' as int];
    forall i | 6 <= i < |s|
      ensures s[i] in "0123456789"
    {
      assert IsDigit(s[6..][i - 6]);
    }
  }

  /** Trimming takes white space off both ends and leaves none there. */
  lemma {:induction false} TrimIs(raw: string) returns (left: string, right: string)
    ensures raw == left + TrimSpace(raw) + right
    ensures forall c :: c in left || c in right ==> IsSpace(c)
    ensures TrimSpace(raw) != "" ==> !IsSpace(TrimSpace(raw)[0]) && !IsSpace(TrimSpace(raw)[|TrimSpace(raw)| - 1])
  {
    hide IsSpace;
    left := TrimLeftSplit(raw);
    right := TrimRightSplit(TrimLeft(raw));
    TrimLeftStops(raw);
    TrimRightStops(TrimLeft(raw));
    assert left + (TrimSpace(raw) + right) == left + TrimSpace(raw) + right;
  }

  lemma {:induction false} TrimLeftStops(s: string)
    ensures TrimLeft(s) != "" ==> !IsSpace(TrimLeft(s)[0])
  {
    if s != [] && IsSpace(s[0]) {
      TrimLeftStops(s[1..]);
    }
  }

  lemma {:induction false} TrimRightStops(s: string)
    ensures TrimRight(s) != "" ==> TrimRight(s)[0] == s[0] && !IsSpace(TrimRight(s)[|TrimRight(s)| - 1])
  {
    if s != [] && IsSpace(s[|s| - 1]) {
      TrimRightStops(s[..|s| - 1]);
    }
  }

  /** White space, character by character. */
  lemma SpacesAre(c: char)
    ensures IsSpace(c) <==>
              || c in {'\t', '\n', '\U{0B}', '\U{0C}', '\r', ' ', '\U{85}', '\U{A0}', '\U{1680}'}
              || '\U{2000}' <= c <= '\U{200A}'
              || c in {'\U{2028}', '\U{2029}', '\U{202F}', '\U{205F}', '\U{3000}'}
  {
  }
}
