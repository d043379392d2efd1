/** Plate rules of the "pico y placa" service: the plate pattern checked by
    ValidarPlaca and the weekday bit mask computed by ObtenerIndicadorDia. */
module Plate {
  import opened Text

  /** An unsigned 8-bit value (C# byte). */
  newtype byte = x: int | 0 <= x < 256

  /** The two character classes of the plate pattern. */
  datatype CharClass = LetterAZ | Digit09

  predicate InClass(c: char, k: CharClass) {
    match k
    case LetterAZ => 'A' <= c <= 'Z'
    case Digit09 => IsDigit(c)
  }

  /** The pattern ^[A-Z]{3}[0-9]{4}$ as one class per character position. */
  const PlatePattern: seq<CharClass> :=
    [LetterAZ, LetterAZ, LetterAZ, Digit09, Digit09, Digit09, Digit09]

  /** Anchored match of `s` against a fixed-length pattern of character
      classes: consumes one character per class and must end with `s`. */
  function MatchesAnchored(s: string, pattern: seq<CharClass>): bool
    decreases |pattern|
  {
    if |pattern| == 0 then |s| == 0
    else |s| > 0 && InClass(s[0], pattern[0]) && MatchesAnchored(s[1..], pattern[1..])
  }

  /** The matcher accepts exactly the strings of the pattern's length whose
      every character lies in the class at its position. */
  lemma {:induction false} MatchesAnchoredIff(s: string, pattern: seq<CharClass>)
    ensures MatchesAnchored(s, pattern) <==>
              |s| == |pattern| && forall i :: 0 <= i < |s| ==> InClass(s[i], pattern[i])
    decreases |pattern|
  {
    if |pattern| > 0 && |s| > 0 {
      MatchesAnchoredIff(s[1..], pattern[1..]);
      if |s| == |pattern| && forall i :: 0 <= i < |s| ==> InClass(s[i], pattern[i]) {
        assert forall i :: 0 <= i < |s| - 1 ==> InClass(s[1..][i], pattern[1..][i]) by {
          forall i | 0 <= i < |s| - 1 ensures InClass(s[1..][i], pattern[1..][i]) {
            assert InClass(s[i + 1], pattern[i + 1]);
          }
        }
      }
      if MatchesAnchored(s, pattern) {
        forall i | 0 <= i < |s| ensures InClass(s[i], pattern[i]) {
          if i > 0 {
            assert InClass(s[1..][i - 1], pattern[1..][i - 1]);
          }
        }
      }
    }
  }

  /** ValidarPlaca: the plate is three upper-case letters then four digits,
      and nothing else. */
  predicate IsValidPlate(p: string) {
    MatchesAnchored(p, PlatePattern)
  }

  /** The validator is total and accepts exactly the 7-character strings made
      of 'A'..'Z' at positions 0-2 and '0'..'9' at positions 3-6. */
  lemma IsValidPlateIff(p: string)
    ensures IsValidPlate(p) <==>
              && |p| == 7
              && (forall i :: 0 <= i < 3 ==> 'A' <= p[i] <= 'Z')
              && (forall i :: 3 <= i < 7 ==> IsDigit(p[i]))
  {
    MatchesAnchoredIff(p, PlatePattern);
    if |p| == 7 {
      assert forall i :: 0 <= i < 3 ==> PlatePattern[i] == LetterAZ;
      assert forall i :: 3 <= i < 7 ==> PlatePattern[i] == Digit09;
    }
  }

  /** ObtenerIndicadorDia: parses the plate's last character (index 6) as a
      digit and looks up its weekday mask. */
  function DayIndicator(p: string): byte
    requires |p| >= 7 && IsDigit(p[6])
  {
    IndicatorOfDigit(DigitValue(p[6]))
  }

  /** The switch of ObtenerIndicadorDia: Monday 0b00100000, Tuesday
      0b00010000, Wednesday 0b00001000, Thursday 0b00000100, Friday
      0b00000010, and 0 for any other number (unreachable for a digit). */
  function IndicatorOfDigit(d: int): byte {
    if d == 1 || d == 2 then 0x20
    else if d == 3 || d == 4 then 0x10
    else if d == 5 || d == 6 then 0x08
    else if d == 7 || d == 8 then 0x04
    else if d == 9 || d == 0 then 0x02
    else 0
  }

  function Pow2(k: nat): (r: nat)
    ensures r >= 1
  {
    if k == 0 then 1 else 2 * Pow2(k - 1)
  }

  /** Bit `k` of `b` is set. */
  predicate BitSet(b: byte, k: nat) {
    (b as int / Pow2(k)) % 2 == 1
  }

  /** The bit position restricted for last digit `d`: 1,2 -> 5 (Monday),
      3,4 -> 4, 5,6 -> 3, 7,8 -> 2, 9,0 -> 1 (Friday). */
  function RestrictedBit(d: nat): nat
    requires d < 10
  {
    5 - ((d + 9) % 10) / 2
  }

  /** A byte equal to 2^j has bit j set and no other of its eight bits. */
  lemma SingleBit(b: byte, j: nat)
    requires 1 <= j <= 5 && b as int == Pow2(j)
    ensures forall k :: 0 <= k < 8 ==> (BitSet(b, k) <==> k == j)
  {
    assert Pow2(0) == 1 && Pow2(1) == 2 && Pow2(2) == 4 && Pow2(3) == 8;
    assert Pow2(4) == 16 && Pow2(5) == 32 && Pow2(6) == 64 && Pow2(7) == 128;
    forall k | 0 <= k < 8 ensures BitSet(b, k) <==> k == j {
      // The empty branches only make the solver split on the five values of j.
      if j == 1 { } else if j == 2 { } else if j == 3 { } else if j == 4 { } else { }
    }
  }

  /** The table agrees with the closed form 2^RestrictedBit(d). */
  lemma IndicatorOfDigitPow2(d: nat)
    requires d < 10
    ensures 1 <= RestrictedBit(d) <= 5
    ensures IndicatorOfDigit(d) as int == Pow2(RestrictedBit(d))
  {
    assert Pow2(1) == 2 && Pow2(2) == 4 && Pow2(3) == 8 && Pow2(4) == 16 && Pow2(5) == 32;
  }

  /** For every accepted plate the indicator is the single bit RestrictedBit
      of its last digit: never zero, a power of two among bits 1 to 5, and
      no other bit of the byte is set. */
  lemma DayIndicatorOneBit(p: string)
    requires IsValidPlate(p)
    ensures |p| == 7 && IsDigit(p[6])
    ensures 1 <= RestrictedBit(DigitValue(p[6])) <= 5
    ensures DayIndicator(p) as int == Pow2(RestrictedBit(DigitValue(p[6])))
    ensures forall k :: 0 <= k < 8 ==> (BitSet(DayIndicator(p), k) <==> k == RestrictedBit(DigitValue(p[6])))
  {
    IsValidPlateIff(p);
    var d := DigitValue(p[6]);
    IndicatorOfDigitPow2(d);
    SingleBit(DayIndicator(p), RestrictedBit(d));
  }
}
