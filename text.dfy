/** Character and string helpers the game logic relies on: ASCII lower-casing
    (PHP's `strtolower`) and the decimal rendering of a number inside a path. */
module Text {

  /** ASCII lower-casing of one character: 'A'..'Z' map to 'a'..'z', every
      other character is left alone. */
  function LowerChar(c: char): char
  {
    if 'A' <= c <= 'Z' then (c as int + 32) as char else c
  }

  /** True of the characters `LowerChar` leaves alone. */
  predicate IsLower(c: char)
  {
    !('A' <= c <= 'Z')
  }

  /** Lower-casing yields a lower-case character, and lower-casing twice is
      lower-casing once. */
  lemma LowerCharIsLower(c: char)
    ensures IsLower(LowerChar(c))
    ensures LowerChar(LowerChar(c)) == LowerChar(c)
    ensures IsLower(c) <==> LowerChar(c) == c
  {
  }

  /** Only a space lower-cases to a space. */
  lemma LowerCharSpace(c: char)
    ensures LowerChar(c) == ' ' <==> c == ' '
  {
  }

  /** `strtolower` on a whole string. */
  function LowerStr(s: string): string
  {
    if s == [] then [] else [LowerChar(s[0])] + LowerStr(s[1..])
  }

  /** Lower-casing a string keeps its length and lower-cases it position by position. */
  lemma {:induction false} LowerStrAt(s: string)
    ensures |LowerStr(s)| == |s|
    ensures forall i :: 0 <= i < |s| ==> LowerStr(s)[i] == LowerChar(s[i])
  {
    if s != [] {
      LowerStrAt(s[1..]);
    }
  }

  /** Two strings are equal after lower-casing exactly when they have the same
      length and agree position by position up to case. */
  lemma {:induction false} LowerStrEqual(a: string, b: string)
    ensures LowerStr(a) == LowerStr(b) <==>
            |a| == |b| && forall i :: 0 <= i < |a| ==> LowerChar(a[i]) == LowerChar(b[i])
  {
    LowerStrAt(a);
    LowerStrAt(b);
    var la, lb := LowerStr(a), LowerStr(b);
    if |a| == |b| && forall i :: 0 <= i < |a| ==> LowerChar(a[i]) == LowerChar(b[i]) {
      assert forall i :: 0 <= i < |la| ==> la[i] == lb[i];
    }
    if la == lb {
      forall i | 0 <= i < |a| ensures LowerChar(a[i]) == LowerChar(b[i]) {
        assert la[i] == lb[i];
      }
    }
  }

  /** A character occurs in the lower-cased string exactly when some position of
      the original string lower-cases to it. */
  lemma {:induction false} InLowerStr(c: char, s: string)
    ensures c in LowerStr(s) <==> exists i :: 0 <= i < |s| && LowerChar(s[i]) == c
  {
    LowerStrAt(s);
    var l := LowerStr(s);
    if c in l {
      var i :| 0 <= i < |l| && l[i] == c;
      assert LowerChar(s[i]) == c;
    }
  }

  /** The decimal digit character for a value below ten. */
  function DigitChar(d: nat): (c: char)
    requires d < 10
    ensures '0' <= c <= '9'
    ensures c as int - '0' as int == d
  {
    ('0' as int + d) as char
  }

  /** The decimal rendering of `n`, as PHP's string concatenation produces it for
      a non-negative integer (no sign, no leading zeros). */
  function Decimal(n: nat): (r: string)
    ensures |r| >= 1
    ensures forall i :: 0 <= i < |r| ==> '0' <= r[i] <= '9'
    ensures n < 10 ==> r == [DigitChar(n)]
    ensures n >= 10 ==> r[0] != '0'
  {
    if n < 10 then [DigitChar(n)] else Decimal(n / 10) + [DigitChar(n % 10)]
  }

  /** The value a string of decimal digits denotes. */
  function DecimalValue(s: string): int
  {
    if s == [] then 0
    else 10 * DecimalValue(s[..|s| - 1]) + (s[|s| - 1] as int - '0' as int)
  }

  /** Reading back the rendering gives the number again. */
  lemma {:induction false} DecimalRoundTrip(n: nat)
    ensures DecimalValue(Decimal(n)) == n
  {
    if n >= 10 {
      DecimalRoundTrip(n / 10);
      var r := Decimal(n);
      assert r[..|r| - 1] == Decimal(n / 10);
    }
  }
}
