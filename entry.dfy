/** Editing of the number being typed (`currentNumber`): digit keys, the decimal
    point and backspace, each a string edit. */
module Entry {

  /** What a digit button or a digit key passes to the handler. */
  type Digit = d: int | 0 <= d <= 9

  function DigitChar(d: Digit): char {
    (d + '0' as int) as char
  }

  predicate IsDigitChar(c: char) {
    '0' <= c <= '9'
  }

  /** A decimal literal as the keypad builds it: a leading digit, then digits and at
      most one point. */
  predicate IsLiteral(s: string) {
    |s| > 0 && IsDigitChar(s[0]) &&
    (forall i :: 0 <= i < |s| ==> IsDigitChar(s[i]) || s[i] == '.') &&
    (forall i, j :: 0 <= i < j < |s| && s[i] == '.' ==> s[j] != '.')
  }

  /** The digit keys typed in order, as text. */
  function DigitString(ds: seq<Digit>): (s: string)
    ensures |s| == |ds|
    ensures forall i :: 0 <= i < |ds| ==> s[i] == DigitChar(ds[i])
  {
    seq(|ds|, i requires 0 <= i < |ds| => DigitChar(ds[i]))
  }

  /** Backspace on the number: drop the last character, and fall back to "0" when at
      most one is left. */
  function EraseLast(s: string): (r: string)
    ensures r != []
    ensures |s| > 1 ==> r + [s[|s| - 1]] == s
    ensures |s| <= 1 ==> r == "0"
    ensures IsLiteral(s) ==> IsLiteral(r)
  {
    if |s| > 1 then s[..|s| - 1] else "0"
  }

  /** A digit key: a lone "0" is replaced by the digit, anything else gets it appended. */
  function TypeDigit(s: string, d: Digit): (r: string)
    ensures |r| > 0 && r[|r| - 1] == DigitChar(d)
    ensures s == "0" ==> r == [DigitChar(d)]
    ensures s != "0" ==> r[..|r| - 1] == s
    ensures IsLiteral(s) ==> IsLiteral(r)
    ensures s != [] ==> EraseLast(r) == s
  {
    if s == "0" then [DigitChar(d)] else s + [DigitChar(d)]
  }

  /** The decimal key: append a point unless the number already has one. */
  function TypeDecimal(s: string): (r: string)
    ensures '.' in r
    ensures '.' in s ==> r == s
    ensures '.' !in s ==> r == s + "."
    ensures IsLiteral(s) ==> IsLiteral(r)
    ensures '.' !in s && s != [] ==> EraseLast(r) == s
  {
    if '.' in s then s else s + "."
  }

  /** A second decimal key press changes nothing. */
  lemma TypeDecimalIdempotent(s: string)
    ensures TypeDecimal(TypeDecimal(s)) == TypeDecimal(s)
  {
  }

  /** Several digit keys in a row. */
  function TypeDigits(s: string, ds: seq<Digit>): string
    decreases |ds|
  {
    if ds == [] then s else TypeDigits(TypeDigit(s, ds[0]), ds[1..])
  }

  /** Typing digits keeps a literal a literal. */
  lemma {:induction false} TypeDigitsLiteral(s: string, ds: seq<Digit>)
    requires IsLiteral(s)
    ensures IsLiteral(TypeDigits(s, ds))
    decreases |ds|
  {
    if ds != [] {
      TypeDigitsLiteral(TypeDigit(s, ds[0]), ds[1..]);
    }
  }

  lemma DigitStringCons(ds: seq<Digit>)
    requires ds != []
    ensures DigitString(ds) == [DigitChar(ds[0])] + DigitString(ds[1..])
  {
  }

  lemma ConcatAssoc(a: string, b: string, c: string)
    ensures a + (b + c) == a + b + c
  {
  }

  /** Behind anything but a lone "0", digits are appended in the order typed. */
  lemma {:induction false} AppendDigits(s: string, ds: seq<Digit>)
    requires s != [] && s != "0"
    ensures TypeDigits(s, ds) == s + DigitString(ds)
    decreases |ds|
  {
    if ds != [] {
      var c := [DigitChar(ds[0])];
      var t := TypeDigit(s, ds[0]);
      assert t == s + c;
      AppendDigits(t, ds[1..]);
      DigitStringCons(ds);
      ConcatAssoc(s, c, DigitString(ds[1..]));
    }
  }

  /** A zero typed on the initial "0" is absorbed. */
  lemma LeadingZeroAbsorbed(ds: seq<Digit>)
    ensures TypeDigits("0", [0] + ds) == TypeDigits("0", ds)
  {
    assert ([0] + ds)[1..] == ds;
  }

  /** From "0", a number whose first digit is not zero comes out exactly as typed. */
  lemma DigitsFromZero(ds: seq<Digit>)
    requires ds != [] && ds[0] != 0
    ensures TypeDigits("0", ds) == DigitString(ds)
  {
    var t := TypeDigit("0", ds[0]);
    assert t == [DigitChar(ds[0])];
    assert t != "0";
    AppendDigits(t, ds[1..]);
    DigitStringCons(ds);
  }
}
