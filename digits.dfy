/** `bengali_to_english_digits`: a `str.translate` through the table
    `str.maketrans('০১২৩৪৫৬৭৮৯', '0123456789')`. */
module Digits {
  import opened Text

  const BengaliDigits: string := "০১২৩৪৫৬৭৮৯"
  const EnglishDigits: string := "0123456789"

  /** ০ (U+09E6) to ৯ (U+09EF). */
  predicate IsBengaliDigit(c: char) {
    '০' <= c <= '৯'
  }

  /** The ASCII digit with the same value as the Bengali digit `c`. */
  function AsciiOf(c: char): (d: char)
    requires IsBengaliDigit(c)
    ensures IsDigit(d)
  {
    ('0' as int + (c as int - '০' as int)) as char
  }

  /** `str.maketrans(src, dst)`: the i-th character of `src` maps to the i-th of `dst`;
      for a repeated character the later pair wins. */
  function MakeTrans(src: string, dst: string): (t: map<char, char>)
    requires |src| == |dst|
    ensures forall c :: c in t <==> c in src
    decreases |src|
  {
    if |src| == 0 then map[]
    else MakeTrans(src[..|src| - 1], dst[..|dst| - 1])[src[|src| - 1] := dst[|dst| - 1]]
  }

  /** `s.translate(t)`: characters with an entry are replaced, the others kept. */
  function Translate(s: string, t: map<char, char>): string {
    seq(|s|, i requires 0 <= i < |s| => if s[i] in t then t[s[i]] else s[i])
  }

  /** On a source without repeats, the table sends `src[i]` to `dst[i]`. */
  lemma {:induction false} MakeTransAt(src: string, dst: string, i: nat)
    requires |src| == |dst| && i < |src|
    requires forall j, k :: 0 <= j < k < |src| ==> src[j] != src[k]
    ensures src[i] in MakeTrans(src, dst) && MakeTrans(src, dst)[src[i]] == dst[i]
    decreases |src|
  {
    if i < |src| - 1 {
      MakeTransAt(src[..|src| - 1], dst[..|dst| - 1], i);
    }
  }

  /** The two constant strings list the digits in value order. */
  lemma DigitStrings()
    ensures |BengaliDigits| == |EnglishDigits| == 10
    ensures forall j :: 0 <= j < 10 ==> BengaliDigits[j] as int == '০' as int + j
    ensures forall j :: 0 <= j < 10 ==> EnglishDigits[j] as int == '0' as int + j
  {
    forall j | 0 <= j < 10
      ensures BengaliDigits[j] as int == '০' as int + j && EnglishDigits[j] as int == '0' as int + j
    {
      if j < 5 {
        if j == 0 {} else if j == 1 {} else if j == 2 {} else if j == 3 {} else {}
      } else {
        if j == 5 {} else if j == 6 {} else if j == 7 {} else if j == 8 {} else {}
      }
    }
  }

  lemma DigitTableValue(c: char)
    requires IsBengaliDigit(c)
    ensures c in MakeTrans(BengaliDigits, EnglishDigits)
    ensures MakeTrans(BengaliDigits, EnglishDigits)[c] == AsciiOf(c)
  {
    DigitStrings();
    var i := c as int - '০' as int;
    assert BengaliDigits[i] == c;
    MakeTransAt(BengaliDigits, EnglishDigits, i);
  }

  lemma DigitTableDomain(c: char)
    requires !IsBengaliDigit(c)
    ensures c !in MakeTrans(BengaliDigits, EnglishDigits)
  {
    DigitStrings();
    assert forall j :: 0 <= j < |BengaliDigits| ==> BengaliDigits[j] != c;
  }

  lemma DigitTable(c: char)
    ensures c in MakeTrans(BengaliDigits, EnglishDigits) <==> IsBengaliDigit(c)
    ensures IsBengaliDigit(c) ==> MakeTrans(BengaliDigits, EnglishDigits)[c] == AsciiOf(c)
  {
    if IsBengaliDigit(c) { DigitTableValue(c); } else { DigitTableDomain(c); }
  }

  /** Every Bengali digit becomes the ASCII digit of the same value at the same index;
      every other character is left as it is. */
  function BengaliToEnglishDigits(s: string): (r: string)
    ensures |r| == |s|
    ensures forall i :: 0 <= i < |s| ==> r[i] == if IsBengaliDigit(s[i]) then AsciiOf(s[i]) else s[i]
  {
    var t := MakeTrans(BengaliDigits, EnglishDigits);
    var r := Translate(s, t);
    assert forall i :: 0 <= i < |s| ==> r[i] == if IsBengaliDigit(s[i]) then AsciiOf(s[i]) else s[i] by {
      forall i | 0 <= i < |s| ensures r[i] == if IsBengaliDigit(s[i]) then AsciiOf(s[i]) else s[i] {
        DigitTable(s[i]);
      }
    }
    r
  }

  /** The result holds no Bengali digit, and translating again changes nothing. */
  lemma NormalizedHasNoBengaliDigit(s: string)
    ensures forall i :: 0 <= i < |s| ==> !IsBengaliDigit(BengaliToEnglishDigits(s)[i])
    ensures BengaliToEnglishDigits(BengaliToEnglishDigits(s)) == BengaliToEnglishDigits(s)
  {
    var r := BengaliToEnglishDigits(s);
    assert BengaliToEnglishDigits(r) == r;
  }

  /** Non-space characters stay non-space, so a blank text stays blank and vice versa. */
  lemma NormalizedKeepsSpaces(s: string)
    ensures forall i :: 0 <= i < |s| ==> (IsSpace(BengaliToEnglishDigits(s)[i]) <==> IsSpace(s[i]))
    ensures forall i :: 0 <= i < |s| ==> (IsDigit(BengaliToEnglishDigits(s)[i]) <==> IsDigit(s[i]) || IsBengaliDigit(s[i]))
  {
  }
}
