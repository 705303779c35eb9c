/** `extract_amount`: normalise the digits, search for `(\d+)\s*টাকা|Taka` and return its
    group 1; when that pattern does not occur, return the first run of digits. */
module Amount {
  import opened Text
  import opened Digits

  /** The currency word "taka" in Bengali script (U+099F U+09BE U+0995 U+09BE). */
  const Taka: string := "টাকা"
  const LatinTaka: string := "Taka"

  /** End of the longest run of digits that starts at `i`. */
  function DigitRunEnd(t: string, i: nat): (j: nat)
    requires i <= |t|
    ensures i <= j <= |t|
    ensures forall k :: i <= k < j ==> IsDigit(t[k])
    ensures j == |t| || !IsDigit(t[j])
    decreases |t| - i
  {
    if i < |t| && IsDigit(t[i]) then DigitRunEnd(t, i + 1) else i
  }

  /** End of the longest run of whitespace that starts at `i`. */
  function SpaceRunEnd(t: string, i: nat): (j: nat)
    requires i <= |t|
    ensures i <= j <= |t|
    ensures forall k :: i <= k < j ==> IsSpace(t[k])
    ensures j == |t| || !IsSpace(t[j])
    decreases |t| - i
  {
    if i < |t| && IsSpace(t[i]) then SpaceRunEnd(t, i + 1) else i
  }

  /** The first alternative `(\d+)\s*টাকা` matches at `i`. Both greedy repetitions are
      taken at full length: giving a digit back leaves a digit in front of `\s*টাকা`, and
      giving a space back leaves a space in front of `টাকা`, so neither retry can succeed. */
  predicate UnitAmountAt(t: string, i: nat) {
    i < |t| && IsDigit(t[i]) && OccursAt(t, Taka, SpaceRunEnd(t, DigitRunEnd(t, i)))
  }

  /** The second alternative `Taka` matches at `i`. */
  predicate LatinTakaAt(t: string, i: nat) {
    OccursAt(t, LatinTaka, i)
  }

  /** `re.search(r'(\d+)\s*টাকা|Taka', t[from..])`: `Some(g)` for the leftmost match, where
      `g` is its group 1, which is `None` when the `Taka` alternative is the one that matched. */
  function SearchAmount(t: string, from: nat): Option<Option<string>>
    decreases |t| - from
  {
    if from >= |t| then None
    else if UnitAmountAt(t, from) then Some(Some(t[from..DigitRunEnd(t, from)]))
    else if LatinTakaAt(t, from) then Some(None)
    else SearchAmount(t, from + 1)
  }

  /** `re.search(r'(\d+)', t[from..])`, returning group 1. */
  function SearchNumber(t: string, from: nat): Option<string>
    decreases |t| - from
  {
    if from >= |t| then None
    else if IsDigit(t[from]) then Some(t[from..DigitRunEnd(t, from)])
    else SearchNumber(t, from + 1)
  }

  function ExtractAmount(noteText: string): Option<string> {
    var t := BengaliToEnglishDigits(noteText);
    match SearchAmount(t, 0)
    case Some(group) => group
    case None => SearchNumber(t, 0)
  }

  /** A maximal run of digits: `t[i..j]` is non-empty, all digits, and has no digit on
      either side. */
  predicate IsDigitRun(t: string, i: nat, j: nat) {
    i < j <= |t| && j == DigitRunEnd(t, i) && (i == 0 || !IsDigit(t[i - 1]))
  }

  predicate NoAmountBetween(t: string, from: nat, to: nat) {
    forall j: nat :: from <= j < to ==> !UnitAmountAt(t, j) && !LatinTakaAt(t, j)
  }

  lemma {:induction false} SearchAmountNone(t: string, from: nat)
    ensures SearchAmount(t, from).None? <==> NoAmountBetween(t, from, |t|)
    decreases |t| - from
  {
    if from < |t| {
      SearchAmountNone(t, from + 1);
    }
  }

  /** The leftmost match at or after `from` decides the search. */
  lemma {:induction false} SearchAmountAt(t: string, from: nat, i: nat)
    requires from <= i < |t| && (UnitAmountAt(t, i) || LatinTakaAt(t, i))
    requires NoAmountBetween(t, from, i)
    ensures SearchAmount(t, from) ==
      if UnitAmountAt(t, i) then Some(Some(t[i..DigitRunEnd(t, i)])) else Some(None)
    decreases i - from
  {
    if from < i {
      SearchAmountAt(t, from + 1, i);
    }
  }

  lemma {:induction false} SearchAmountFound(t: string, from: nat) returns (i: nat)
    requires SearchAmount(t, from).Some?
    ensures from <= i < |t| && (UnitAmountAt(t, i) || LatinTakaAt(t, i))
    ensures NoAmountBetween(t, from, i)
    ensures SearchAmount(t, from) ==
      if UnitAmountAt(t, i) then Some(Some(t[i..DigitRunEnd(t, i)])) else Some(None)
    decreases |t| - from
  {
    if UnitAmountAt(t, from) || LatinTakaAt(t, from) {
      i := from;
    } else {
      i := SearchAmountFound(t, from + 1);
    }
  }

  lemma {:induction false} SearchNumberFound(t: string, from: nat)
    ensures SearchNumber(t, from).None? <==> forall j :: from <= j < |t| ==> !IsDigit(t[j])
    ensures SearchNumber(t, from).Some? ==> exists i: nat ::
      && from <= i < |t| && IsDigit(t[i])
      && (forall j :: from <= j < i ==> !IsDigit(t[j]))
      && SearchNumber(t, from).value == t[i..DigitRunEnd(t, i)]
    decreases |t| - from
  {
    if from < |t| {
      SearchNumberFound(t, from + 1);
      if !IsDigit(t[from]) && SearchNumber(t, from).Some? {
        var i: nat :|
          && from + 1 <= i < |t| && IsDigit(t[i])
          && (forall j :: from + 1 <= j < i ==> !IsDigit(t[j]))
          && SearchNumber(t, from + 1).value == t[i..DigitRunEnd(t, i)];
        assert forall j :: from <= j < i ==> !IsDigit(t[j]);
      }
    }
  }

  /** Inside a run, later starts share the run's end; so a unit amount found at `i` would
      also be found at `i - 1` when `t[i - 1]` is a digit. */
  lemma UnitAmountExtendsLeft(t: string, i: nat)
    requires 0 < i && UnitAmountAt(t, i) && IsDigit(t[i - 1])
    ensures UnitAmountAt(t, i - 1) && DigitRunEnd(t, i - 1) == DigitRunEnd(t, i)
  {
  }

  /** When the leftmost match is a digit run followed by optional whitespace and "টাকা",
      that run is returned, and it is a whole run of digits. */
  lemma AmountUnitFirst(noteText: string, i: nat)
    requires var t := BengaliToEnglishDigits(noteText);
      UnitAmountAt(t, i) && NoAmountBetween(t, 0, i)
    ensures var t := BengaliToEnglishDigits(noteText);
      && ExtractAmount(noteText) == Some(t[i..DigitRunEnd(t, i)])
      && IsDigitRun(t, i, DigitRunEnd(t, i))
  {
    var t := BengaliToEnglishDigits(noteText);
    SearchAmountAt(t, 0, i);
    if i > 0 && IsDigit(t[i - 1]) {
      UnitAmountExtendsLeft(t, i);
    }
  }

  /** When a literal "Taka" starts before any unit amount, the result is `None`: the match
      succeeds, its group 1 is empty, and the digit-run fallback is never reached. */
  lemma AmountLatinTakaFirst(noteText: string, i: nat)
    requires var t := BengaliToEnglishDigits(noteText);
      LatinTakaAt(t, i) && forall j: nat :: j <= i ==> !UnitAmountAt(t, j)
    ensures ExtractAmount(noteText) == None
  {
    var t := BengaliToEnglishDigits(noteText);
    assert SearchAmount(t, 0).Some? by { SearchAmountNone(t, 0); }
    var k := SearchAmountFound(t, 0);
    assert k <= i;
  }

  /** With neither alternative anywhere, the first run of digits is returned, or `None`
      when there are no digits. */
  lemma AmountFallback(noteText: string)
    requires NoAmountBetween(BengaliToEnglishDigits(noteText), 0, |noteText|)
    ensures var t := BengaliToEnglishDigits(noteText);
      && (ExtractAmount(noteText).None? <==> forall j :: 0 <= j < |t| ==> !IsDigit(t[j]))
      && (ExtractAmount(noteText).Some? ==> exists i: nat ::
            && i < |t| && IsDigit(t[i]) && (forall j :: 0 <= j < i ==> !IsDigit(t[j]))
            && ExtractAmount(noteText).value == t[i..DigitRunEnd(t, i)])
  {
    var t := BengaliToEnglishDigits(noteText);
    SearchAmountNone(t, 0);
    SearchNumberFound(t, 0);
  }

  lemma DigitRunDigits(t: string, i: nat, j: nat)
    requires IsDigitRun(t, i, j)
    ensures |t[i..j]| > 0 && AllDigits(t[i..j])
  {
    assert forall k :: 0 <= k < j - i ==> t[i..j][k] == t[i + k];
  }

  /** The fallback returns a whole run of digits. */
  lemma FallbackIsDigitRun(noteText: string)
    requires SearchAmount(BengaliToEnglishDigits(noteText), 0).None?
    requires ExtractAmount(noteText).Some?
    ensures var t := BengaliToEnglishDigits(noteText);
      exists i: nat :: i < |t| && IsDigitRun(t, i, DigitRunEnd(t, i)) && ExtractAmount(noteText).value == t[i..DigitRunEnd(t, i)]
  {
    var t := BengaliToEnglishDigits(noteText);
    SearchNumberFound(t, 0);
    var i: nat :|
      && i < |t| && IsDigit(t[i]) && (forall j :: 0 <= j < i ==> !IsDigit(t[j]))
      && SearchNumber(t, 0).value == t[i..DigitRunEnd(t, i)];
    assert IsDigitRun(t, i, DigitRunEnd(t, i));
  }

  /** Whatever the case, a returned amount is a whole run of ASCII digits of the normalised
      note. */
  lemma AmountIsDigitRun(noteText: string)
    requires ExtractAmount(noteText).Some?
    ensures var t := BengaliToEnglishDigits(noteText); var a := ExtractAmount(noteText).value;
      && |a| > 0 && AllDigits(a)
      && exists i: nat, j: nat :: IsDigitRun(t, i, j) && a == t[i..j]
  {
    var t := BengaliToEnglishDigits(noteText);
    var i: nat;
    if SearchAmount(t, 0).Some? {
      i := SearchAmountFound(t, 0);
      AmountUnitFirst(noteText, i);
    } else {
      FallbackIsDigitRun(noteText);
      i :| i < |t| && IsDigitRun(t, i, DigitRunEnd(t, i)) && ExtractAmount(noteText).value == t[i..DigitRunEnd(t, i)];
    }
    DigitRunDigits(t, i, DigitRunEnd(t, i));
  }
}
