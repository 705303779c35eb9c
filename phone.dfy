/** `extract_phone_number`: normalise the digits, then try the pattern list
    `[r'(\d{11})', r'\+88(\d{11})']` in order with `re.search` and return the first
    group found. */
module Phone {
  import opened Text
  import opened Digits

  const PhoneLength: nat := 11

  /** The two patterns of the list, in the order they are tried. */
  datatype PhonePattern = ElevenDigits | CountryCodeElevenDigits

  const PhonePatterns: seq<PhonePattern> := [ElevenDigits, CountryCodeElevenDigits]

  /** `\d{11}` matches at index `i`. */
  predicate DigitWindowAt(t: string, i: nat) {
    i + PhoneLength <= |t| && forall k :: i <= k < i + PhoneLength ==> IsDigit(t[k])
  }

  /** `\+88\d{11}` matches at index `i`. */
  predicate CountryCodeAt(t: string, i: nat) {
    i + 3 <= |t| && t[i..i + 3] == "+88" && DigitWindowAt(t, i + 3)
  }

  predicate MatchesAt(p: PhonePattern, t: string, i: nat) {
    match p
    case ElevenDigits => DigitWindowAt(t, i)
    case CountryCodeElevenDigits => CountryCodeAt(t, i)
  }

  /** Where group 1 of a match of `p` at `i` begins. */
  function GroupStart(p: PhonePattern, i: nat): nat {
    match p
    case ElevenDigits => i
    case CountryCodeElevenDigits => i + 3
  }

  /** `re.search(p, t[from..])`, returning group 1 of the leftmost match. */
  function Search(p: PhonePattern, t: string, from: nat): (r: Option<string>)
    ensures r.Some? ==> |r.value| == PhoneLength && AllDigits(r.value)
    decreases |t| - from
  {
    if from >= |t| then None
    else if MatchesAt(p, t, from) then
      var g := GroupStart(p, from);
      Some(t[g..g + PhoneLength])
    else Search(p, t, from + 1)
  }

  /** The `for pattern in phone_patterns` loop: the first pattern with a match decides. */
  function FirstMatch(patterns: seq<PhonePattern>, t: string): Option<string> {
    if |patterns| == 0 then None
    else match Search(patterns[0], t, 0)
      case Some(g) => Some(g)
      case None => FirstMatch(patterns[1..], t)
  }

  function ExtractPhoneNumber(line: string): Option<string> {
    FirstMatch(PhonePatterns, BengaliToEnglishDigits(line))
  }

  /** A search from `from` fails exactly when no match starts at or after `from`. */
  lemma {:induction false} SearchNone(p: PhonePattern, t: string, from: nat)
    ensures Search(p, t, from).None? <==> forall i: nat :: from <= i ==> !MatchesAt(p, t, i)
    decreases |t| - from
  {
    if from < |t| && !MatchesAt(p, t, from) {
      SearchNone(p, t, from + 1);
      forall i: nat | from <= i && Search(p, t, from).None? ensures !MatchesAt(p, t, i) {
        if i == from {} else {}
      }
    }
  }

  /** A search from `from` returns group 1 of the leftmost match at or after `from`. */
  lemma {:induction false} SearchSome(p: PhonePattern, t: string, from: nat, i: nat)
    requires from <= i && MatchesAt(p, t, i)
    requires forall j: nat :: from <= j < i ==> !MatchesAt(p, t, j)
    ensures Search(p, t, from) == Some(t[GroupStart(p, i)..GroupStart(p, i) + PhoneLength])
    decreases i - from
  {
    if from < i {
      SearchSome(p, t, from + 1, i);
    }
  }

  /** The second pattern never changes the result: wherever `+88` followed by eleven digits
      occurs, the eleven digits alone match too, and the first pattern is tried first. */
  lemma CountryCodeRedundant(t: string)
    ensures FirstMatch(PhonePatterns, t) == Search(ElevenDigits, t, 0)
  {
    if Search(ElevenDigits, t, 0).None? {
      SearchNone(ElevenDigits, t, 0);
      SearchNone(CountryCodeElevenDigits, t, 0);
      forall i: nat ensures !MatchesAt(CountryCodeElevenDigits, t, i) {
        assert !MatchesAt(ElevenDigits, t, i + 3);
      }
      assert PhonePatterns[1..] == [CountryCodeElevenDigits];
      assert FirstMatch(PhonePatterns[1..][1..], t) == None;
    }
  }

  /** The phone is absent exactly when the normalised line has no run of eleven digits. */
  lemma PhoneAbsent(line: string)
    ensures var t := BengaliToEnglishDigits(line);
      ExtractPhoneNumber(line).None? <==> forall i: nat :: !DigitWindowAt(t, i)
  {
    var t := BengaliToEnglishDigits(line);
    CountryCodeRedundant(t);
    SearchNone(ElevenDigits, t, 0);
    assert forall i: nat :: MatchesAt(ElevenDigits, t, i) == DigitWindowAt(t, i);
  }

  /** A found phone is eleven ASCII digits: the first eleven of the leftmost run of at
      least eleven consecutive digits in the normalised line. */
  lemma PhoneIsLeftmostRun(line: string)
    requires ExtractPhoneNumber(line).Some?
    ensures var t := BengaliToEnglishDigits(line); var p := ExtractPhoneNumber(line).value;
      && |p| == PhoneLength && AllDigits(p)
      && exists i: nat ::
           && DigitWindowAt(t, i) && p == t[i..i + PhoneLength]
           && (i == 0 || !IsDigit(t[i - 1]))
           && forall j: nat :: j < i ==> !DigitWindowAt(t, j)
  {
    var t := BengaliToEnglishDigits(line);
    CountryCodeRedundant(t);
    SearchNone(ElevenDigits, t, 0);
    var i: nat :| DigitWindowAt(t, i);
    var k := FirstWindowExists(t, i);
    forall j: nat | j < k ensures !MatchesAt(ElevenDigits, t, j) { }
    SearchSome(ElevenDigits, t, 0, k);
    assert k == 0 || !IsDigit(t[k - 1]) by {
      if k > 0 {
        assert !DigitWindowAt(t, k - 1);
        assert forall m :: k <= m < k - 1 + PhoneLength ==> IsDigit(t[m]);
      }
    }
  }

  /** The smallest window start, given that `i` is one. */
  lemma {:induction false} FirstWindowExists(t: string, i: nat) returns (k: nat)
    requires DigitWindowAt(t, i)
    ensures k <= i && DigitWindowAt(t, k) && forall j: nat :: j < k ==> !DigitWindowAt(t, j)
    decreases i
  {
    k := i;
    if exists j: nat :: j < i && DigitWindowAt(t, j) {
      var j: nat :| j < i && DigitWindowAt(t, j);
      k := FirstWindowExists(t, j);
    }
  }
}
