/** `process_customer_block`: read one customer's record out of a block of text, line by
    line. */
module Extractor {
  import opened Text
  import opened Phone
  import opened Amount
  import opened Offers

  /** The dictionary returned for a block. `amount` is `None` where the source stores
      Python's `None` (a note was found but `extract_amount` found nothing) and `Some("")`
      where it keeps its initial empty string (no note was found). */
  datatype Record = Record(
    name: string,
    address: string,
    phone: string,
    amount: Option<string>,
    note: string,
    deliveryType: string)

  /** Substrings that make a line a name candidate (line 116); the test is case-sensitive. */
  const NameKeywords: seq<string> := ["নাম", "name", "nam"]

  /** The label alternatives removed from a name line (line 117), in the order the regex
      tries them. */
  const NameLabels: seq<string> := ["নাম", "আপনার নাম", "name", "nam"]

  /** Substrings that make a line part of the address (line 126). */
  const AddressKeywords: seq<string> := ["জেলা", "থানা", "এলাকা", "ঠিকানা", "এলাকার নাম", "address", "area"]

  /** Substrings that make a line an order line (lines 127 and 131). */
  const OrderKeywords: seq<string> := ["অর্ডার", "অডার", "order"]

  const HomeDelivery: string := "Home"

  // ---------------------------------------------------------------------------
  // The name label
  // ---------------------------------------------------------------------------

  /** The first label, in regex order, that the line starts with (ignoring ASCII case). */
  function FirstLabel(line: string, labels: seq<string>): (r: Option<string>)
    ensures r.Some? ==> r.value in labels && StartsWithIgnoreCase(line, r.value)
    ensures r.Some? ==> exists k ::
      && 0 <= k < |labels| && labels[k] == r.value
      && forall i :: 0 <= i < k ==> !StartsWithIgnoreCase(line, labels[i])
    ensures r.None? ==> forall l :: l in labels ==> !StartsWithIgnoreCase(line, l)
  {
    if |labels| == 0 then None
    else if StartsWithIgnoreCase(line, labels[0]) then Some(labels[0])
    else FirstLabel(line, labels[1..])
  }

  /** `[:：]?`: one ASCII or full-width colon, if there is one. */
  function DropColon(s: string): string {
    if |s| > 0 && (s[0] == ':' || s[0] == '：') then s[1..] else s
  }

  /** `re.sub(r'^(নাম|আপনার নাম|name|nam)\s*[:：]?\s*', '', line, flags=re.IGNORECASE).strip()`:
      the label, the whitespace after it, one colon and the whitespace after that go, then the
      rest is stripped. Each greedy part takes all it can, and the match never needs to give
      anything back because what follows may match the empty string. */
  function NameValue(line: string): string {
    match FirstLabel(line, NameLabels)
    case None => Strip(line)
    case Some(marker) => var k := |marker|; Strip(DropColon(TrimLeft(line[k..])))
  }

  /** A line that the search finds label `m` at, written `<m in any case><space><colon><space>
      <value>` with an optional colon and any whitespace around it, gives back the stripped
      value. When the colon is left out, the value must not itself start with one, or the
      regex would take that colon. */
  lemma NameValueLabelled(p: string, m: string, w1: string, c: string, w2: string, v: string)
    requires FirstLabel(p + w1 + c + w2 + v, NameLabels) == Some(m) && |p| == |m|
    requires IsBlank(w1) && IsBlank(w2)
    requires c == "" || c == ":" || c == "："
    requires IsStripped(v)
    requires c == "" && |v| > 0 ==> v[0] != ':' && v[0] != '：'
    ensures NameValue(p + w1 + c + w2 + v) == v
  {
    DropPrefix(p, w1, c, w2, v);
    ValueAfterLabel(w1, c, w2, v);
  }

  lemma DropPrefix(p: string, w1: string, c: string, w2: string, v: string)
    ensures (p + w1 + c + w2 + v)[|p|..] == w1 + c + w2 + v
  {
  }

  /** What follows the label: the whitespace, the optional colon and the whitespace after it
      go, and stripping leaves the value. */
  lemma ValueAfterLabel(w1: string, c: string, w2: string, v: string)
    requires IsBlank(w1) && IsBlank(w2)
    requires c == "" || c == ":" || c == "："
    requires IsStripped(v)
    requires c == "" && |v| > 0 ==> v[0] != ':' && v[0] != '：'
    ensures Strip(DropColon(TrimLeft(w1 + c + w2 + v))) == v
  {
    assert w1 + c + w2 + v == w1 + (c + w2 + v);
    TrimLeftBlankPrefix(w1, c + w2 + v);
    if c == "" {
      assert c + w2 + v == w2 + v;
      ValueWithoutColon(w2, v);
    } else {
      ValueAfterColon(c, w2, v);
    }
  }

  lemma ValueWithoutColon(w: string, v: string)
    requires IsBlank(w) && IsStripped(v)
    requires |v| > 0 ==> v[0] != ':' && v[0] != '：'
    ensures Strip(DropColon(TrimLeft(w + v))) == v
  {
    TrimLeftBlankPrefix(w, v);
    StripOfStripped(v);
    assert TrimLeft(v) == v;
  }

  lemma ValueAfterColon(c: string, w: string, v: string)
    requires c == ":" || c == "："
    requires IsBlank(w) && IsStripped(v)
    ensures Strip(DropColon(TrimLeft(c + w + v))) == v
  {
    var t := c + (w + v);
    assert c + w + v == t;
    assert |c| == 1 && t[0] == c[0] && !IsSpace(t[0]);
    assert t[1..] == w + v;
    TrimLeftBlankPrefix(w, v);
    StripOfStripped(v);
  }

  /** A line that starts with `nam` in any case loses `name` when an `e` (in any case)
      follows, and only `nam` otherwise: the regex tries `name` first. */
  lemma LatinLabelChosen(line: string)
    requires |line| >= 3 && Lower(line[0]) == 'n' && Lower(line[1]) == 'a' && Lower(line[2]) == 'm'
    ensures FirstLabel(line, NameLabels) ==
      if |line| >= 4 && Lower(line[3]) == 'e' then Some("name") else Some("nam")
  {
    var tail1 := NameLabels[1..];
    var tail2 := tail1[1..];
    var tail3 := tail2[1..];
    assert tail1[0] == NameLabels[1] && tail2 == ["name", "nam"] && tail3 == ["nam"];
    NoBengaliLabel(line);
    LatinPrefixes(line);
    assert FirstLabel(line, NameLabels) == FirstLabel(line, tail1) == FirstLabel(line, tail2);
  }

  /** A line that starts with a Latin letter starts with neither Bengali label. */
  lemma NoBengaliLabel(line: string)
    requires |line| >= 1 && Lower(line[0]) == 'n'
    ensures !StartsWithIgnoreCase(line, NameLabels[0]) && !StartsWithIgnoreCase(line, NameLabels[1])
  {
    assert Lower(line[0]) != Lower(NameLabels[0][0]);
    assert Lower(line[0]) != Lower(NameLabels[1][0]);
  }

  /** Which of the Latin labels a line starting with `nam` in any case begins with. */
  lemma LatinPrefixes(line: string)
    requires |line| >= 3 && Lower(line[0]) == 'n' && Lower(line[1]) == 'a' && Lower(line[2]) == 'm'
    ensures StartsWithIgnoreCase(line, "nam")
    ensures StartsWithIgnoreCase(line, "name") <==> |line| >= 4 && Lower(line[3]) == 'e'
  {
    var l := "name";
    assert l[0] == 'n' && l[1] == 'a' && l[2] == 'm' && l[3] == 'e';
    assert Lower('n') == 'n' && Lower('a') == 'a' && Lower('m') == 'm' && Lower('e') == 'e';
    assert "nam" == l[..3];
    if |line| >= 4 && Lower(line[3]) == 'e' {
      forall i | 0 <= i < 4 ensures Lower(line[i]) == Lower(l[i]) {
        if i == 0 {} else if i == 1 {} else if i == 2 {} else {}
      }
    }
  }

  /** A line that starts with no label is only stripped. */
  lemma NameValueUnlabelled(line: string)
    requires forall m :: m in NameLabels ==> !StartsWithIgnoreCase(line, m)
    ensures NameValue(line) == Strip(line)
  {
  }

  // ---------------------------------------------------------------------------
  // The record, as the state after the first `n` lines
  // ---------------------------------------------------------------------------

  predicate IsOrderLine(line: string) {
    ContainsAny(line, OrderKeywords)
  }

  predicate IsAddressLine(line: string) {
    ContainsAny(line, AddressKeywords) && !ContainsAny(line, OrderKeywords)
  }

  /** Line `i` may give the name: it is the first line, or mentions a name keyword. */
  predicate IsNameCandidate(lines: seq<string>, i: nat)
    requires i < |lines|
  {
    Strip(lines[i]) != "" && (i == 0 || ContainsAny(Strip(lines[i]), NameKeywords))
  }

  /** `name` after the first `n` lines: set by the first candidate line that finds it still
      empty. */
  function NameAfter(lines: seq<string>, n: nat): string
    requires n <= |lines|
  {
    if n == 0 then ""
    else
      var prev := NameAfter(lines, n - 1);
      if prev == "" && IsNameCandidate(lines, n - 1) then NameValue(Strip(lines[n - 1])) else prev
  }

  /** `phone` after the first `n` lines: the first phone number found. */
  function PhoneAfter(lines: seq<string>, n: nat): string
    requires n <= |lines|
  {
    if n == 0 then ""
    else
      var prev := PhoneAfter(lines, n - 1);
      var line := Strip(lines[n - 1]);
      if line != "" && prev == "" && ExtractPhoneNumber(line).Some? then ExtractPhoneNumber(line).value
      else prev
  }

  /** `address_lines` after the first `n` lines. */
  function AddressAfter(lines: seq<string>, n: nat): seq<string>
    requires n <= |lines|
  {
    if n == 0 then []
    else
      var prev := AddressAfter(lines, n - 1);
      var line := Strip(lines[n - 1]);
      if line != "" && IsAddressLine(line) then prev + [line] else prev
  }

  /** The index of the first non-blank line at or after `j`. */
  function NextNonBlank(lines: seq<string>, j: nat): (r: Option<nat>)
    requires j <= |lines|
    ensures r.Some? ==> j <= r.value < |lines| && Strip(lines[r.value]) != ""
    ensures r.Some? ==> forall m :: j <= m < r.value ==> Strip(lines[m]) == ""
    ensures r.None? ==> forall m :: j <= m < |lines| ==> Strip(lines[m]) == ""
    decreases |lines| - j
  {
    if j == |lines| then None
    else if Strip(lines[j]) != "" then Some(j)
    else NextNonBlank(lines, j + 1)
  }

  /** The note after the first `n` lines: the line after the latest order line that has a
      non-blank line after it, or `None` while there is none. */
  function NoteAfter(lines: seq<string>, n: nat): Option<string>
    requires n <= |lines|
  {
    if n == 0 then None
    else
      var prev := NoteAfter(lines, n - 1);
      var line := Strip(lines[n - 1]);
      if line != "" && IsOrderLine(line) then
        match NextNonBlank(lines, n)
        case Some(k) => Some(Strip(lines[k]))
        case None => prev
      else prev
  }

  /** `block_text.strip().split('\n')`. */
  function BlockTextLines(blockText: string): seq<string> {
    SplitLines(Strip(blockText))
  }

  /** The `note` field for the note found so far: empty while there is none. */
  function NoteText(note: Option<string>): string {
    match note case None => "" case Some(t) => t
  }

  /** The `amount` field for the note found so far: the initial empty string while there is
      none, else what `extract_amount` makes of the note. */
  function AmountOfNote(note: Option<string>): Option<string> {
    match note case None => Some("") case Some(t) => ExtractAmount(t)
  }

  /** The dictionary `process_customer_block` returns. */
  function CustomerRecord(blockText: string): Record {
    var lines := BlockTextLines(blockText);
    var n := |lines|;
    var note := NoteAfter(lines, n);
    Record(
      NameAfter(lines, n),
      Join(AddressAfter(lines, n)),
      PhoneAfter(lines, n),
      AmountOfNote(note),
      NoteText(note),
      HomeDelivery)
  }

  /** The inner `for j in range(i + 1, len(lines))` loop, which stops with `break` at the
      first non-blank line: `j` is that line, or `|lines|` when none is left. */
  method SkipBlankLines(lines: seq<string>, from: nat) returns (j: nat)
    requires from <= |lines|
    ensures from <= j <= |lines|
    ensures NextNonBlank(lines, from) == if j < |lines| then Some(j) else None
  {
    j := from;
    while j < |lines| && Strip(lines[j]) == ""
      invariant from <= j <= |lines|
      invariant NextNonBlank(lines, from) == NextNonBlank(lines, j)
    {
      j := j + 1;
    }
  }

  method ProcessCustomerBlock(blockText: string) returns (record: Record)
    ensures record == CustomerRecord(blockText)
  {
    var lines := SplitLines(Strip(blockText));
    var name := "";
    var phone := "";
    var addressLines: seq<string> := [];
    var note := "";
    var amount: Option<string> := Some("");
    ghost var found: Option<string> := None;
    for i := 0 to |lines|
      invariant name == NameAfter(lines, i)
      invariant phone == PhoneAfter(lines, i)
      invariant addressLines == AddressAfter(lines, i)
      invariant found == NoteAfter(lines, i)
      invariant note == NoteText(found) && amount == AmountOfNote(found)
    {
      var line := Strip(lines[i]);
      if line == "" {
        continue;
      }
      if name == "" && (i == 0 || ContainsAny(line, NameKeywords)) {
        name := NameValue(line);
      }
      if phone == "" {
        var extractedPhone := ExtractPhoneNumber(line);
        if extractedPhone.Some? {
          phone := extractedPhone.value;
        }
      }
      if IsAddressLine(line) {
        addressLines := addressLines + [line];
      }
      if IsOrderLine(line) {
        // SkipBlankLines finds the line the note is taken from.
        var j := SkipBlankLines(lines, i + 1);
        if j < |lines| {
          note := Strip(lines[j]);
          amount := ExtractAmount(note);
          found := Some(note);
        }
      }
    }
    record := Record(name, Join(addressLines), phone, amount, note, HomeDelivery);
  }

  // ---------------------------------------------------------------------------
  // Reference definitions: what each line offers, and how the offers combine
  // ---------------------------------------------------------------------------

  /** What line `k` offers as the name: its value when it is a candidate, else "". */
  function NameOffer(lines: seq<string>, k: nat): string
    requires k < |lines|
  {
    if IsNameCandidate(lines, k) then NameValue(Strip(lines[k])) else ""
  }

  /** What a line offers as the phone: the number found in it, else "". */
  function PhoneOffer(line: string): string {
    var l := Strip(line);
    if l != "" && ExtractPhoneNumber(l).Some? then ExtractPhoneNumber(l).value else ""
  }

  /** What line `k` offers as the note: the next non-blank line when it is an order line. */
  function NoteOffer(lines: seq<string>, k: nat): Option<string>
    requires k < |lines|
  {
    var l := Strip(lines[k]);
    if l != "" && IsOrderLine(l) then
      match NextNonBlank(lines, k + 1)
      case Some(j) => Some(Strip(lines[j]))
      case None => None
    else None
  }

  function NameOffers(lines: seq<string>): (r: seq<string>)
    ensures |r| == |lines| && forall k :: 0 <= k < |lines| ==> r[k] == NameOffer(lines, k)
  {
    seq(|lines|, k requires 0 <= k < |lines| => NameOffer(lines, k))
  }

  function PhoneOffers(lines: seq<string>): (r: seq<string>)
    ensures |r| == |lines| && forall k :: 0 <= k < |lines| ==> r[k] == PhoneOffer(lines[k])
  {
    seq(|lines|, k requires 0 <= k < |lines| => PhoneOffer(lines[k]))
  }

  function NoteOffers(lines: seq<string>): (r: seq<Option<string>>)
    ensures |r| == |lines| && forall k :: 0 <= k < |lines| ==> r[k] == NoteOffer(lines, k)
  {
    seq(|lines|, k requires 0 <= k < |lines| => NoteOffer(lines, k))
  }

  /** The address lines: every stripped non-blank address line, in order. */
  function AddressLinesOf(lines: seq<string>): seq<string> {
    if |lines| == 0 then []
    else
      var l := Strip(lines[0]);
      (if l != "" && IsAddressLine(l) then [l] else []) + AddressLinesOf(lines[1..])
  }

  // ---------------------------------------------------------------------------
  // What each field holds
  // ---------------------------------------------------------------------------

  /** The name is the first non-empty value offered by a candidate line: a candidate that
      yields nothing leaves the name empty, so a later candidate gets its turn. */
  lemma {:induction false} NameIsFirstOffered(lines: seq<string>, n: nat)
    requires n <= |lines|
    ensures NameAfter(lines, n) == FirstNonEmpty(NameOffers(lines)[..n])
  {
    if n > 0 {
      NameIsFirstOffered(lines, n - 1);
      var offers := NameOffers(lines)[..n];
      assert offers[..n - 1] == NameOffers(lines)[..n - 1];
      assert offers[n - 1] == NameOffer(lines, n - 1);
      NameStep(lines, n - 1);
    }
  }

  /** One line's effect on the name: while it is empty, the line's offer takes its place
      (a candidate whose value is empty leaves it empty). */
  lemma NameStep(lines: seq<string>, i: nat)
    requires i < |lines|
    ensures NameAfter(lines, i + 1) ==
      if NameAfter(lines, i) == "" then NameOffer(lines, i) else NameAfter(lines, i)
  {
  }

  /** The phone is the number in the first line that offers one. */
  lemma {:induction false} PhoneIsFirstOffered(lines: seq<string>, n: nat)
    requires n <= |lines|
    ensures PhoneAfter(lines, n) == FirstNonEmpty(PhoneOffers(lines)[..n])
  {
    if n > 0 {
      PhoneIsFirstOffered(lines, n - 1);
      var offers := PhoneOffers(lines)[..n];
      assert offers[..n - 1] == PhoneOffers(lines)[..n - 1];
      assert offers[n - 1] == PhoneOffer(lines[n - 1]);
      PhoneStep(lines, n - 1);
    }
  }

  /** One line's effect on the phone: while it is empty, the line's offer takes its place. */
  lemma PhoneStep(lines: seq<string>, i: nat)
    requires i < |lines|
    ensures PhoneAfter(lines, i + 1) ==
      if PhoneAfter(lines, i) == "" then PhoneOffer(lines[i]) else PhoneAfter(lines, i)
  {
    var l := Strip(lines[i]);
    if l != "" && ExtractPhoneNumber(l).Some? {
      PhoneIsLeftmostRun(l);
    }
  }

  /** Every offered phone is empty or eleven ASCII digits. */
  lemma PhoneOfferShape(line: string)
    ensures PhoneOffer(line) == "" || (|PhoneOffer(line)| == PhoneLength && AllDigits(PhoneOffer(line)))
  {
    var l := Strip(line);
    if l != "" && ExtractPhoneNumber(l).Some? {
      PhoneIsLeftmostRun(l);
    }
  }

  /** The note is what the LAST order line with a non-blank line after it offers; a later
      order line overwrites what an earlier one found. */
  lemma {:induction false} NoteIsLastOffered(lines: seq<string>, n: nat)
    requires n <= |lines|
    ensures NoteAfter(lines, n) == LastPresent(NoteOffers(lines)[..n])
  {
    if n > 0 {
      NoteIsLastOffered(lines, n - 1);
      var offers := NoteOffers(lines)[..n];
      assert offers[..n - 1] == NoteOffers(lines)[..n - 1];
      assert offers[n - 1] == NoteOffer(lines, n - 1);
      NoteStep(lines, n - 1);
    }
  }

  /** One line's effect on the note: an order line with a non-blank line after it replaces
      it, any other line leaves it. */
  lemma NoteStep(lines: seq<string>, i: nat)
    requires i < |lines|
    ensures NoteAfter(lines, i + 1) ==
      if NoteOffer(lines, i).Some? then NoteOffer(lines, i) else NoteAfter(lines, i)
  {
  }

  /** A note, when one is offered, is a non-blank stripped line. */
  lemma NoteOfferNonEmpty(lines: seq<string>, k: nat)
    requires k < |lines| && NoteOffer(lines, k).Some?
    ensures NoteOffer(lines, k).value != ""
  {
  }

  /** The address is every stripped non-blank address line, in order, so an order line never
      lands in it. */
  lemma {:induction false} AddressIsFilter(lines: seq<string>, n: nat)
    requires n <= |lines|
    ensures AddressAfter(lines, n) == AddressLinesOf(lines[..n])
    ensures forall x :: x in AddressAfter(lines, n) ==> !IsOrderLine(x)
  {
    if n > 0 {
      AddressIsFilter(lines, n - 1);
      AddressOfSnoc(lines[..n - 1], lines[n - 1]);
      assert lines[..n] == lines[..n - 1] + [lines[n - 1]];
    }
  }

  lemma {:induction false} AddressOfSnoc(lines: seq<string>, line: string)
    ensures AddressLinesOf(lines + [line]) ==
      AddressLinesOf(lines) + (if Strip(line) != "" && IsAddressLine(Strip(line)) then [Strip(line)] else [])
    decreases |lines|
  {
    if |lines| > 0 {
      AddressOfSnoc(lines[1..], line);
      assert (lines + [line])[1..] == lines[1..] + [line];
    }
  }

  /** The returned record, field by field: the name is the first candidate's non-empty
      value, the phone the first number found, the address the address lines joined, the
      note what the last order line offers, the amount the initial empty string when there
      is no note and what `extract_amount` makes of the note otherwise, and delivery is always
      "Home". */
  lemma RecordFields(blockText: string)
    ensures var lines := BlockTextLines(blockText); var r := CustomerRecord(blockText);
      && r.name == FirstNonEmpty(NameOffers(lines))
      && r.phone == FirstNonEmpty(PhoneOffers(lines))
      && r.address == Join(AddressLinesOf(lines))
      && (r.note == "" <==> LastPresent(NoteOffers(lines)).None?)
      && (r.note != "" ==> Some(r.note) == LastPresent(NoteOffers(lines)) && r.amount == ExtractAmount(r.note))
      && (r.note == "" ==> r.amount == Some(""))
      && r.deliveryType == HomeDelivery
  {
    var lines := BlockTextLines(blockText);
    var n := |lines|;
    assert lines[..n] == lines;
    NameIsFirstOffered(lines, n);
    PhoneIsFirstOffered(lines, n);
    AddressIsFilter(lines, n);
    NoteIsLastOffered(lines, n);
    assert NoteOffers(lines)[..n] == NoteOffers(lines);
    assert NameOffers(lines)[..n] == NameOffers(lines);
    assert PhoneOffers(lines)[..n] == PhoneOffers(lines);
    var offers := NoteOffers(lines);
    LastPresentIs(offers);
    if LastPresent(offers).Some? {
      var k :| 0 <= k < |offers| && offers[k] == LastPresent(offers) && NonePresentAfter(offers, k);
      NoteOfferNonEmpty(lines, k);
    }
  }

  /** The phone is empty or eleven ASCII digits, and a found amount is a non-empty run of
      ASCII digits. */
  lemma RecordShape(blockText: string)
    ensures var r := CustomerRecord(blockText);
      && (r.phone == "" || (|r.phone| == PhoneLength && AllDigits(r.phone)))
      && (r.amount.Some? && r.note != "" ==> |r.amount.value| > 0 && AllDigits(r.amount.value))
  {
    var lines := BlockTextLines(blockText);
    RecordFields(blockText);
    var offers := PhoneOffers(lines);
    FirstNonEmptyIs(offers);
    if FirstNonEmpty(offers) != "" {
      var k :| 0 <= k < |offers| && offers[k] == FirstNonEmpty(offers) && AllEmptyBefore(offers, k);
      PhoneOfferShape(lines[k]);
    }
    var r := CustomerRecord(blockText);
    if r.amount.Some? && r.note != "" {
      AmountIsDigitRun(r.note);
    }
  }
}
