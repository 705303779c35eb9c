/** `validate_data`: the list of required fields a record lacks, in a fixed order. */
module Validator {
  import opened Text
  import opened Phone
  import opened Extractor

  /** The four required fields, in the order they are checked. */
  datatype Field = NameField | PhoneField | AddressField | AmountField

  const FieldOrder: seq<Field> := [NameField, PhoneField, AddressField, AmountField]

  /** Position of a field in the check order. */
  function Rank(f: Field): nat {
    match f
    case NameField => 0
    case PhoneField => 1
    case AddressField => 2
    case AmountField => 3
  }

  /** Python falsiness of the value a field holds; the phone is also missing when it is not
      eleven characters long, and the amount is missing when it is `None` or the empty
      string. */
  predicate IsMissing(r: Record, f: Field) {
    match f
    case NameField => r.name == ""
    case PhoneField => r.phone == "" || |r.phone| != PhoneLength
    case AddressField => r.address == ""
    case AmountField => r.amount.None? || r.amount.value == ""
  }

  /** The missing fields among `fields`, in their order. */
  function MissingAmong(r: Record, fields: seq<Field>): seq<Field> {
    if |fields| == 0 then []
    else
      var last := fields[|fields| - 1];
      MissingAmong(r, fields[..|fields| - 1]) + (if IsMissing(r, last) then [last] else [])
  }

  /** The list `validate_data` returns. */
  function Defects(r: Record): seq<Field> {
    MissingAmong(r, FieldOrder)
  }

  /** A record the table keeps: a name, an eleven-character phone, an address and a non-empty
      amount. */
  predicate Accepted(r: Record) {
    && r.name != ""
    && |r.phone| == PhoneLength
    && r.address != ""
    && r.amount.Some? && r.amount.value != ""
  }

  predicate StrictlyRanked(fs: seq<Field>) {
    forall i, j :: 0 <= i < j < |fs| ==> Rank(fs[i]) < Rank(fs[j])
  }

  lemma {:induction false} MissingAmongIs(r: Record, fields: seq<Field>)
    requires StrictlyRanked(fields)
    ensures forall f :: f in MissingAmong(r, fields) <==> f in fields && IsMissing(r, f)
    ensures StrictlyRanked(MissingAmong(r, fields))
    ensures |fields| > 0 ==> forall f :: f in MissingAmong(r, fields) ==> Rank(f) <= Rank(fields[|fields| - 1])
  {
    if |fields| > 0 {
      var n := |fields| - 1;
      var init := fields[..n];
      var last := fields[n];
      assert forall i :: 0 <= i < n ==> init[i] == fields[i];
      assert StrictlyRanked(init);
      MissingAmongIs(r, init);
      var prev := MissingAmong(r, init);
      InitLast(fields);
      assert forall f :: f in fields <==> f in init || f == last;
      if n > 0 {
        assert Rank(init[n - 1]) < Rank(last);
      }
      assert forall f :: f in prev ==> Rank(f) < Rank(last);
      if IsMissing(r, last) {
        RankedSnoc(prev, last);
        assert MissingAmong(r, fields) == prev + [last];
      } else {
        assert MissingAmong(r, fields) == prev;
      }
    }
  }

  lemma RankedSnoc(fs: seq<Field>, f: Field)
    requires StrictlyRanked(fs) && forall g :: g in fs ==> Rank(g) < Rank(f)
    ensures StrictlyRanked(fs + [f])
  {
    var t := fs + [f];
    forall i, j | 0 <= i < j < |t| ensures Rank(t[i]) < Rank(t[j]) {
      if j == |fs| {
        assert t[i] in fs;
      }
    }
  }

  /** The defects are exactly the missing fields, each once, in check order. */
  lemma DefectsAre(r: Record)
    ensures forall f :: f in Defects(r) <==> IsMissing(r, f)
    ensures StrictlyRanked(Defects(r))
    ensures |Defects(r)| <= |FieldOrder|
  {
    assert StrictlyRanked(FieldOrder);
    MissingAmongIs(r, FieldOrder);
    forall f ensures f in FieldOrder {
      assert FieldOrder[Rank(f)] == f;
    }
    RankedBound(Defects(r));
  }

  /** A strictly ranked list of fields has at most four of them. */
  lemma {:induction false} RankedBound(fs: seq<Field>)
    requires StrictlyRanked(fs)
    ensures |fs| <= 4
    ensures |fs| > 0 ==> Rank(fs[|fs| - 1]) >= |fs| - 1
    decreases |fs|
  {
    if |fs| > 1 {
      var init := fs[..|fs| - 1];
      assert StrictlyRanked(init);
      RankedBound(init);
      assert Rank(fs[|fs| - 2]) < Rank(fs[|fs| - 1]);
    }
  }

  /** `validate_data` reports nothing exactly for the records the table keeps. */
  lemma NoDefectsIffAccepted(r: Record)
    ensures Defects(r) == [] <==> Accepted(r)
  {
    DefectsAre(r);
    if Defects(r) != [] {
      assert Defects(r)[0] in Defects(r);
    }
    if !Accepted(r) {
      assert r.name == "" || IsMissing(r, PhoneField) || r.address == "" || IsMissing(r, AmountField);
      if r.name == "" { assert NameField in Defects(r); }
      else if IsMissing(r, PhoneField) { assert PhoneField in Defects(r); }
      else if r.address == "" { assert AddressField in Defects(r); }
      else { assert AmountField in Defects(r); }
    }
  }

  /** An accepted record of an extracted block has a phone of eleven ASCII digits and an
      amount made of ASCII digits. */
  lemma AcceptedRecordShape(blockText: string)
    requires Accepted(CustomerRecord(blockText))
    ensures var r := CustomerRecord(blockText);
      && AllDigits(r.phone) && |r.amount.value| > 0 && AllDigits(r.amount.value)
  {
    RecordShape(blockText);
    RecordFields(blockText);
  }

  method ValidateData(data: Record) returns (missingFields: seq<Field>)
    ensures missingFields == Defects(data)
  {
    missingFields := [];
    if data.name == "" {
      missingFields := missingFields + [NameField];
    }
    assert missingFields == MissingAmong(data, FieldOrder[..1]);
    if data.phone == "" || |data.phone| != PhoneLength {
      missingFields := missingFields + [PhoneField];
    }
    assert FieldOrder[..2][..1] == FieldOrder[..1];
    assert missingFields == MissingAmong(data, FieldOrder[..2]);
    if data.address == "" {
      missingFields := missingFields + [AddressField];
    }
    assert FieldOrder[..3][..2] == FieldOrder[..2];
    assert missingFields == MissingAmong(data, FieldOrder[..3]);
    if data.amount.None? || data.amount.value == "" {
      missingFields := missingFields + [AmountField];
    }
    assert FieldOrder[..3] == FieldOrder[..|FieldOrder| - 1];
  }
}
