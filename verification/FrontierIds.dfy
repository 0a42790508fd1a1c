/** How Frontier ids are written: `fr-` and the position counted from one, padded with zeros to four digits.
    A numeric alias such as `fr-1`, or blanks around the id, name the same Frontier. */
module FrontierIds {
  import opened Prelude

  // ---- decimal numerals ------------------------------------------------------------------

  predicate IsDigit(c: char) {
    '0' <= c <= '9'
  }

  predicate AllDigits(s: string) {
    forall i :: 0 <= i < |s| ==> IsDigit(s[i])
  }

  function Digits(n: nat): (s: string)
    ensures s != [] && AllDigits(s) && ValueOf(s) == n
  {
    if n < 10 then
      assert [DigitOf(n)][..0] == [];
      [DigitOf(n)]
    else
      assert (Digits(n / 10) + [DigitOf(n % 10)])[..|Digits(n / 10)|] == Digits(n / 10);
      Digits(n / 10) + [DigitOf(n % 10)]
  }

  function DigitOf(n: nat): (c: char)
    requires n < 10
    ensures IsDigit(c) && c as int - '0' as int == n
  {
    '0' + n as char
  }

  function ValueOf(s: string): nat
    requires AllDigits(s)
  {
    if s == [] then 0 else 10 * ValueOf(s[..|s| - 1]) + (s[|s| - 1] as int - '0' as int)
  }

  lemma {:induction false} LeadingZero(s: string)
    requires AllDigits(s)
    ensures ValueOf("0" + s) == ValueOf(s)
  {
    var z := "0" + s;
    if s != [] {
      LeadingZero(s[..|s| - 1]);
      assert z[..|z| - 1] == "0" + s[..|s| - 1];
    } else {
      assert z[..0] == [];
    }
  }

  function Padded(s: string): (r: string)
    requires AllDigits(s)
    ensures AllDigits(r) && ValueOf(r) == ValueOf(s) && |r| >= |s|
    decreases 4 - |s|
  {
    if |s| >= 4 then s
    else
      LeadingZero(s);
      Padded("0" + s)
  }

  // ---- ids -------------------------------------------------------------------------------

  function FrontierId(position: nat): string {
    "fr-" + Padded(Digits(position + 1))
  }

  predicate Numeric(s: string) {
    |s| > 3 && s[..3] == "fr-" && AllDigits(s[3..])
  }

  /** The position of a stored id. */
  function Position(count: nat, id: string): Option<nat> {
    if Numeric(id) && 0 < ValueOf(id[3..]) <= count && id == FrontierId(ValueOf(id[3..]) - 1)
    then Some(ValueOf(id[3..]) - 1)
    else None
  }

  /** The Frontier an id leads to: as written, or as a numeric alias. */
  function Canonical(count: nat, raw: string): Option<nat> {
    var id := Strip(raw);
    if Position(count, id).Some? then Position(count, id)
    else if Numeric(id) && 0 < ValueOf(id[3..]) <= count then Some(ValueOf(id[3..]) - 1)
    else None
  }

  lemma IdValue(position: nat)
    ensures Numeric(FrontierId(position)) && ValueOf(FrontierId(position)[3..]) == position + 1
  {
    assert FrontierId(position)[..3] == "fr-" && FrontierId(position)[3..] == Padded(Digits(position + 1));
  }

  /** A stored id is the id of its position and of no other. */
  lemma PositionIsExact(count: nat, id: string, position: nat)
    ensures Position(count, id) == Some(position) <==> position < count && id == FrontierId(position)
  {
    IdValue(position);
    if Position(count, id).Some? {
      IdValue(Position(count, id).value);
    }
  }

  lemma StripNothing(s: string)
    requires s != [] && !IsSpace(s[0]) && !IsSpace(s[|s| - 1])
    ensures Strip(s) == s
  {
  }

  /** Every stored id leads to its own Frontier. */
  lemma StoredLeadsHome(count: nat, position: nat)
    requires position < count
    ensures Canonical(count, FrontierId(position)) == Some(position)
  {
    var id := FrontierId(position);
    IdValue(position);
    assert id[|id| - 1] == id[3..][|id| - 4];
    StripNothing(id);
    PositionIsExact(count, id, position);
  }

  /** Every Frontier also answers to an id that is not the stored one. */
  lemma AliasExists(count: nat, position: nat)
    requires position < count
    ensures exists raw :: Canonical(count, raw) == Some(position) && raw != FrontierId(position)
             && Position(count, raw).None?
  {
    var digits := Padded(Digits(position + 1));
    var raw := "fr-" + ("0" + digits);
    LeadingZero(digits);
    assert raw[..3] == "fr-" && raw[3..] == "0" + digits;
    assert raw[|raw| - 1] == digits[|digits| - 1];
    StripNothing(raw);
    assert |raw| == |FrontierId(position)| + 1;
    assert Canonical(count, raw) == Some(position);
  }
}
