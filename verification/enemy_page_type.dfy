/** The page-type code column of the bestiary: which suffix an enemy's wiki page name carries. */
module PageTypes {
  import opened Wrappers

  datatype PageType =
    | PageWithFF5EnemyMarker  // "..._(Final_Fantasy_V_enemy)"
    | PageWithFF5BossMarker   // "..._(Final_Fantasy_V_boss)"
    | PageWithFF5Marker       // "..._(Final_Fantasy_V)"
    | PageWithNoMarker        // the bare name
    | SpecialCase             // resolved through the special-case table only
  {
    /** The enum value of the member. */
    function Code(): int {
      match this
      case PageWithFF5EnemyMarker => 0
      case PageWithFF5BossMarker => 1
      case PageWithFF5Marker => 2
      case PageWithNoMarker => 3
      case SpecialCase => 4
    }
  }

  /** The enum member with value `code`, if any. */
  function FromCode(code: int): (r: Option<PageType>)
    ensures r.Some? <==> 0 <= code <= 4
    ensures r.Some? ==> r.value.Code() == code
  {
    if code == 0 then Some(PageWithFF5EnemyMarker)
    else if code == 1 then Some(PageWithFF5BossMarker)
    else if code == 2 then Some(PageWithFF5Marker)
    else if code == 3 then Some(PageWithNoMarker)
    else if code == 4 then Some(SpecialCase)
    else None
  }

  /** Every member is found again from its value. */
  lemma CodeRoundTrip(t: PageType)
    ensures FromCode(t.Code()) == Some(t)
  {
  }

  predicate IsDigit(c: char) {
    '0' <= c <= '9'
  }

  /** The value of a string of decimal digits. */
  function DecimalValue(s: string): nat
    requires forall c | c in s :: IsDigit(c)
    decreases |s|
  {
    if s == [] then 0
    else
      assert IsDigit(s[|s| - 1]) by { assert s[|s| - 1] in s; }
      DecimalValue(s[..|s| - 1]) * 10 + (s[|s| - 1] as int - '0' as int)
  }

  /**
   * The page type named by a bestiary field, or `None` where converting the
   * field to an integer or the integer to a member fails.
   */
  function PageTypeOfField(field: string): (r: Option<PageType>)
    ensures r.Some? <==>
              field != [] && (forall c | c in field :: IsDigit(c)) && DecimalValue(field) <= 4
    ensures r.Some? ==> r.value.Code() == DecimalValue(field)
  {
    if field != [] && forall c | c in field :: IsDigit(c) then FromCode(DecimalValue(field))
    else None
  }

  /** A one-digit field names the member with that value; `"5"` names none. */
  lemma {:induction false} SingleDigitField(c: char)
    requires IsDigit(c)
    ensures PageTypeOfField([c]) == FromCode(c as int - '0' as int)
  {
    assert forall d | d in [c] :: IsDigit(d);
    assert DecimalValue([c]) == c as int - '0' as int by {
      assert [c][..0] == [];
    }
  }

  /** Leading zeros are accepted, as `int()` accepts them: `"03"` names the same member as `"3"`. */
  lemma {:induction false} LeadingZeroField()
    ensures PageTypeOfField("03") == Some(PageWithNoMarker)
  {
    assert forall c | c in "03" :: IsDigit(c);
    assert DecimalValue("03") == 3 by {
      assert "03"[..1] == "0";
      assert "0"[..0] == [];
    }
  }

  /** Writing a member's value as one digit and reading the field back gives the member. */
  lemma FieldRoundTrip(t: PageType)
    ensures PageTypeOfField([('0' as int + t.Code()) as char]) == Some(t)
  {
    SingleDigitField(('0' as int + t.Code()) as char);
    CodeRoundTrip(t);
  }
}
