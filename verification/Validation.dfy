/** Request validation shared by the wallet operations, and the errors they report. */
module Validation {
  import opened Wrappers
  import opened Text
  import opened Calendar

  datatype Error =
    | NotFound
    | MonthClosed
    | MonthExists
    | BadMonth
    | BadDate
    | NameRequired
    | AmountNegative
    | AmountNotPositive
    | AllocationRequired
    | AllocationNotInMonth
    | CategoryRequired
    | CategoryMissing
    | DefaultCategoryMissing
    | TemplateMissing
    | ChildAmountFrozen
    | ChildNotDeletable
    | ChildNotSplittable
    | OnlySpendsSplit
    | ReconciliationNotSplittable
    | AlreadySplit
    | TooFewRows
    | TooManyRows
    | SumMismatch
    | NameTaken

  function ParseMonth(value: string): (r: Result<string, Error>)
    ensures r.Success? ==> ValidMonthKey(r.value)
  {
    var v := Trim(value);
    if ValidMonthKey(v) then Success(v) else Failure(BadMonth)
  }

  function ParseDate(value: string): (r: Result<string, Error>)
    ensures r.Success? ==> ValidDateKey(r.value)
  {
    var v := Trim(value);
    if ValidDateKey(v) then Success(v) else Failure(BadDate)
  }

  function RequireName(value: string): (r: Result<string, Error>)
    ensures r.Success? ==> r.value != []
  {
    var v := Trim(value);
    if v == [] then Failure(NameRequired) else Success(v)
  }

  /** A missing or blank text is stored as no text at all. */
  function OptionalText(value: Option<string>): (r: Option<string>)
    ensures r.Some? ==> r.value != []
  {
    if value.None? || Trim(value.value) == [] then None else Some(Trim(value.value))
  }

  function ParseOptionalDate(value: Option<string>): Result<Option<string>, Error> {
    match OptionalText(value)
    case None => Success(None)
    case Some(text) =>
      var date :- ParseDate(text);
      Success(Some(date))
  }

  const ALLOCATION_TYPES: set<string> := {"fixed", "flexible", "sinking_fund", "one_off", "subscription"}

  function NormalizeAllocationType(value: string): (r: string)
    ensures r in ALLOCATION_TYPES
  {
    var v := ReplaceChar(ReplaceChar(Lower(Trim(value)), ' ', '_'), '-', '_');
    if v in ALLOCATION_TYPES then v else "flexible"
  }

  predicate PlainTypeName(t: string) {
    t != [] && forall i | 0 <= i < |t| :: 'a' <= t[i] <= 'z' || t[i] == '_'
  }

  lemma TypesArePlain(t: string)
    requires t in ALLOCATION_TYPES
    ensures PlainTypeName(t)
  {
    if t == "fixed" {
    } else if t == "flexible" {
    } else if t == "sinking_fund" {
    } else if t == "one_off" {
    } else {
      assert t == "subscription";
    }
  }

  /** Text that is already lower case, unspaced and without hyphens survives normalisation. */
  lemma PlainNamesAreFixed(t: string)
    requires PlainTypeName(t)
    ensures ReplaceChar(ReplaceChar(Lower(Trim(t)), ' ', '_'), '-', '_') == t
  {
    TrimFacts(t);
    assert Lower(t) == t;
    assert ReplaceChar(t, ' ', '_') == t;
    assert ReplaceChar(t, '-', '_') == t;
  }

  /** Normalising a stored type again leaves it alone. */
  lemma NormalizedTypeIsStable(t: string)
    requires t in ALLOCATION_TYPES
    ensures NormalizeAllocationType(t) == t
  {
    TypesArePlain(t);
    PlainNamesAreFixed(t);
  }

  /** A text that spells a type, up to case and with blanks or hyphens for underscores. */
  predicate Spells(text: string, t: string) {
    |text| == |t| && forall i | 0 <= i < |t| ::
      LowerChar(text[i]) == t[i] || (t[i] == '_' && (text[i] == ' ' || text[i] == '-'))
  }

  /** The type a text spells, and otherwise the flexible one. */
  lemma NormalizedTypeIs(value: string, t: string)
    ensures t in {"fixed", "flexible", "sinking_fund", "one_off", "subscription"} && Spells(Trim(value), t) ==>
      NormalizeAllocationType(value) == t
    ensures (forall u | u in {"fixed", "flexible", "sinking_fund", "one_off", "subscription"} ::
               !Spells(Trim(value), u)) ==> NormalizeAllocationType(value) == "flexible"
  {
    var v := ReplaceChar(ReplaceChar(Lower(Trim(value)), ' ', '_'), '-', '_');
    forall u | u in ALLOCATION_TYPES
      ensures Spells(Trim(value), u) <==> v == u
    {
      TypesArePlain(u);
      SpellsIff(Trim(value), u);
    }
  }

  lemma SpellsIff(text: string, t: string)
    requires PlainTypeName(t)
    ensures Spells(text, t) <==> ReplaceChar(ReplaceChar(Lower(text), ' ', '_'), '-', '_') == t
  {
    var v := ReplaceChar(ReplaceChar(Lower(text), ' ', '_'), '-', '_');
    assert |v| == |text|;
    if |text| == |t| {
      forall i | 0 <= i < |t|
        ensures v[i] == t[i] <==> LowerChar(text[i]) == t[i] || (t[i] == '_' && (text[i] == ' ' || text[i] == '-'))
      {
      }
    }
  }
}
