/** A closed month whose envelope rows change all the same. */
module ClosedExamples {
  import opened Wrappers
  import opened Calendar
  import opened Ledger
  import opened MonthRows
  import opened LedgerRuns
  import opened ClosedMonths
  import LedgerOps
  import Text

  const FOOD_CATEGORY := 8

  function FoodEnvelope(m: MonthKey, template: Option<Id>, defaults: seq<Id>): Allocation {
    Allocation(m, template, "Food", 300, "flexible", false, 0, true, defaults, 0)
  }

  function Template(defaults: seq<Id>): AllocationTemplate {
    AllocationTemplate("Food", 300, "flexible", false, true, 0, defaults)
  }

  /** A closed month with one envelope, made from template 7, whose default category is the food category. */
  function ClosedLedger(m: MonthKey): Ledger {
    Ledger(map[m := Month(1000, 1000, Closed, Some(1000))], map[],
           map[2 := FoodEnvelope(m, Some(7), [FOOD_CATEGORY])], map[], map[],
           map[UNSORTED_CATEGORY := Category("Unsorted", None, true), FOOD_CATEGORY := Category("Food", None, true)],
           map[7 := Template([FOOD_CATEGORY])], map[])
  }

  lemma ClosedLedgerIsSound(m: MonthKey)
    requires ValidMonthKey(m)
    ensures Sound(ClosedLedger(m)) && ClosedIn(ClosedLedger(m), m)
  {
    assert Text.Trimmed("Food");
  }

  /** Deleting the template takes the link out of the closed month's envelope. */
  lemma TemplateDeletionChangesClosedMonth(m: MonthKey)
    requires ValidMonthKey(m)
    ensures var s, op := ClosedLedger(m), OpChangeTemplates(map[], map[]);
      && Sound(s) && Ready(s, op) && ClosedIn(s, m) && ClosedIn(Next(s, op), m)
      && 2 in Next(s, op).allocations
      && Next(s, op).allocations[2] == FoodEnvelope(m, None, [FOOD_CATEGORY]) && !SameBooks(s, Next(s, op), m)
  {
    ClosedLedgerIsSound(m);
  }

  /** Deleting the category takes it out of the envelope's defaults. */
  lemma CategoryDeletionChangesClosedMonth(m: MonthKey)
    requires ValidMonthKey(m)
    ensures var s := ClosedLedger(m);
      var op := OpChangeCategories(map[UNSORTED_CATEGORY := s.categories[UNSORTED_CATEGORY]]);
      && Sound(s) && Ready(s, op) && ClosedIn(s, m) && ClosedIn(Next(s, op), m)
      && 2 in Next(s, op).allocations
      && Next(s, op).allocations[2] == FoodEnvelope(m, Some(7), []) && !SameBooks(s, Next(s, op), m)
  {
    var s := ClosedLedger(m);
    ClosedLedgerIsSound(m);
    var alive := {UNSORTED_CATEGORY};
    assert [FOOD_CATEGORY][..0] == [];
    assert LedgerOps.Kept([FOOD_CATEGORY], alive) == [];
    assert map[UNSORTED_CATEGORY := s.categories[UNSORTED_CATEGORY]].Keys == alive;
  }
}
