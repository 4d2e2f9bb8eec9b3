/** The super-category classifier and the labelling of the transaction
    table with a SUPER_CATEGORY column. */
module Categorize {

  const Credit: string := "Credit"
  const Debit: string := "Debit"

  /** Debit categories counted as needs, then as wants, in the order the
      classifier tests them. */
  const NeedsCategories: seq<string> := ["Bills", "Home & Garden", "Transport", "Health & Beauty", "Groceries"]
  const WantsCategories: seq<string> := ["Eating Out", "Shopping", "Entertainment", "Other", "Transfers", "Uncategorised"]

  datatype SuperCategory = Needs | Wants | Income | Other

  /** The label as it appears in the SUPER_CATEGORY column. */
  function Name(s: SuperCategory): string {
    match s
    case Needs => "Needs"
    case Wants => "Wants"
    case Income => "Income"
    case Other => "Other"
  }

  /** One row of the transaction table as loaded: TRANSACTION_DATE as a day
      ordinal, TRANSACTION_TYPE, CATEGORY and AMOUNT (in minor units). */
  datatype Row = Row(date: int, txType: string, category: string, amount: int)

  /** A row together with its SUPER_CATEGORY column. */
  datatype Record = Record(row: Row, superCategory: SuperCategory)

  /** assign_super_category: Debit rows split into needs and wants by
      category, Credit rows are income, everything else is Other. */
  function Classify(txType: string, category: string): (r: SuperCategory)
    ensures r == Needs <==> txType == Debit && category in NeedsCategories
    ensures r == Wants <==> txType == Debit && category !in NeedsCategories && category in WantsCategories
    ensures r == Income <==> txType == Credit
    ensures r == Other <==>
      (txType == Debit && category !in NeedsCategories && category !in WantsCategories)
      || (txType != Debit && txType != Credit)
  {
    if txType == Debit then
      if category in NeedsCategories then Needs
      else if category in WantsCategories then Wants
      else Other
    else if txType == Credit then Income
    else Other
  }

  /** Every record carries the label the classifier gives its row. */
  predicate IsLabelled(table: seq<Record>) {
    forall i :: 0 <= i < |table| ==>
      table[i].superCategory == Classify(table[i].row.txType, table[i].row.category)
  }

  /** Adds the SUPER_CATEGORY column: one record per row, in the same order,
      with the row unchanged and its label from the classifier. */
  method LabelAll(rows: seq<Row>) returns (table: seq<Record>)
    ensures |table| == |rows|
    ensures forall i :: 0 <= i < |rows| ==> table[i].row == rows[i]
    ensures IsLabelled(table)
  {
    table := [];
    var i := 0;
    while i < |rows|
      invariant 0 <= i <= |rows|
      invariant |table| == i
      invariant forall k :: 0 <= k < i ==> table[k].row == rows[k]
      invariant IsLabelled(table)
    {
      table := table + [Record(rows[i], Classify(rows[i].txType, rows[i].category))];
      i := i + 1;
    }
  }

  /** No category is on both lists, so the order of the two membership
      tests does not change any label. */
  lemma CategoryListsDisjoint(category: string)
    ensures !(category in NeedsCategories && category in WantsCategories)
  {
  }

  /** Distinct labels have distinct names, so filtering on the name of a
      label selects exactly the records with that label. */
  lemma NameInjective(a: SuperCategory, b: SuperCategory)
    ensures Name(a) == Name(b) <==> a == b
  {
  }

  /** Only Debit rows are ever labelled Needs or Wants; only Credit rows Income. */
  lemma LabelImpliesType(table: seq<Record>, i: int)
    requires IsLabelled(table) && 0 <= i < |table|
    ensures table[i].superCategory in {Needs, Wants} ==> table[i].row.txType == Debit
    ensures table[i].superCategory == Income <==> table[i].row.txType == Credit
  {
  }
}
