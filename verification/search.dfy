/** The search box of the list pages: a row is listed when one of its searched fields
    contains the typed term, ignoring case, and rows keep their table order. */
module Search {
  import Text
  import ListOps

  predicate AnyFieldContains(fields: seq<string>, term: string) {
    exists k :: 0 <= k < |fields| && Text.ContainsIgnoringCase(fields[k], term)
  }

  /** The test `filter` applies to each row. */
  function Keep<T>(fields: T -> seq<string>, term: string): T -> bool {
    (x: T) => AnyFieldContains(fields(x), term)
  }

  /** The rows whose searched fields contain the term: every listed row is a row of the
      table with a matching field, and every such row is listed. */
  function Rows<T(==)>(rows: seq<T>, fields: T -> seq<string>, term: string): (r: seq<T>)
    ensures |r| <= |rows|
    ensures forall i :: 0 <= i < |r| ==> r[i] in rows && AnyFieldContains(fields(r[i]), term)
    ensures forall i :: 0 <= i < |rows| && AnyFieldContains(fields(rows[i]), term) ==> rows[i] in r
  {
    ListOps.Filter(rows, Keep(fields, term))
  }

  /** The listed rows keep their table order. */
  lemma RowsKeepOrder<T>(rows: seq<T>, fields: T -> seq<string>, term: string)
    ensures ListOps.IsSubsequence(Rows(rows, fields, term), rows)
  {
    ListOps.FilterIsSubsequence(rows, Keep(fields, term));
  }
}
