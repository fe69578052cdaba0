/** The utilities history (components/utilidades/utilities-history.tsx): compressions,
    conversions and scans, searchable, soft-deleted by administrators. */
module UtilitiesHistory {
  import opened Wrappers
  import Json
  import Text
  import ListOps
  import AuthContext

  /** The fields the page's logic reads; the type-specific details (formats, quality,
      recipients, input files) are only displayed. */
  datatype Operation = Operation(id: string, operationType: string, outputFile: string,
                                 createdBy: string, createdAt: string, status: string)

  const Deleted := "deleted"

  /** The three operation kinds the page lists. */
  predicate KnownType(t: string) {
    t == "compression" || t == "conversion" || t == "scan"
  }

  /** The search looks at the output file and the creator ignoring case, and only at
      operations of a known kind. */
  predicate Matches(op: Operation, term: string) {
    && (Text.ContainsIgnoringCase(op.outputFile, term) || Text.ContainsIgnoringCase(op.createdBy, term))
    && KnownType(op.operationType)
  }

  function MatchesTerm(term: string): Operation -> bool {
    (op: Operation) => Matches(op, term)
  }

  /** `filteredHistory`: never lists an operation of another kind, whatever the term. */
  function FilteredHistory(history: seq<Operation>, term: string): (r: seq<Operation>)
    ensures forall i :: 0 <= i < |r| ==> r[i] in history && Matches(r[i], term) && KnownType(r[i].operationType)
    ensures forall i :: 0 <= i < |history| && Matches(history[i], term) ==> history[i] in r
  {
    ListOps.Filter(history, MatchesTerm(term))
  }

  /** An empty search lists exactly the operations of known kind. */
  lemma EmptySearchListsKnownKinds(history: seq<Operation>, i: int)
    requires 0 <= i < |history|
    ensures history[i] in FilteredHistory(history, "") <==> KnownType(history[i].operationType)
  {
    Text.EmptyTermMatches(history[i].outputFile);
  }

  function HasId(id: string): Operation -> bool {
    (op: Operation) => op.id == id
  }

  function MarkDeleted(op: Operation): Operation {
    op.(status := Deleted)
  }

  /** The soft delete of `confirmDelete`: status "deleted" on the records with the id, all
      else untouched. */
  function SoftDelete(history: seq<Operation>, id: string): (r: seq<Operation>)
    ensures |r| == |history|
    ensures forall i :: 0 <= i < |history| && history[i].id == id ==> r[i] == history[i].(status := Deleted)
    ensures forall i :: 0 <= i < |history| && history[i].id != id ==> r[i] == history[i]
  {
    ListOps.UpdateWhere(history, HasId(id), MarkDeleted)
  }

  lemma SoftDeleteIdempotent(history: seq<Operation>, id: string)
    ensures SoftDelete(SoftDelete(history, id), id) == SoftDelete(history, id)
  {
    ListOps.UpdateWhereIdempotent(history, HasId(id), MarkDeleted);
  }

  /** A deleted operation stays in the search results, marked deleted. */
  lemma SearchSurvivesSoftDelete(history: seq<Operation>, id: string, term: string)
    ensures FilteredHistory(SoftDelete(history, id), term) == SoftDelete(FilteredHistory(history, term), id)
  {
    ListOps.FilterUpdateCommute(history, MatchesTerm(term), HasId(id), MarkDeleted);
  }

  /** The row's buttons: download for everyone and delete for administrators, both only
      while the operation is not deleted. */
  predicate DownloadOffered(op: Operation) {
    op.status != Deleted
  }

  predicate DeleteOffered(isAdmin: bool, op: Operation) {
    op.status != Deleted && isAdmin
  }

  /** A deleted operation offers neither button, to anyone. */
  lemma NoActionsAfterDelete(history: seq<Operation>, id: string, isAdmin: bool)
    ensures forall i :: 0 <= i < |history| && history[i].id == id ==>
              var op := SoftDelete(history, id)[i];
              !DownloadOffered(op) && !DeleteOffered(isAdmin, op)
  {
  }

  class UtilitiesPage {
    var utilitiesHistory: seq<Operation>
    var searchTerm: string
    var deleteDialogOpen: bool
    var selectedOperationId: Option<string>

    constructor (initial: seq<Operation>)
      ensures utilitiesHistory == initial && searchTerm == "" && !deleteDialogOpen && selectedOperationId == None
    {
      utilitiesHistory := initial;
      searchTerm := "";
      deleteDialogOpen := false;
      selectedOperationId := None;
    }

    /** `handleDeleteClick(id)`: a non-administrator is refused with nothing changed. */
    method HandleDeleteClick(user: Option<Json.Object>, id: string) returns (denied: bool)
      modifies this
      ensures denied <==> !AuthContext.IsAdmin(user)
      ensures denied ==> unchanged(this)
      ensures !denied ==> selectedOperationId == Some(id) && deleteDialogOpen
                          && utilitiesHistory == old(utilitiesHistory) && searchTerm == old(searchTerm)
    {
      denied := !AuthContext.IsAdmin(user);
      if !denied {
        selectedOperationId := Some(id);
        deleteDialogOpen := true;
      }
    }

    /** `confirmDelete`: marks the selected (non-empty) id deleted and clears the selection;
        without a selection nothing happens. */
    method ConfirmDelete()
      modifies this
      ensures old(selectedOperationId).None? || old(selectedOperationId).value == "" ==> unchanged(this)
      ensures old(selectedOperationId).Some? && old(selectedOperationId).value != "" ==>
                && utilitiesHistory == SoftDelete(old(utilitiesHistory), old(selectedOperationId).value)
                && !deleteDialogOpen && selectedOperationId == None && searchTerm == old(searchTerm)
    {
      if selectedOperationId.Some? && selectedOperationId.value != "" {
        utilitiesHistory := SoftDelete(utilitiesHistory, selectedOperationId.value);
        deleteDialogOpen := false;
        selectedOperationId := None;
      }
    }
  }
}
