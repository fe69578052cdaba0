/** The sharing history (components/compartir/share-history.tsx): searchable records of
    shared files that administrators mark as deleted rather than remove. */
module ShareHistory {
  import opened Wrappers
  import Json
  import Text
  import ListOps
  import Search
  import AuthContext

  datatype Share = Share(id: string, fileName: string, fileType: string, fileSize: string,
                         sharedBy: string, sharedTo: string, sharedAt: string, expiresAt: string,
                         status: string)

  const Deleted := "deleted"

  /** The search looks at the file name and both people, and never at the status. */
  function Searched(s: Share): seq<string> {
    [s.fileName, s.sharedBy, s.sharedTo]
  }

  predicate Matches(s: Share, term: string) {
    Search.AnyFieldContains(Searched(s), term)
  }

  function MatchesTerm(term: string): Share -> bool {
    Search.Keep(Searched, term)
  }

  /** `filteredHistory`. */
  function FilteredHistory(history: seq<Share>, term: string): (r: seq<Share>)
    ensures forall i :: 0 <= i < |r| ==> r[i] in history && Matches(r[i], term)
    ensures forall i :: 0 <= i < |history| && Matches(history[i], term) ==> history[i] in r
  {
    Search.Rows(history, Searched, term)
  }

  function HasId(id: string): Share -> bool {
    (s: Share) => s.id == id
  }

  function MarkDeleted(s: Share): Share {
    s.(status := Deleted)
  }

  /** The soft delete of `confirmDelete`: the records with the id get status "deleted",
      every other field and every other record stay as they were. */
  function SoftDelete(history: seq<Share>, id: string): (r: seq<Share>)
    ensures |r| == |history|
    ensures forall i :: 0 <= i < |history| && history[i].id == id ==> r[i] == history[i].(status := Deleted)
    ensures forall i :: 0 <= i < |history| && history[i].id != id ==> r[i] == history[i]
  {
    ListOps.UpdateWhere(history, HasId(id), MarkDeleted)
  }

  /** Deleting the same record twice is the same as deleting it once. */
  lemma SoftDeleteIdempotent(history: seq<Share>, id: string)
    ensures SoftDelete(SoftDelete(history, id), id) == SoftDelete(history, id)
  {
    ListOps.UpdateWhereIdempotent(history, HasId(id), MarkDeleted);
  }

  /** A deleted record still turns up in searches, now marked deleted: searching after the
      delete equals deleting within the earlier search result. */
  lemma SearchSurvivesSoftDelete(history: seq<Share>, id: string, term: string)
    ensures FilteredHistory(SoftDelete(history, id), term) == SoftDelete(FilteredHistory(history, term), id)
  {
    forall s: Share ensures MatchesTerm(term)(MarkDeleted(s)) == MatchesTerm(term)(s) {
      assert Searched(MarkDeleted(s)) == Searched(s);
    }
    ListOps.FilterUpdateCommute(history, MatchesTerm(term), HasId(id), MarkDeleted);
  }

  /** The delete button: only in the administrators' action column, and never on a record
      already deleted. */
  predicate DeleteOffered(isAdmin: bool, s: Share) {
    isAdmin && s.status != Deleted
  }

  /** After a delete the record offers no delete button to anyone. */
  lemma NoDeleteAfterDelete(history: seq<Share>, id: string, isAdmin: bool)
    ensures forall i :: 0 <= i < |history| && history[i].id == id ==> !DeleteOffered(isAdmin, SoftDelete(history, id)[i])
  {
  }

  class SharePage {
    var shareHistory: seq<Share>
    var searchTerm: string
    var deleteDialogOpen: bool
    var selectedShareId: Option<string>

    constructor (initial: seq<Share>)
      ensures shareHistory == initial && searchTerm == "" && !deleteDialogOpen && selectedShareId == None
    {
      shareHistory := initial;
      searchTerm := "";
      deleteDialogOpen := false;
      selectedShareId := None;
    }

    /** `handleDeleteClick(id)`: a non-administrator is refused and nothing is selected. */
    method HandleDeleteClick(user: Option<Json.Object>, id: string) returns (denied: bool)
      modifies this
      ensures denied <==> !AuthContext.IsAdmin(user)
      ensures denied ==> unchanged(this)
      ensures !denied ==> selectedShareId == Some(id) && deleteDialogOpen
                          && shareHistory == old(shareHistory) && searchTerm == old(searchTerm)
    {
      denied := !AuthContext.IsAdmin(user);
      if !denied {
        selectedShareId := Some(id);
        deleteDialogOpen := true;
      }
    }

    /** `confirmDelete`: marks the selected (non-empty) id deleted and clears the selection;
        without a selection nothing happens. */
    method ConfirmDelete()
      modifies this
      ensures old(selectedShareId).None? || old(selectedShareId).value == "" ==> unchanged(this)
      ensures old(selectedShareId).Some? && old(selectedShareId).value != "" ==>
                && shareHistory == SoftDelete(old(shareHistory), old(selectedShareId).value)
                && !deleteDialogOpen && selectedShareId == None && searchTerm == old(searchTerm)
    {
      if selectedShareId.Some? && selectedShareId.value != "" {
        shareHistory := SoftDelete(shareHistory, selectedShareId.value);
        deleteDialogOpen := false;
        selectedShareId := None;
      }
    }
  }
}
