/** The meetings history (components/reuniones/meetings-history.tsx): searchable past and
    scheduled meetings that administrators delete outright. */
module MeetingsHistory {
  import opened Wrappers
  import Json
  import Text
  import ListOps
  import Search
  import AuthContext

  datatype Meeting = Meeting(id: string, title: string, scheduledFor: string, duration: string,
                             participants: string, createdBy: string, createdAt: string, status: string)

  function IdOf(m: Meeting): string { m.id }

  /** The search looks at the title, the participants and the creator. */
  function Searched(m: Meeting): seq<string> {
    [m.title, m.participants, m.createdBy]
  }

  predicate Matches(m: Meeting, term: string) {
    Search.AnyFieldContains(Searched(m), term)
  }

  function MatchesTerm(term: string): Meeting -> bool {
    Search.Keep(Searched, term)
  }

  /** `filteredHistory`. */
  function FilteredHistory(history: seq<Meeting>, term: string): (r: seq<Meeting>)
    ensures forall i :: 0 <= i < |r| ==> r[i] in history && Matches(r[i], term)
    ensures forall i :: 0 <= i < |history| && Matches(history[i], term) ==> history[i] in r
  {
    Search.Rows(history, Searched, term)
  }

  /** The hard delete of `confirmDelete`. */
  function Remove(history: seq<Meeting>, id: string): (r: seq<Meeting>)
    ensures forall i :: 0 <= i < |r| ==> r[i] in history && r[i].id != id
    ensures forall i :: 0 <= i < |history| && history[i].id != id ==> history[i] in r
  {
    ListOps.RemoveById(history, IdOf, id)
  }

  /** The remaining meetings keep their order. */
  lemma RemoveKeepsOrder(history: seq<Meeting>, id: string)
    ensures ListOps.IsSubsequence(Remove(history, id), history)
  {
    ListOps.RemoveByIdOrder(history, IdOf, id);
  }

  /** Searching after a delete is deleting from the earlier search result: a delete hides
      exactly the deleted meeting from every search. */
  lemma SearchAfterRemove(history: seq<Meeting>, id: string, term: string)
    ensures FilteredHistory(Remove(history, id), term) == Remove(FilteredHistory(history, term), id)
  {
    ListOps.FilterCommute(history, ListOps.OtherId(IdOf, id), MatchesTerm(term));
  }

  class MeetingsPage {
    var meetingsHistory: seq<Meeting>
    var searchTerm: string
    var deleteDialogOpen: bool
    var selectedMeetingId: Option<string>

    constructor (initial: seq<Meeting>)
      ensures meetingsHistory == initial && searchTerm == "" && !deleteDialogOpen && selectedMeetingId == None
    {
      meetingsHistory := initial;
      searchTerm := "";
      deleteDialogOpen := false;
      selectedMeetingId := None;
    }

    /** `handleDeleteClick(id)`: a non-administrator is refused with nothing changed. */
    method HandleDeleteClick(user: Option<Json.Object>, id: string) returns (denied: bool)
      modifies this
      ensures denied <==> !AuthContext.IsAdmin(user)
      ensures denied ==> unchanged(this)
      ensures !denied ==> selectedMeetingId == Some(id) && deleteDialogOpen
                          && meetingsHistory == old(meetingsHistory) && searchTerm == old(searchTerm)
    {
      denied := !AuthContext.IsAdmin(user);
      if !denied {
        selectedMeetingId := Some(id);
        deleteDialogOpen := true;
      }
    }

    /** `confirmDelete`: removes the meetings with the selected (non-empty) id and clears the
        selection; without a selection nothing happens. */
    method ConfirmDelete()
      modifies this
      ensures old(selectedMeetingId).None? || old(selectedMeetingId).value == "" ==> unchanged(this)
      ensures old(selectedMeetingId).Some? && old(selectedMeetingId).value != "" ==>
                && meetingsHistory == Remove(old(meetingsHistory), old(selectedMeetingId).value)
                && !deleteDialogOpen && selectedMeetingId == None && searchTerm == old(searchTerm)
    {
      if selectedMeetingId.Some? && selectedMeetingId.value != "" {
        meetingsHistory := Remove(meetingsHistory, selectedMeetingId.value);
        deleteDialogOpen := false;
        selectedMeetingId := None;
      }
    }
  }
}
