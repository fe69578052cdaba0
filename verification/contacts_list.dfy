/** The contacts directory (components/contactos/contacts-list.tsx): a searchable,
    zone-filtered list where only administrators may add or delete. */
module ContactsList {
  import opened Wrappers
  import Json
  import Text
  import ListOps
  import AuthContext

  datatype Contact = Contact(id: string, name: string, email: string, phone: string,
                             role: string, zone: string, status: string)

  /** What the contact dialog hands back on submit. */
  datatype ContactForm = ContactForm(name: string, email: string, phone: string, role: string, zone: string)

  /** The zone selector's "every zone" entry. */
  const AllZones := "Todas"

  function IdOf(c: Contact): string { c.id }

  /** Name and e-mail match the term ignoring case, the phone number matches it as typed;
      the zone is either "Todas" or the contact's own. */
  predicate Shown(c: Contact, term: string, zone: string) {
    && (Text.ContainsIgnoringCase(c.name, term) || Text.ContainsIgnoringCase(c.email, term)
        || Text.Contains(c.phone, term))
    && (zone == AllZones || c.zone == zone)
  }

  function ShownBy(term: string, zone: string): Contact -> bool {
    (c: Contact) => Shown(c, term, zone)
  }

  /** `filteredContacts`: exactly the shown contacts, none added. */
  function FilteredContacts(contacts: seq<Contact>, term: string, zone: string): (r: seq<Contact>)
    ensures forall i :: 0 <= i < |r| ==> r[i] in contacts && Shown(r[i], term, zone)
    ensures forall i :: 0 <= i < |contacts| && Shown(contacts[i], term, zone) ==> contacts[i] in r
  {
    ListOps.Filter(contacts, ShownBy(term, zone))
  }

  /** The filtered list keeps the contacts' order. */
  lemma FilteredInOrder(contacts: seq<Contact>, term: string, zone: string)
    ensures ListOps.IsSubsequence(FilteredContacts(contacts, term, zone), contacts)
  {
    ListOps.FilterIsSubsequence(contacts, ShownBy(term, zone));
  }

  /** With an empty search box and zone "Todas" every contact is listed, in order. */
  lemma EverythingShownAtFirst(contacts: seq<Contact>)
    ensures FilteredContacts(contacts, "", AllZones) == contacts
  {
    forall i | 0 <= i < |contacts| ensures ShownBy("", AllZones)(contacts[i]) {
      Text.EmptyTermMatches(contacts[i].name);
    }
    ListOps.FilterKeepingAll(contacts, ShownBy("", AllZones));
  }

  /** Choosing one zone hides every contact of another zone, whatever the term. */
  lemma ZoneHidesOthers(contacts: seq<Contact>, term: string, zone: string, i: int)
    requires 0 <= i < |contacts| && zone != AllZones && contacts[i].zone != zone
    ensures contacts[i] !in FilteredContacts(contacts, term, zone)
  {
  }

  class ContactsPage {
    var contacts: seq<Contact>
    var searchTerm: string
    var selectedZone: string
    var isDialogOpen: bool
    var deleteDialogOpen: bool
    var selectedContactId: Option<string>

    constructor (initial: seq<Contact>)
      ensures contacts == initial && searchTerm == "" && selectedZone == AllZones
      ensures !isDialogOpen && !deleteDialogOpen && selectedContactId == None
    {
      contacts := initial;
      searchTerm := "";
      selectedZone := AllZones;
      isDialogOpen := false;
      deleteDialogOpen := false;
      selectedContactId := None;
    }

    /** What the page lists. */
    function Visible(): seq<Contact>
      reads this
    {
      FilteredContacts(contacts, searchTerm, selectedZone)
    }

    /** `handleAddContact`: a non-administrator is refused and nothing changes. */
    method HandleAddContact(user: Option<Json.Object>) returns (denied: bool)
      modifies this
      ensures denied <==> !AuthContext.IsAdmin(user)
      ensures denied ==> unchanged(this)
      ensures !denied ==> isDialogOpen && contacts == old(contacts) && deleteDialogOpen == old(deleteDialogOpen)
                          && selectedContactId == old(selectedContactId)
                          && searchTerm == old(searchTerm) && selectedZone == old(selectedZone)
    {
      denied := !AuthContext.IsAdmin(user);
      if !denied {
        isDialogOpen := true;
      }
    }

    /** `handleDeleteClick(id)`: only an administrator selects the contact and opens the
        confirmation. */
    method HandleDeleteClick(user: Option<Json.Object>, id: string) returns (denied: bool)
      modifies this
      ensures denied <==> !AuthContext.IsAdmin(user)
      ensures denied ==> unchanged(this)
      ensures !denied ==> selectedContactId == Some(id) && deleteDialogOpen && contacts == old(contacts)
                          && isDialogOpen == old(isDialogOpen)
                          && searchTerm == old(searchTerm) && selectedZone == old(selectedZone)
    {
      denied := !AuthContext.IsAdmin(user);
      if !denied {
        selectedContactId := Some(id);
        deleteDialogOpen := true;
      }
    }

    /** `confirmDelete`: with a (non-empty) selected id the contacts carrying it are removed
        and the selection is cleared; otherwise nothing happens. */
    method ConfirmDelete()
      modifies this
      ensures old(selectedContactId).None? || old(selectedContactId).value == "" ==> unchanged(this)
      ensures old(selectedContactId).Some? && old(selectedContactId).value != "" ==>
                && contacts == ListOps.RemoveById(old(contacts), IdOf, old(selectedContactId).value)
                && (forall c :: c in contacts ==> c.id != old(selectedContactId).value)
                && (forall c :: c in old(contacts) && c.id != old(selectedContactId).value ==> c in contacts)
                && !deleteDialogOpen && selectedContactId == None
                && isDialogOpen == old(isDialogOpen)
                && searchTerm == old(searchTerm) && selectedZone == old(selectedZone)
    {
      if selectedContactId.Some? && selectedContactId.value != "" {
        contacts := ListOps.RemoveById(contacts, IdOf, selectedContactId.value);
        deleteDialogOpen := false;
        selectedContactId := None;
      }
    }

    /** `handleContactSaved(newContact)`: the form's contact is appended with a fresh id
        and status "active"; the dialog closes. */
    method HandleContactSaved(form: ContactForm, freshId: string)
      modifies this
      ensures contacts == old(contacts) + [Contact(freshId, form.name, form.email, form.phone,
                                                   form.role, form.zone, "active")]
      ensures !isDialogOpen && deleteDialogOpen == old(deleteDialogOpen)
      ensures selectedContactId == old(selectedContactId)
      ensures searchTerm == old(searchTerm) && selectedZone == old(selectedZone)
    {
      contacts := contacts + [Contact(freshId, form.name, form.email, form.phone, form.role, form.zone, "active")];
      isDialogOpen := false;
    }
  }
}
