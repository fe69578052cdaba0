/** The work-zone manager (components/contactos/contacts-zones.tsx): administrators add
    zones through a dialog and delete them after a confirmation. */
module ContactsZones {
  import opened Wrappers
  import Json
  import Text
  import ListOps
  import AuthContext

  datatype Zone = Zone(id: string, name: string, description: string, members: nat, createdAt: string)

  function IdOf(z: Zone): string { z.id }

  /** Every listed zone has a name that is not blank. */
  predicate NamesPresent(zones: seq<Zone>) {
    forall i :: 0 <= i < |zones| ==> !Text.IsBlank(zones[i].name)
  }

  /** The four zones the page starts with. */
  function InitialZones(): (r: seq<Zone>)
    ensures |r| == 4 && NamesPresent(r)
  {
    var zones :=
    [ Zone("1", "Ventas", "Equipo de ventas y atención al cliente", 12, "2023-01-15T10:30:00"),
      Zone("2", "Marketing", "Equipo de marketing y publicidad", 8, "2023-01-20T14:45:00"),
      Zone("3", "Desarrollo", "Equipo de desarrollo de software", 15, "2023-01-10T09:15:00"),
      Zone("4", "Soporte", "Equipo de soporte técnico", 10, "2023-02-05T11:30:00") ];
    assert forall i :: 0 <= i < |zones| ==> !Text.IsSpace(zones[i].name[0]);
    zones
  }

  class ZonesPage {
    var workZones: seq<Zone>
    var isDialogOpen: bool
    var deleteDialogOpen: bool
    var selectedZoneId: Option<string>
    var newZoneName: string
    var newZoneDescription: string

    /** The page's invariant: no zone with a blank name is ever listed. */
    ghost predicate Valid()
      reads this
    {
      NamesPresent(workZones)
    }

    constructor ()
      ensures Valid() && workZones == InitialZones()
      ensures !isDialogOpen && !deleteDialogOpen && selectedZoneId == None
      ensures newZoneName == "" && newZoneDescription == ""
    {
      workZones := InitialZones();
      isDialogOpen := false;
      deleteDialogOpen := false;
      selectedZoneId := None;
      newZoneName := "";
      newZoneDescription := "";
    }

    /** `handleAddZone`: an administrator gets an emptied dialog; anyone else is refused. */
    method HandleAddZone(user: Option<Json.Object>) returns (denied: bool)
      modifies this
      ensures denied <==> !AuthContext.IsAdmin(user)
      ensures denied ==> unchanged(this)
      ensures !denied ==> newZoneName == "" && newZoneDescription == "" && isDialogOpen
                          && workZones == old(workZones) && deleteDialogOpen == old(deleteDialogOpen)
                          && selectedZoneId == old(selectedZoneId)
    {
      denied := !AuthContext.IsAdmin(user);
      if !denied {
        newZoneName := "";
        newZoneDescription := "";
        isDialogOpen := true;
      }
    }

    /** Typing into the dialog's two fields. */
    method EditFields(name: string, description: string)
      modifies this
      ensures newZoneName == name && newZoneDescription == description
      ensures workZones == old(workZones) && isDialogOpen == old(isDialogOpen)
      ensures deleteDialogOpen == old(deleteDialogOpen) && selectedZoneId == old(selectedZoneId)
    {
      newZoneName := name;
      newZoneDescription := description;
    }

    /** `handleDeleteClick(id)`: only an administrator selects a zone for deletion. */
    method HandleDeleteClick(user: Option<Json.Object>, id: string) returns (denied: bool)
      modifies this
      ensures denied <==> !AuthContext.IsAdmin(user)
      ensures denied ==> unchanged(this)
      ensures !denied ==> selectedZoneId == Some(id) && deleteDialogOpen && workZones == old(workZones)
                          && isDialogOpen == old(isDialogOpen)
                          && newZoneName == old(newZoneName) && newZoneDescription == old(newZoneDescription)
    {
      denied := !AuthContext.IsAdmin(user);
      if !denied {
        selectedZoneId := Some(id);
        deleteDialogOpen := true;
      }
    }

    /** `confirmDelete`: removes the zones with the selected (non-empty) id and clears the
        selection; without a selection nothing happens. */
    method ConfirmDelete()
      requires Valid()
      modifies this
      ensures Valid()
      ensures old(selectedZoneId).None? || old(selectedZoneId).value == "" ==> unchanged(this)
      ensures old(selectedZoneId).Some? && old(selectedZoneId).value != "" ==>
                && workZones == ListOps.RemoveById(old(workZones), IdOf, old(selectedZoneId).value)
                && (forall z :: z in workZones ==> z.id != old(selectedZoneId).value)
                && (forall z :: z in old(workZones) && z.id != old(selectedZoneId).value ==> z in workZones)
                && !deleteDialogOpen && selectedZoneId == None && isDialogOpen == old(isDialogOpen)
                && newZoneName == old(newZoneName) && newZoneDescription == old(newZoneDescription)
    {
      if selectedZoneId.Some? && selectedZoneId.value != "" {
        workZones := ListOps.RemoveById(workZones, IdOf, selectedZoneId.value);
        deleteDialogOpen := false;
        selectedZoneId := None;
      }
    }

    /** `handleSaveZone`: a name that is blank once trimmed is refused with nothing changed;
        otherwise one zone is appended with the name exactly as typed (untrimmed), no
        members, a fresh id and the current time, and the dialog closes. */
    method HandleSaveZone(freshId: string, now: string) returns (saved: bool)
      requires Valid()
      modifies this
      ensures Valid()
      ensures saved <==> !Text.IsBlank(old(newZoneName))
      ensures !saved ==> unchanged(this)
      ensures saved ==> && workZones == old(workZones) + [Zone(freshId, old(newZoneName), old(newZoneDescription), 0, now)]
                        && !isDialogOpen && deleteDialogOpen == old(deleteDialogOpen)
                        && selectedZoneId == old(selectedZoneId)
                        && newZoneName == old(newZoneName) && newZoneDescription == old(newZoneDescription)
    {
      if Text.IsBlank(newZoneName) {
        return false;
      }
      workZones := workZones + [Zone(freshId, newZoneName, newZoneDescription, 0, now)];
      isDialogOpen := false;
      saved := true;
    }
  }
}
