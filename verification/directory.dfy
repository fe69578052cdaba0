/** The hard-coded user directories of the meeting, scan and share forms, and the
    "names joined by comma" text they record for the chosen people. */
module Directory {
  import opened Wrappers
  import Text

  datatype Person = Person(id: string, name: string, email: string, role: string, zone: string)

  /** `users.find((u) => u.id === id)`: the first person with the id. */
  function Find(users: seq<Person>, id: string): (r: Option<Person>)
    ensures r.None? <==> forall k :: 0 <= k < |users| ==> users[k].id != id
    ensures r.Some? ==> r.value.id == id && exists k :: 0 <= k < |users| && users[k] == r.value
                                               && forall j :: 0 <= j < k ==> users[j].id != id
  {
    if users == [] then None
    else if users[0].id == id then Some(users[0])
    else
      var r := Find(users[1..], id);
      if r.Some? then
        ghost var k :| 0 <= k < |users[1..]| && users[1..][k] == r.value
                       && forall j :: 0 <= j < k ==> users[1..][j].id != id;
        assert users[k + 1] == r.value;
        r
      else r
  }

  /** `user ? user.name : id`: a known id shows as the person's name, an unknown one as
      itself. */
  function DisplayName(users: seq<Person>, id: string): (r: string)
    ensures (forall k :: 0 <= k < |users| ==> users[k].id != id) ==> r == id
    ensures forall k :: (0 <= k < |users| && users[k].id == id && forall j :: 0 <= j < k ==> users[j].id != id)
                        ==> r == users[k].name
  {
    var found := Find(users, id);
    if found.Some? then
      ghost var k :| 0 <= k < |users| && users[k] == found.value && forall j :: 0 <= j < k ==> users[j].id != id;
      found.value.name
    else id
  }

  /** The chosen ids mapped to display names, in the order chosen. */
  function DisplayNames(users: seq<Person>, ids: seq<string>): (r: seq<string>)
    ensures |r| == |ids| && forall k :: 0 <= k < |ids| ==> r[k] == DisplayName(users, ids[k])
  {
    seq(|ids|, k requires 0 <= k < |ids| => DisplayName(users, ids[k]))
  }

  /** `ids.map(...).join(", ")`. */
  function JoinedNames(users: seq<Person>, ids: seq<string>): string {
    Text.Join(DisplayNames(users, ids), ", ")
  }

  /** As long as no display name holds a comma, the recorded text splits back at the
      commas into one piece per chosen id, in order: the first name, then each further
      name after the separator's space. */
  lemma JoinedNamesSplitBack(users: seq<Person>, ids: seq<string>)
    requires |ids| >= 1
    requires forall k :: 0 <= k < |ids| ==> ',' !in DisplayName(users, ids[k])
    ensures var pieces := Text.Split(JoinedNames(users, ids), ',');
            && |pieces| == |ids|
            && pieces[0] == DisplayName(users, ids[0])
            && forall k :: 1 <= k < |ids| ==> pieces[k] == " " + DisplayName(users, ids[k])
  {
    var names := DisplayNames(users, ids);
    assert [','] + " " == ", ";
    Text.SplitJoin("", names, ',', " ");
    assert "" + Text.Join(names, ", ") == JoinedNames(users, ids);
  }

  /** The five sample users of the scan and share forms (they carry no zone). */
  function FormUsers(): (users: seq<Person>)
    ensures |users| == 5
    ensures forall k :: 0 <= k < |users| ==> ',' !in users[k].name
  {
    FormNamesWithoutComma();
    [ Person("1", "Juan Pérez", "juan@example.com", "admin", ""),
      Person("2", "María López", "maria@example.com", "user", ""),
      Person("3", "Carlos Rodríguez", "carlos@example.com", "user", ""),
      Person("4", "Ana Martínez", "ana@example.com", "user", ""),
      Person("5", "Pedro Sánchez", "pedro@example.com", "admin", "") ]
  }

  lemma FormNamesWithoutComma()
    ensures ',' !in "Juan Pérez" && ',' !in "María López" && ',' !in "Carlos Rodríguez"
    ensures ',' !in "Ana Martínez" && ',' !in "Pedro Sánchez"
  {
  }

  /** A display name holds a comma only when a user's name or the unknown id itself does. */
  lemma DisplayNameWithoutComma(users: seq<Person>, id: string)
    requires forall k :: 0 <= k < |users| ==> ',' !in users[k].name
    requires ',' !in id
    ensures ',' !in DisplayName(users, id)
  {
    var found := Find(users, id);
    if found.Some? {
      var k :| 0 <= k < |users| && users[k] == found.value && forall j :: 0 <= j < k ==> users[j].id != id;
      assert DisplayName(users, id) == users[k].name;
    }
  }

  /** With the sample users of the scan and share forms, the recipients text splits back
      into one piece per chosen id whenever the ids hold no comma. */
  lemma FormRecipientsSplitBack(ids: seq<string>)
    requires |ids| >= 1
    requires forall k :: 0 <= k < |ids| ==> ',' !in ids[k]
    ensures |Text.Split(JoinedNames(FormUsers(), ids), ',')| == |ids|
  {
    forall k | 0 <= k < |ids| ensures ',' !in DisplayName(FormUsers(), ids[k]) {
      DisplayNameWithoutComma(FormUsers(), ids[k]);
    }
    JoinedNamesSplitBack(FormUsers(), ids);
  }
}
