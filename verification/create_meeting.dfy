/** Scheduling a meeting (components/reuniones/create-meeting.tsx): the participant list
    filtered by work zone, the form schema, the recorded meeting and its link. */
module CreateMeeting {
  import opened Wrappers
  import Text
  import ListOps
  import Directory

  const AllZones := "Todas"
  const CurrentUser := "Usuario Actual"
  const LinkBase := "https://meet.ecosoft.com/"
  const CreateError := "No se pudo crear la reunión. Inténtelo de nuevo."

  function AvailableUsers(): seq<Directory.Person> {
    [ Directory.Person("1", "Juan Pérez", "juan@example.com", "admin", "Ventas"),
      Directory.Person("2", "María López", "maria@example.com", "user", "Marketing"),
      Directory.Person("3", "Carlos Rodríguez", "carlos@example.com", "user", "Ventas"),
      Directory.Person("4", "Ana Martínez", "ana@example.com", "user", "Desarrollo"),
      Directory.Person("5", "Pedro Sánchez", "pedro@example.com", "admin", "Desarrollo"),
      Directory.Person("6", "Laura Gómez", "laura@example.com", "user", "Marketing"),
      Directory.Person("7", "Miguel Torres", "miguel@example.com", "user", "Soporte"),
      Directory.Person("8", "Sofía Ramírez", "sofia@example.com", "user", "Soporte") ]
  }

  function InZone(zone: string): Directory.Person -> bool {
    (u: Directory.Person) => u.zone == zone
  }

  /** `filteredUsers`: everybody for "Todas", otherwise exactly the people of the zone. */
  function FilteredUsers(users: seq<Directory.Person>, zone: string): (r: seq<Directory.Person>)
    ensures zone == AllZones ==> r == users
    ensures zone != AllZones ==> (forall i :: 0 <= i < |r| ==> r[i] in users && r[i].zone == zone)
                                 && (forall i :: 0 <= i < |users| && users[i].zone == zone ==> users[i] in r)
  {
    if zone == AllZones then users else ListOps.Filter(users, InZone(zone))
  }

  /** The zone filter keeps the directory's order. */
  lemma FilteredUsersInOrder(users: seq<Directory.Person>, zone: string)
    ensures ListOps.IsSubsequence(FilteredUsers(users, zone), users)
  {
    if zone == AllZones {
      ListOps.FilterKeepingAll(users, (u: Directory.Person) => true);
      ListOps.FilterIsSubsequence(users, (u: Directory.Person) => true);
    } else {
      ListOps.FilterIsSubsequence(users, InZone(zone));
    }
  }

  datatype FormValues = FormValues(title: string, description: Option<string>, date: string,
                                   time: string, duration: string, participants: seq<string>)

  /** `createMeetingSchema`. */
  predicate SchemaValid(v: FormValues) {
    |v.title| >= 3 && |v.time| >= 1 && |v.duration| >= 1 && |v.participants| >= 1
  }

  function DefaultValues(today: string): FormValues {
    FormValues("", Some(""), today, "10:00", "60", [])
  }

  /** The untouched form is never submitted: it has no title and no participants. */
  lemma DefaultsFailSchema(today: string)
    ensures !SchemaValid(DefaultValues(today))
  {
  }

  /** `Number(s)` on digit text (the empty text is 0); anything else is NaN. */
  function NumberOf(s: string): (r: Option<nat>)
    ensures r.Some? <==> forall i :: 0 <= i < |s| ==> Text.IsDigit(s[i])
  {
    if forall i :: 0 <= i < |s| ==> Text.IsDigit(s[i]) then Some(Text.DigitsValue(s)) else None
  }

  /** `data.time.split(":").map(Number)` destructured into hours and minutes; None when
      either is NaN, which makes the date invalid and the record fail. */
  function ParseTime(time: string): Option<(nat, nat)> {
    var pieces := Text.Split(time, ':');
    if |pieces| < 2 then None
    else
      var h := NumberOf(pieces[0]);
      var m := NumberOf(pieces[1]);
      if h.Some? && m.Some? then Some((h.value, m.value)) else None
  }

  /** Two-digit text, as a time input writes hours and minutes. */
  function Pad2(n: nat): (r: string)
    requires n < 100
    ensures |r| == 2 && Text.IsDigit(r[0]) && Text.IsDigit(r[1])
  {
    [Text.DigitChar(n / 10), Text.DigitChar(n % 10)]
  }

  lemma TwoDigitsValue(n: nat)
    requires n < 100
    ensures Text.DigitsValue(Pad2(n)) == n
  {
    var r := Pad2(n);
    assert Text.DigitValue(r[0]) == n / 10 && Text.DigitValue(r[1]) == n % 10;
    var first := r[..1];
    assert first[..0] == [] && first[0] == r[0];
    assert Text.DigitsValue(first) == n / 10;
    assert r[..|r| - 1] == first;
  }

  /** A time input's "HH:MM" reads back as its hours and minutes. */
  lemma ClockTimeReadsBack(h: nat, m: nat)
    requires h < 24 && m < 60
    ensures ParseTime(Pad2(h) + ":" + Pad2(m)) == Some((h, m))
  {
    var hh, mm := Pad2(h), Pad2(m);
    assert ':' !in hh && ':' !in mm;
    assert hh + ":" + mm == hh + [':'] + mm;
    Text.SplitAfterStem(hh, ':', mm);
    assert Text.Split(hh + ":" + mm, ':') == [hh, mm];
    TwoDigitsValue(h);
    TwoDigitsValue(m);
  }

  /** The form's default time is ten o'clock. */
  lemma DefaultTimeIsTen()
    ensures ParseTime("10:00") == Some((10, 0))
  {
    ClockTimeReadsBack(10, 0);
    assert Pad2(10) + ":" + Pad2(0) == "10:00";
  }

  /** The meeting as it is recorded. */
  datatype MeetingRecord = MeetingRecord(id: string, title: string, description: string,
                                         date: string, hours: nat, minutes: nat, duration: string,
                                         participants: string, createdBy: string, createdAt: string,
                                         status: string)

  /** `https://meet.ecosoft.com/${meetingId}`. */
  function MeetingLink(meetingId: string): (r: string)
    ensures Text.IsPrefix(LinkBase, r)
  {
    LinkBase + meetingId
  }

  /** The id can be read back from the link, as the text after its last '/'. */
  lemma LinkReadsBack(meetingId: string)
    requires '/' !in meetingId
    ensures Text.AfterLast(MeetingLink(meetingId), '/') == meetingId
  {
    assert MeetingLink(meetingId) == "https://meet.ecosoft.com" + ['/'] + meetingId;
    Text.AfterLastOfTail("https://meet.ecosoft.com", '/', meetingId);
  }

  /** The body of `onSubmit`: the recorded meeting, or the failure a NaN time causes. */
  function Record(v: FormValues, meetingId: string, now: string): (r: Result<MeetingRecord, string>)
    ensures ParseTime(v.time).None? <==> r.Err?
    ensures r.Err? ==> r.error == CreateError
    ensures r.Ok? ==> && r.value.id == meetingId && r.value.title == v.title
                      && r.value.description == (if v.description.Some? then v.description.value else "")
                      && (r.value.hours, r.value.minutes) == ParseTime(v.time).value
                      && r.value.duration == v.duration + " minutos"
                      && r.value.participants == Directory.JoinedNames(AvailableUsers(), v.participants)
                      && r.value.createdBy == CurrentUser && r.value.createdAt == now
                      && r.value.status == "scheduled"
  {
    match ParseTime(v.time)
    case None => Err(CreateError)
    case Some(hm) =>
      Ok(MeetingRecord(meetingId, v.title, v.description.GetOr(""), v.date, hm.0, hm.1,
                       v.duration + " minutos", Directory.JoinedNames(AvailableUsers(), v.participants),
                       CurrentUser, now, "scheduled"))
  }

  class MeetingForm {
    var isCreating: bool
    var selectedZone: string
    var values: FormValues
    const defaults: FormValues
    var created: seq<MeetingRecord>

    constructor (today: string)
      ensures !isCreating && selectedZone == AllZones
      ensures defaults == DefaultValues(today) && values == defaults && created == []
    {
      isCreating := false;
      selectedZone := AllZones;
      defaults := DefaultValues(today);
      values := DefaultValues(today);
      created := [];
    }

    /** The users of the chosen zone. The form hands them to the picker as children,
        which the picker never shows (see MultiSelect.WithoutOptionsNothingIsChosen). */
    function ZoneUsers(): seq<Directory.Person>
      reads this
    {
      FilteredUsers(AvailableUsers(), selectedZone)
    }

    /** Submitting: a form that fails the schema is not sent; otherwise the meeting is
        recorded with a fresh id, its link returned and the form reset, or, when the time
        does not parse, the error is returned and the form kept. */
    method Submit(meetingId: string, now: string) returns (outcome: Option<Result<string, string>>)
      modifies this
      ensures selectedZone == old(selectedZone)
      ensures !SchemaValid(old(values)) ==> outcome.None? && unchanged(this)
      ensures SchemaValid(old(values)) ==> outcome.Some? && !isCreating
      ensures SchemaValid(old(values)) && Record(old(values), meetingId, now).Ok? ==>
                && outcome == Some(Ok(MeetingLink(meetingId)))
                && created == old(created) + [Record(old(values), meetingId, now).value]
                && values == defaults
      ensures SchemaValid(old(values)) && Record(old(values), meetingId, now).Err? ==>
                && outcome == Some(Err(CreateError)) && created == old(created) && values == old(values)
    {
      if !SchemaValid(values) {
        return None;
      }
      isCreating := true;
      var r := Record(values, meetingId, now);
      if r.Ok? {
        created := created + [r.value];
        values := defaults;
        outcome := Some(Ok(MeetingLink(meetingId)));
      } else {
        outcome := Some(Err(r.error));
      }
      isCreating := false;
    }
  }
}
