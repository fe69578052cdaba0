/** The multi-select control (components/ui/multi-select.tsx): the selected values are
    a list handed back to the parent on every change; the popover has an `open` flag. */
module MultiSelect {
  import opened Wrappers
  import ListOps

  datatype SelectOption = SelectOption(value: string, labelText: string, disable: bool)

  /** `handleUnselect(item)`: `value.filter((i) => i !== item)`. */
  function Unselect(value: seq<string>, item: string): (r: seq<string>)
    ensures item !in r
    ensures forall i :: 0 <= i < |value| && value[i] != item ==> value[i] in r
    ensures forall i :: 0 <= i < |r| ==> r[i] in value
  {
    ListOps.RemoveAll(value, item)
  }

  /** What stays after an unselect keeps its order. */
  lemma UnselectKeepsOrder(value: seq<string>, item: string)
    ensures ListOps.IsSubsequence(Unselect(value, item), value)
  {
    ListOps.RemoveAllIsSubsequence(value, item);
  }

  /** The `onSelect` of an option: a selected value is removed, another is appended. */
  function Toggle(value: seq<string>, option: string): (r: seq<string>)
    ensures option in value ==> r == Unselect(value, option)
    ensures option !in value ==> r == value + [option]
    ensures option in r <==> option !in value
  {
    if option in value then Unselect(value, option) else value + [option]
  }

  /** A disabled option's item never fires `onSelect`. */
  function Choose(value: seq<string>, option: SelectOption): (r: seq<string>)
    ensures option.disable ==> r == value
    ensures !option.disable ==> r == Toggle(value, option.value)
  {
    if option.disable then value else Toggle(value, option.value)
  }

  predicate NoDuplicates(value: seq<string>) {
    forall i, j :: 0 <= i < j < |value| ==> value[i] != value[j]
  }

  /** A toggle keeps a duplicate-free selection duplicate-free. */
  lemma ToggleKeepsNoDuplicates(value: seq<string>, option: string)
    requires NoDuplicates(value)
    ensures NoDuplicates(Toggle(value, option))
  {
    if option in value {
      ListOps.RemoveAllKeepsDistinct(value, option);
    } else {
      var r := value + [option];
      forall i, j | 0 <= i < j < |r| ensures r[i] != r[j] {
        if j == |value| {
          assert r[i] == value[i];
        } else {
          assert r[i] == value[i] && r[j] == value[j];
        }
      }
    }
  }

  /** Toggling an unselected option twice restores the selection exactly. */
  lemma ToggleTwiceUnselected(value: seq<string>, option: string)
    requires option !in value
    ensures Toggle(Toggle(value, option), option) == value
  {
    var once := value + [option];
    assert option in once;
    ListOps.RemoveAllAppendAbsent(value, option);
  }

  /** Toggling a selected option twice keeps the same values but moves that option to
      the end. */
  lemma ToggleTwiceSelected(value: seq<string>, option: string)
    requires option in value
    ensures Toggle(Toggle(value, option), option) == Unselect(value, option) + [option]
    ensures forall v :: v in Toggle(Toggle(value, option), option) <==> v in value
  {
    var twice := Toggle(Toggle(value, option), option);
    forall v | v in value ensures v in twice {
      if v != option {
        var i :| 0 <= i < |value| && value[i] == v;
      }
    }
  }

  /** What a user can do with the control: click the k-th item the popover lists, or
      remove a badge. */
  datatype Action = Pick(index: nat) | Remove(item: string)

  /** The items the popover lists, `options?.map(...)`: none when `options` is absent. The
      component takes no children, so nothing else is ever listed. */
  function Listed(options: Option<seq<SelectOption>>): (r: seq<SelectOption>)
    ensures options.None? ==> r == []
    ensures options.Some? ==> r == options.value
  {
    if options.Some? then options.value else []
  }

  /** The value after one action; clicking past the end of the list does nothing, as
      there is no such item. */
  function Apply(options: Option<seq<SelectOption>>, value: seq<string>, a: Action): seq<string> {
    match a
    case Pick(k) => if k < |Listed(options)| then Choose(value, Listed(options)[k]) else value
    case Remove(item) => Unselect(value, item)
  }

  /** The value after a run of actions, each handed back through `onValueChange`. */
  function ApplyAll(options: Option<seq<SelectOption>>, value: seq<string>, actions: seq<Action>): seq<string>
    decreases |actions|
  {
    if actions == [] then value else ApplyAll(options, Apply(options, value, actions[0]), actions[1..])
  }

  /** Without `options`, whatever the user does, the value only loses items: nothing new is
      ever chosen, and a value that starts empty stays empty. */
  lemma {:induction false} WithoutOptionsNothingIsChosen(value: seq<string>, actions: seq<Action>)
    ensures forall v :: v in ApplyAll(None, value, actions) ==> v in value
    ensures value == [] ==> ApplyAll(None, value, actions) == []
    decreases |actions|
  {
    if actions != [] {
      var next := Apply(None, value, actions[0]);
      assert forall v :: v in next ==> v in value;
      WithoutOptionsNothingIsChosen(next, actions[1..]);
    }
  }

  /** The picks of the listed items at `picks`, in turn. */
  function Picks(picks: seq<nat>): (r: seq<Action>)
    ensures |r| == |picks| && forall j :: 0 <= j < |picks| ==> r[j] == Pick(picks[j])
  {
    seq(|picks|, j requires 0 <= j < |picks| => Pick(picks[j]))
  }

  /** The values of the options at `picks`, in turn. */
  function PickedValues(opts: seq<SelectOption>, picks: seq<nat>): (r: seq<string>)
    requires forall j :: 0 <= j < |picks| ==> picks[j] < |opts|
    ensures |r| == |picks| && forall j :: 0 <= j < |picks| ==> r[j] == opts[picks[j]].value
  {
    seq(|picks|, j requires 0 <= j < |picks| && forall j :: 0 <= j < |picks| ==> picks[j] < |opts| => opts[picks[j]].value)
  }

  /** The items at `picks` can be clicked in turn to add their values to `value`: each is
      listed and enabled, their values are distinct and none is chosen yet. */
  predicate Pickable(opts: seq<SelectOption>, value: seq<string>, picks: seq<nat>) {
    && (forall j :: 0 <= j < |picks| ==> picks[j] < |opts| && !opts[picks[j]].disable)
    && (forall i, j :: 0 <= i < j < |picks| ==> opts[picks[i]].value != opts[picks[j]].value)
    && (forall j :: 0 <= j < |picks| ==> opts[picks[j]].value !in value)
  }

  /** With the options passed, clicking enabled items with distinct values, one after the
      other, appends exactly those values in the order clicked. */
  lemma {:induction false} PicksAppendChosenValues(opts: seq<SelectOption>, value: seq<string>, picks: seq<nat>)
    requires Pickable(opts, value, picks)
    ensures ApplyAll(Some(opts), value, Picks(picks)) == value + PickedValues(opts, picks)
    decreases |picks|
  {
    if picks != [] {
      var next := value + [opts[picks[0]].value];
      RestPickable(opts, value, picks);
      FirstPick(opts, value, picks);
      PicksAppendChosenValues(opts, next, picks[1..]);
      AppendFirstValue(opts, value, picks, opts[picks[0]].value);
    }
  }

  /** Clicking the first item appends its value, then the rest are clicked. */
  lemma FirstPick(opts: seq<SelectOption>, value: seq<string>, picks: seq<nat>)
    requires picks != [] && picks[0] < |opts|
    requires !opts[picks[0]].disable && opts[picks[0]].value !in value
    ensures ApplyAll(Some(opts), value, Picks(picks)) ==
              ApplyAll(Some(opts), value + [opts[picks[0]].value], Picks(picks[1..]))
  {
    PicksTail(picks);
    ApplyAllStep(Some(opts), value, Picks(picks));
    PickAppends(opts, value, picks[0]);
  }

  lemma AppendFirstValue(opts: seq<SelectOption>, value: seq<string>, picks: seq<nat>, first: string)
    requires picks != [] && forall j :: 0 <= j < |picks| ==> picks[j] < |opts|
    requires first == opts[picks[0]].value
    ensures (value + [first]) + PickedValues(opts, picks[1..]) == value + PickedValues(opts, picks)
  {
    PickedValuesCons(opts, picks);
    assert (value + [first]) + PickedValues(opts, picks[1..]) == value + ([first] + PickedValues(opts, picks[1..]));
  }

  lemma RestPickable(opts: seq<SelectOption>, value: seq<string>, picks: seq<nat>)
    requires picks != [] && Pickable(opts, value, picks)
    ensures picks[0] < |opts| && !opts[picks[0]].disable && opts[picks[0]].value !in value
    ensures forall j :: 0 <= j < |picks| ==> picks[j] < |opts|
    ensures Pickable(opts, value + [opts[picks[0]].value], picks[1..])
  {
    var rest := picks[1..];
    assert forall j :: 0 <= j < |rest| ==> rest[j] == picks[j + 1];
    forall j | 0 <= j < |rest| ensures opts[rest[j]].value !in value + [opts[picks[0]].value] {
      assert rest[j] == picks[j + 1];
    }
  }

  lemma PickedValuesCons(opts: seq<SelectOption>, picks: seq<nat>)
    requires picks != [] && forall j :: 0 <= j < |picks| ==> picks[j] < |opts|
    ensures PickedValues(opts, picks) == [opts[picks[0]].value] + PickedValues(opts, picks[1..])
  {
    assert forall j :: 0 <= j < |picks[1..]| ==> picks[1..][j] == picks[j + 1];
  }

  lemma ApplyAllStep(options: Option<seq<SelectOption>>, value: seq<string>, actions: seq<Action>)
    requires actions != []
    ensures ApplyAll(options, value, actions) == ApplyAll(options, Apply(options, value, actions[0]), actions[1..])
  {
  }

  lemma PickAppends(opts: seq<SelectOption>, value: seq<string>, k: nat)
    requires k < |opts| && !opts[k].disable && opts[k].value !in value
    ensures Apply(Some(opts), value, Pick(k)) == value + [opts[k].value]
  {
  }

  lemma PicksTail(picks: seq<nat>)
    requires picks != []
    ensures Picks(picks)[0] == Pick(picks[0]) && Picks(picks)[1..] == Picks(picks[1..])
  {
  }

  /** Passing the users as `options`, as the forms evidently intend, any list of distinct
      enabled users can be chosen from an empty value by clicking them in turn. */
  lemma IntendedPicksChooseAnyUsers(opts: seq<SelectOption>, picks: seq<nat>)
    requires forall j :: 0 <= j < |picks| ==> picks[j] < |opts| && !opts[picks[j]].disable
    requires forall i, j :: 0 <= i < j < |picks| ==> opts[picks[i]].value != opts[picks[j]].value
    ensures ApplyAll(Some(opts), [], Picks(picks)) == PickedValues(opts, picks)
    ensures |picks| > 0 ==> ApplyAll(Some(opts), [], Picks(picks)) != []
  {
    PicksAppendChosenValues(opts, [], picks);
    assert [] + PickedValues(opts, picks) == PickedValues(opts, picks);
  }

  /** `<Popover open={open && !disabled}>`. */
  predicate IsOpen(open: bool, disabled: bool) {
    open && !disabled
  }

  /** The trigger's `onClick`: flips `open` unless disabled. */
  function Click(open: bool, disabled: bool): (r: bool)
    ensures disabled ==> r == open
    ensures !disabled ==> r != open
  {
    if disabled then open else !open
  }

  /** However it is clicked, a disabled control's popover is never shown. */
  lemma DisabledNeverOpens(open: bool, clicks: nat)
    ensures !IsOpen(ClickTimes(open, true, clicks), true)
  {
  }

  function ClickTimes(open: bool, disabled: bool, clicks: nat): (r: bool)
    ensures disabled ==> r == open
    ensures !disabled ==> (r == open <==> clicks % 2 == 0)
  {
    if clicks == 0 then open else Click(ClickTimes(open, disabled, clicks - 1), disabled)
  }

  /** `options?.find((o) => o.value === item)`. */
  function FindOption(options: seq<SelectOption>, item: string): (r: Option<SelectOption>)
    ensures r.Some? ==> r.value in options && r.value.value == item
    ensures r.None? <==> forall k :: 0 <= k < |options| ==> options[k].value != item
  {
    if options == [] then None
    else if options[0].value == item then Some(options[0])
    else FindOption(options[1..], item)
  }

  /** A badge shows `option?.label || item`. */
  function BadgeLabel(options: seq<SelectOption>, item: string): (r: string)
    ensures FindOption(options, item).None? ==> r == item
    ensures FindOption(options, item).Some? && FindOption(options, item).value.labelText != "" ==>
              r == FindOption(options, item).value.labelText
    ensures r == item || exists k :: 0 <= k < |options| && options[k].value == item && options[k].labelText == r
  {
    match FindOption(options, item)
    case None => item
    case Some(o) => if o.labelText != "" then o.labelText else item
  }
}
