/** The active tournament, kept as text under one key of the settings store,
    and the three ways the pages read and write it: the organizer's setter
    and selector, the overview's setter, and the shared getter. */
module Settings {
  import opened Wrappers
  import opened PyInt

  /** The settings table: key to text value. */
  type Store = map<string, string>

  const ActiveKey: string := "active_tournament_id"

  function GetSetting(store: Store, key: string): Option<string> {
    if key in store then Some(store[key]) else None
  }

  /** `get_active_tournament_id`: no value, "" and "null" mean none; any
      other text is read with `int()`, and text that is not an integer also
      means none. */
  function GetActive(store: Store): (r: Option<int>)
    ensures r.Some? ==> ActiveKey in store && ParseInt(store[ActiveKey]) == r
  {
    var v := GetSetting(store, ActiveKey);
    if v.None? || v.value == "" || v.value == "null" then None
    else ParseInt(v.value)
  }

  /** The "" and "null" guards are subsumed by `int()`: the getter returns
      exactly the `int()` reading of the stored text, none when nothing is
      stored. */
  lemma GetActiveSpec(store: Store)
    ensures GetActive(store) == (if ActiveKey in store then ParseInt(store[ActiveKey]) else None)
  {
    assert Strip("") == "";
    var text := "null";
    assert text[0] == 'n' && text[|text| - 1] == 'l';
    ParseIntRejects(text);
  }

  /** The organizer's `set_active_tournament_id`: "" for none, else `str(tid)`. */
  function SetActive(store: Store, tid: Option<int>): Store {
    store[ActiveKey := if tid.None? then "" else Show(tid.value)]
  }

  lemma ShowIsNotReserved(n: int)
    ensures Show(n) != "" && Show(n) != "null"
  {
    var s := Show(n);
    assert s[0] == '-' || IsDigit(s[0]);
  }

  /** Setting then getting gives back what was set, and no other key changes. */
  lemma SetThenGet(store: Store, tid: Option<int>)
    ensures GetActive(SetActive(store, tid)) == tid
    ensures forall k :: k != ActiveKey ==> GetSetting(SetActive(store, tid), k) == GetSetting(store, k)
  {
    if tid.Some? {
      ShowIsNotReserved(tid.value);
      ParseShow(tid.value);
    }
  }

  /** What the overview's setter is handed: nothing, an integer, or text. */
  datatype TidArg = NoTid | IntTid(n: int) | TextTid(s: string)

  /** The overview's `set_active_tournament_id`: "" for nothing or "",
      otherwise `str(int(tid))`, which raises (None here) on text that is not
      an integer. */
  function SetActiveFromArg(store: Store, arg: TidArg): Option<Store> {
    match arg
    case NoTid => Some(store[ActiveKey := ""])
    case IntTid(n) => Some(store[ActiveKey := Show(n)])
    case TextTid(s) =>
      if s == "" then Some(store[ActiveKey := ""])
      else match ParseInt(s)
        case None => None
        case Some(n) => Some(store[ActiveKey := Show(n)])
  }

  /** The value the overview's setter means: nothing, the integer, or the
      integer the text denotes. */
  function ArgValue(arg: TidArg): Option<int> {
    match arg
    case NoTid => None
    case IntTid(n) => Some(n)
    case TextTid(s) => if s == "" then None else ParseInt(s)
  }

  /** The overview's setter fails exactly on text that is not an integer, and
      otherwise agrees with the organizer's: the getter then returns the value. */
  lemma SetFromArgThenGet(store: Store, arg: TidArg)
    ensures SetActiveFromArg(store, arg).None? <==> arg.TextTid? && arg.s != "" && ParseInt(arg.s).None?
    ensures SetActiveFromArg(store, arg).Some? ==>
              SetActiveFromArg(store, arg).value == SetActive(store, ArgValue(arg)) &&
              GetActive(SetActiveFromArg(store, arg).value) == ArgValue(arg)
  {
    if SetActiveFromArg(store, arg).Some? {
      SetThenGet(store, ArgValue(arg));
    }
  }

  const NoneOption: string := "-- none --"

  /** `_parse_tid`: no selection and "-- none --" mean none; otherwise the
      integer before the first separator, none when it is not one. */
  function ParseTid(sel: Option<string>): Option<int> {
    if sel.None? || sel.value == "" || sel.value == NoneOption then None
    else ParseInt(FirstField(sel.value, LabelSep))
  }

  /** The selector's options: "-- none --", then one label per tournament. */
  function SelectorOptions(ids: seq<int>, names: seq<string>): (r: seq<string>)
    requires |ids| == |names|
    ensures |r| == |ids| + 1 && r[0] == NoneOption
    ensures forall k :: 0 <= k < |ids| ==> r[k + 1] == OptionLabel(ids[k], names[k])
  {
    [NoneOption] + seq(|ids|, k requires 0 <= k < |ids| => OptionLabel(ids[k], names[k]))
  }

  /** Picking an option in the selector: the store is written only when the
      picked tournament differs from the active one. */
  function Select(store: Store, sel: Option<string>): Store {
    var picked := ParseTid(sel);
    if picked != GetActive(store) then SetActive(store, picked) else store
  }

  /** Every tournament label parses back to its id. */
  lemma ParseTidLabel(id: int, name: string)
    ensures ParseTid(Some(OptionLabel(id, name))) == Some(id)
  {
    var lbl := OptionLabel(id, name);
    LabelId(id, name);
    assert lbl[0] == Show(id)[0];
    assert Show(id)[0] == '-' || IsDigit(Show(id)[0]);
    assert lbl != NoneOption;
  }

  /** Option 0 clears the active tournament; option `k + 1` makes `ids[k]` active. */
  lemma SelectOption(store: Store, ids: seq<int>, names: seq<string>, k: nat)
    requires |ids| == |names| && k <= |ids|
    ensures GetActive(Select(store, Some(SelectorOptions(ids, names)[k]))) ==
            (if k == 0 then None else Some(ids[k - 1]))
  {
    var sel := SelectorOptions(ids, names)[k];
    if k > 0 {
      ParseTidLabel(ids[k - 1], names[k - 1]);
    }
    SetThenGet(store, ParseTid(Some(sel)));
  }

  /** One past the position of the first `x` in `ids`, or 0 when `x` is not listed. */
  function FirstIndex(ids: seq<int>, x: int): nat {
    if ids == [] then 0
    else if ids[0] == x then 1
    else
      var r := FirstIndex(ids[1..], x);
      if r == 0 then 0 else r + 1
  }

  lemma {:induction false} FirstIndexSpec(ids: seq<int>, x: int)
    ensures FirstIndex(ids, x) <= |ids|
    ensures FirstIndex(ids, x) == 0 <==> x !in ids
    ensures FirstIndex(ids, x) > 0 ==> ids[FirstIndex(ids, x) - 1] == x
    ensures forall j :: 0 <= j < FirstIndex(ids, x) - 1 ==> ids[j] != x
  {
    if ids != [] && ids[0] != x {
      FirstIndexSpec(ids[1..], x);
      assert ids == [ids[0]] + ids[1..];
      forall j | 0 <= j < FirstIndex(ids, x) - 1
        ensures ids[j] != x
      {
        if j > 0 {
          assert ids[j] == ids[1..][j - 1];
        }
      }
    }
  }

  /** `default_index`: the option of the active tournament when it is listed,
      else "-- none --". */
  function DefaultIndex(ids: seq<int>, cur: Option<int>): nat {
    if cur.None? then 0 else FirstIndex(ids, cur.value)
  }

  /** On load the selector shows the active tournament when it is listed, and
      the page then writes nothing; when the active id names no listed
      tournament the selector shows "-- none --" and the page clears it. */
  lemma SelectDefault(store: Store, ids: seq<int>, names: seq<string>)
    requires |ids| == |names|
    ensures DefaultIndex(ids, GetActive(store)) <= |ids|
    ensures var k := DefaultIndex(ids, GetActive(store));
            GetActive(Select(store, Some(SelectorOptions(ids, names)[k]))) ==
            (if GetActive(store).Some? && GetActive(store).value in ids then GetActive(store) else None)
    ensures GetActive(store).Some? && GetActive(store).value in ids ==>
            Select(store, Some(SelectorOptions(ids, names)[DefaultIndex(ids, GetActive(store))])) == store
  {
    var cur := GetActive(store);
    if cur.Some? {
      FirstIndexSpec(ids, cur.value);
    }
    var k := DefaultIndex(ids, cur);
    SelectOption(store, ids, names, k);
    if k > 0 {
      ParseTidLabel(ids[k - 1], names[k - 1]);
    }
  }
}
