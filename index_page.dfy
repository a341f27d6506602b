/** web/src/pages/index.tsx: how the counter list, the edit drawer and the stored settings
    change in response to the dialogs, once the server has answered. */
module IndexPage {
  import opened Common
  import opened Models
  import JsLib
  import CountersApi

  // ---------------------------------------------------------------------------
  // Create and delete.

  /** `handleCreateCounter`: `[...c, data]`, the created counter appended. */
  function AfterCreate(counters: seq<CounterView>, created: CounterView): (r: seq<CounterView>)
    ensures |r| == |counters| + 1
    ensures r[..|counters|] == counters && r[|counters|] == created
  {
    counters + [created]
  }

  /** `c.filter((e) => e.id != id)`. */
  function WithoutId(counters: seq<CounterView>, id: string): (r: seq<CounterView>)
    ensures |r| <= |counters|
    ensures forall x :: x in r <==> x in counters && x.id != id
  {
    if counters == [] then []
    else (if counters[0].id != id then [counters[0]] else []) + WithoutId(counters[1..], id)
  }

  /** `handleDeleteCounter`: an empty id does nothing; otherwise the counters with that id
      are dropped. */
  function AfterDelete(counters: seq<CounterView>, id: string): (r: seq<CounterView>)
    ensures id == "" ==> r == counters
    ensures id != "" ==> forall x :: x in r <==> x in counters && x.id != id
  {
    if id == "" then counters else WithoutId(counters, id)
  }

  /** The number of counters that carry `id`. */
  function CountId(counters: seq<CounterView>, id: string): nat
  {
    if counters == [] then 0 else (if counters[0].id == id then 1 else 0) + CountId(counters[1..], id)
  }

  /** Filtering distributes over concatenation, so the kept counters stay in their order. */
  lemma {:induction false} WithoutIdAppend(a: seq<CounterView>, b: seq<CounterView>, id: string)
    ensures WithoutId(a + b, id) == WithoutId(a, id) + WithoutId(b, id)
  {
    if a != [] {
      assert (a + b)[1..] == a[1..] + b;
      WithoutIdAppend(a[1..], b, id);
    } else {
      assert a + b == b;
    }
  }

  /** Exactly the counters with the deleted id are removed. */
  lemma {:induction false} WithoutIdLength(counters: seq<CounterView>, id: string)
    ensures |WithoutId(counters, id)| == |counters| - CountId(counters, id)
  {
    if counters != [] {
      WithoutIdLength(counters[1..], id);
    }
  }

  /** Deleting an id that no counter carries leaves the list as it is. */
  lemma {:induction false} DeleteAbsent(counters: seq<CounterView>, id: string)
    requires forall j :: 0 <= j < |counters| ==> counters[j].id != id
    ensures AfterDelete(counters, id) == counters
  {
    if id != "" && counters != [] {
      DeleteAbsent(counters[1..], id);
    }
  }

  // ---------------------------------------------------------------------------
  // Edit.

  /** `c.findIndex((e) => e.id === id)`: the first position carrying `id`, or -1. */
  function FindIndex(counters: seq<CounterView>, id: string): (k: int)
    ensures -1 <= k < |counters|
    ensures k == -1 <==> forall j :: 0 <= j < |counters| ==> counters[j].id != id
    ensures k >= 0 ==> counters[k].id == id && forall j :: 0 <= j < k ==> counters[j].id != id
  {
    if counters == [] then -1
    else if counters[0].id == id then 0
    else
      var k := FindIndex(counters[1..], id);
      if k == -1 then -1 else k + 1
  }

  /** The list update after a successful rename: a copy of the list in which the counter
      returned by the server replaces the entry at `findIndex`. When the id is missing,
      `findIndex` gives -1, so the last entry is replaced, or, in an empty list, the counter
      is inserted. */
  method ReplaceEdited(counters: seq<CounterView>, id: string, data: CounterView) returns (nc: seq<CounterView>)
    ensures FindIndex(counters, id) >= 0 ==> nc == counters[FindIndex(counters, id) := data]
    ensures FindIndex(counters, id) == -1 && counters != [] ==> nc == counters[|counters| - 1 := data]
    ensures counters == [] ==> nc == [data]
    ensures counters != [] ==> |nc| == |counters|
  {
    nc := counters;
    var k := FindIndex(nc, id);
    if k >= 0 {
      JsLib.SpliceOneAt(nc, k, data);
    } else if nc != [] {
      JsLib.SpliceOneAtMinusOne(nc, data);
    }
    nc := JsLib.Splice(nc, k, 1, data);
  }

  /** What the drawer sends. */
  datatype DrawerValues = DrawerValues(id: string, name: string)

  /** The PATCH request body `{ name }` for counter `id`. */
  datatype Patch = Patch(id: string, name: string)

  /** The edit drawer: whether it is open and which counter it shows. */
  datatype Ui = Ui(drawerOpen: bool, current: Option<CounterView>)

  /** `showEditCounter(id)`: an empty id does nothing; otherwise the drawer opens on the first
      counter with that id (`undefined` when there is none). */
  function ShowEditCounter(ui: Ui, counters: seq<CounterView>, id: string): (r: Ui)
    ensures id == "" ==> r == ui
    ensures id != "" ==> r.drawerOpen
    ensures id != "" && r.current.Some? ==>
              r.current.value.id == id && r.current.value in counters
    ensures id != "" ==> (r.current.None? <==> forall j :: 0 <= j < |counters| ==> counters[j].id != id)
    ensures id != "" && r.current.Some? ==>
              exists k :: 0 <= k < |counters| && r.current.value == counters[k] &&
                          forall j :: 0 <= j < k ==> counters[j].id != id
  {
    if id == "" then ui
    else
      var k := FindIndex(counters, id);
      Ui(true, if k == -1 then None else Some(counters[k]))
  }

  /** The state `handleEditCounter` leaves and the request it sends, if any. */
  datatype EditStep = EditStep(ui: Ui, request: Option<Patch>)

  /** `handleEditCounter(values)`: without a current counter or an id nothing happens;
      otherwise a rename is sent only when the name differs (compared before trimming, sent
      trimmed), and the drawer ends up closed with no current counter. */
  function HandleEditCounter(ui: Ui, values: DrawerValues): (r: EditStep)
    ensures ui.current.None? || values.id == "" ==> r == EditStep(ui, None)
    ensures ui.current.Some? && values.id != "" ==> r.ui == Ui(false, None)
    ensures r.request.Some? <==> ui.current.Some? && values.id != "" && values.name != ui.current.value.name
    ensures r.request.Some? ==> r.request.value == Patch(values.id, JsLib.Trim(values.name))
  {
    if ui.current.None? || values.id == "" then EditStep(ui, None)
    else if values.name != ui.current.value.name then EditStep(Ui(false, None), Some(Patch(values.id, JsLib.Trim(values.name))))
    else EditStep(Ui(false, None), None)
  }

  /** A new name made only of white space differs from the current one, so it is sent, but
      trimmed to the empty string, which the server ignores: the name stays, only the update
      time moves. */
  lemma BlankRenameKeepsName(ui: Ui, values: DrawerValues, c: Counter, now: DateTime,
                             parse: string -> Option<DateTime>)
    requires ui.current.Some? && values.id != "" && values.name != ui.current.value.name
    requires AllIn(values.name, JsLib.JsWhitespace)
    ensures var r := HandleEditCounter(ui, values);
            r.request.Some? && r.request.value.name == "" &&
            CountersApi.Merge(c, map["name" := CountersApi.JString(r.request.value.name)], now, parse)
              == c.(updatedAt := now)
  {
    JsLib.TrimBlank(values.name);
  }

  // ---------------------------------------------------------------------------
  // Settings.

  /** `AvgDisplayType`. */
  datatype AvgDisplay = Numeric | Human

  /** `ISettings`. */
  datatype Settings = Settings(useGlobal: bool, avgDisplay: AvgDisplay)

  /** One write to local storage. */
  datatype SettingWrite = SetUseGlobal(useGlobal: bool) | SetAvgDisplay(avgDisplay: AvgDisplay)

  function Apply(s: Settings, w: SettingWrite): Settings
  {
    match w
    case SetUseGlobal(b) => s.(useGlobal := b)
    case SetAvgDisplay(d) => s.(avgDisplay := d)
  }

  function ApplyAll(s: Settings, ws: seq<SettingWrite>): Settings
    decreases |ws|
  {
    if ws == [] then s else ApplyAll(Apply(s, ws[0]), ws[1..])
  }

  /** The settings dialog's confirm: only the settings whose value changed are written. */
  function ConfirmWrites(stored: Settings, proposed: Settings): (ws: seq<SettingWrite>)
    ensures |ws| <= 2
    ensures ws == [] <==> stored == proposed
    ensures forall i :: 0 <= i < |ws| ==> Apply(stored, ws[i]) != stored
  {
    (if proposed.useGlobal != stored.useGlobal then [SetUseGlobal(proposed.useGlobal)] else [])
    + (if proposed.avgDisplay != stored.avgDisplay then [SetAvgDisplay(proposed.avgDisplay)] else [])
  }

  /** The writes of a confirm turn the stored settings into the confirmed ones. */
  lemma ConfirmReachesProposed(stored: Settings, proposed: Settings)
    ensures ApplyAll(stored, ConfirmWrites(stored, proposed)) == proposed
  {
    var ws := ConfirmWrites(stored, proposed);
    var s1 := if ws == [] then stored else Apply(stored, ws[0]);
    if |ws| == 2 {
      assert ApplyAll(stored, ws) == ApplyAll(s1, ws[1..]);
      assert ApplyAll(s1, ws[1..]) == ApplyAll(Apply(s1, ws[1]), ws[1..][1..]);
      assert ws[1..][1..] == [];
    } else if |ws| == 1 {
      assert ApplyAll(stored, ws) == ApplyAll(s1, ws[1..]);
      assert ws[1..] == [];
    }
  }
}
