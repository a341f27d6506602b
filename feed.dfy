/** web/src/pages/feed.tsx: the id-to-name index, the grouping of the latest records by
    date label and the layout of the timeline. */
module Feed {
  import opened Common
  import opened Models
  import DatasApi
  import DataQuery
  import GoLib

  // ---------------------------------------------------------------------------
  // The id-to-name index (`data.reduce((pv, cv) => ({ ...pv, [cv.id]: cv.name }), {})`).

  /** The index built left to right: a later counter with the same id overrides an earlier one. */
  function NameIndex(counters: seq<CounterView>): (names: map<string, string>)
    ensures names.Keys == set i | 0 <= i < |counters| :: counters[i].id
  {
    if counters == [] then map[]
    else
      var last := counters[|counters| - 1];
      NameIndex(counters[..|counters| - 1])[last.id := last.name]
  }

  /** Each id maps to the name of the last counter that carries it. */
  lemma {:induction false} NameIndexLastWins(counters: seq<CounterView>, j: int)
    requires 0 <= j < |counters|
    requires forall k :: j < k < |counters| ==> counters[k].id != counters[j].id
    ensures NameIndex(counters)[counters[j].id] == counters[j].name
  {
    if j < |counters| - 1 {
      var init := counters[..|counters| - 1];
      assert init[j] == counters[j];
      NameIndexLastWins(init, j);
    }
  }

  /** `counters[item.counterRef] || item.counterRef`: the known, non-empty name, or else the
      raw reference (an empty name is falsy too). */
  function DisplayName(names: map<string, string>, ref: string): (name: string)
    ensures ref in names && names[ref] != "" ==> name == names[ref]
    ensures !(ref in names && names[ref] != "") ==> name == ref
  {
    if ref in names && names[ref] != "" then names[ref] else ref
  }

  // ---------------------------------------------------------------------------
  // Grouping by date label (`setup`, the loop over the fetched records).

  /** A JavaScript object used as a dictionary: its keys in iteration (insertion) order and
      the value under each key. */
  datatype Groups = Groups(keys: seq<string>, entries: map<string, seq<DataView>>)

  predicate WellFormed(g: Groups)
  {
    (forall i, j :: 0 <= i < j < |g.keys| ==> g.keys[i] != g.keys[j]) &&
    (forall k :: k in g.keys ==> k in g.entries) &&
    (forall k :: k in g.entries ==> k in g.keys)
  }

  /** The date label of every record, in order. */
  function Labels(rd: seq<DataView>, dateLabel: string -> string): (ls: seq<string>)
    ensures |ls| == |rd|
  {
    seq(|rd|, i requires 0 <= i < |rd| => dateLabel(rd[i].createdAt))
  }

  /** The elements of `s` in the order of their first occurrence. */
  function Distinct(s: seq<string>): (d: seq<string>)
    ensures forall x :: x in d <==> x in s
    ensures forall i, j :: 0 <= i < j < |d| ==> d[i] != d[j]
    // a further element never reorders the ones already seen: at most it adds itself last
    ensures s != [] ==> Distinct(s[..|s| - 1]) <= d
  {
    if s == [] then []
    else
      var d := Distinct(s[..|s| - 1]);
      if s[|s| - 1] in d then d else d + [s[|s| - 1]]
  }

  /** First-seen order: the distinct elements of any prefix come first, in the same order. */
  lemma {:induction false} DistinctKeepsOrder(s: seq<string>, k: int)
    requires 0 <= k <= |s|
    ensures Distinct(s[..k]) <= Distinct(s)
    decreases |s|
  {
    if k == |s| {
      assert s[..k] == s;
    } else {
      var init := s[..|s| - 1];
      assert init[..k] == s[..k];
      DistinctKeepsOrder(init, k);
    }
  }

  /** The records that carry the label `day`, in their original order. */
  function WithLabel(rd: seq<DataView>, dateLabel: string -> string, day: string): (r: seq<DataView>)
    ensures |r| <= |rd|
    ensures forall x :: x in r ==> x in rd && dateLabel(x.createdAt) == day
  {
    if rd == [] then []
    else
      var last := rd[|rd| - 1];
      WithLabel(rd[..|rd| - 1], dateLabel, day) + (if dateLabel(last.createdAt) == day then [last] else [])
  }

  lemma {:induction false} WithLabelAbsent(rd: seq<DataView>, dateLabel: string -> string, day: string)
    requires day !in Labels(rd, dateLabel)
    ensures WithLabel(rd, dateLabel, day) == []
  {
    if rd != [] {
      var init := rd[..|rd| - 1];
      assert Labels(rd, dateLabel)[|rd| - 1] == dateLabel(rd[|rd| - 1].createdAt);
      assert forall i :: 0 <= i < |init| ==> Labels(init, dateLabel)[i] == Labels(rd, dateLabel)[i];
      WithLabelAbsent(init, dateLabel, day);
    }
  }

  lemma LabelsSnoc(rd: seq<DataView>, i: int, dateLabel: string -> string)
    requires 0 <= i < |rd|
    ensures Labels(rd[..i + 1], dateLabel) == Labels(rd[..i], dateLabel) + [dateLabel(rd[i].createdAt)]
  {
  }

  lemma DistinctSnoc(s: seq<string>, x: string)
    ensures Distinct(s + [x]) == if x in Distinct(s) then Distinct(s) else Distinct(s) + [x]
  {
    assert (s + [x])[..|s|] == s;
  }

  lemma WithLabelSnoc(rd: seq<DataView>, i: int, dateLabel: string -> string, day: string)
    requires 0 <= i < |rd|
    ensures WithLabel(rd[..i + 1], dateLabel, day)
            == WithLabel(rd[..i], dateLabel, day) + (if dateLabel(rd[i].createdAt) == day then [rd[i]] else [])
  {
    assert rd[..i + 1][..i] == rd[..i];
  }

  /** What the grouping loop keeps true after the first `i` records. */
  ghost predicate GroupedUpTo(g: Groups, rd: seq<DataView>, i: int, dateLabel: string -> string)
    requires 0 <= i <= |rd|
  {
    WellFormed(g) &&
    g.keys == Distinct(Labels(rd[..i], dateLabel)) &&
    forall k :: k in g.entries ==> g.entries[k] == WithLabel(rd[..i], dateLabel, k)
  }

  /** The dictionary after one turn of the grouping loop on record `data`. */
  function AddRecord(g: Groups, data: DataView, dateLabel: string -> string): Groups
  {
    var day := dateLabel(data.createdAt);
    var g' := if day in g.entries then g else Groups(g.keys + [day], g.entries[day := []]);
    g'.(entries := g'.entries[day := g'.entries[day] + [data]])
  }

  lemma GroupStepKeys(g: Groups, rd: seq<DataView>, i: int, dateLabel: string -> string)
    requires 0 <= i < |rd| && GroupedUpTo(g, rd, i, dateLabel)
    ensures WellFormed(AddRecord(g, rd[i], dateLabel))
    ensures AddRecord(g, rd[i], dateLabel).keys == Distinct(Labels(rd[..i + 1], dateLabel))
  {
    var day := dateLabel(rd[i].createdAt);
    var before := Labels(rd[..i], dateLabel);
    LabelsSnoc(rd, i, dateLabel);
    DistinctSnoc(before, day);
    var h := AddRecord(g, rd[i], dateLabel);
    assert h.keys == Distinct(before + [day]);
    assert h.entries.Keys == g.entries.Keys + {day};
    if day !in g.entries {
      assert h.keys == g.keys + [day];
    }
    assert forall k :: k in h.keys <==> k in g.keys || k == day;
  }

  lemma GroupStepEntries(g: Groups, rd: seq<DataView>, i: int, dateLabel: string -> string)
    requires 0 <= i < |rd| && GroupedUpTo(g, rd, i, dateLabel)
    ensures var h := AddRecord(g, rd[i], dateLabel);
            forall k :: k in h.entries ==> h.entries[k] == WithLabel(rd[..i + 1], dateLabel, k)
  {
    var day := dateLabel(rd[i].createdAt);
    if day !in g.entries {
      LabelsSnoc(rd, i, dateLabel);
      WithLabelAbsent(rd[..i], dateLabel, day);
    }
    var h := AddRecord(g, rd[i], dateLabel);
    forall k | k in h.entries
      ensures h.entries[k] == WithLabel(rd[..i + 1], dateLabel, k)
    {
      WithLabelSnoc(rd, i, dateLabel, k);
    }
  }

  /** One turn of the grouping loop keeps `GroupedUpTo`. */
  lemma GroupStep(g: Groups, rd: seq<DataView>, i: int, dateLabel: string -> string)
    requires 0 <= i < |rd| && GroupedUpTo(g, rd, i, dateLabel)
    ensures GroupedUpTo(AddRecord(g, rd[i], dateLabel), rd, i + 1, dateLabel)
  {
    GroupStepKeys(g, rd, i, dateLabel);
    GroupStepEntries(g, rd, i, dateLabel);
  }

  /** The grouping loop: each record is pushed onto the list of its date label, which is
      created (and so placed last in key order) the first time that label is seen. */
  method GroupByDate(rd: seq<DataView>, dateLabel: string -> string) returns (newdatas: Groups)
    ensures WellFormed(newdatas)
    ensures newdatas.keys == Distinct(Labels(rd, dateLabel))
    ensures forall k :: k in newdatas.entries ==> newdatas.entries[k] == WithLabel(rd, dateLabel, k)
  {
    newdatas := Groups([], map[]);
    for i := 0 to |rd|
      invariant GroupedUpTo(newdatas, rd, i, dateLabel)
    {
      GroupStep(newdatas, rd, i, dateLabel);
      var data := rd[i];
      var day := dateLabel(data.createdAt);
      if day !in newdatas.entries {
        newdatas := Groups(newdatas.keys + [day], newdatas.entries[day := []]);
      }
      newdatas := newdatas.(entries := newdatas.entries[day := newdatas.entries[day] + [data]]);
    }
    assert rd[..|rd|] == rd;
  }

  // ---------------------------------------------------------------------------
  // Properties of the grouping.

  /** The number of records under each label of `ls`, added up. */
  function GroupSizes(ls: seq<string>, rd: seq<DataView>, dateLabel: string -> string): nat
  {
    if ls == [] then 0 else GroupSizes(ls[..|ls| - 1], rd, dateLabel) + |WithLabel(rd, dateLabel, ls[|ls| - 1])|
  }

  lemma {:induction false} GroupSizesSnoc(ls: seq<string>, rd: seq<DataView>, x: DataView, dateLabel: string -> string)
    requires forall i, j :: 0 <= i < j < |ls| ==> ls[i] != ls[j]
    requires rd != [] && rd[|rd| - 1] == x
    ensures GroupSizes(ls, rd, dateLabel)
            == GroupSizes(ls, rd[..|rd| - 1], dateLabel) + (if dateLabel(x.createdAt) in ls then 1 else 0)
  {
    if ls != [] {
      var init := ls[..|ls| - 1];
      GroupSizesSnoc(init, rd, x, dateLabel);
    }
  }

  /** No record is lost or duplicated: the groups hold as many records as were fetched. */
  lemma {:induction false} GroupingKeepsCount(rd: seq<DataView>, dateLabel: string -> string)
    ensures GroupSizes(Distinct(Labels(rd, dateLabel)), rd, dateLabel) == |rd|
  {
    if rd != [] {
      var init := rd[..|rd| - 1];
      var x := rd[|rd| - 1];
      var l := dateLabel(x.createdAt);
      assert Labels(rd, dateLabel) == Labels(init, dateLabel) + [l];
      assert Labels(rd, dateLabel)[..|rd| - 1] == Labels(init, dateLabel);
      var d := Distinct(Labels(init, dateLabel));
      GroupingKeepsCount(init, dateLabel);
      GroupSizesSnoc(d, rd, x, dateLabel);
      if l !in d {
        WithLabelAbsent(init, dateLabel, l);
        assert d + [l] == Distinct(Labels(rd, dateLabel));
        assert (d + [l])[..|d|] == d;
      }
    }
  }

  /** Every record appears in the group of its own label, and that label is a key of the
      dictionary exactly once. */
  lemma {:induction false} RecordInItsGroup(rd: seq<DataView>, dateLabel: string -> string, i: int)
    requires 0 <= i < |rd|
    ensures rd[i] in WithLabel(rd, dateLabel, dateLabel(rd[i].createdAt))
    ensures dateLabel(rd[i].createdAt) in Distinct(Labels(rd, dateLabel))
  {
    assert Labels(rd, dateLabel)[i] == dateLabel(rd[i].createdAt);
    if i < |rd| - 1 {
      RecordInItsGroup(rd[..|rd| - 1], dateLabel, i);
    }
  }

  // ---------------------------------------------------------------------------
  // The timeline (`getTimelineItem` and `getLabel`).

  /** The arrow before or after a record: ⇡ for a positive number, ⇣ otherwise. */
  datatype Arrow = Up | Down

  /** One rendered record: arrow, time and counter name, arrow first or name first. */
  datatype Line = Line(arrowFirst: bool, arrow: Arrow, time: string, name: string)

  /** One timeline entry: the date label, whether a connector follows the dot, the records. */
  datatype Item = Item(key: string, connector: bool, lines: seq<Line>)

  /** `getLabel(item, lr)`; `timeLabel` stands for `toLocaleTimeString("it")`. */
  function LabelLine(item: DataView, lr: bool, names: map<string, string>, timeLabel: string -> string): (line: Line)
    ensures line.arrowFirst == lr
    ensures line.arrow == Up <==> item.number > 0
    ensures line.time == timeLabel(item.createdAt) && line.name == DisplayName(names, item.counterRef)
  {
    Line(lr, if item.number > 0 then Up else Down, timeLabel(item.createdAt), DisplayName(names, item.counterRef))
  }

  /** `element.map(el => getLabel(el, lr))`. */
  function Lines(element: seq<DataView>, lr: bool, names: map<string, string>, timeLabel: string -> string): (ls: seq<Line>)
    ensures |ls| == |element|
    ensures forall j :: 0 <= j < |ls| ==> ls[j] == LabelLine(element[j], lr, names, timeLabel)
    ensures forall j :: 0 <= j < |ls| ==> ls[j].arrowFirst == lr
  {
    seq(|element|, j requires 0 <= j < |element| => LabelLine(element[j], lr, names, timeLabel))
  }

  /** The loop of `getTimelineItem`: one item per key in key order; the side alternates with
      the running `counter`, and every item but the last gets a connector. */
  method TimelineItems(items: Groups, names: map<string, string>, timeLabel: string -> string)
    returns (timelineitems: seq<Item>)
    requires forall k :: k in items.keys ==> k in items.entries
    ensures |timelineitems| == |items.keys|
    ensures forall c :: 0 <= c < |timelineitems| ==>
              timelineitems[c].key == items.keys[c] &&
              (timelineitems[c].connector <==> c != |timelineitems| - 1) &&
              timelineitems[c].lines == Lines(items.entries[items.keys[c]], c % 2 == 0, names, timeLabel)
  {
    timelineitems := [];
    var itemsLen := |items.keys|;
    var counter := 0;
    for i := 0 to |items.keys|
      invariant counter == i == |timelineitems|
      invariant forall c :: 0 <= c < i ==>
                  timelineitems[c].key == items.keys[c] &&
                  (timelineitems[c].connector <==> c != itemsLen - 1) &&
                  timelineitems[c].lines == Lines(items.entries[items.keys[c]], c % 2 == 0, names, timeLabel)
    {
      var key := items.keys[i];
      var element := items.entries[key];
      timelineitems := timelineitems + [Item(key, counter != itemsLen - 1, Lines(element, counter % 2 == 0, names, timeLabel))];
      counter := counter + 1;
    }
  }

  /** The feed asks for `o=-createdAt&limit=200`: the newest 200 records first. */
  lemma FeedRequestOptions()
    ensures DatasApi.ListOptionsOf(map["o" := "-createdAt", "limit" := "200"])
            == DataQuery.ListOptions(200, "-createdAt")
  {
    var query := map["o" := "-createdAt", "limit" := "200"];
    assert GoLib.Decimal(200) == "200";
    assert "" + "200" + "" == "200";
    DatasApi.LimitDecimal(query, 200, "", "");
    DatasApi.OrderKept(query);
  }
}
