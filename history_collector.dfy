/** The history item collector: called once per log entry, it appends a row
    to the dates tree and a parent item to the actions tree whenever the
    entry's date differs from the last one seen, and appends the entry's
    action row under the most recently opened parent item.

    The pure part (`Step`, `Collected`) specifies the collector; the classes
    at the end are the two trees and the collector object that updates them
    in place. */
module HistoryCollector {
  import opened HistoryActions

  /** A top-level item of the actions tree: a date header and its action rows. */
  datatype Group = Group(header: string, rows: seq<Row>)

  /** What the collector sees and keeps: the dates tree's items, the actions
      tree's groups, the last date seen and the index of the current parent
      group (`None` while no group has been opened). */
  datatype CollectorState = CollectorState(
    dates: seq<string>, groups: seq<Group>, lastDate: string, parent: Option<nat>)

  function Headers(groups: seq<Group>): (hs: seq<string>)
  {
    seq(|groups|, i requires 0 <= i < |groups| => groups[i].header)
  }

  /** The two trees stay in lockstep: one date row per group, same text, same order. */
  predicate Lockstep(dates: seq<string>, groups: seq<Group>)
  {
    dates == Headers(groups)
  }

  /** The collector's invariant. */
  predicate Consistent(s: CollectorState)
  {
    Lockstep(s.dates, s.groups) &&
    match s.parent
    case None => s.lastDate == ""
    case Some(p) => p + 1 == |s.groups| && s.groups[p].header == s.lastDate
  }

  /** The state of a collector freshly built over two trees. */
  function Start(dates: seq<string>, groups: seq<Group>): CollectorState
  {
    CollectorState(dates, groups, "", None)
  }

  /** An entry can be collected unless it would add a row while no parent
      group has been opened (the parent pointer is still unset then). */
  predicate Ready(s: CollectorState, e: Entry)
  {
    s.parent.Some? || e.date != s.lastDate || ActionRow(e.action).None?
  }

  function AppendRow(groups: seq<Group>, p: nat, row: Row): seq<Group>
    requires p < |groups|
  {
    groups[p := groups[p].(rows := groups[p].rows + [row])]
  }

  function Last<T>(s: seq<T>): T
    requires s != []
  {
    s[|s| - 1]
  }

  /** The rows of all groups, in tree order. */
  function Flatten(groups: seq<Group>): seq<Row>
  {
    if groups == [] then [] else groups[0].rows + Flatten(groups[1..])
  }

  /** The rows an entry contributes: none for an unrecognised kind, else one. */
  function RowOf(e: Entry): seq<Row>
  {
    match ActionRow(e.action)
    case None => []
    case Some(r) => [r]
  }

  /** The rows a sequence of entries contributes, in log order. */
  function RowsOf(es: seq<Entry>): seq<Row>
  {
    if es == [] then [] else RowOf(es[0]) + RowsOf(es[1..])
  }

  lemma HeadersSnoc(groups: seq<Group>, g: Group)
    ensures Headers(groups + [g]) == Headers(groups) + [g.header]
  {
  }

  lemma HeadersAppendRow(groups: seq<Group>, p: nat, row: Row)
    requires p < |groups|
    ensures Headers(AppendRow(groups, p, row)) == Headers(groups)
  {
  }

  lemma {:induction false} FlattenSnoc(groups: seq<Group>, g: Group)
    ensures Flatten(groups + [g]) == Flatten(groups) + g.rows
  {
    if groups == [] {
      assert [g][1..] == [];
    } else {
      assert (groups + [g])[1..] == groups[1..] + [g];
      FlattenSnoc(groups[1..], g);
    }
  }

  lemma FlattenAppendRow(groups: seq<Group>, p: nat, row: Row)
    requires p + 1 == |groups|
    ensures Flatten(AppendRow(groups, p, row)) == Flatten(groups) + [row]
  {
    var init := groups[..p];
    assert groups == init + [groups[p]];
    assert AppendRow(groups, p, row) == init + [groups[p].(rows := groups[p].rows + [row])];
    FlattenSnoc(init, groups[p]);
    FlattenSnoc(init, groups[p].(rows := groups[p].rows + [row]));
  }

  lemma {:induction false} RowsOfSnoc(es: seq<Entry>, e: Entry)
    ensures RowsOf(es + [e]) == RowsOf(es) + RowOf(e)
  {
    if es == [] {
      assert [e][1..] == [];
    } else {
      assert (es + [e])[1..] == es[1..] + [e];
      RowsOfSnoc(es[1..], e);
    }
  }

  /** One call of the collector on one entry: open a new date row and group
      when the date changed, then add the entry's row under the current group. */
  function Step(s: CollectorState, e: Entry): (r: CollectorState)
    requires Consistent(s) && Ready(s, e)
    ensures Consistent(r)
    ensures r.lastDate == e.date
    ensures s.parent.Some? ==> r.parent.Some?
  {
    HeadersSnoc(s.groups, Group(e.date, []));
    var afterOpen :=
      if e.date != s.lastDate
      then CollectorState(s.dates + [e.date], s.groups + [Group(e.date, [])], e.date, Some(|s.groups|))
      else s;
    var columns := Columns(e.action);
    if columns == [] then afterOpen
    else
      var p := afterOpen.parent.value;
      var row := Row(columns, ActionIcon(KindOf(e.action)));
      HeadersAppendRow(afterOpen.groups, p, row);
      afterOpen.(groups := AppendRow(afterOpen.groups, p, row))
  }

  /** A new date row and a new group are appended together exactly when the
      entry's date differs from the last one seen; otherwise the dates tree
      and the number of groups stay as they were. */
  lemma StepDates(s: CollectorState, e: Entry)
    requires Consistent(s) && Ready(s, e)
    ensures var r := Step(s, e);
            (e.date != s.lastDate ==> r.dates == s.dates + [e.date] && |r.groups| == |s.groups| + 1) &&
            (e.date == s.lastDate ==> r.dates == s.dates && |r.groups| == |s.groups|)
  {
  }

  /** One step adds exactly the entry's own row (or none) after all rows
      collected so far, in tree order. */
  lemma StepRows(s: CollectorState, e: Entry)
    requires Consistent(s) && Ready(s, e)
    ensures Flatten(Step(s, e).groups) == Flatten(s.groups) + RowOf(e)
  {
    var afterOpen :=
      if e.date != s.lastDate
      then CollectorState(s.dates + [e.date], s.groups + [Group(e.date, [])], e.date, Some(|s.groups|))
      else s;
    FlattenSnoc(s.groups, Group(e.date, []));
    assert Flatten(afterOpen.groups) == Flatten(s.groups);
    if ActionRow(e.action).Some? {
      FlattenAppendRow(afterOpen.groups, afterOpen.parent.value, ActionRow(e.action).value);
    }
  }

  /** The entry adds a row only when its kind is recognised, and then at the
      end of the last group, which is headed by the entry's own date; every
      other group is left as it was, and the dates tree gains the entry's
      date exactly when the date is new. */
  lemma StepAppendsToLastGroup(s: CollectorState, e: Entry)
    requires Consistent(s) && Ready(s, e)
    requires ActionRow(e.action).Some?
    ensures var r := Step(s, e);
            r.groups != [] && Last(r.groups).header == e.date &&
            Last(r.groups).rows ==
              (if e.date != s.lastDate then [] else Last(s.groups).rows) + [ActionRow(e.action).value] &&
            r.groups[..|r.groups| - 1] == (if e.date != s.lastDate then s.groups else s.groups[..|s.groups| - 1]) &&
            r.dates == s.dates + (if e.date != s.lastDate then [e.date] else [])
  {
  }

  /** An entry with a new date opens a date row and a group holding just
      its own row (or none). */
  lemma StepNewDate(s: CollectorState, e: Entry)
    requires Consistent(s) && e.date != s.lastDate
    ensures Step(s, e) ==
            CollectorState(s.dates + [e.date], s.groups + [Group(e.date, RowOf(e))], e.date, Some(|s.groups|))
  {
    var gs := s.groups + [Group(e.date, [])];
    if ActionRow(e.action).Some? {
      var row := ActionRow(e.action).value;
      assert [] + [row] == RowOf(e);
      assert AppendRow(gs, |s.groups|, row) == s.groups + [Group(e.date, RowOf(e))];
    }
  }

  /** An entry with the same date as the previous one only adds its row (if
      any) at the end of the current group. */
  lemma StepSameDate(s: CollectorState, e: Entry)
    requires Consistent(s) && Ready(s, e) && e.date == s.lastDate
    ensures Step(s, e).dates == s.dates && Step(s, e).lastDate == s.lastDate
    ensures s.parent.Some? ==>
              var p := s.parent.value;
              Step(s, e).groups == s.groups[p := Group(s.lastDate, s.groups[p].rows + RowOf(e))]
    ensures s.parent.None? ==> Step(s, e) == s
  {
    if s.parent.Some? && ActionRow(e.action).Some? {
      var p := s.parent.value;
      var row := ActionRow(e.action).value;
      assert s.groups[p].rows + RowOf(e) == s.groups[p].rows + [row];
      assert AppendRow(s.groups, p, row) == s.groups[p := Group(s.lastDate, s.groups[p].rows + RowOf(e))];
    } else if s.parent.Some? {
      var p := s.parent.value;
      assert s.groups[p].rows + RowOf(e) == s.groups[p].rows;
      assert s.groups[p := Group(s.lastDate, s.groups[p].rows + RowOf(e))] == s.groups;
    }
  }

  /** An entry of an unrecognised kind adds no row; if its date is new it
      still opens a date row and an empty group. */
  lemma StepOtherKind(s: CollectorState, e: Entry)
    requires Consistent(s) && Ready(s, e)
    requires e.action.OtherAction?
    ensures var r := Step(s, e);
            if e.date != s.lastDate
            then r.groups == s.groups + [Group(e.date, [])] && r.dates == s.dates + [e.date]
            else r.groups == s.groups && r.dates == s.dates
  {
  }

  function DatesOf(es: seq<Entry>): seq<string>
  {
    seq(|es|, i requires 0 <= i < |es| => es[i].date)
  }

  predicate AllBlank(es: seq<Entry>)
  {
    forall j | 0 <= j < |es| :: es[j].date == ""
  }

  /** No entry that adds a row comes before the first entry with a non-empty
      date: such a row would have no parent group. */
  predicate NoOrphanRow(es: seq<Entry>)
  {
    forall i | 0 <= i < |es| && ActionRow(es[i].action).Some? ::
      exists j :: 0 <= j <= i && es[j].date != ""
  }

  predicate CanCollect(s: CollectorState, es: seq<Entry>)
  {
    s.parent.Some? || NoOrphanRow(es)
  }

  lemma NoOrphanRowPrefix(es: seq<Entry>, n: nat)
    requires n <= |es| && NoOrphanRow(es)
    ensures NoOrphanRow(es[..n])
  {
    forall i | 0 <= i < n && ActionRow(es[..n][i].action).Some?
      ensures exists j :: 0 <= j <= i && es[..n][j].date != ""
    {
      var j :| 0 <= j <= i && es[j].date != "";
      assert es[..n][j].date != "";
    }
  }

  lemma CanCollectPrefix(s: CollectorState, es: seq<Entry>, n: nat)
    requires n <= |es| && CanCollect(s, es)
    ensures CanCollect(s, es[..n])
  {
    if s.parent.None? {
      NoOrphanRowPrefix(es, n);
    }
  }

  lemma AllBlankSnoc(es: seq<Entry>)
    requires es != []
    ensures AllBlank(es[..|es| - 1]) && Last(es).date == "" ==> AllBlank(es)
  {
    if AllBlank(es[..|es| - 1]) {
      forall j | 0 <= j < |es| - 1
        ensures es[j].date == ""
      {
        assert es[..|es| - 1][j] == es[j];
      }
    }
  }

  lemma ReadyNext(s: CollectorState, es: seq<Entry>, prev: CollectorState)
    requires es != [] && CanCollect(s, es) && Consistent(prev)
    requires prev.parent.None? ==> s.parent.None? && AllBlank(es[..|es| - 1])
    ensures Ready(prev, es[|es| - 1])
  {
    var n := |es| - 1;
    if prev.parent.None? && ActionRow(es[n].action).Some? {
      assert forall j | 0 <= j < n :: es[j].date == "" by {
        forall j | 0 <= j < n
          ensures es[j].date == ""
        {
          assert es[..n][j] == es[j];
        }
      }
    }
  }

  /** The state after the collector has seen every entry of `es`, in order. */
  function Collected(s: CollectorState, es: seq<Entry>): (r: CollectorState)
    requires Consistent(s) && CanCollect(s, es)
    ensures Consistent(r)
    ensures r.parent.None? ==> s.parent.None? && AllBlank(es)
    decreases |es|
  {
    if es == [] then s
    else
      var n := |es| - 1;
      var e := es[n];
      CanCollectPrefix(s, es, n);
      var prev := Collected(s, es[..n]);
      ReadyNext(s, es, prev);
      AllBlankSnoc(es);
      Step(prev, e)
  }

  /** Collecting one more entry is one more collector step. */
  lemma CollectedSnoc(s: CollectorState, es: seq<Entry>, e: Entry)
    requires Consistent(s) && CanCollect(s, es + [e])
    ensures CanCollect(s, es) && Ready(Collected(s, es), e)
    ensures Collected(s, es + [e]) == Step(Collected(s, es), e)
  {
    CanCollectPrefix(s, es + [e], |es|);
    assert (es + [e])[..|es|] == es;
    ReadyNext(s, es + [e], Collected(s, es));
  }

  /** The state after `i + 1` entries of a log is one step from the state
      after `i` entries. */
  lemma CollectedNext(s: CollectorState, es: seq<Entry>, i: nat)
    requires Consistent(s) && CanCollect(s, es) && i < |es|
    ensures CanCollect(s, es[..i]) && CanCollect(s, es[..i + 1])
    ensures Ready(Collected(s, es[..i]), es[i])
    ensures Collected(s, es[..i + 1]) == Step(Collected(s, es[..i]), es[i])
  {
    CanCollectPrefix(s, es, i + 1);
    assert es[..i + 1] == es[..i] + [es[i]];
    CollectedSnoc(s, es[..i], es[i]);
  }

  /** The dates list as a reference definition: the entries' dates with each
      run of equal consecutive dates collapsed to one, `prev` being the date
      seen before the first entry. */
  function Collapse(prev: string, ds: seq<string>): seq<string>
    decreases |ds|
  {
    if ds == [] then []
    else if ds[0] == prev then Collapse(prev, ds[1..])
    else [ds[0]] + Collapse(ds[0], ds[1..])
  }

  function LastOr(prev: string, ds: seq<string>): string
  {
    if ds == [] then prev else Last(ds)
  }

  lemma {:induction false} CollapseSnoc(prev: string, ds: seq<string>, d: string)
    ensures Collapse(prev, ds + [d]) == Collapse(prev, ds) + (if d == LastOr(prev, ds) then [] else [d])
    decreases |ds|
  {
    if ds == [] {
      assert [d][1..] == [];
    } else {
      assert (ds + [d])[1..] == ds[1..] + [d];
      var next := if ds[0] == prev then prev else ds[0];
      CollapseSnoc(next, ds[1..], d);
      assert LastOr(next, ds[1..]) == LastOr(prev, ds);
    }
  }

  /** Grouping is by consecutive runs: the collector's dates rows (and so its
      group headers) are the log's dates with consecutive repeats collapsed,
      and the last date seen is the last entry's date. */
  lemma {:induction false} CollectedDates(s: CollectorState, es: seq<Entry>)
    requires Consistent(s) && CanCollect(s, es)
    ensures Collected(s, es).dates == s.dates + Collapse(s.lastDate, DatesOf(es))
    ensures Headers(Collected(s, es).groups) == s.dates + Collapse(s.lastDate, DatesOf(es))
    ensures Collected(s, es).lastDate == LastOr(s.lastDate, DatesOf(es))
    decreases |es|
  {
    if es != [] {
      var n := |es| - 1;
      var init, e := es[..n], es[n];
      assert es == init + [e];
      CollectedSnoc(s, init, e);
      CollectedDates(s, init);
      var prev := Collected(s, init);
      StepDates(prev, e);
      var ds := DatesOf(init);
      assert DatesOf(es) == ds + [e.date];
      CollapseSnoc(s.lastDate, ds, e.date);
      if e.date != prev.lastDate {
        assert s.dates + Collapse(s.lastDate, ds) + [e.date] == s.dates + (Collapse(s.lastDate, ds) + [e.date]);
      }
    }
  }

  /** No row is lost, duplicated or reordered: the rows of all groups, read
      in tree order, are the rows of the log's recognised entries in log order. */
  lemma {:induction false} CollectedRows(s: CollectorState, es: seq<Entry>)
    requires Consistent(s) && CanCollect(s, es)
    ensures Flatten(Collected(s, es).groups) == Flatten(s.groups) + RowsOf(es)
    decreases |es|
  {
    if es != [] {
      var n := |es| - 1;
      var init, e := es[..n], es[n];
      assert es == init + [e];
      CollectedSnoc(s, init, e);
      CollectedRows(s, init);
      StepRows(Collected(s, init), e);
      RowsOfSnoc(init, e);
      assert Flatten(s.groups) + RowsOf(init) + RowOf(e) == Flatten(s.groups) + (RowsOf(init) + RowOf(e));
    }
  }

  /** `b` extends `a`: more dates rows, the same groups with possibly more
      rows at their ends, and possibly more groups. */
  predicate Grows(a: CollectorState, b: CollectorState)
  {
    a.dates <= b.dates && |a.groups| <= |b.groups| &&
    forall i | 0 <= i < |a.groups| ::
      b.groups[i].header == a.groups[i].header && a.groups[i].rows <= b.groups[i].rows
  }

  lemma GrowsTransitive(a: CollectorState, b: CollectorState, c: CollectorState)
    requires Grows(a, b) && Grows(b, c)
    ensures Grows(a, c)
  {
    forall i | 0 <= i < |a.groups|
      ensures c.groups[i].header == a.groups[i].header && a.groups[i].rows <= c.groups[i].rows
    {
      assert b.groups[i].rows <= c.groups[i].rows;
    }
  }

  lemma StepGrows(s: CollectorState, e: Entry)
    requires Consistent(s) && Ready(s, e)
    ensures Grows(s, Step(s, e))
  {
  }

  /** Nothing is ever rolled back: what the collector has built after any
      prefix of the log survives, unchanged, in what it builds from the whole
      log (and so in what is shown when reading stops with an error). */
  lemma {:induction false} CollectedGrows(s: CollectorState, es: seq<Entry>, k: nat)
    requires Consistent(s) && CanCollect(s, es) && k <= |es|
    ensures CanCollect(s, es[..k])
    ensures Grows(Collected(s, es[..k]), Collected(s, es))
    decreases |es| - k
  {
    CanCollectPrefix(s, es, k);
    if k == |es| {
      assert es[..k] == es;
    } else {
      var n := |es| - 1;
      var init := es[..n];
      assert es == init + [es[n]];
      CollectedSnoc(s, init, es[n]);
      var prev := Collected(s, init);
      CollectedGrows(s, init, k);
      assert init[..k] == es[..k];
      StepGrows(prev, es[n]);
      GrowsTransitive(Collected(s, es[..k]), prev, Collected(s, es));
    }
  }

  /** The dates rows and group headers of a whole log, from an empty dialog:
      a date that reappears after another date opens a second group under
      the same header. */
  lemma ReappearingDateOpensNewGroup(d1: string, d2: string, a: Action, b: Action, c: Action)
    requires d1 != "" && d2 != d1
    ensures var es := [Entry(d1, a), Entry(d2, b), Entry(d1, c)];
            NoOrphanRow(es) &&
            Collected(Start([], []), es).dates == [d1, d2, d1] &&
            Headers(Collected(Start([], []), es).groups) == [d1, d2, d1]
  {
    var es := [Entry(d1, a), Entry(d2, b), Entry(d1, c)];
    assert NoOrphanRow(es) by {
      forall i | 0 <= i < |es| && ActionRow(es[i].action).Some?
        ensures exists j :: 0 <= j <= i && es[j].date != ""
      {
        assert es[0].date != "";
      }
    }
    CollectedDates(Start([], []), es);
    assert DatesOf(es) == [d1, d2, d1];
    assert Collapse("", [d1, d2, d1]) == [d1] + Collapse(d1, [d2, d1]);
    assert Collapse(d1, [d2, d1]) == [d2] + Collapse(d2, [d1]);
    assert Collapse(d2, [d1]) == [d1] + Collapse(d1, []);
  }

  /** One day of history: an install and a removal on the same day give one
      dates row and one group holding both rows, in log order. */
  lemma OneDay(d1: string, n1: string, v1: string, n2: string, v2: string)
    requires d1 != ""
    ensures var es := [Entry(d1, Installed(n1, v1)), Entry(d1, Removed(n2, v2))];
            NoOrphanRow(es) &&
            Collected(Start([], []), es) ==
              CollectorState([d1], [Group(d1, [Row([n1, v1], PkgInstall), Row([n2, v2], PkgDel)])], d1, Some(0))
  {
    var es := [Entry(d1, Installed(n1, v1)), Entry(d1, Removed(n2, v2))];
    var r1, r2 := Row([n1, v1], PkgInstall), Row([n2, v2], PkgDel);
    var s0 := Start([], []);
    var s1 := CollectorState([d1], [Group(d1, [r1])], d1, Some(0));
    assert NoOrphanRow(es) && NoOrphanRow([es[0]]) by {
      assert es[0].date != "";
    }
    assert Collected(s0, [es[0]]) == s1 by {
      CollectedSnoc(s0, [], es[0]);
      assert [] + [es[0]] == [es[0]];
      StepNewDate(s0, es[0]);
    }
    assert Headers(s1.groups) == [d1];
    assert RowOf(es[1]) == [r2] && [r1] + [r2] == [r1, r2];
    assert s1.groups[0 := Group(d1, [r1, r2])] == [Group(d1, [r1, r2])];
    StepSameDate(s1, es[1]);
    CollectedSnoc(s0, [es[0]], es[1]);
    assert [es[0]] + [es[1]] == es;
  }

  /** Two days of history: an install and a removal on one day and a
      repository addition on the next give two dates rows and two groups,
      holding two rows and one row with the mapped columns and icons. */
  lemma {:induction false} TwoDays(d1: string, d2: string, n1: string, v1: string, n2: string, v2: string,
                                   alias: string, url: string)
    requires d1 != "" && d1 != d2
    ensures var es := [Entry(d1, Installed(n1, v1)), Entry(d1, Removed(n2, v2)), Entry(d2, RepoAdded(alias, url))];
            NoOrphanRow(es) &&
            Collected(Start([], []), es) == CollectorState(
              [d1, d2],
              [Group(d1, [Row([n1, v1], PkgInstall), Row([n2, v2], PkgDel)]), Group(d2, [Row([alias, url], TreePlus)])],
              d2, Some(1))
  {
    var es := [Entry(d1, Installed(n1, v1)), Entry(d1, Removed(n2, v2)), Entry(d2, RepoAdded(alias, url))];
    var r1, r2, r3 := Row([n1, v1], PkgInstall), Row([n2, v2], PkgDel), Row([alias, url], TreePlus);
    var s0 := Start([], []);
    var s2 := CollectorState([d1], [Group(d1, [r1, r2])], d1, Some(0));
    var s3 := CollectorState([d1, d2], [Group(d1, [r1, r2]), Group(d2, [r3])], d2, Some(1));
    assert NoOrphanRow(es) by {
      assert es[0].date != "";
    }
    OneDay(d1, n1, v1, n2, v2);
    assert Step(s2, es[2]) == s3 by {
      assert Headers(s2.groups) == [d1];
      StepNewDate(s2, es[2]);
    }
    assert [es[0], es[1]] + [es[2]] == es;
    CollectedSnoc(s0, [es[0], es[1]], es[2]);
  }

  /** A three-entry sample log over two days, with dates as `%e %B %Y` formats them. */
  lemma SampleLog()
    ensures var es := [
              Entry(" 1 January 2020", Installed("foo", "1.0")),
              Entry(" 1 January 2020", Removed("bar", "2.0")),
              Entry(" 2 January 2020", RepoAdded("repo1", "http://x"))];
            NoOrphanRow(es) &&
            Collected(Start([], []), es) == CollectorState(
              [" 1 January 2020", " 2 January 2020"],
              [Group(" 1 January 2020", [Row(["foo", "1.0"], PkgInstall), Row(["bar", "2.0"], PkgDel)]),
               Group(" 2 January 2020", [Row(["repo1", "http://x"], TreePlus)])],
              " 2 January 2020", Some(1))
  {
    var d1, d2 := " 1 January 2020", " 2 January 2020";
    assert d1 != d2 by { assert d1[1] != d2[1]; }
    TwoDays(d1, d2, "foo", "1.0", "bar", "2.0", "repo1", "http://x");
  }

  /** The dates tree: a flat list of date items and its current item. */
  class DatesTree {
    var items: seq<string>
    var current: Option<nat>

    constructor ()
      ensures items == [] && current == None
    {
      items := [];
      current := None;
    }
  }

  /** An item of the actions tree: a top-level date group or a child action row. */
  datatype ItemRef = TopItem(group: nat) | ChildItem(group: nat, row: nat)

  predicate ValidRef(groups: seq<Group>, ref: ItemRef)
  {
    match ref
    case TopItem(g) => g < |groups|
    case ChildItem(g, r) => g < |groups| && r < |groups[g].rows|
  }

  /** The actions tree: date groups with their action rows, and its current item. */
  class ActionsTree {
    var groups: seq<Group>
    var current: Option<ItemRef>

    constructor ()
      ensures groups == [] && current == None
    {
      groups := [];
      current := None;
    }
  }

  /** The collector object: it holds the two trees it fills (shared with the
      dialog), the current parent group and the last date seen. */
  class HistoryItemCollector {
    const datesTree: DatesTree
    const actionsTree: ActionsTree
    var actionsDateItem: Option<nat>
    var lastDate: string

    function State(): CollectorState
      reads this, datesTree, actionsTree
    {
      CollectorState(datesTree.items, actionsTree.groups, lastDate, actionsDateItem)
    }

    ghost predicate Valid()
      reads this, datesTree, actionsTree
    {
      Consistent(State())
    }

    constructor (datesTree: DatesTree, actionsTree: ActionsTree)
      ensures this.datesTree == datesTree && this.actionsTree == actionsTree
      ensures State() == Start(datesTree.items, actionsTree.groups)
      ensures Lockstep(datesTree.items, actionsTree.groups) ==> Valid()
    {
      this.datesTree := datesTree;
      this.actionsTree := actionsTree;
      actionsDateItem := None;
      lastDate := "";
    }

    /** Collects one log entry. Always asks the log reader to go on. */
    method Collect(e: Entry) returns (more: bool)
      requires Valid() && Ready(State(), e)
      modifies this, datesTree`items, actionsTree`groups
      ensures Valid()
      ensures State() == Step(old(State()), e)
      ensures more
    {
      if e.date != lastDate {
        lastDate := e.date;
        datesTree.items := datesTree.items + [e.date];
        actionsTree.groups := actionsTree.groups + [Group(e.date, [])];
        actionsDateItem := Some(|actionsTree.groups| - 1);
      }
      var columns := Columns(e.action);
      if columns != [] {
        var p := actionsDateItem.value;
        var item := actionsTree.groups[p];
        actionsTree.groups := actionsTree.groups[p := item.(rows := item.rows + [Row(columns, ActionIcon(KindOf(e.action)))])];
      }
      more := true;
    }
  }
}
