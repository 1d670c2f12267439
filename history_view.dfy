/** The package history dialog: it fills its two trees from the history log
    through the collector, shows a warning when the log cannot be read, and
    keeps the selections of the two trees in step. */
module HistoryView {
  import opened HistoryActions
  import opened HistoryCollector

  /** Headings shorter than this are padded. */
  const MinHeadingLength := 25
  /** The length a short heading is padded to. */
  const PaddedHeadingLength := 50
  /** The (untranslated) heading of the read-failure warning. */
  const UnableToRead := "Unable to read history"

  /** `n` blanks. */
  function Blanks(n: nat): (b: string)
    ensures |b| == n && forall i | 0 <= i < n :: b[i] == ' '
  {
    if n == 0 then "" else Blanks(n - 1) + " "
  }

  /** The warning heading: a short one is right-padded with blanks so that
      the message box does not come out very narrow; a long one is kept. */
  function PadHeading(heading: string): (r: string)
    ensures |heading| < MinHeadingLength ==>
              |r| == PaddedHeadingLength && r[..|heading|] == heading &&
              forall i | |heading| <= i < PaddedHeadingLength :: r[i] == ' '
    ensures |heading| >= MinHeadingLength ==> r == heading
    ensures |r| >= MinHeadingLength && |r| >= |heading|
  {
    if |heading| < MinHeadingLength then heading + Blanks(PaddedHeadingLength - |heading|) else heading
  }

  /** The read-failure heading comes out as exactly 50 characters. */
  lemma UnableToReadIsPadded()
    ensures |UnableToRead| == 22
    ensures PadHeading(UnableToRead) == UnableToRead + Blanks(28)
  {
  }

  /** Padding is idempotent: a padded heading is never padded again. */
  lemma PadHeadingIdempotent(heading: string)
    ensures PadHeading(PadHeading(heading)) == PadHeading(heading)
  {
  }

  /** A warning shown to the user: its heading and its informative text. */
  datatype Warning = Warning(heading: string, message: string)

  /** The first position holding `x` (an exact-match search that returns the
      first item found), or `None` when there is none. */
  function FirstIndex(s: seq<string>, x: string): (r: Option<nat>)
    ensures r.Some? ==> r.value < |s| && s[r.value] == x && forall j | 0 <= j < r.value :: s[j] != x
    ensures r.None? ==> forall j | 0 <= j < |s| :: s[j] != x
  {
    if s == [] then None
    else if s[0] == x then Some(0)
    else match FirstIndex(s[1..], x)
      case None => None
      case Some(k) => Some(k + 1)
  }

  /** The group of an item of the actions tree: a child row resolves to its
      parent, which is a top-level item of the same tree. */
  function GroupOf(ref: ItemRef): (g: nat)
    ensures forall groups: seq<Group> :: ValidRef(groups, ref) ==> ValidRef(groups, TopItem(g))
  {
    match ref
    case TopItem(g) => g
    case ChildItem(g, _) => g
  }

  /** The group selected by choosing date row `sel`: the first top-level item
      of the actions tree whose text equals the date. */
  function DateTarget(dates: seq<string>, groups: seq<Group>, sel: nat): (r: Option<nat>)
    requires sel < |dates|
    ensures r.Some? ==> r.value < |groups| && groups[r.value].header == dates[sel] &&
                        forall j | 0 <= j < r.value :: groups[j].header != dates[sel]
    ensures r.None? ==> forall j | 0 <= j < |groups| :: groups[j].header != dates[sel]
  {
    var hs := Headers(groups);
    assert forall j | 0 <= j < |groups| :: hs[j] == groups[j].header;
    FirstIndex(hs, dates[sel])
  }

  /** The date row selected by choosing actions-tree item `ref`: the first
      date row whose text equals the header of the item's group. */
  function ActionTarget(dates: seq<string>, groups: seq<Group>, ref: ItemRef): (r: Option<nat>)
    requires ValidRef(groups, ref)
    ensures r.Some? ==> r.value < |dates| && dates[r.value] == groups[GroupOf(ref)].header &&
                        forall j | 0 <= j < r.value :: dates[j] != groups[GroupOf(ref)].header
    ensures r.None? ==> forall j | 0 <= j < |dates| :: dates[j] != groups[GroupOf(ref)].header
  {
    FirstIndex(dates, groups[GroupOf(ref)].header)
  }

  /** Choosing an action row selects the same date row as choosing its group. */
  lemma ChildSelectsGroupsDate(dates: seq<string>, groups: seq<Group>, g: nat, i: nat)
    requires ValidRef(groups, ChildItem(g, i))
    ensures ActionTarget(dates, groups, ChildItem(g, i)) == ActionTarget(dates, groups, TopItem(g))
  {
  }

  /** With the trees in lockstep, choosing a date always finds a group with
      that header, at or before the chosen row; it is the chosen row's own
      group exactly when the date does not occur in an earlier row, so the
      second run of a reappearing date selects the first run's group. */
  lemma DateTargetInLockstep(dates: seq<string>, groups: seq<Group>, sel: nat)
    requires Lockstep(dates, groups) && sel < |dates|
    ensures DateTarget(dates, groups, sel).Some?
    ensures var g := DateTarget(dates, groups, sel).value;
            g <= sel && groups[g].header == dates[sel] &&
            (g == sel <==> forall j | 0 <= j < sel :: dates[j] != dates[sel])
  {
    assert Headers(groups) == dates;
  }

  /** With the trees in lockstep, choosing any action (or its date group)
      always finds a date row with the group's header, at or before the group. */
  lemma ActionTargetInLockstep(dates: seq<string>, groups: seq<Group>, ref: ItemRef)
    requires Lockstep(dates, groups) && ValidRef(groups, ref)
    ensures ActionTarget(dates, groups, ref).Some?
    ensures var d := ActionTarget(dates, groups, ref).value;
            d <= GroupOf(ref) && dates[d] == groups[GroupOf(ref)].header
  {
    var g := GroupOf(ref);
    assert dates[g] == groups[g].header;
  }

  /** The two selection handlers settle after one round trip: choosing a
      date selects group `g`, choosing group `g` selects date row `g`, and
      choosing that date row selects group `g` again. */
  lemma SelectionSettles(dates: seq<string>, groups: seq<Group>, sel: nat)
    requires Lockstep(dates, groups) && sel < |dates|
    ensures DateTarget(dates, groups, sel).Some?
    ensures var g := DateTarget(dates, groups, sel).value;
            ActionTarget(dates, groups, TopItem(g)) == Some(g) && DateTarget(dates, groups, g) == Some(g)
  {
    DateTargetInLockstep(dates, groups, sel);
    var g := DateTarget(dates, groups, sel).value;
    assert dates[g] == dates[sel];
    DateTargetInLockstep(dates, groups, g);
    ActionTargetInLockstep(dates, groups, TopItem(g));
    var d := ActionTarget(dates, groups, TopItem(g)).value;
    assert dates[d] == dates[sel];
  }

  /** Starting from any item of the actions tree, the round trip settles at
      once: the date row it selects selects that date's first group, and that
      is the item's own group exactly when its header does not head an earlier
      group. So a row of the second run of a reappearing date ends on the
      first run's group. */
  lemma ActionSelectionSettles(dates: seq<string>, groups: seq<Group>, ref: ItemRef)
    requires Lockstep(dates, groups) && ValidRef(groups, ref)
    ensures ActionTarget(dates, groups, ref).Some?
    ensures var d := ActionTarget(dates, groups, ref).value;
            DateTarget(dates, groups, d) == Some(d) &&
            (d == GroupOf(ref) <==> forall j | 0 <= j < GroupOf(ref) :: groups[j].header != groups[GroupOf(ref)].header)
  {
    ActionTargetInLockstep(dates, groups, ref);
    var d := ActionTarget(dates, groups, ref).value;
    DateTargetInLockstep(dates, groups, d);
    var g := DateTarget(dates, groups, d).value;
    assert dates[g] == dates[d];
  }

  /** Choosing an action of the second group of date `d1` in the dates
      `d1`, `d2`, `d1` selects the first date row, which selects the first group. */
  lemma ReappearingDateSelectsFirstGroup(d1: string, d2: string, rows1: seq<Row>, rows2: seq<Row>, row: Row)
    requires d1 != d2
    ensures var groups := [Group(d1, rows1), Group(d2, rows2), Group(d1, [row])];
            ActionTarget([d1, d2, d1], groups, ChildItem(2, 0)) == Some(0) &&
            DateTarget([d1, d2, d1], groups, 0) == Some(0)
  {
    var groups := [Group(d1, rows1), Group(d2, rows2), Group(d1, [row])];
    assert Headers(groups) == [d1, d2, d1];
    ActionSelectionSettles([d1, d2, d1], groups, ChildItem(2, 0));
  }

  /** The log reader's pass over the log: it hands the entries it reads to
      the collector, in order, for as long as the collector asks for more. */
  method ReadAll(collector: HistoryItemCollector, log: seq<Entry>)
    requires collector.Valid() && CanCollect(collector.State(), log)
    modifies collector, collector.datesTree`items, collector.actionsTree`groups
    ensures collector.Valid()
    ensures collector.State() == Collected(old(collector.State()), log)
  {
    ghost var s0 := collector.State();
    var i, more := 0, true;
    while i < |log| && more
      invariant 0 <= i <= |log| && more
      invariant CanCollect(s0, log[..i]) && collector.State() == Collected(s0, log[..i])
    {
      CollectedNext(s0, log, i);
      more := collector.Collect(log[i]);
      i := i + 1;
    }
    assert log[..i] == log;
  }

  /** The dialog: its two trees and the warnings it has shown. */
  class HistoryDialog {
    const datesTree: DatesTree
    const actionsTree: ActionsTree
    var warnings: seq<Warning>

    constructor ()
      ensures fresh(datesTree) && fresh(actionsTree)
      ensures datesTree.items == [] && datesTree.current == None
      ensures actionsTree.groups == [] && actionsTree.current == None
      ensures warnings == []
    {
      datesTree := new DatesTree();
      actionsTree := new ActionsTree();
      warnings := [];
    }

    /** Shows the read-failure warning with `message` as informative text. */
    method ShowReadHistoryWarning(message: string)
      modifies this`warnings
      ensures warnings == old(warnings) + [Warning(PadHeading(UnableToRead), message)]
    {
      var heading := UnableToRead;
      if |heading| < MinHeadingLength {
        heading := heading + Blanks(PaddedHeadingLength - |heading|);
      }
      warnings := warnings + [Warning(heading, message)];
    }

    /** Fills the trees from the log. `log` is what the log reader delivered
        before it finished or failed; `failure` is the message of the
        library exception it failed with, if it did (only those are caught). Rows collected before a failure
        stay in the trees. */
    method Populate(log: seq<Entry>, failure: Option<string>)
      requires Lockstep(datesTree.items, actionsTree.groups)
      requires NoOrphanRow(log)
      modifies this`warnings, datesTree`items, actionsTree`groups
      ensures var r := Collected(Start(old(datesTree.items), old(actionsTree.groups)), log);
              datesTree.items == r.dates && actionsTree.groups == r.groups
      ensures Lockstep(datesTree.items, actionsTree.groups)
      ensures warnings == old(warnings) +
                (match failure case None => [] case Some(m) => [Warning(PadHeading(UnableToRead), m)])
    {
      var collector := new HistoryItemCollector(datesTree, actionsTree);
      ReadAll(collector, log);
      if failure.Some? {
        ShowReadHistoryWarning(failure.value);
      }
    }

    /** Handler for a new selection in the dates tree. */
    method SelectDate()
      requires datesTree.current.Some? && datesTree.current.value < |datesTree.items|
      modifies actionsTree`current
      ensures actionsTree.current ==
                match DateTarget(datesTree.items, actionsTree.groups, datesTree.current.value)
                case Some(g) => Some(TopItem(g))
                case None => old(actionsTree.current)
    {
      var item := datesTree.items[datesTree.current.value];
      var found := FirstIndex(Headers(actionsTree.groups), item);
      if found.Some? {
        actionsTree.current := Some(TopItem(found.value));
      }
    }

    /** Handler for a new selection in the actions tree. */
    method SelectAction()
      requires actionsTree.current.Some? && ValidRef(actionsTree.groups, actionsTree.current.value)
      modifies datesTree`current
      ensures datesTree.current ==
                match ActionTarget(datesTree.items, actionsTree.groups, actionsTree.current.value)
                case Some(d) => Some(d)
                case None => old(datesTree.current)
    {
      var item := actionsTree.current.value;
      if item.ChildItem? {
        item := TopItem(item.group);
      }
      var found := FirstIndex(datesTree.items, actionsTree.groups[item.group].header);
      if found.Some? {
        datesTree.current := Some(found.value);
      }
    }
  }
}
