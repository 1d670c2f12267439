# Package history dialog — Dafny model

This project models the logic of the package history dialog of the Qt
package selector (`YQPkgHistoryDialog`). The dialog reads the package
manager's history log and shows it in two trees:

- a **dates tree**: one row per date;
- an **actions tree**: one top-level item (a *group*) per date, with one child
  row per install, removal or repository change of that date.

A helper object, the **history item collector**, is called once per log
entry. When the entry's formatted date differs from the last date it saw, it
opens a new date row and a new group. It then maps the entry's action kind to
a fixed list of display columns and an icon, and appends that row under the
group it opened last. The dialog also pads the heading of its read-failure
warning, and it keeps the two trees' selections in step. Selecting a date
selects the group with the same header. Selecting an action row selects the
date row of its group.

Modules, one per concern of `libyui-qt-pkg/src/YQPkgHistoryDialog.cc`:

- `HistoryActions` (`history_actions.dfy`): the log entry (date, action kind and
  the kind's fields), the per-kind column mapping and the icon mapping. These are
  pure functions.
- `HistoryCollector` (`history_collector.dfy`): the collector.
  - `Step` specifies one call of the collector on one entry, and `Collected`
    specifies a whole pass over a log. Lemmas about them state what the source
    promises.
  - `DatesTree` and `ActionsTree` are classes holding the two trees' contents.
    The dialog and the collector share them, as in the source.
  - `HistoryItemCollector` is a class with the source's fields
    (`actionsDateItem`, `lastDate`). Its `Collect` method updates the trees in
    place and is proved equal to `Step`.
- `HistoryView` (`history_view.dfy`): the heading padding and the two selection
  lookups (pure functions), the log reader's pass (`ReadAll`), and the
  `HistoryDialog` class with `Populate`, `ShowReadHistoryWarning`, `SelectDate`
  and `SelectAction`.

Preconditions, and why the source needs them:

- The collector's `_actionsDateItem` pointer is set only when a new date opens
  a group, and `_lastDate` starts empty. An entry with an empty date that comes
  before any group is open would therefore add its row under an unset pointer.
  `Collect` requires that this does not happen (`Ready`), and so does
  `Populate` for the whole log (`NoOrphanRow`). An entry with an empty date and
  no row is allowed; it has no effect.
- The two selection handlers call `selectedItems().first()` with no emptiness
  check. `SelectDate` and `SelectAction` therefore require a current item.
- `Populate` requires the trees to be in lockstep (equal headers, same order).
  The dialog runs it once, on the empty trees it has just built.

Behaviour of the code that the model keeps:

- The alias-change column joins the two aliases with the ASCII `" -> "`.
- A repository removal or an alias change shows one column, not two.
- When reading the log fails part-way, the rows collected so far are kept.
  The trees are not left empty.
- The signal blocker in both selection handlers is an unnamed temporary. It
  is destroyed at once, so it guards nothing, and the model has no guard.
  `SelectionSettles` and `ActionSelectionSettles` show that the handlers still
  reach a fixed point after one round trip.
- Both lookups take the first exact match. When a date reappears after a
  different date, choosing a row of its second group selects the first date
  row with that text, which selects the first group
  (`ReappearingDateSelectsFirstGroup`).

## Model

| member | source | states |
|---|---|---|
| `HistoryActions.ActionIcon` | libyui-qt-pkg/src/YQPkgHistoryDialog.cc:159-171 | only installs, removals, repository additions and repository removals get an icon; every other kind gets the null pixmap |
| `HistoryActions.Columns` | libyui-qt-pkg/src/YQPkgHistoryDialog.cc:104-147 | the column list is empty exactly for unrecognised kinds; it has at most two columns; it has one column exactly for a repository removal or an alias change |
| `HistoryActions.ActionRow` | libyui-qt-pkg/src/YQPkgHistoryDialog.cc:149-153 | an action row exists exactly when the action's kind is recognised |
| `HistoryActions.RowIdentifiesKind` | libyui-qt-pkg/src/YQPkgHistoryDialog.cc:104-171 | the column count and the icon of every displayed row determine the action's kind (Install and Remove differ by icon; RepoAdd and RepoUrlChange differ by icon) |
| `HistoryActions.RowDeterminesAction` | libyui-qt-pkg/src/YQPkgHistoryDialog.cc:104-147 | unless both are alias changes, two actions with the same row are the same action: the mapping loses no field, and no alias change shares a row with another kind |
| `HistoryActions.AliasChangeAmbiguous` | libyui-qt-pkg/src/YQPkgHistoryDialog.cc:135-140 | joining the two aliases with `" -> "` loses information: when an alias holds the arrow, two different alias changes show the same row |
| `HistoryCollector.Step` | libyui-qt-pkg/src/YQPkgHistoryDialog.cc:88-156 | one collector call keeps the dates and the groups in lockstep; it records the entry's date as the last date; once a group is open, one stays open |
| `HistoryCollector.StepDates` | libyui-qt-pkg/src/YQPkgHistoryDialog.cc:92-102 | a date row and a group are appended together exactly when the entry's date differs from the last date seen; otherwise neither tree gains a top-level item |
| `HistoryCollector.StepRows` | libyui-qt-pkg/src/YQPkgHistoryDialog.cc:149-153 | one call adds exactly the entry's own row (none for an unrecognised kind) after all rows collected so far |
| `HistoryCollector.StepAppendsToLastGroup` | libyui-qt-pkg/src/YQPkgHistoryDialog.cc:92-153 | an action row goes to the end of the most recently opened group, which is headed by the entry's date; all earlier groups are unchanged; the dates tree gains the entry's date exactly when it is new |
| `HistoryCollector.StepNewDate` | libyui-qt-pkg/src/YQPkgHistoryDialog.cc:92-102 | an entry with a new date yields a new date row and a new group holding only that entry's row (or none) |
| `HistoryCollector.StepSameDate` | libyui-qt-pkg/src/YQPkgHistoryDialog.cc:104-153 | an entry with the same date as the last one leaves the dates tree alone and only extends the current group's rows |
| `HistoryCollector.StepOtherKind` | libyui-qt-pkg/src/YQPkgHistoryDialog.cc:92-153 | an entry of an unrecognised kind adds no row, but a new date still opens a date row and an empty group |
| `HistoryCollector.StepGrows` | libyui-qt-pkg/src/YQPkgHistoryDialog.cc:92-153 | one call only appends: existing date rows, group headers and rows stay as they were |
| `HistoryCollector.Collected` | libyui-qt-pkg/src/YQPkgHistoryDialog.cc:263-270 | after any number of entries the trees are in lockstep; no group is open only when every entry so far had an empty date |
| `HistoryCollector.CollectedDates` | libyui-qt-pkg/src/YQPkgHistoryDialog.cc:92-101 | grouping is by consecutive runs: the date rows (and the group headers) are the log's dates with runs of equal consecutive dates collapsed to one |
| `HistoryCollector.CollectedRows` | libyui-qt-pkg/src/YQPkgHistoryDialog.cc:149-153 | the rows of all groups, in tree order, are exactly the rows of the recognised entries in log order: none lost, duplicated or reordered |
| `HistoryCollector.CollectedGrows` | libyui-qt-pkg/src/YQPkgHistoryDialog.cc:268-276 | nothing is rolled back: what is built from any prefix of the log survives unchanged in what is built from the whole log |
| `HistoryCollector.ReappearingDateOpensNewGroup` | libyui-qt-pkg/src/YQPkgHistoryDialog.cc:92-94 | a date that reappears after a different date opens a second date row and a second group with the same header |
| `HistoryCollector.OneDay` | libyui-qt-pkg/src/YQPkgHistoryDialog.cc:88-156 | an install and a removal on one day give one date row and one group with both rows, in log order, with name/version columns and their icons |
| `HistoryCollector.TwoDays` | libyui-qt-pkg/src/YQPkgHistoryDialog.cc:88-156 | adding a repository on the next day opens a second group holding an alias/URL row |
| `HistoryCollector.SampleLog` | libyui-qt-pkg/src/YQPkgHistoryDialog.cc:88-156 | a three-entry sample log over two days, with `%e %B %Y` dates, gives two date rows and groups of two rows and one row |
| `HistoryCollector.HistoryItemCollector.constructor` | libyui-qt-pkg/src/YQPkgHistoryDialog.cc:81-85 | a new collector shares the given trees; its last date is empty and no group is open |
| `HistoryCollector.HistoryItemCollector.Collect` | libyui-qt-pkg/src/YQPkgHistoryDialog.cc:88-156 | updates the shared trees in place exactly as `Step` says, keeps the collector invariant and always asks the reader for more |
| `HistoryView.Blanks` | libyui-qt-pkg/src/YQPkgHistoryDialog.cc:292-293 | gives exactly `n` characters, all blanks |
| `HistoryView.PadHeading` | libyui-qt-pkg/src/YQPkgHistoryDialog.cc:288-295 | a heading shorter than 25 characters is right-padded with blanks to exactly 50; a longer one is unchanged; the result is never shorter than 25 characters or than the heading |
| `HistoryView.UnableToReadIsPadded` | libyui-qt-pkg/src/YQPkgHistoryDialog.cc:288-295 | the 22-character read-failure heading gets 28 blanks |
| `HistoryView.PadHeadingIdempotent` | libyui-qt-pkg/src/YQPkgHistoryDialog.cc:290-295 | padding an already padded heading changes nothing |
| `HistoryView.FirstIndex` | libyui-qt-pkg/src/YQPkgHistoryDialog.cc:308-310 | the exact-text search returns the first matching position, or nothing when no item matches |
| `HistoryView.GroupOf` | libyui-qt-pkg/src/YQPkgHistoryDialog.cc:328-329 | a child row resolves to its parent, a valid top-level item of the same tree |
| `HistoryView.DateTarget` | libyui-qt-pkg/src/YQPkgHistoryDialog.cc:307-310 | selecting a date finds the first group whose header equals the date; no group is found only when no header equals it |
| `HistoryView.ActionTarget` | libyui-qt-pkg/src/YQPkgHistoryDialog.cc:324-335 | selecting an item finds the first date row whose text equals the header of the item's group; no row is found only when no date row has that text |
| `HistoryView.ChildSelectsGroupsDate` | libyui-qt-pkg/src/YQPkgHistoryDialog.cc:326-329 | selecting an action row selects the same date row as selecting its group |
| `HistoryView.DateTargetInLockstep` | libyui-qt-pkg/src/YQPkgHistoryDialog.cc:305-317 | with the trees in lockstep, selecting a date always finds a group with that header, at or before the selected row; it is the row's own group exactly when the date does not occur earlier |
| `HistoryView.ActionTargetInLockstep` | libyui-qt-pkg/src/YQPkgHistoryDialog.cc:322-340 | with the trees in lockstep, selecting a row resolves to its group and always finds a date row with the group's header, at or before the group |
| `HistoryView.SelectionSettles` | libyui-qt-pkg/src/YQPkgHistoryDialog.cc:305-340 | selecting a date, then the group it selects, then the date row that selects, returns to the same group: the two handlers settle after one round trip |
| `HistoryView.ActionSelectionSettles` | libyui-qt-pkg/src/YQPkgHistoryDialog.cc:305-340 | starting from any actions-tree item, the date row it selects selects that date's first group; that is the item's own group exactly when no earlier group has the same header |
| `HistoryView.ReappearingDateSelectsFirstGroup` | libyui-qt-pkg/src/YQPkgHistoryDialog.cc:305-340 | with dates d1, d2, d1, choosing a row of the third group selects the first date row, which selects the first group |
| `HistoryView.ReadAll` | libyui-qt-pkg/src/YQPkgHistoryDialog.cc:264-270 | the reader hands every entry of the log to the collector in order and never stops early; the trees end as `Collected` says |
| `HistoryView.HistoryDialog.constructor` | libyui-qt-pkg/src/YQPkgHistoryDialog.cc:203-209 | the dialog starts with two new, empty trees, no current items and no warning |
| `HistoryView.HistoryDialog.ShowReadHistoryWarning` | libyui-qt-pkg/src/YQPkgHistoryDialog.cc:281-301 | shows one warning whose heading is the padded read-failure heading and whose text is the exception's message |
| `HistoryView.HistoryDialog.Populate` | libyui-qt-pkg/src/YQPkgHistoryDialog.cc:261-277 | the trees hold exactly what the collector built from the entries read before the end or the failure, even when reading failed; a warning is added exactly when reading failed |
| `HistoryView.HistoryDialog.SelectDate` | libyui-qt-pkg/src/YQPkgHistoryDialog.cc:305-318 | makes the first group whose header equals the selected date the current item of the actions tree; when none matches, the current item is unchanged |
| `HistoryView.HistoryDialog.SelectAction` | libyui-qt-pkg/src/YQPkgHistoryDialog.cc:322-340 | resolves a child row to its group, then makes the first date row with the group's header the current date; when none matches, the current date is unchanged |

## Left out

- `libyui-ncurses/src/ObjectStatStrategy.h` (the status strategies): the file only declares classes over an external package object model and has no function bodies, so there is no behaviour to model.
- Qt widget construction, layout, column headers, splitter sizing, the close button and the signal/slot wiring (`YQPkgHistoryDialog.cc:177-236`): user-interface plumbing.
- `showHistoryDialog` (`YQPkgHistoryDialog.cc:240-257`): showing the dialog, the 200 ms event pump, the busy cursor and `exec()` are user-interface timing with no state to model.
- Reading and parsing the log at the fixed path `/var/log/zypp/history` (`zypp::parser::HistoryLogReader`): I/O in a foreign library. The entries delivered before the end, and the message of the exception that stopped reading (if any), are inputs of `Populate`.
- Date formatting (`Date::form("%e %B %Y")`), `fromUTF8`, `Edition::version()` and `Url::asString()`: foreign calls. The formatted date, the version and the URLs are given as strings.
- Translation of the warning heading: the model uses the untranslated text. `PadHeading` is stated for every heading.
- QString lengths count UTF-16 code units. The model counts characters of a `seq<char>`.
- Icons are opaque tags, not pixmaps. The message box is modelled as a list of shown warnings.
- The model treats the selected item as the current item of a single-selection tree.
- HistoryView.HistoryDialog.SelectDate: does not model `expandItem` or `scrollToItem`; expansion and scroll position are view state the model does not keep.
- HistoryCollector.HistoryItemCollector.Collect: does not model `setExpanded(true)` on a new group, for the same reason.
- HistoryView.HistoryDialog.Populate: does not model the warning written to the program log (`YQPkgHistoryDialog.cc:274`), which is logging output. Only a `zypp::Exception` is caught (`YQPkgHistoryDialog.cc:272`); any other exception leaves `populate()` without a warning, and the model has no such path because `failure` stands for a caught exception only.
- The signal blocker in the selection handlers is not modelled. It is an unnamed temporary in the source and has no lasting effect.
