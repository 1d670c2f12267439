/** One entry of the package history log as the history dialog sees it, and
    the fixed mapping from an entry's action to the row the dialog shows for
    it (display columns plus an icon). */
module HistoryActions {

  datatype Option<T> = None | Some(value: T)

  /** The history action identifiers the dialog distinguishes; every other
      identifier of the log (patches, commands, stamps, ...) is `Other`. */
  datatype Kind = Install | Remove | RepoAdd | RepoRemove | RepoAliasChange | RepoUrlChange | Other

  /** The kind-specific fields of a log entry that the dialog reads. */
  datatype Action =
    | Installed(name: string, version: string)
    | Removed(name: string, version: string)
    | RepoAdded(alias: string, url: string)
    | RepoRemoved(alias: string)
    | RepoAliasChanged(oldAlias: string, newAlias: string)
    | RepoUrlChanged(alias: string, newUrl: string)
    | OtherAction

  /** A log entry: its date, already formatted for display, and its action. */
  datatype Entry = Entry(date: string, action: Action)

  /** Opaque icon tags standing for the icon pool's pixmaps; `NoIcon` is the null pixmap. */
  datatype Icon = PkgInstall | PkgDel | TreeMinus | TreePlus | NoIcon

  /** A child row of the actions tree: its display columns and its icon. */
  datatype Row = Row(columns: seq<string>, icon: Icon)

  function KindOf(a: Action): Kind
  {
    match a
    case Installed(_, _) => Install
    case Removed(_, _) => Remove
    case RepoAdded(_, _) => RepoAdd
    case RepoRemoved(_) => RepoRemove
    case RepoAliasChanged(_, _) => RepoAliasChange
    case RepoUrlChanged(_, _) => RepoUrlChange
    case OtherAction => Other
  }

  /** The icon shown in the first column of an action row. Only package
      installs and removals and repository additions and removals have one. */
  function ActionIcon(k: Kind): (icon: Icon)
    ensures icon == NoIcon <==> k in {RepoAliasChange, RepoUrlChange, Other}
  {
    match k
    case Install => PkgInstall
    case Remove => PkgDel
    case RepoRemove => TreeMinus
    case RepoAdd => TreePlus
    case _ => NoIcon
  }

  /** The display columns of an action; empty for every kind the dialog does
      not recognise, so such entries get no row. */
  function Columns(a: Action): (columns: seq<string>)
    ensures columns == [] <==> a.OtherAction?
    ensures |columns| <= 2
    ensures |columns| == 1 <==> a.RepoRemoved? || a.RepoAliasChanged?
  {
    match a
    case Installed(name, version) => [name, version]
    case Removed(name, version) => [name, version]
    case RepoAdded(alias, url) => [alias, url]
    case RepoRemoved(alias) => [alias]
    case RepoAliasChanged(oldAlias, newAlias) => [oldAlias + " -> " + newAlias]
    case RepoUrlChanged(alias, newUrl) => [alias, newUrl]
    case OtherAction => []
  }

  /** The row appended for an action, if any. */
  function ActionRow(a: Action): (r: Option<Row>)
    ensures r.None? <==> a.OtherAction?
  {
    var columns := Columns(a);
    if columns == [] then None else Some(Row(columns, ActionIcon(KindOf(a))))
  }

  /** Reads the action kind back off a displayed row, from its number of
      columns and its icon alone. */
  function KindOfRow(r: Row): Option<Kind>
  {
    match (|r.columns|, r.icon)
    case (2, PkgInstall) => Some(Install)
    case (2, PkgDel) => Some(Remove)
    case (2, TreePlus) => Some(RepoAdd)
    case (1, TreeMinus) => Some(RepoRemove)
    case (1, NoIcon) => Some(RepoAliasChange)
    case (2, NoIcon) => Some(RepoUrlChange)
    case _ => None
  }

  /** Every row the dialog shows identifies the kind of its action: the
      column mapping and the icon mapping together lose no kind. */
  lemma RowIdentifiesKind(a: Action)
    requires !a.OtherAction?
    ensures ActionRow(a).Some? && KindOfRow(ActionRow(a).value) == Some(KindOf(a))
  {
  }

  /** The row determines the whole action unless both actions are alias
      changes (whose single column joins two aliases): the mapping loses no
      field of any other kind, and no alias change shares a row with an
      action of another kind. */
  lemma RowDeterminesAction(a: Action, b: Action)
    requires !(a.RepoAliasChanged? && b.RepoAliasChanged?)
    requires ActionRow(a) == ActionRow(b)
    ensures a == b
  {
    if !a.OtherAction? {
      RowIdentifiesKind(a);
      RowIdentifiesKind(b);
    }
  }

  /** What the joined alias-change column loses: when an alias itself holds
      the arrow, two different alias changes show the very same row. */
  lemma AliasChangeAmbiguous(x: string, y: string, z: string)
    ensures RepoAliasChanged(x + " -> " + y, z) != RepoAliasChanged(x, y + " -> " + z)
    ensures ActionRow(RepoAliasChanged(x + " -> " + y, z)) == ActionRow(RepoAliasChanged(x, y + " -> " + z))
  {
    assert |x + " -> " + y| > |x|;
    assert x + " -> " + y + " -> " + z == x + " -> " + (y + " -> " + z);
  }
}
