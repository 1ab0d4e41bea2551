/**
  The static registry of synchronised entity types: the category each type belongs to and the
  policy used to merge a stale edit of it.
 */
module Schema {

  datatype EntityType =
    | Todo | TodoCategory | Note | NoteTaxon | Link | LinkGroup | Preference
    | ClipboardEntry | ClipboardFavorite | Screenshot | AiSession | FinanceWatchlist
    | Command | LauncherFavorite | LauncherAlias | WeatherLocation

  datatype Category =
    | Todos | Notes | Links | Preferences | Clipboard | Screenshots
    | AiSessions | Finance | Commands | Launcher | Location

  datatype MergePolicy = ByField | KeepCopy | LastWriterWins

  function CategoryOf(t: EntityType): Category {
    match t
    case Todo | TodoCategory => Todos
    case Note | NoteTaxon => Notes
    case Link | LinkGroup => Links
    case Preference => Preferences
    case ClipboardEntry | ClipboardFavorite => Clipboard
    case Screenshot => Screenshots
    case AiSession => AiSessions
    case FinanceWatchlist => Finance
    case Command => Commands
    case LauncherFavorite | LauncherAlias => Launcher
    case WeatherLocation => Location
  }

  function PolicyOf(t: EntityType): MergePolicy {
    match t
    case Note | AiSession | Command => KeepCopy
    case Preference | WeatherLocation => LastWriterWins
    case _ => ByField
  }

  /** The name under which a type appears in keys and tokens. */
  function NameOf(t: EntityType): string {
    match t
    case Todo => "todo"
    case TodoCategory => "todoCategory"
    case Note => "note"
    case NoteTaxon => "noteTaxon"
    case Link => "link"
    case LinkGroup => "linkGroup"
    case Preference => "preference"
    case ClipboardEntry => "clipboardEntry"
    case ClipboardFavorite => "clipboardFavorite"
    case Screenshot => "screenshot"
    case AiSession => "aiSession"
    case FinanceWatchlist => "financeWatchlist"
    case Command => "command"
    case LauncherFavorite => "launcherFavorite"
    case LauncherAlias => "launcherAlias"
    case WeatherLocation => "weatherLocation"
  }

  /** Which types make up each category, and how stale edits of each are merged. */
  lemma RegistryExactly(t: EntityType)
    ensures CategoryOf(t) == Todos <==> t == Todo || t == TodoCategory
    ensures CategoryOf(t) == Notes <==> t == Note || t == NoteTaxon
    ensures CategoryOf(t) == Links <==> t == Link || t == LinkGroup
    ensures CategoryOf(t) == Preferences <==> t == Preference
    ensures CategoryOf(t) == Clipboard <==> t == ClipboardEntry || t == ClipboardFavorite
    ensures CategoryOf(t) == Screenshots <==> t == Screenshot
    ensures CategoryOf(t) == AiSessions <==> t == AiSession
    ensures CategoryOf(t) == Finance <==> t == FinanceWatchlist
    ensures CategoryOf(t) == Commands <==> t == Command
    ensures CategoryOf(t) == Launcher <==> t == LauncherFavorite || t == LauncherAlias
    ensures CategoryOf(t) == Location <==> t == WeatherLocation
    ensures PolicyOf(t) == LastWriterWins <==> t == Preference || t == WeatherLocation
    ensures PolicyOf(t) == KeepCopy <==> t == Note || t == AiSession || t == Command
  {
  }
}
