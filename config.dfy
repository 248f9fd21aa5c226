/**
 * The process-wide configuration dictionary of backend/main.py and the
 * request body of `POST /config`.
 */
module Config {
  import opened Wrappers

  /** A JSON value held in the configuration dictionary. */
  datatype Value = Null | Bool(b: bool) | Int(i: int) | Str(s: string)

  /** The configuration: a dictionary from key to JSON value. */
  type ConfigDict = map<string, Value>

  const DownloadPathKey := "download_path"
  const MaxConcurrentKey := "max_concurrent_downloads"
  const OrganizeByDateKey := "organize_by_date"
  const OrganizeByArtistKey := "organize_by_artist"

  /** The configuration used when no configuration file exists. */
  const DefaultConfig: ConfigDict := map[
    DownloadPathKey := Str("/downloads"),
    MaxConcurrentKey := Int(3),
    OrganizeByDateKey := Bool(false),
    OrganizeByArtistKey := Bool(true)
  ]

  /**
   * One optional field of the request body: left out of the request, or
   * present with JSON `null` or with a value. Only fields present in the
   * request survive `dict(exclude_unset=True)`, `null` ones included.
   */
  datatype Field<T> = Unset | Set(given: Option<T>)

  /** The body of `POST /config`. */
  datatype ConfigUpdate = ConfigUpdate(
    downloadPath: Field<string>,
    maxConcurrentDownloads: Field<int>,
    organizeByDate: Field<bool>,
    organizeByArtist: Field<bool>)

  /** The one-entry dictionary a present field contributes, or nothing for an unset one. */
  function Entry<T>(key: string, f: Field<T>, toValue: T -> Value): map<string, Value> {
    match f
    case Unset => map[]
    case Set(None) => map[key := Null]
    case Set(Some(v)) => map[key := toValue(v)]
  }

  /** The value a present field is stored as. */
  function FieldValue<T>(f: Field<T>, toValue: T -> Value): Value
    requires f.Set?
  {
    if f.given.Some? then toValue(f.given.value) else Null
  }

  /**
   * `update.dict(exclude_unset=True)`: exactly the fields the request set,
   * each under its own key, `null` for a field sent as null.
   */
  function UpdateData(u: ConfigUpdate): (d: map<string, Value>)
    ensures DownloadPathKey in d <==> u.downloadPath.Set?
    ensures MaxConcurrentKey in d <==> u.maxConcurrentDownloads.Set?
    ensures OrganizeByDateKey in d <==> u.organizeByDate.Set?
    ensures OrganizeByArtistKey in d <==> u.organizeByArtist.Set?
    ensures d.Keys <= {DownloadPathKey, MaxConcurrentKey, OrganizeByDateKey, OrganizeByArtistKey}
    ensures u.downloadPath.Set? ==> d[DownloadPathKey] == FieldValue(u.downloadPath, s => Str(s))
    ensures u.maxConcurrentDownloads.Set? ==> d[MaxConcurrentKey] == FieldValue(u.maxConcurrentDownloads, n => Int(n))
    ensures u.organizeByDate.Set? ==> d[OrganizeByDateKey] == FieldValue(u.organizeByDate, b => Bool(b))
    ensures u.organizeByArtist.Set? ==> d[OrganizeByArtistKey] == FieldValue(u.organizeByArtist, b => Bool(b))
  {
    Entry(DownloadPathKey, u.downloadPath, s => Str(s))
    + Entry(MaxConcurrentKey, u.maxConcurrentDownloads, n => Int(n))
    + Entry(OrganizeByDateKey, u.organizeByDate, b => Bool(b))
    + Entry(OrganizeByArtistKey, u.organizeByArtist, b => Bool(b))
  }

  /** Python truthiness of `config.get(key)`: a missing key reads as `None`. */
  function GetTruthy(c: ConfigDict, key: string): (b: bool)
    ensures key !in c ==> !b
    ensures key in c && c[key].Bool? ==> b == c[key].b
    ensures key in c && c[key].Null? ==> !b
    ensures key in c && c[key].Int? ==> b == (c[key].i != 0)
    ensures key in c && c[key].Str? ==> b == (c[key].s != "")
  {
    if key !in c then false
    else match c[key]
      case Null => false
      case Bool(b) => b
      case Int(n) => n != 0
      case Str(s) => s != ""
  }

  /** Whether downloads go into a per-date folder, read afresh for every download. */
  function OrganizeByDate(c: ConfigDict): bool {
    GetTruthy(c, OrganizeByDateKey)
  }

  /** Sending "organize_by_date" with a value switches date folders on or off for later downloads. */
  lemma UpdateSetsOrganizeByDate(c: ConfigDict, u: ConfigUpdate)
    requires u.organizeByDate.Set? && u.organizeByDate.given.Some?
    ensures OrganizeByDate(c + UpdateData(u)) == u.organizeByDate.given.value
  {
  }
}
