/** Records of the configuration package: debrid accounts, the WebDAV
    tunables block, the qBittorrent emulation block and the repair block,
    together with the literal constants the defaulting rules use. */
module ConfigTypes {

  datatype Option<T> = None | Some(value: T)

  /** Go's int64, the type of ParseSize results and of file sizes. */
  newtype int64 = x: int | -0x8000_0000_0000_0000 <= x < 0x8000_0000_0000_0000

  /** The value type of a WebDAV directories map. Its definition lives
      outside the configuration package; the model never looks inside. */
  type WebdavDirectories

  /** The Directories field of a WebDav block. Go maps are references, so
      besides "nil" and "a map of its own" a debrid's field may be the very
      map object held in the global WebDav block: `SharedWithGlobal` stands
      for that alias, and its entries are always the global map's current
      entries. The global block itself is only ever `Nil` or `Entries`. */
  datatype Directories =
    | Nil
    | Entries(entries: map<string, WebdavDirectories>)
    | SharedWithGlobal

  /** The WebDav block: embedded in every Debrid and present once globally. */
  datatype WebDav = WebDav(
    torrentsRefreshInterval: string,
    downloadLinksRefreshInterval: string,
    workers: int,
    folderNaming: string,
    autoExpireLinksAfter: string,
    directories: Directories,
    rcUrl: string,
    rcUser: string,
    rcPass: string)

  datatype Debrid = Debrid(
    name: string,
    apiKey: string,
    downloadAPIKeys: seq<string>,
    folder: string,
    downloadUncached: bool,
    checkCached: bool,
    rateLimit: string,
    repairRateLimit: string,
    downloadRateLimit: string,
    proxy: string,
    unpackRar: bool,
    addSamples: bool,
    minimumFreeSlot: int,
    useWebDav: bool,
    webDav: WebDav)

  datatype QBitTorrent = QBitTorrent(
    username: string,
    password: string,
    port: string,
    downloadFolder: string,
    categories: seq<string>,
    refreshInterval: int,
    skipPreCache: bool,
    maxDownloads: int)

  datatype Repair = Repair(
    enabled: bool,
    interval: string,
    zurgURL: string,
    autoProcess: bool,
    useWebDav: bool,
    workers: int,
    reInsert: bool,
    strategy: string)

  const RepairStrategyPerTorrent: string := "per_torrent"

  /** Fallbacks used when neither the debrid nor the global block sets a tunable. */
  const DefaultTorrentsRefreshInterval: string := "15s"
  const DefaultDownloadLinksRefreshInterval: string := "40m"
  const DefaultFolderNaming: string := "original_no_ext"
  const DefaultAutoExpireLinksAfter: string := "3d"

  /** Worker goroutines budgeted per CPU before they are split across debrids. */
  const WorkersPerCPU: nat := 50

  /** Go's `cmp.Or(a, b)` on strings: the first argument that is not the empty string. */
  function FirstNonEmpty(a: string, b: string): (r: string)
    ensures a != "" ==> r == a
    ensures a == "" ==> r == b
    ensures r == "" <==> a == "" && b == ""
  {
    if a != "" then a else b
  }

  /** The entries a debrid's Directories field denotes, given the global block
      it may alias. A nil map ranges over nothing. */
  function EntriesOf(dirs: Directories, global: WebDav): (m: map<string, WebdavDirectories>)
  {
    match dirs
    case Nil => map[]
    case Entries(m) => m
    case SharedWithGlobal => if global.directories.Entries? then global.directories.entries else map[]
  }

  /** A debrid's Directories may alias the global map only when that map exists. */
  predicate AliasConsistent(global: WebDav, d: Debrid)
  {
    d.webDav.directories.SharedWithGlobal? ==> global.directories.Entries?
  }

  /** The global block never aliases itself. */
  predicate GlobalWellFormed(global: WebDav)
  {
    !global.directories.SharedWithGlobal?
  }
}
