/**
 * The part of the virtual file-system backend that MFMT uses: path search and
 * timestamp mutation. The backend records every call it receives, so that
 * "no backend call" and "exactly one write" can be stated about a handler.
 */
module FileSystem {
  import opened Wrappers
  import opened Facts

  /** A working location: the directory names from the root, as the session's path stack holds them. */
  type Path = seq<string>

  /** An opaque handle to an existing file or directory. */
  datatype Entry = Entry(id: nat)

  /**
   * What a search finds: the entry (which may still be null), its display
   * name, and the working location the search leaves the caller's copy of
   * the path at (the walk pushes and pops directories on that copy, so after
   * a successful search it names the entry's parent directory).
   */
  datatype SearchResult = SearchResult(entry: Option<Entry>, fileName: string, directory: Path)

  /** One call received by the backend. */
  datatype Call =
    | SearchFile(currentPath: Path, path: string)
    | SetMacTime(entry: Entry, modified: Option<Instant>, accessed: Option<Instant>, created: Option<Instant>)

  /**
   * Path resolution, abstracted as a table from (current path, path text) to
   * search result; a missing key is the null result of a failed search.
   */
  function Resolve(resolution: map<(Path, string), SearchResult>, currentPath: Path, path: string): (r: Option<SearchResult>)
    ensures r.Some? <==> (currentPath, path) in resolution
    ensures r.Some? ==> r.value == resolution[(currentPath, path)]
  {
    if (currentPath, path) in resolution then Some(resolution[(currentPath, path)]) else None
  }

  /** One timestamp column after a write: changed for `entry` when a value is present, untouched otherwise. */
  function SetIfPresent(times: map<Entry, Instant>, entry: Entry, value: Option<Instant>): (r: map<Entry, Instant>)
    ensures value.None? ==> r == times
    ensures value.Some? ==> entry in r && r[entry] == value.value
    ensures r.Keys <= times.Keys + {entry}
    ensures forall e :: e in times && e != entry ==> e in r && r[e] == times[e]
  {
    match value
    case None => times
    case Some(t) => times[entry := t]
  }

  class UnixFileSystem {
    /** Where each path text leads from each working location. */
    var resolution: map<(Path, string), SearchResult>
    var modifyTimes: map<Entry, Instant>
    var accessTimes: map<Entry, Instant>
    var createTimes: map<Entry, Instant>
    /** Every call received so far, oldest first. */
    var log: seq<Call>

    constructor (resolution: map<(Path, string), SearchResult>)
      ensures this.resolution == resolution
      ensures modifyTimes == accessTimes == createTimes == map[]
      ensures log == []
    {
      this.resolution := resolution;
      modifyTimes, accessTimes, createTimes := map[], map[], map[];
      log := [];
    }

    /** `SearchFileAsync`: resolve `path` against `currentPath`; a failed search is `None`, never a fault. */
    method SearchFileAsync(currentPath: Path, path: string) returns (r: Option<SearchResult>)
      modifies this`log
      ensures r == Resolve(resolution, currentPath, path)
      ensures log == old(log) + [SearchFile(currentPath, path)]
    {
      r := Resolve(resolution, currentPath, path);
      log := log + [SearchFile(currentPath, path)];
    }

    /** `SetMacTimeAsync`: apply exactly the timestamps that are present to `entry`. */
    method SetMacTimeAsync(entry: Entry, modified: Option<Instant>, accessed: Option<Instant>, created: Option<Instant>)
      modifies this`modifyTimes, this`accessTimes, this`createTimes, this`log
      ensures modifyTimes == SetIfPresent(old(modifyTimes), entry, modified)
      ensures accessTimes == SetIfPresent(old(accessTimes), entry, accessed)
      ensures createTimes == SetIfPresent(old(createTimes), entry, created)
      ensures log == old(log) + [SetMacTime(entry, modified, accessed, created)]
    {
      modifyTimes := SetIfPresent(modifyTimes, entry, modified);
      accessTimes := SetIfPresent(accessTimes, entry, accessed);
      createTimes := SetIfPresent(createTimes, entry, created);
      log := log + [SetMacTime(entry, modified, accessed, created)];
    }
  }
}
