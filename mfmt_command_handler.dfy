/**
 * The MFMT ("modify fact: modification time") command handler.
 *
 * `Decide` is the handler's decision procedure as a function of its inputs,
 * `Respond` the reply it sends and `BackendCalls` the calls it makes; the
 * lemmas state the outcome for every shape of argument, and
 * `MfmtCommandHandler.Process` is proved to behave exactly as they say.
 */
module Mfmt {
  import opened Wrappers
  import opened Arguments
  import opened Facts
  import opened FileSystem

  /** A parsed command: the verb and the raw remaining text. */
  datatype FtpCommand = FtpCommand(name: string, argument: string)

  /** One protocol reply: a numeric code and its text. */
  datatype FtpResponse = FtpResponse(code: int, message: string)

  /** A feature advertised in the feature-negotiation reply. */
  datatype FeatureInfo = GenericFeatureInfo(name: string)

  /**
   * The collaborators whose code is not part of this model: timestamp
   * parsing (text and zone name to an optional instant), the rendered value
   * of the modify fact, and the printable form of a working location.
   */
  datatype Collaborators = Collaborators(
    tryParseTimestamp: (string, string) -> Option<Instant>,
    factValue: Instant -> string,
    getFullPath: Path -> string)

  /** MFMT timestamps are always read in this zone, never in a session zone. */
  const TimestampZone: string := "UTC"

  const MissingMessage: string := "Timestamp or file name missing."
  const InvalidTimestampMessage: string := "Invalid timestamp."
  const NotFoundMessage: string := "File not found."

  /** Which way a request goes, with what the backend was asked on the way. */
  datatype Outcome =
    | ArgumentMissing
    | InvalidTimestamp
    | FileNotFound(currentPath: Path, path: string)
    | Modified(currentPath: Path, path: string, entry: Entry, time: Instant, fileName: string, directory: Path)

  /**
   * The decision procedure of `Process` for `argument`, the snapshot
   * `currentPath` of the session path and the backend's `resolution` table.
   */
  function Decide(argument: string, currentPath: Path, resolution: map<(Path, string), SearchResult>,
                  env: Collaborators): (r: Outcome)
    ensures r.ArgumentMissing? <==> ' ' !in argument
    ensures !r.ArgumentMissing? ==>
      var i := IndexOf(argument, ' ').value;
      var token, path := argument[..i], argument[i + 1..];
      && (r.InvalidTimestamp? <==> env.tryParseTimestamp(token, TimestampZone).None?)
      && (r.FileNotFound? || r.Modified? ==> r.currentPath == currentPath && r.path == path)
      && (r.FileNotFound? <==>
            env.tryParseTimestamp(token, TimestampZone).Some? &&
            (Resolve(resolution, currentPath, path).None? || Resolve(resolution, currentPath, path).value.entry.None?))
      && (r.Modified? ==>
            env.tryParseTimestamp(token, TimestampZone) == Some(r.time) &&
            Resolve(resolution, currentPath, path) == Some(SearchResult(Some(r.entry), r.fileName, r.directory)))
  {
    var parts := SplitAtFirstSpace(argument);
    if |parts| != 2 then ArgumentMissing
    else match env.tryParseTimestamp(parts[0], TimestampZone)
      case None => InvalidTimestamp
      case Some(time) =>
        var fileInfo := Resolve(resolution, currentPath, parts[1]);
        if fileInfo.None? || fileInfo.value.entry.None? then FileNotFound(currentPath, parts[1])
        else Modified(currentPath, parts[1], fileInfo.value.entry.value, time, fileInfo.value.fileName,
                      fileInfo.value.directory)
  }

  /** The text of the success reply: `<fact name>=<fact value>; <full name>`. */
  function ModifiedMessage(fact: Fact, fullName: string): (m: string)
    ensures |m| == |fact.name| + |fact.value| + |fullName| + 3
    ensures m[..|fact.name| + 1] == fact.name + "="
    ensures m[|m| - |fullName| - 2..] == "; " + fullName
  {
    fact.name + "=" + fact.value + "; " + fullName
  }

  /** The reply sent for an outcome. */
  function Respond(o: Outcome, env: Collaborators): (r: FtpResponse)
    ensures 100 <= r.code <= 999
    ensures r.code == 551 <==> o.ArgumentMissing? || o.InvalidTimestamp?
    ensures r.code == 550 <==> o.FileNotFound?
    ensures r.code == 213 <==> o.Modified?
  {
    match o
    case ArgumentMissing => FtpResponse(551, MissingMessage)
    case InvalidTimestamp => FtpResponse(551, InvalidTimestampMessage)
    case FileNotFound(_, _) => FtpResponse(550, NotFoundMessage)
    case Modified(_, _, _, time, fileName, directory) =>
      FtpResponse(213, ModifiedMessage(ModifyFact(time, env.factValue), env.getFullPath(directory) + fileName))
  }

  /** The timestamp writes among `calls`, in order. */
  function Writes(calls: seq<Call>): seq<Call>
  {
    if calls == [] then []
    else (if calls[0].SetMacTime? then [calls[0]] else []) + Writes(calls[1..])
  }

  /** The calls the backend receives for an outcome, in order. */
  function BackendCalls(o: Outcome): (calls: seq<Call>)
    ensures calls == [] <==> o.ArgumentMissing? || o.InvalidTimestamp?
    ensures calls != [] ==> calls[0] == SearchFile(o.currentPath, o.path)
    ensures Writes(calls) == if o.Modified? then [SetMacTime(o.entry, Some(o.time), None, None)] else []
  {
    match o
    case ArgumentMissing => []
    case InvalidTimestamp => []
    case FileNotFound(currentPath, path) => [SearchFile(currentPath, path)]
    case Modified(currentPath, path, entry, time, _, _) =>
      var calls := [SearchFile(currentPath, path), SetMacTime(entry, Some(time), None, None)];
      assert Writes(calls[1..]) == [calls[1]] + Writes(calls[1..][1..]);
      calls
  }

  /**
   * Without a space the argument lacks a timestamp or a file name: 551, and
   * the backend is not called. A space anywhere gets past this check.
   */
  lemma MissingIffNoSpace(argument: string, currentPath: Path, resolution: map<(Path, string), SearchResult>,
                          env: Collaborators)
    ensures Decide(argument, currentPath, resolution, env).ArgumentMissing? <==> ' ' !in argument
    ensures ' ' !in argument ==>
      Respond(Decide(argument, currentPath, resolution, env), env) == FtpResponse(551, MissingMessage) &&
      BackendCalls(Decide(argument, currentPath, resolution, env)) == []
  {
  }

  /**
   * The timestamp is the text before the first space; when it does not parse
   * in the zone "UTC" the reply is 551 and the backend is not called.
   */
  lemma {:induction false} InvalidTimestampBeforeBackend(token: string, path: string, currentPath: Path,
                                                         resolution: map<(Path, string), SearchResult>,
                                                         env: Collaborators)
    requires ' ' !in token
    requires env.tryParseTimestamp(token, TimestampZone).None?
    ensures Decide(token + " " + path, currentPath, resolution, env) == InvalidTimestamp
    ensures Respond(InvalidTimestamp, env) == FtpResponse(551, InvalidTimestampMessage)
    ensures BackendCalls(InvalidTimestamp) == []
  {
    SplitUnique(token, path);
  }

  /**
   * With a valid timestamp the path searched is everything after the first
   * space, spaces included, against the snapshot path; a search that finds
   * nothing, or finds no entry, gives 550 and no timestamp write.
   */
  lemma {:induction false} NotFoundWithoutWrite(token: string, path: string, currentPath: Path,
                                                resolution: map<(Path, string), SearchResult>,
                                                env: Collaborators)
    requires ' ' !in token
    requires env.tryParseTimestamp(token, TimestampZone).Some?
    requires Resolve(resolution, currentPath, path).None? || Resolve(resolution, currentPath, path).value.entry.None?
    ensures Decide(token + " " + path, currentPath, resolution, env) == FileNotFound(currentPath, path)
    ensures Respond(FileNotFound(currentPath, path), env) == FtpResponse(550, NotFoundMessage)
    ensures BackendCalls(FileNotFound(currentPath, path)) == [SearchFile(currentPath, path)]
  {
    SplitUnique(token, path);
  }

  /**
   * With a valid timestamp and a found entry, the backend gets the search and
   * then exactly one write, on that entry, of the parsed time as modify time
   * only; the reply is 213 with the fact built from that same time and the
   * full path of the directory the search walked the copied path to,
   * followed by the entry's name.
   */
  lemma {:induction false} ModifiedOnFound(token: string, path: string, currentPath: Path,
                                           resolution: map<(Path, string), SearchResult>,
                                           env: Collaborators, time: Instant, entry: Entry, fileName: string,
                                           directory: Path)
    requires ' ' !in token
    requires env.tryParseTimestamp(token, TimestampZone) == Some(time)
    requires Resolve(resolution, currentPath, path) == Some(SearchResult(Some(entry), fileName, directory))
    ensures Decide(token + " " + path, currentPath, resolution, env)
         == Modified(currentPath, path, entry, time, fileName, directory)
    ensures Respond(Modified(currentPath, path, entry, time, fileName, directory), env)
         == FtpResponse(213, ModifyFactName + "=" + env.factValue(time) + "; " + env.getFullPath(directory) + fileName)
    ensures BackendCalls(Modified(currentPath, path, entry, time, fileName, directory))
         == [SearchFile(currentPath, path), SetMacTime(entry, Some(time), None, None)]
  {
    SplitUnique(token, path);
  }

  /**
   * When rendering re-parses every instant the parser can produce, the
   * value printed in a 213 reply reads back as the time that was written.
   */
  lemma {:induction false} ReplyTimeReparses(argument: string, currentPath: Path,
                                             resolution: map<(Path, string), SearchResult>, env: Collaborators)
    requires forall s, t :: env.tryParseTimestamp(s, TimestampZone) == Some(t) ==>
                            env.tryParseTimestamp(env.factValue(t), TimestampZone) == Some(t)
    requires Decide(argument, currentPath, resolution, env).Modified?
    ensures var o := Decide(argument, currentPath, resolution, env);
      && Writes(BackendCalls(o)) == [SetMacTime(o.entry, Some(o.time), None, None)]
      && env.tryParseTimestamp(ModifyFact(o.time, env.factValue).value, TimestampZone) == Some(o.time)
      && Respond(o, env).message
         == ModifiedMessage(ModifyFact(o.time, env.factValue), env.getFullPath(o.directory) + o.fileName)
  {
    var o := Decide(argument, currentPath, resolution, env);
    var token := SplitAtFirstSpace(argument)[0];
    assert env.tryParseTimestamp(token, TimestampZone) == Some(o.time);
  }

  /**
   * A client can read the fact back out of a 213 reply: when the fact's name
   * has no '=' and its value no ';' (as for a rendered timestamp), the name
   * runs up to the first '=', the value from there up to the next ';', and
   * the rest is a space and the full name.
   */
  lemma {:induction false} ModifiedMessageReadsBack(fact: Fact, fullName: string)
    requires '=' !in fact.name && ';' !in fact.value
    ensures var m := ModifiedMessage(fact, fullName);
      && IndexOf(m, '=') == Some(|fact.name|)
      && m[..|fact.name|] == fact.name
      && IndexOf(m[|fact.name| + 1..], ';') == Some(|fact.value|)
      && m[|fact.name| + 1..][..|fact.value|] == fact.value
      && m[|fact.name| + 1..][|fact.value| + 1..] == " " + fullName
  {
    var tail := " " + fullName;
    var rest := fact.value + [';'] + tail;
    assert ModifiedMessage(fact, fullName) == fact.name + ['='] + rest;
    IndexOfFirst(fact.name, '=', rest);
    IndexOfFirst(fact.value, ';', tail);
  }

  /** The connection state a handler reads: the working location and the backend. */
  class Session {
    var path: Path
    var fileSystem: UnixFileSystem

    constructor (path: Path, fileSystem: UnixFileSystem)
      ensures this.path == path && this.fileSystem == fileSystem
    {
      this.path := path;
      this.fileSystem := fileSystem;
    }
  }

  class MfmtCommandHandler {
    const name: string
    const data: Session

    constructor (data: Session)
      ensures name == "MFMT" && this.data == data
    {
      name := "MFMT";
      this.data := data;
    }

    /** The features this handler advertises; it reads no state. */
    function GetSupportedFeatures(): (features: seq<FeatureInfo>)
      ensures |features| == 1 && features[0].name == "MFMT"
    {
      [GenericFeatureInfo("MFMT")]
    }

    /** What `Process` is to do with `command` in the current state. */
    ghost function Expected(command: FtpCommand, env: Collaborators): Outcome
      reads data, data.fileSystem
    {
      Decide(command.argument, data.path, data.fileSystem.resolution, env)
    }

    /**
     * Handle one MFMT command: the reply and every backend effect are those
     * of `Decide`; the session, the backend's resolution and the access and
     * creation times are left as they were.
     */
    method Process(command: FtpCommand, env: Collaborators) returns (response: FtpResponse)
      modifies data.fileSystem
      ensures data.path == old(data.path) && data.fileSystem == old(data.fileSystem)
      ensures response == Respond(old(Expected(command, env)), env)
      ensures data.fileSystem.log == old(data.fileSystem.log) + BackendCalls(old(Expected(command, env)))
      ensures data.fileSystem.modifyTimes
           == if old(Expected(command, env)).Modified?
              then old(data.fileSystem.modifyTimes)[old(Expected(command, env)).entry := old(Expected(command, env)).time]
              else old(data.fileSystem.modifyTimes)
      ensures data.fileSystem.accessTimes == old(data.fileSystem.accessTimes)
      ensures data.fileSystem.createTimes == old(data.fileSystem.createTimes)
      ensures data.fileSystem.resolution == old(data.fileSystem.resolution)
    {
      var parts := SplitAtFirstSpace(command.argument);
      if |parts| != 2 {
        return FtpResponse(551, MissingMessage);
      }

      var modificationTime := env.tryParseTimestamp(parts[0], TimestampZone);
      if modificationTime.None? {
        return FtpResponse(551, InvalidTimestampMessage);
      }

      var path := parts[1];
      var currentPath := data.path;
      var fileSystem := data.fileSystem;
      // The search walks the copy `currentPath`; `directory` is where it leaves it.
      var fileInfo := fileSystem.SearchFileAsync(currentPath, path);
      if fileInfo.None? || fileInfo.value.entry.None? {
        return FtpResponse(550, NotFoundMessage);
      }

      fileSystem.SetMacTimeAsync(fileInfo.value.entry.value, modificationTime, None, None);

      var fact := ModifyFact(modificationTime.value, env.factValue);
      var fullName := env.getFullPath(fileInfo.value.directory) + fileInfo.value.fileName;
      return FtpResponse(213, ModifiedMessage(fact, fullName));
    }
  }
}
