# MFMT command handler — a Dafny model

This project models the `MFMT` ("modify fact: modification time") command handler of
the FubarDev FTP server. The command comes from the IETF draft draft-somers-ftp-mfxx. It
uses the `Modify` fact of RFC 3659 (section 7.5.3) and the `213` reply of RFC 959.

The request is `MFMT <timestamp> <path>`. The handler works like this:

- It splits the argument at the first space only, so the path may contain spaces.
- It answers `551 Timestamp or file name missing.` when there is no space.
- It answers `551 Invalid timestamp.` when the first part does not parse in the fixed zone `UTC`.
- It searches for the path against a snapshot of the session's working location.
- It answers `550 File not found.` when the search finds nothing or finds no entry.
- Otherwise it makes one timestamp write that sets the modification time only.
- It then answers `213 Modify=<value>; <full path><file name>`.

Files:

- `wrappers.dfy`: module `Wrappers`, the `Option` type used for nullable results.
- `arguments.dfy`: module `Arguments`. `IndexOf` and `SplitAtFirstSpace` model .NET's
  `Split(new[] { ' ' }, 2)`. `SplitUnique` proves that the split inverts joining with one space.
- `facts.dfy`: module `Facts`. It holds `Instant` (a UTC time), `Fact` (name and value) and `ModifyFact`.
- `file_system.dfy`: module `FileSystem`, the backend as a class `UnixFileSystem`.
  Path search is a table from (working location, path text) to a search result.
  Three maps hold the modify, access and create times. A log records every call the backend receives.
- `mfmt_command_handler.dfy`: module `Mfmt`. `Decide` is the decision procedure as a pure function.
  `Respond` gives the reply for an outcome and `BackendCalls` gives the backend calls.
  The lemmas state the outcome for each shape of argument. The class
  `MfmtCommandHandler` holds `GetSupportedFeatures` and `Process`, and `Process`
  is proved to agree with `Decide`, `Respond` and `BackendCalls`.

Parameters stand in for the collaborators whose code is not part of this model. They
are grouped in the `Collaborators` record:

- `TryParseTimestamp` (text and zone name to an optional instant),
- the rendered value of the modify fact,
- `GetFullPath` of a working location.

## Model

| member | source | states |
|---|---|---|
| `Arguments.IndexOf` | FubarDev.FtpServer/CommandHandlers/MfmtCommandHandler.cs:40 | the cut point of the split: absent exactly when the text has no space, else the position of a space with no space before it |
| `Arguments.SplitAtFirstSpace` | FubarDev.FtpServer/CommandHandlers/MfmtCommandHandler.cs:40-41 | one or two parts; two exactly when the text contains a space; one part is the whole text; with two parts the first has no space and first + " " + second is the text |
| `Arguments.SplitUnique` | FubarDev.FtpServer/CommandHandlers/MfmtCommandHandler.cs:40 | for any space-free first part and any rest (spaces and empty allowed), splitting first + " " + rest gives back exactly [first, rest] |
| `Arguments.SplitExamples` | FubarDev.FtpServer/CommandHandlers/MfmtCommandHandler.cs:40 | "a" and "" give one part; "a " gives ["a", ""]; " a" gives ["", "a"] |
| `FileSystem.SetIfPresent` | FubarDev.FtpServer/CommandHandlers/MfmtCommandHandler.cs:59 | an absent timestamp leaves its column unchanged; a present one is stored for the entry; every other entry keeps its time and no entry is added |
| `FileSystem.UnixFileSystem.SearchFileAsync` | FubarDev.FtpServer/CommandHandlers/MfmtCommandHandler.cs:53 | returns the resolution of the path text against the given working location, including the directory the walk leaves the caller's copy of the path at, and records one search call |
| `FileSystem.UnixFileSystem.SetMacTimeAsync` | FubarDev.FtpServer/CommandHandlers/MfmtCommandHandler.cs:59 | each of the three times changes only when given, and only for the entry; one write call is recorded |
| `Mfmt.Decide` | FubarDev.FtpServer/CommandHandlers/MfmtCommandHandler.cs:40-57 | the argument is missing exactly when it has no space; otherwise, with token = the text before the first space and path = everything after it: invalid timestamp exactly when the token does not parse in "UTC"; not found exactly when it parses and the search for path from the snapshot yields nothing or no entry; on success the time is the parsed one and entry, file name and directory are the search's |
| `Mfmt.ModifiedMessage` | FubarDev.FtpServer/CommandHandlers/MfmtCommandHandler.cs:64 | the reply text has length name + value + full name + 3, starts with the fact name and "=", and ends with "; " and the full name |
| `Mfmt.ModifiedMessageReadsBack` | FubarDev.FtpServer/CommandHandlers/MfmtCommandHandler.cs:64 | when the fact name has no "=" and the value no ";", the text up to the first "=" is the name, the text from there to the next ";" is the value, and the rest is a space and the full name |
| `Mfmt.Respond` | FubarDev.FtpServer/CommandHandlers/MfmtCommandHandler.cs:41-64 | the reply code has three digits and is 551 exactly for a missing argument or a bad timestamp, 550 exactly for not found, 213 exactly for a modified entry |
| `Mfmt.BackendCalls` | FubarDev.FtpServer/CommandHandlers/MfmtCommandHandler.cs:41-59 | no backend call exactly on the two 551 paths; otherwise the first call is the search on the snapshot path and the path text; the only write is one modify-only write of the parsed time on the found entry, and only on success |
| `Mfmt.MissingIffNoSpace` | FubarDev.FtpServer/CommandHandlers/MfmtCommandHandler.cs:40-44 | the argument is rejected as missing exactly when it has no space; then the reply is 551 "Timestamp or file name missing." and the backend is not called |
| `Mfmt.InvalidTimestampBeforeBackend` | FubarDev.FtpServer/CommandHandlers/MfmtCommandHandler.cs:46-49 | when the text before the first space does not parse in zone "UTC", the reply is 551 "Invalid timestamp." and the backend is not called |
| `Mfmt.NotFoundWithoutWrite` | FubarDev.FtpServer/CommandHandlers/MfmtCommandHandler.cs:51-57 | with a valid timestamp, the search is for everything after the first space against the snapshot path; a missing result or a result without an entry gives 550 "File not found." after that search alone, with no write |
| `Mfmt.ModifiedOnFound` | FubarDev.FtpServer/CommandHandlers/MfmtCommandHandler.cs:59-64 | with a valid timestamp and a found entry: the search, then one write on that entry with modify = the parsed time and no access or create time; reply 213 "Modify=" + rendered time + "; " + full path of the directory the search walked the copied path to + file name |
| `Mfmt.ReplyTimeReparses` | FubarDev.FtpServer/CommandHandlers/MfmtCommandHandler.cs:59-64 | on success the written time and the fact in the reply are the same instant, so if rendering re-parses every instant the parser can produce, the printed value reads back as the written time |
| `Mfmt.MfmtCommandHandler.constructor` | FubarDev.FtpServer/CommandHandlers/MfmtCommandHandler.cs:26-29 | the handler is registered under the name "MFMT" on the given session |
| `Mfmt.MfmtCommandHandler.GetSupportedFeatures` | FubarDev.FtpServer/CommandHandlers/MfmtCommandHandler.cs:32-35 | exactly one feature, named "MFMT"; the function reads no state, so the answer does not depend on the connection |
| `Mfmt.MfmtCommandHandler.Process` | FubarDev.FtpServer/CommandHandlers/MfmtCommandHandler.cs:38-65 | the reply is `Respond` of `Decide` (its full name uses the directory the search leaves the copied path at) and the backend receives exactly `BackendCalls` of it. Only the found entry's modify time changes, and only on success. Access and create times, the resolution table, the session path and the session's backend stay unchanged |

## Left out

- Async, `ConfigureAwait` and cancellation tokens are not modelled. Calls are sequential, and a cancelled operation never produces a reply.
- The timestamp grammar behind `TryParseTimestamp` is not part of this model. It is the parameter `tryParseTimestamp`. It always receives the zone "UTC".
- The rendering of `ModifyFact.Value` is not part of this model. It is the parameter `factValue`.
- `GetFullPath` is not part of this model. It is the parameter `getFullPath`.
- Path search ("." and ".." segments, absolute and relative paths) is not part of this model. It is the table `resolution`.
- `Path.Clone` is a copy of a value: a working location is a sequence of directory names. The search's walk over that copy (pushing and popping directories) is not modelled step by step; the search result reports the directory the walk ends at, and the reply prints that directory. The session's own path is never changed.
- `Instant` holds a UTC tick count. The .NET offset type is not modelled.
- `ModifyFact` and its base class are not part of this model. Its name is spelled "Modify", as the replies in draft-somers-ftp-mfxx spell it. RFC 3659 fact names are case-insensitive anyway.
- Mfmt.ReplyTimeReparses: it proves the render-then-parse round trip only under the hypothesis that rendering re-parses every instant the unseen grammar can produce, because neither the rendering nor the grammar is part of this model.
- Faults from storage backends are not modelled. This covers a backend that cannot store timestamps and the dispatcher's conversion of faults to 500-series replies.
- The `FtpCommandHandler` base class, `IFtpConnection`, the command dispatcher and the socket I/O that sends the reply are not modelled. The session is a `Session` object that holds the working location and the backend.
