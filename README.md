# pidfile-go, modelled in Dafny

A model of the Go package `pidfile`. The package writes the current process id into a
PID file, so that another start of the same program can see that an instance is
already running. It has four parts:

- the pre-check `checkPIDFileAlreadyExists`. It reads the file, trims surrounding
  whitespace and parses the text as an integer with `strconv.Atoi`. It reports a
  conflict only when that pid is alive.
- `New`. It runs the pre-check, then writes the current pid with `%d`, then returns
  an immutable `PIDFile{path, pid}`.
- the accessors `GetPID` and `GetPath`.
- `Remove`, which deletes the file at the stored path.

Files:

- `wrappers.dfy` (module `Wrappers`): `Option` (with `None` standing for Go's `nil`) and `Result`.
- `strings.dfy` (module `GoStrings`): `strings.TrimSpace` with `unicode.IsSpace`.
  The result is characterised as the unique unpadded core of the input.
- `strconv.dfy` (module `GoStrconv`): Go's 64-bit `int` as the subset type `Int`,
  `fmt.Sprintf("%d", n)` as `FormatInt`, and `strconv.Atoi`. The two are proved
  inverse in both directions.
- `pidfile.dfy` (module `PidFile`):
  - the errors;
  - the `PIDFile` value with its accessors and `Remove`;
  - the filesystem as a class `FileSystem`. Its only mutable field is
    `files: map<string, string>`. Constant sets list the paths whose read,
    write or remove fails;
  - the pre-check, `New`, and two client methods that walk a path
    through its life cycle.

External inputs become parameters:

- the liveness oracle `processExists` is the set `alive` of live pids;
- `os.Getpid()` is the parameter `pid`;
- whether a filesystem call fails is given by the `FileSystem`'s sets
  `unreadable`, `unwritable` and `undeletable`.

`PIDFile` is a datatype, so its fields cannot change after construction. `GetPID` and
`GetPath` are functions, so they cannot change any state.

Two consequences of the code:

- A `New` refused on a conflict leaves the existing file present and unchanged (pidfile.go:35-37).
- The pid is any Go `int`. `%d` prints a negative one with a minus sign.

Two types carry Go's number semantics (pidfile.go:18, pidfile.go:24):

- `GoStrconv.Int` is Go's `int` on a 64-bit platform, from `MinInt` to `MaxInt`.
- `GoStrconv.NumError` holds the two failures `strconv.Atoi` reports: `ErrSyntax` and `ErrRange`.
  The pre-check looks only at whether `Atoi` fails, not at which error it returns.

## Model

| member | source | states |
|---|---|---|
| `GoStrings.IsSpace` | pidfile.go:23 | `unicode.IsSpace`: on ASCII exactly the six characters tab, newline, vertical tab, form feed, carriage return and space; no digit or sign is a space |
| `GoStrings.LeadingSpaces` | pidfile.go:23 | counts the longest run of whitespace at the start: all of it is space and the next character is not |
| `GoStrings.TrailingSpaces` | pidfile.go:23 | counts the longest run of whitespace at the end: all of it is space and the character before it is not |
| `GoStrings.TrimSpace` | pidfile.go:23 | the result is the slice of the input after its leading spaces; it neither starts nor ends with a space, and everything after it is space |
| `GoStrings.TrimSpaceUnique` | pidfile.go:23 | any split of a text into spaces, an unpadded core and spaces trims to exactly that core, so the contract of `TrimSpace` determines it |
| `GoStrings.LeadingSpacesOfPadded` | pidfile.go:23 | an all-space prefix before a text that does not start with a space is exactly the leading-space count |
| `GoStrings.TrailingSpacesOfPadded` | pidfile.go:23 | an all-space suffix after a text that does not end with a space is exactly the trailing-space count |
| `GoStrings.TrimSpaceUnpadded` | pidfile.go:23 | text with no surrounding space is returned unchanged |
| `GoStrings.TrimSpaceIdempotent` | pidfile.go:23 | trimming twice is trimming once |
| `GoStrings.TrimSpacePadded` | pidfile.go:23 | extra surrounding whitespace, such as a trailing newline, does not change the trimmed text |
| `GoStrings.TrimSpaceChars` | pidfile.go:23 | every character of the trimmed text occurs in the original |
| `GoStrconv.Digits` | pidfile.go:44 | the decimal digits of a natural number: non-empty, no leading zero, and they denote the number |
| `GoStrconv.FormatInt` | pidfile.go:44 | `%d` output has the canonical shape: an optional minus exactly for negative numbers, then digits without a leading zero |
| `GoStrconv.ScanDigits` | pidfile.go:24 | the base-10 scan loop of `strconv.ParseUint`: success means all digits, with the value they denote, within 64 unsigned bits; a range error only at a digit |
| `GoStrconv.ParseUint` | pidfile.go:24 | `strconv.ParseUint(s, 10, 64)`: success means one or more digits denoting the result, at most `MaxUint64`; a range error means the text starts with a digit |
| `GoStrconv.Atoi` | pidfile.go:24 | success only on an optional sign followed by at least one digit; a negative result needs a minus sign; a range error only when a digit follows the optional sign |
| `GoStrconv.ValuePrefix` | pidfile.go:24 | a prefix of a digit string never denotes more than the whole, so the scan's running value only grows |
| `GoStrconv.ScanAllDigits` | pidfile.go:24 | on a digit string the scan returns its value, or a range error exactly when that value exceeds 64 unsigned bits |
| `GoStrconv.ScanOverflow` | pidfile.go:24 | the scan reports a range error as soon as the digits read exceed `MaxUint64`, before it reads anything after them |
| `GoStrconv.AtoiOverflowFirst` | pidfile.go:24 | digits beyond 64 bits followed by any text, even a non-digit, are a range error, as in Go |
| `GoStrconv.AtoiOfDigits` | pidfile.go:24 | the accepting direction: digits, `+`digits and `-`digits parse to their value, or to a range error outside the 64-bit `int` range |
| `GoStrconv.AtoiFormat` | pidfile.go:24 | format then parse: `Atoi` reads back every `%d` output of a 64-bit `int` as that number |
| `GoStrconv.DigitsValue` | pidfile.go:44 | a digit string without leading zeros is the `%d` digits of its own value |
| `GoStrconv.PositiveValue` | pidfile.go:24 | a digit string that does not start with `0` denotes a positive number |
| `GoStrconv.FormatAtoi` | pidfile.go:24 | parse then format: canonical text that `Atoi` accepts is printed back unchanged by `%d` |
| `GoStrconv.FormatInjective` | pidfile.go:44 | distinct pids are written as distinct text |
| `PidFile.ReadFile` | pidfile.go:22 | `ioutil.ReadFile`: the contents exactly when the file is present and readable. Absent and unreadable both give `None`, so an unreadable file is treated like a missing one |
| `PidFile.CheckPIDFileAlreadyExists` | pidfile.go:21-31 | a conflict exactly when the file is readable, its trimmed contents parse, and the pid is alive; the error names the path; otherwise no error |
| `PidFile.GarbageNoConflict` | pidfile.go:22-30 | a file without a single digit, empty files included, never blocks creation |
| `PidFile.StaleIsLikeAbsent` | pidfile.go:24-25 | a stale pid or unparseable contents pass the pre-check just as an absent file does, and writing the new pid gives the same filesystem as writing to an absent path |
| `PidFile.WriteReplaces` | pidfile.go:44 | writing a path gives the same map whether or not a file was there before |
| `PidFile.ContentRoundTrip` | pidfile.go:23-24 | the text `New` writes, trimmed and parsed as the pre-check does it, gives back the pid written |
| `PidFile.OwnFileConflicts` | pidfile.go:21-31 | once a pid that is alive has been written to a readable path, the pre-check of that path reports a conflict |
| `PidFile.CheckIsLocal` | pidfile.go:21-31 | the pre-check depends on no path other than its own |
| `PidFile.PIDFile.GetPID` | pidfile.go:52-54 | returns the stored pid; as a function it reads and changes no state |
| `PidFile.PIDFile.GetPath` | pidfile.go:57-59 | returns the stored path; as a function it reads and changes no state |
| `PidFile.FileSystem.WriteFile` | pidfile.go:44 | on a writable path the file now holds exactly the data and no other path changes; otherwise a write error and nothing changes |
| `PidFile.FileSystem.RemoveFile` | pidfile.go:63 | a present, removable file is deleted and nothing else changes; otherwise a remove error and nothing changes |
| `PidFile.New` | pidfile.go:34-49 | on a conflict it returns the conflict, no PIDFile, and the map unchanged. On a failed write it returns the write error, no PIDFile, and the map unchanged. Otherwise it returns `PIDFile(path, pid)` and the map changes only at `path`, which holds exactly `%d` of the pid. On success the file parses back to `GetPID()` |
| `PidFile.PIDFile.Remove` | pidfile.go:62-64 | a present, removable file is deleted and nothing else changes; on an absent path a remove error and the map is unchanged |
| `PidFile.CreateTwice` | pidfile.go:34-49 | after a successful `New` with a live pid, a second `New` on the same path is refused and the file keeps the first pid |
| `PidFile.RemoveTwiceThenCreate` | pidfile.go:34-64 | removing deletes the file, a second removal fails, and a following `New` succeeds as on an empty path |

## Left out

- `processExists` is not part of this model: it is platform-specific process probing. The set `alive` stands for its answers.
- `os.Getpid` is an ambient query of the operating system. It is the parameter `pid`.
- `os.MkdirAll` (pidfile.go:40) and its ignored error are not modelled. A flat path-to-contents map has no directories, so creating them changes nothing. A parent directory that MkdirAll cannot create shows up as a path in `unwritable`.
- The file modes 0755 and 0644 are not modelled: nothing in the model reads permissions.
- Error kinds of `ioutil.ReadFile`, `ioutil.WriteFile` and `os.Remove` are collapsed into "fails or succeeds", chosen per path by the sets `unreadable`, `unwritable` and `undeletable`. The errors keep only the path.
- The exact text of the conflict message is not modelled. `Conflict(path)` keeps only the path it names.
- PidFile.FileSystem.WriteFile: a failed write leaves the map unchanged. The real `WriteFile` can create or truncate the file before the write fails, and the model does not capture that partial state.
- Races between the pre-check and the write of another process are out of scope. Every operation runs alone on the map.
- File contents are modelled as Unicode code points (`seq<char>`), not as bytes. Decoding of invalid UTF-8 by `strings.TrimSpace` is not modelled.
- `strconv.Atoi` has a fast path for text shorter than 19 bytes and a slow path through `ParseInt`. On short text the scan cannot overflow, so both paths give the same results and the model has one definition.
- 32-bit Go platforms are not modelled. There `int`, and so the range `Atoi` accepts, is 32 bits wide; the model fixes `Int` at 64 bits.
