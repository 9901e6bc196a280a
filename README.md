# fix-attrs core, modelled in Dafny

`fix-attrs` reads a JSON or YAML configuration that lists paths together with the
owner, group and mode each should have. It then runs `chown` and `chmod` on those paths.
This project models the three pieces of sequential logic in it:

- **The configuration walker** (command/fix.go). The decoded document is a tagged tree:
  `List`, a string-keyed map (`StrMap`, from the JSON decoder), a map with arbitrary keys
  given as its pairs in range order (`AnyMap`, from the YAML decoder), `Str`, `Bool`,
  `Null` and `Other`.
  - `iterRoot` and `iterFile` fill one shared map from full path to
    `{recursive, {dirAttr, fileAttr}}`. The model is the class `Walker.PathMap`, whose
    methods update its `entries` field in place. Each method is proved equal to the
    specification functions `WalkRoot`/`WalkFile`.
  - `log.Fatal` becomes an `Err` that ends the walk.
  - An `owner:group:mode` token is split and kept as three verbatim strings. Nothing is
    resolved to a number and nothing is parsed as octal.
  - The file also supplies the format default of `handleFix`, the format switch of
    `parseContent`, and the choice between `dirAttr` and `fileAttr` in
    `changeOwnershipAndMode`, together with the arguments it hands to `chown`/`chmod`
    and its stop after a failing `chown`.
- **The identity-file matcher** (os/lookup.go). `LineScan` models the
  `loopAndCompare` closure. Both lookup files copy it verbatim.
  - The file is its text. `ReadString('\n')` hands out newline-terminated lines, and the
    final chunk without a newline arrives with `io.EOF` and is dropped.
  - A line is a candidate when it has at least three `:`-separated fields and its compared
    field equals the key. The first candidate wins.
- **Group lookup** (os/group/lookup.go). This is the same matcher on the group file. The
  by-id branch never returns a group: after a match it still reports an unknown group id.

Behaviour pinned down as the code has it:
- Duplicate full paths are not detected. A later entry silently replaces an earlier one,
  because the check is only a commented-out TODO. The commented-out
  `log.Fatal("duplicate path: ", fullPath)` at command/fix.go:247-252 never runs.
- A scalar (neither a list nor a map) is skipped when it is the root or an element of a
  root list; a list is walked element by element. As a child
  in `files` it is fatal, because `prepareFile` returns `nil` and `path` is then missing.
- `attrtupleval` accepts `attr` or the `attr-dir`/`attr-file` pair for any entry,
  recursive or not. The code does not require the split form for recursive entries.
- Owner, group and mode stay strings in command/fix.go. No identity is resolved, no cache
  is consulted and no mode is parsed there.
- A child whose `path` is `""` (or `.` under a non-empty parent path) gets its parent's
  own full path, since `path.Join(parent, "")` is `parent` cleaned. The child's value then
  silently replaces the parent's.
- The `--format` usage text names `yaml`, and a configuration named `x.yaml` defaults to
  the format `yaml`, but `parseContent` accepts only `json` and `yml`, so that format is
  rejected as invalid.
- For a path ending in `.`, the format default is the empty string (the extension minus
  its dot). `parseContent` then rejects it; it does not fall back to `json`.
- The by-id branch of `LookupIdentity` takes field 1 as the name. In a passwd or group
  line, field 1 is the password column.
- A line with exactly three fields keeps its newline in field 2, so that field never parses
  as a number.

Go's `int` is taken to be 64 bits for `strconv.Atoi`.

## Model

| member | source | states |
|---|---|---|
| `GoStrings.Split` | command/fix.go:323 | `strings.Split` on `:` gives one more part than there are separators, no part holds a separator, and joining the parts gives the input back |
| `GoStrings.SplitJoin` | command/fix.go:323 | splitting the join of separator-free parts gives back exactly those parts (the other half of the round trip) |
| `GoStrings.SplitSnoc` | command/fix.go:323 | a separator-free last field splits off as the last part |
| `GoStrings.Atoi` | os/lookup.go:44 | `strconv.Atoi` succeeds only on a text that starts with `+`, `-` or a digit, continues with digits only and has a value that fits a 64-bit int |
| `GoStrings.AtoiDigits` | os/lookup.go:44 | every non-empty run of digits whose value fits parses to that value, leading zeros included |
| `GoStrings.AtoiSignedDigits` | os/lookup.go:44 | the same run after `+` parses to its value and after `-` to its negation, when that fits |
| `GoStrings.AtoiDigitsOverflow` | os/lookup.go:44-46 | a digit run whose value exceeds the 64-bit maximum is refused |
| `GoStrings.AtoiSignedOverflow` | os/lookup.go:44-46 | a `+` or `-` run whose signed value falls outside the 64-bit range is refused |
| `GoStrings.AtoiItoa` | os/group/lookup.go:69 | `Atoi` reads back every 64-bit integer printed in decimal |
| `GoStrings.ToLower` | command/fix.go:109 | `strings.ToLower` keeps the length and lowers each ASCII capital in place, leaving every other character as it is |
| `GoPath.Clean` | command/fix.go:253 | `path.Clean` never returns the empty string |
| `GoPath.PathJoin` | command/fix.go:253 | `path.Join(parent, path)` is empty exactly when both inputs are empty |
| `GoPath.CleanVanishingLast` | command/fix.go:253 | `path.Clean` drops a trailing `/` or `/.` |
| `GoPath.JoinVanishingElement` | command/fix.go:253 | joining `""` to a joined path gives it back, and so does joining `.` to a non-empty one |
| `GoPath.CleanIdempotent` | command/fix.go:253 | `path.Clean` is idempotent |
| `GoPath.PathJoinClean` | command/fix.go:253 | `path.Join(parent, path)` is empty exactly when both inputs are empty, and otherwise already clean |
| `GoPath.Ext` | command/fix.go:102 | `filepath.Ext` is empty, or a suffix of the path that starts with the last `.` of the final element and holds no other `.` or `/`; it is empty exactly when every `.` is followed by a `/` |
| `Document.FromYamlMap` | command/fix.go:363-377 | the loop over the YAML pairs builds the map in which each pair is stored under its string key, so later pairs overwrite earlier ones; a non-string key is stored under `""` |
| `Document.YamlToStringMapKeys` | command/fix.go:365-374 | the converted map has exactly the key strings of the pairs |
| `Document.YamlToStringMapLastWins` | command/fix.go:370-374 | a repeated key keeps the value of its last pair |
| `Document.YamlToStringMapValues` | command/fix.go:374 | every value of the converted map is the value of one of the pairs |
| `Document.PrepareFile` | command/fix.go:270-280 | a string-keyed map is used as it is, a YAML map is converted, and anything else yields an empty map |
| `Document.Val` | command/fix.go:282-289 | the lookup succeeds exactly when the key is present, and otherwise fails with "Key not found" naming the key |
| `Document.StringVal` | command/fix.go:291-302 | succeeds exactly on a present string value; a missing key and a non-string value are distinct errors naming the key |
| `Document.BoolVal` | command/fix.go:304-315 | succeeds exactly on a present boolean value; a missing key and a non-bool value are distinct errors naming the key |
| `Document.ArrayVal` | command/fix.go:351-361 | succeeds exactly on a present list value; a missing key and a non-list value are distinct errors naming the key |
| `Document.AttrVal` | command/fix.go:317-333 | succeeds exactly when the value is a string with two `:` (three parts); the parts are colon-free and join back to the token; the error names the key |
| `Document.AttrValRoundTrip` | command/fix.go:323-332 | a token `u:g:p` with colon-free parts parses to exactly `(u, g, p)` |
| `Document.AttrTupleVal` | command/fix.go:335-349 | a parsing `attr` gives equal dir and file attributes; otherwise both `attr-dir` and `attr-file` must parse, and the first failure is the error |
| `Document.AttrTupleFallback` | command/fix.go:340-348 | when `attr` is absent or malformed, a failure always names `attr-dir` or `attr-file`, never `attr` |
| `Walker.FilesBelow` | command/fix.go:261-264 | the `files` list of an entry is structurally inside the entry's node, so the walk terminates |
| `Walker.PathMap.constructor` | command/fix.go:218 | the shared map starts empty |
| `Walker.PathMap.IterRoot` | command/fix.go:223-234 | the map after the call, or the error it stopped at, is what `WalkRoot` computes: a list visits its elements in order, a map is one entry with an empty parent, and anything else is skipped |
| `Walker.PathMap.IterFile` | command/fix.go:236-268 | the map after the call, or the error, is what `WalkFile` computes: the entry is stored at `path.Join(parent, path)`, then the `files` children of a non-recursive entry are walked in order |
| `Walker.PathRequired` | command/fix.go:237-240 | an entry without a string `path` stops the walk with the missing-key or not-a-string error for `path` |
| `Walker.ScalarSkippedAtRootFatalAsChild` | command/fix.go:231-232 | a scalar is skipped where a root is expected, but is fatal as a child (no `path`) |
| `Walker.RecursiveDefaultsToFalse` | command/fix.go:241-245 | a missing or non-boolean `recursive` behaves exactly like `recursive: false` |
| `Walker.RecursiveEntryAddsOneKey` | command/fix.go:259-260 | a recursive entry adds exactly its own full path and ignores `files` |
| `Walker.LeafEntryAddsOneKey` | command/fix.go:259-262 | an entry without a `files` list adds exactly its own full path, with its attribute pair and its recursive flag (false when `recursive` is absent) |
| `Walker.EntryThenChildren` | command/fix.go:259-266 | a non-recursive entry with `files` files itself first, then walks its children in order under its full path |
| `Walker.WalkOneChild` | command/fix.go:263-265 | a lone child is walked exactly as that entry |
| `Walker.VanishingChildPath` | command/fix.go:253 | a child whose `path` is `""`, or `.` under a non-empty parent, has its parent's full path |
| `Walker.ChildAtParentPathReplacesParent` | command/fix.go:253-265 | such a child, as the only one, leaves the map with the child's value at the parent's key and the parent's value gone |
| `Walker.WalkFileKeys` | command/fix.go:259 | a successful entry is filed under its full path, and the walk never removes keys |
| `Walker.WalkFilesKeys` | command/fix.go:263-265 | walking a list of children never removes keys |
| `Walker.ChildrenFiledUnderParent` | command/fix.go:260-266 | every child of a non-recursive entry is filed under the parent's full path joined with its own `path` |
| `Walker.WalkFilesChildKeys` | command/fix.go:263-265 | every child in the walked list is filed under the parent joined with its `path` |
| `Walker.WalkRootListSnoc` | command/fix.go:225-228 | a list root walks its elements in order: one more element runs after the others, starting from the map they left |
| `Walker.LaterEntryOverwrites` | command/fix.go:247-259 | a duplicate path is not an error: a later recursive entry replaces the earlier value under the same key, and never turns success into failure |
| `FixCommand.DefaultFormat` | command/fix.go:101-109 | an empty format becomes the path's extension without its dot, or `json` when there is none; the result is always lower-case |
| `FixCommand.TrailingDotIsNotDefaulted` | command/fix.go:102-106 | a path ending in `.` yields the empty format, not `json` |
| `FixCommand.ParseContent` | command/fix.go:203-221 | a format other than `json`/`yml` is an error, a `nil` document is an error, and otherwise the result is the walk of the document from an empty map |
| `FixCommand.Selected` | command/fix.go:178-182 | the result is the dir or the file attribute; when they differ, it is the dir attribute exactly for a directory |
| `FixCommand.ChangeOwnershipAndMode` | command/fix.go:173-193 | runs `chown uid:gid path` with the selected attribute; runs `chmod perm path` only when `chown` succeeded; returns the first failure, and no error exactly when both succeed; the two first arguments joined by `:` are the selected attribute's token |
| `FixCommand.SharedAttrIgnoresKind` | command/fix.go:178-182 | with a shared `attr`, directories and files get the same attribute |
| `FixCommand.SplitAttrFollowsKind` | command/fix.go:178-182 | with the split form, directories get `attr-dir` and everything else gets `attr-file` |
| `FixCommand.CommandsCarryToken` | command/fix.go:183-187 | the `chown` and `chmod` arguments together rebuild exactly the configured token |
| `LineScan.ReadString` | os/lookup.go:23-26 | a read returns a line that ends at the first newline, and the rest; it reports end of data exactly when no newline is left |
| `LineScan.Lines` | os/lookup.go:22-34 | every line the loop sees holds exactly one newline, at its end |
| `LineScan.LinesCover` | os/lookup.go:22-26 | the lines seen are a prefix of the file, and what is left holds no newline |
| `LineScan.LinesConcat` | os/lookup.go:23 | terminated lines written out are read back as the same lines |
| `LineScan.ReadStringTerminated` | os/lookup.go:23 | a read at the start of a terminated line returns exactly that line |
| `LineScan.UnterminatedTailIgnored` | os/lookup.go:23-26 | a final chunk without a newline changes nothing about the lines examined |
| `LineScan.FirstMatch` | os/lookup.go:30-35 | no result exactly when no line is a candidate; otherwise the result is the return field of the first candidate line |
| `LineScan.FirstMatchSingle` | os/lookup.go:31-32 | a lone candidate line is found |
| `LineScan.FirstMatchAppend` | os/lookup.go:22-34 | the first candidate wins: later lines are consulted only when earlier ones yield nothing |
| `LineScan.LoopAndCompare` | os/lookup.go:21-36 | the reading loop returns exactly the field of the first candidate line, or nothing |
| `LineScan.RecordFields` | os/lookup.go:30 | in `f0:f1:f2:rest` with colon-free leading fields, those fields are fields 0, 1 and 2 |
| `LineScan.RecordIsOneLine` | os/lookup.go:23 | such a record with a terminated tail is read as exactly one line |
| `LineScan.RecordMatch` | os/lookup.go:30-32 | a single record line is found by any of its three leading fields and yields any of them |
| `LineScan.SplitLastField` | os/lookup.go:30 | when a text does not end in the separator, its last field ends with the text's last character |
| `LineScan.ThreeFieldLineLastFieldNotNumber` | os/lookup.go:30-32 | in a line with exactly three fields, field 2 keeps the newline and never parses as a number |
| `IdentityLookup.LookupIdentity` | os/lookup.go:14-61 | by name: a miss is an unknown identity naming `name`, a non-integer field 2 is a parse error, a hit gives field 2's integer and the queried name; by id: the id is kept and the name is field 1 of the first line whose field 2 equals the id's key |
| `IdentityLookup.LookupGroupname` | os/lookup.go:80-82 | a name lookup in the group file; a hit takes its id from field 2 and its name from the query, so the placeholder -1 never survives |
| `IdentityLookup.ByIdNameIsPasswordColumn` | os/lookup.go:48-53 | for `name:password:id:...` the by-id branch returns the password column as the name |
| `GroupLookup.LookupUnix` | os/group/lookup.go:39-87 | by name: a miss is `UnknownGroupError(groupname)`, a non-integer gid is an error, a hit gives field 2's integer and the queried name; by id: always an error, `UnknownGroupError(groupname)` on a miss and `UnknownGroupIdError(gid)` on a hit |
| `GroupLookup.Current` | os/group/lookup.go:18-21 | looking up the current gid never yields a group: `UnknownGroupError("")` when no line's field 2 is the gid's key, `UnknownGroupIdError(gid)` when one is |
| `GroupLookup.Lookup` | os/group/lookup.go:23-27 | the by-name outcome: a miss, a gid parse error, or the group with field 2's gid and the queried name |
| `GroupLookup.LookupId` | os/group/lookup.go:29-37 | a non-numeric gid is refused with the `Atoi` error and no scan; a numeric gid goes to the by-id branch, which never yields a group |
| `GroupLookup.FirstGroupLineWins` | os/group/lookup.go:55-58 | a group file whose first line names the group yields that line's gid field, whatever follows |
| `GroupLookup.DecimalGidReadBack` | os/group/lookup.go:65-72 | a first line carrying a gid in decimal gives back exactly that gid |
| `GroupLookup.ThreeFieldGroupLineUnparsable` | os/group/lookup.go:69-71 | when every line has exactly three fields, a matching line's gid never parses |

## Left out

- Running `chown`/`chmod` and `exec.LookPath` (command/fix.go:84-93, 160-171): these are
  process I/O. The model records the invocations `changeOwnershipAndMode` makes, and
  whether each run fails is an input.
- The filesystem: `fileExists`, `ioutil.ReadFile`, `os.Stat`, `filepath.Glob` and
  `filepath.Walk`, and with them the loop of `handleFix` over the finished map
  (command/fix.go:95-98, 118-157, 195-201, 379-382). Whether a path is a directory is an
  input to `Selected`.
- JSON and YAML decoding (command/fix.go:204-212): the decoded document is an input.
  The decoders' errors are ignored by the code anyway; only a `nil` result is checked.
- The order of a Go map `range` in `fromYamlMap`, which Go randomises. The model takes
  the YAML pairs in one given order.
- The `fmt.Println` diagnostics. They are output only and change no state.
- The CLI wiring (`NewFixCommand`, fix-attrs.go).
- The `uidmap`/`gidmap` caches (command/fix.go:29-30, 115-116). They are allocated and
  never read.
- Opening and reading the identity files, and read errors other than end of file
  (os/lookup.go:15-20, 27-29; os/group/lookup.go:40-43, 52-54): the file is given as its
  text.
- The key for an id: `fmt.Sprintf("%i", id)` is a caller-supplied `keyOf` function here,
  not decimal formatting. The verb is not a decimal verb in Go.
- The `user.Lookup` fallback of `LookupUsername` (os/lookup.go:63-78): it calls the
  operating system's user database, which is not part of this model.
- `syscall.Getgid` in `Current`: the current gid is a parameter.
- GoStrings.ToLower: lowers only the ASCII capitals `A`-`Z`, where Go's `strings.ToLower`
  lowers every Unicode capital. A non-ASCII capital in `--format` or in the configuration
  path's extension is therefore kept rather than lowered by `DefaultFormat`.
- The text of the error messages: errors are datatype values that carry the name, key or
  value the message would show.
