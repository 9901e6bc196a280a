/** os/group/lookup.go: group lookup against the group file, after the pattern of Go's
    `os/user`. The group file is given as its text; the key a gid is compared under is
    whatever `keyOf` makes of it (the source formats it with `fmt.Sprintf`). */
module GroupLookup {
  import opened Wrappers
  import opened GoStrings
  import opened LineScan

  datatype Group = Group(gid: int, groupname: string)

  datatype GroupError =
    | UnknownGroupError(name: string)   // no line matched
    | UnknownGroupIdError(gid: int)     // returned by the by-id branch after a match
    | UnableToParseGid(value: string)   // "Unable to parse group id: <value>"
    | NotANumber(num: string)           // the `strconv.Atoi` error of `LookupId`

  /** `lookupUnix(gid, groupname, lookupByName)`. By name: the first line with at least
      three fields whose field 0 is `groupname`; its field 2 must parse as the gid, and the
      group carries the queried name. By id: no group is ever returned; a miss reports
      `groupname` as unknown, a hit reports `gid` as an unknown group id. */
  method LookupUnix(data: string, gid: int, groupname: string, lookupByName: bool, keyOf: int -> string)
    returns (r: Result<Group, GroupError>)
    ensures lookupByName ==>
      var m := FirstMatch(Lines(data), 0, groupname, 2);
      r == if m.None? then Err(UnknownGroupError(groupname))
           else if Atoi(m.value).None? then Err(UnableToParseGid(m.value))
           else Ok(Group(Atoi(m.value).value, groupname))
    ensures !lookupByName ==> r.Err?
    ensures !lookupByName ==>
      r.error == if FirstMatch(Lines(data), 2, keyOf(gid), 1).None? then UnknownGroupError(groupname)
                 else UnknownGroupIdError(gid)
    ensures r.Ok? ==>
      && r.value.groupname == groupname
      && exists j :: FirstCandidate(Lines(data), 0, groupname, j) && Atoi(Fields(Lines(data)[j])[2]) == Some(r.value.gid)
  {
    var id: int;
    var name: string;
    if lookupByName {
      var value := LoopAndCompare(data, 0, groupname, 2);
      if value.None? {
        return Err(UnknownGroupError(groupname));
      }
      var parsed := Atoi(value.value);
      if parsed.None? {
        return Err(UnableToParseGid(value.value));
      }
      id := parsed.value;
      name := groupname;
    } else {
      var value := LoopAndCompare(data, 2, keyOf(gid), 1);
      if value.None? {
        return Err(UnknownGroupError(groupname));
      }
      id := gid;
      name := value.value;
      return Err(UnknownGroupIdError(gid));
    }
    r := Ok(Group(id, name));
  }

  /** `Current`: a by-id lookup of the process's gid (the result of `syscall.Getgid`, given
      here as `currentGid`) with an empty name; it never yields a group: a miss reports the
      empty name as unknown, a hit reports the gid as an unknown group id. */
  method Current(data: string, currentGid: int, keyOf: int -> string) returns (r: Result<Group, GroupError>)
    ensures r == Err(if FirstMatch(Lines(data), 2, keyOf(currentGid), 1).None? then UnknownGroupError("")
                     else UnknownGroupIdError(currentGid))
  {
    r := LookupUnix(data, currentGid, "", false, keyOf);
  }

  /** `Lookup`: a by-name lookup. */
  method Lookup(data: string, groupname: string) returns (r: Result<Group, GroupError>)
    ensures var m := FirstMatch(Lines(data), 0, groupname, 2);
      && (m.None? <==> r == Err(UnknownGroupError(groupname)))
      && (r.Ok? <==> m.Some? && Atoi(m.value).Some?)
      && (r.Ok? ==> r.value == Group(Atoi(m.value).value, groupname))
      && (m.Some? && Atoi(m.value).None? ==> r == Err(UnableToParseGid(m.value)))
  {
    r := LookupUnix(data, -1, groupname, true, (i: int) => "");
  }

  /** `LookupId`: a gid that is not a decimal integer is refused before the file is read;
      any other gid goes to the by-id branch, which never yields a group. */
  method LookupId(data: string, uid: string, keyOf: int -> string) returns (r: Result<Group, GroupError>)
    ensures r.Err?
    ensures Atoi(uid).None? <==> r == Err(NotANumber(uid))
    ensures Atoi(uid).Some? ==>
      r.error == if FirstMatch(Lines(data), 2, keyOf(Atoi(uid).value), 1).None? then UnknownGroupError("")
                 else UnknownGroupIdError(Atoi(uid).value)
  {
    var i := Atoi(uid);
    if i.None? {
      return Err(NotANumber(uid));
    }
    r := LookupUnix(data, i.value, "", false, keyOf);
  }

  /** A group file whose first line names the group gives that line's gid, whatever lines
      follow, including one for the same name. */
  lemma FirstGroupLineWins(name: string, password: string, gidText: string, members: string, more: string)
    requires ':' !in name && ':' !in password && ':' !in gidText
    requires NoNewline(name) && NoNewline(password) && NoNewline(gidText) && Terminated(members)
    ensures FirstMatch(Lines(Record(name, password, gidText, members) + more), 0, name, 2) == Some(gidText)
  {
    var line := Record(name, password, gidText, members);
    RecordIsOneLine(name, password, gidText, members);
    RecordFields(name, password, gidText, members);
    var fs := Fields(line);
    assert fs[0] == name && fs[2] == gidText;
    LinesStep(line, more);
    FirstMatchSingle(line, 0, name, 2);
    FirstMatchAppend([line], Lines(more), 0, name, 2);
  }

  /** A first line carrying the decimal form of a gid gives back exactly that gid. */
  lemma DecimalGidReadBack(name: string, password: string, gid: int, members: string, more: string)
    requires ':' !in name && ':' !in password && NoNewline(name) && NoNewline(password)
    requires Terminated(members) && MinInt <= gid <= MaxInt
    ensures var m := FirstMatch(Lines(Record(name, password, Itoa(gid), members) + more), 0, name, 2);
      m == Some(Itoa(gid)) && Atoi(m.value) == Some(gid)
  {
    ItoaChars(gid);
    assert ':' !in Itoa(gid) && NoNewline(Itoa(gid));
    FirstGroupLineWins(name, password, Itoa(gid), members, more);
    AtoiItoa(gid);
  }

  /** A line `name:password:gid` (no fourth field) matches by name, but its gid field keeps
      the newline, so a by-name lookup through it fails to parse the gid. */
  lemma ThreeFieldGroupLineUnparsable(data: string, name: string)
    requires FirstMatch(Lines(data), 0, name, 2).Some?
    requires forall j :: 0 <= j < |Lines(data)| ==> |Fields(Lines(data)[j])| == 3
    ensures Atoi(FirstMatch(Lines(data), 0, name, 2).value).None?
  {
    var j :| FirstCandidate(Lines(data), 0, name, j) &&
      FirstMatch(Lines(data), 0, name, 2).value == Fields(Lines(data)[j])[2];
    ThreeFieldLineLastFieldNotNumber(Lines(data)[j]);
  }
}
