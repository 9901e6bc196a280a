/** os/lookup.go: looking an identity up in a colon-separated identity file (`/etc/passwd`,
    `/etc/group`) by name or by id. The file is given as its text; the key an id is compared
    under is whatever `keyOf` makes of it (the source formats it with `fmt.Sprintf`). */
module IdentityLookup {
  import opened Wrappers
  import opened GoStrings
  import opened LineScan

  /** `Identity` of os/identity.go. */
  datatype Identity = Identity(id: int, name: string)

  datatype LookupError =
    | UnknownIdentityError(name: string)   // "identity: unknown identity <name>"
    | UnableToParseId(value: string)       // "Unable to parse group id: <value>"

  /** `LookupIdentity(file, id, name, lookupByName)` on the text `data` of `file`.
      By name: the first line with at least three fields whose field 0 is `name` supplies the
      id, parsed from its field 2. By id: the first line whose field 2 equals the id's key
      supplies the name, taken from its field 1, and the given id is kept. A miss is reported
      as an unknown identity carrying `name` in both cases. */
  method LookupIdentity(data: string, id: int, name: string, lookupByName: bool, keyOf: int -> string)
    returns (r: Result<Identity, LookupError>)
    ensures lookupByName ==>
      var m := FirstMatch(Lines(data), 0, name, 2);
      r == if m.None? then Err(UnknownIdentityError(name))
           else if Atoi(m.value).None? then Err(UnableToParseId(m.value))
           else Ok(Identity(Atoi(m.value).value, name))
    ensures !lookupByName ==>
      var m := FirstMatch(Lines(data), 2, keyOf(id), 1);
      r == if m.None? then Err(UnknownIdentityError(name)) else Ok(Identity(id, m.value))
    ensures r.Err? && r.error.UnknownIdentityError? ==> r.error.name == name
    ensures lookupByName && r.Ok? ==>
      && r.value.name == name
      && exists j :: FirstCandidate(Lines(data), 0, name, j) && Atoi(Fields(Lines(data)[j])[2]) == Some(r.value.id)
    ensures !lookupByName && r.Ok? ==>
      && r.value.id == id
      && exists j :: FirstCandidate(Lines(data), 2, keyOf(id), j) && r.value.name == Fields(Lines(data)[j])[1]
  {
    var id, name := id, name;
    if lookupByName {
      var value := LoopAndCompare(data, 0, name, 2);
      if value.None? {
        return Err(UnknownIdentityError(name));
      }
      var parsed := Atoi(value.value);
      if parsed.None? {
        return Err(UnableToParseId(value.value));
      }
      id := parsed.value;
    } else {
      var value := LoopAndCompare(data, 2, keyOf(id), 1);
      if value.None? {
        return Err(UnknownIdentityError(name));
      }
      name := value.value;
    }
    r := Ok(Identity(id, name));
  }

  /** `LookupGroupname`: a name lookup in the group file; the placeholder id -1 never
      survives, since a hit takes its id from the file. */
  method LookupGroupname(groupData: string, groupname: string) returns (r: Result<Identity, LookupError>)
    ensures var m := FirstMatch(Lines(groupData), 0, groupname, 2);
      && (m.None? <==> r == Err(UnknownIdentityError(groupname)))
      && (r.Ok? <==> m.Some? && Atoi(m.value).Some?)
      && (r.Ok? ==> r.value == Identity(Atoi(m.value).value, groupname))
      && (m.Some? && Atoi(m.value).None? ==> r == Err(UnableToParseId(m.value)))
  {
    r := LookupIdentity(groupData, -1, groupname, true, (i: int) => "");
  }

  /** In a line `name:password:id:rest` the by-id branch returns field 1, the password
      column, as the name. */
  lemma ByIdNameIsPasswordColumn(name: string, password: string, key: string, rest: string)
    requires ':' !in name && ':' !in password && ':' !in key
    requires NoNewline(name) && NoNewline(password) && NoNewline(key) && Terminated(rest)
    ensures FirstMatch(Lines(Record(name, password, key, rest)), 2, key, 1) == Some(password)
  {
    RecordMatch(name, password, key, rest, 2, 1);
  }
}
