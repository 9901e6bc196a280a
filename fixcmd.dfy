/** The parts of command/fix.go around the walker that decide something without touching the
    filesystem: the default for the `--format` flag, the format switch of `parseContent`, and
    which attribute of an entry `changeOwnershipAndMode` applies, how it hands that attribute
    to `chown` and `chmod`, and how a failing `chown` stops it. */
module FixCommand {
  import opened Wrappers
  import opened GoStrings
  import opened GoPath
  import opened Document
  import opened Walker

  const Json: string := "json"
  const Yaml: string := "yml"

  /** No ASCII capital letter. */
  predicate IsLower(s: string) {
    forall i :: 0 <= i < |s| ==> !('A' <= s[i] <= 'Z')
  }

  /** The format defaulting of `handleFix`: an empty `--format` becomes the extension of the
      configuration path without its dot, or `json` when the path has no extension; the
      result is lower-cased either way. */
  method DefaultFormat(format: string, cfgPath: string) returns (f: string)
    ensures IsLower(f)
    ensures format != "" ==> f == ToLower(format)
    ensures format == "" && Ext(cfgPath) == "" ==> f == Json
    ensures format == "" && Ext(cfgPath) != "" ==>
      f == ToLower(ExtName(cfgPath)) && '.' !in f && '/' !in f
  {
    f := format;
    if f == "" {
      f := Ext(cfgPath);
      if f != "" {
        f := f[1..];
        ExtNameIsSuffix(cfgPath);
      } else {
        f := Json;
      }
    }
    LowerKeepsPunctuation(f);
    f := ToLower(f);
  }

  /** The extension without its dot. */
  function ExtName(p: string): string
    requires Ext(p) != ""
  {
    Ext(p)[1..]
  }

  /** The extension name is what follows the path's last `.`: a suffix of the path right after
      a dot, with no `.` or `/` in it. */
  lemma ExtNameIsSuffix(p: string)
    requires Ext(p) != ""
    ensures |ExtName(p)| < |p|
    ensures ExtName(p) == p[|p| - |ExtName(p)|..]
    ensures p[|p| - |ExtName(p)| - 1] == '.'
    ensures '.' !in ExtName(p) && '/' !in ExtName(p)
  {
    var e := Ext(p);
    TailOfSuffix(p, e);
  }

  /** Dropping the first character of a non-empty suffix leaves a suffix that follows that
      character. */
  lemma TailOfSuffix(p: string, e: string)
    requires 0 < |e| <= |p| && e == p[|p| - |e|..]
    ensures e[1..] == p[|p| - |e[1..]|..]
    ensures p[|p| - |e[1..]| - 1] == e[0]
    ensures forall c :: c in e[1..] ==> c in e
  {
    assert forall c :: c in e[1..] ==> c in e by {
      forall c | c in e[1..] ensures c in e {
        var i :| 0 <= i < |e[1..]| && e[1..][i] == c;
        assert e[i + 1] == c;
      }
    }
  }

  /** Lower-casing leaves no capital and neither adds nor removes a `.` or a `/`. */
  lemma LowerKeepsPunctuation(s: string)
    ensures IsLower(ToLower(s))
    ensures '.' in ToLower(s) <==> '.' in s
    ensures '/' in ToLower(s) <==> '/' in s
  {
    var t := ToLower(s);
    if '.' in s {
      var i :| 0 <= i < |s| && s[i] == '.';
      assert t[i] == '.';
    }
    if '/' in s {
      var i :| 0 <= i < |s| && s[i] == '/';
      assert t[i] == '/';
    }
  }

  /** `parseContent`: the format must be exactly `json` or `yml`; the decoded document must not
      be `nil`; then a fresh path map is filled by `iterRoot`. `decoded` is what the chosen
      decoder left in `i` (`Null` when it produced nothing). */
  method ParseContent(decoded: Node, format: string) returns (r: Result<map<string, Value>, FixError>)
    ensures format != Json && format != Yaml ==> r == Err(InvalidFormat)
    ensures (format == Json || format == Yaml) && decoded.Null? ==> r == Err(NoContent)
    ensures (format == Json || format == Yaml) && !decoded.Null? ==> r == WalkRoot(decoded, map[])
  {
    if format != Json && format != Yaml {
      return Err(InvalidFormat);
    }
    if decoded.Null? {
      return Err(NoContent);
    }
    var fm := new PathMap();
    var err := fm.IterRoot(decoded);
    if err.Some? {
      return Err(err.value);
    }
    r := Ok(fm.entries);
  }

  /** A path whose extension is a bare dot defaults to the empty format, which `parseContent`
      refuses, instead of falling back to `json`. */
  lemma TrailingDotIsNotDefaulted(cfgPath: string)
    requires |cfgPath| > 0 && cfgPath[|cfgPath| - 1] == '.'
    ensures Ext(cfgPath) == "."
    ensures ToLower(Ext(cfgPath)[1..]) == "" != Json
  {
  }

  /** The attribute `changeOwnershipAndMode` applies to a path: the directory attribute for
      a directory, the file attribute for anything else. */
  function Selected(v: Value, isDir: bool): (a: Attr)
    ensures a == v.attrs.dirAttr || a == v.attrs.fileAttr
    ensures v.attrs.dirAttr != v.attrs.fileAttr ==> (a == v.attrs.dirAttr <==> isDir)
  {
    if isDir then v.attrs.dirAttr else v.attrs.fileAttr
  }

  /** One run of an external binary with its arguments. */
  datatype Invocation = Invocation(bin: string, args: seq<string>)

  /** The commands a call ran, in order, and the error it returned. */
  datatype Run = Run(cmds: seq<Invocation>, err: Option<string>)

  /** `changeOwnershipAndMode` for `path`: `chown uid:gid path` first, and `chmod perm path`
      only when that succeeded; the first failure is returned. `chownErr` and `chmodErr`
      stand for what `execCommand` reports for each run. */
  function ChangeOwnershipAndMode(chownPath: string, chmodPath: string, path: string, isDir: bool, v: Value,
                                  chownErr: Option<string>, chmodErr: Option<string>): (r: Run)
    ensures |r.cmds| == (if chownErr.None? then 2 else 1)
    ensures r.cmds[0].bin == chownPath && r.cmds[0].args == [Selected(v, isDir).uid + ":" + Selected(v, isDir).gid, path]
    ensures |r.cmds| == 2 ==> r.cmds[1].bin == chmodPath && r.cmds[1].args == [Selected(v, isDir).perm, path]
    ensures r.err.None? <==> chownErr.None? && chmodErr.None?
    ensures chownErr.Some? ==> r.err == chownErr
    ensures chownErr.None? ==> r.err == chmodErr
    ensures |r.cmds| == 2 ==>
      r.cmds[0].args[0] + ":" + r.cmds[1].args[0] ==
      Join([Selected(v, isDir).uid, Selected(v, isDir).gid, Selected(v, isDir).perm], ':')
  {
    var a := Selected(v, isDir);
    var parts := [a.uid, a.gid, a.perm];
    assert parts[1..][1..] == [a.perm];
    assert Join(parts[1..], ':') == a.gid + [':'] + a.perm;
    assert Join(parts, ':') == a.uid + [':'] + (a.gid + [':'] + a.perm);
    var chown := Invocation(chownPath, [a.uid + ":" + a.gid, path]);
    if chownErr.Some? then Run([chown], chownErr)
    else Run([chown, Invocation(chmodPath, [a.perm, path])], chmodErr)
  }

  /** With a shared `attr`, every path gets that attribute, directory or not. */
  lemma SharedAttrIgnoresKind(m: map<string, Node>, recursive: bool, isDir: bool)
    requires AttrVal(m, "attr").Ok?
    ensures Selected(Value(recursive, AttrTupleVal(m).value), isDir) == AttrVal(m, "attr").value
  {
  }

  /** With the split form, directories get `attr-dir` and everything else `attr-file`. */
  lemma SplitAttrFollowsKind(m: map<string, Node>, recursive: bool, isDir: bool)
    requires AttrVal(m, "attr").Err? && AttrTupleVal(m).Ok?
    ensures Selected(Value(recursive, AttrTupleVal(m).value), isDir) ==
      if isDir then AttrVal(m, "attr-dir").value else AttrVal(m, "attr-file").value
  {
  }

  /** The arguments handed to `chown` and `chmod` put back together give exactly the token
      the entry's selected attribute was parsed from. */
  lemma CommandsCarryToken(m: map<string, Node>, chownPath: string, chmodPath: string, path: string, recursive: bool, isDir: bool,
                           chmodErr: Option<string>)
    requires AttrTupleVal(m).Ok?
    ensures var key := if AttrVal(m, "attr").Ok? then "attr" else if isDir then "attr-dir" else "attr-file";
      var cmds := ChangeOwnershipAndMode(chownPath, chmodPath, path, isDir, Value(recursive, AttrTupleVal(m).value), None, chmodErr).cmds;
      key in m && m[key].Str? && cmds[0].args[0] + ":" + cmds[1].args[0] == m[key].s
  {
  }
}
