/** The configuration-tree walker of command/fix.go: `iterRoot` and `iterFile` fill one
    shared path map in place. `WalkRoot`/`WalkFile` say, as functions, what the walk computes
    from a starting map; the methods of `PathMap` are proved to do exactly that. A
    `log.Fatal` in the walk becomes an error that ends it. */
module Walker {
  import opened Wrappers
  import opened GoStrings
  import opened GoPath
  import opened Document

  /** The prepared map's `files` array, when there is one, lies below the node it came from;
      this is what makes the walk over nested entries terminate. */
  lemma FilesBelow(n: Node)
    requires ArrayVal(Prepared(n), "files").Ok?
    ensures n.StrMap? ==> n.fields["files"] == List(ArrayVal(Prepared(n), "files").value)
    ensures n.AnyMap? ==>
      exists j :: 0 <= j < |n.pairs| && n.pairs[j].1 == List(ArrayVal(Prepared(n), "files").value)
  {
    if n.AnyMap? {
      YamlToStringMapValues(n.pairs, "files");
    }
  }

  /** The recursive flag of an entry: `recursive` when it is a boolean, false otherwise. */
  function RecursiveFlag(m: map<string, Node>): bool {
    match BoolVal(m, "recursive")
    case Ok(b) => b
    case Err(_) => false
  }

  /** `iterFile(parent, prepareFile(n), fm)`: the map after the entry `n` and, for a
      non-recursive entry, all of its `files` children in order. */
  function WalkFile(parent: string, n: Node, fm: map<string, Value>): Result<map<string, Value>, FixError>
    decreases n, 0
  {
    var m := Prepared(n);
    var pathVal :- StringVal(m, "path");
    var recursive := RecursiveFlag(m);
    var fullPath := PathJoin(parent, pathVal);
    var t :- AttrTupleVal(m);
    var next := fm[fullPath := Value(recursive, t)];
    if recursive then Ok(next)
    else
      match ArrayVal(m, "files")
      case Err(_) => Ok(next)
      case Ok(files) =>
        FilesBelow(n);
        WalkFiles(fullPath, files, 0, next)
  }

  /** The children `files[i..]` of an entry walked in order, each under `parent`. */
  function WalkFiles(parent: string, files: seq<Node>, i: nat, fm: map<string, Value>): Result<map<string, Value>, FixError>
    requires i <= |files|
    decreases List(files), |files| - i
  {
    if i == |files| then Ok(fm)
    else
      var next :- WalkFile(parent, files[i], fm);
      WalkFiles(parent, files, i + 1, next)
  }

  /** `iterRoot`: a list visits each element in order as a root of its own, a map is one
      entry with an empty parent, and any other value is skipped. */
  function WalkRoot(n: Node, fm: map<string, Value>): Result<map<string, Value>, FixError>
    decreases n, if n.List? then |n.items| + 1 else 0
  {
    match n
    case List(items) => WalkRootList(items, 0, fm)
    case StrMap(_) => WalkFile("", n, fm)
    case AnyMap(_) => WalkFile("", n, fm)
    case _ => Ok(fm)
  }

  function WalkRootList(items: seq<Node>, i: nat, fm: map<string, Value>): Result<map<string, Value>, FixError>
    requires i <= |items|
    decreases List(items), |items| - i
  {
    if i == |items| then Ok(fm)
    else
      var next :- WalkRoot(items[i], fm);
      WalkRootList(items, i + 1, next)
  }

  /** The outcome of a method run: the error it stopped at, or the map it left. */
  function Outcome(err: Option<FixError>, entries: map<string, Value>): Result<map<string, Value>, FixError> {
    if err.Some? then Err(err.value) else Ok(entries)
  }

  /** The shared map `fm` of `parseContent`, filled in place by `iterRoot`/`iterFile`. */
  class PathMap {
    var entries: map<string, Value>

    constructor ()
      ensures entries == map[]
    {
      entries := map[];
    }

    /** `iterRoot`. */
    method IterRoot(n: Node) returns (err: Option<FixError>)
      modifies this
      ensures Outcome(err, entries) == WalkRoot(n, old(entries))
      decreases n
    {
      match n {
        case List(items) =>
          ghost var start := entries;
          var i := 0;
          while i < |items|
            invariant i <= |items|
            invariant WalkRootList(items, 0, start) == WalkRootList(items, i, entries)
          {
            err := IterRoot(items[i]);
            if err.Some? {
              return;
            }
            i := i + 1;
          }
          err := None;
        case StrMap(_) =>
          var m := PrepareFile(n);
          err := IterFile("", m, n);
        case AnyMap(_) =>
          var m := PrepareFile(n);
          err := IterFile("", m, n);
        case _ =>
          err := None;
      }
    }

    /** `iterFile`: `src` is the node `m` was prepared from. */
    method IterFile(parentPath: string, m: map<string, Node>, ghost src: Node) returns (err: Option<FixError>)
      requires m == Prepared(src)
      modifies this
      ensures Outcome(err, entries) == WalkFile(parentPath, src, old(entries))
      decreases src
    {
      var pathVal := StringVal(m, "path");
      if pathVal.Err? {
        return Some(pathVal.error);
      }
      var recursive := false;
      var recursiveVal := BoolVal(m, "recursive");
      if recursiveVal.Ok? {
        recursive := recursiveVal.value;
      }
      var fullPath := PathJoin(parentPath, pathVal.value);
      var t := AttrTupleVal(m);
      if t.Err? {
        return Some(t.error);
      }
      entries := entries[fullPath := Value(recursive, t.value)];
      if !recursive {
        var files := ArrayVal(m, "files");
        if files.Ok? {
          var items := files.value;
          FilesBelow(src);
          ghost var start := entries;
          for i := 0 to |items|
            invariant WalkFiles(fullPath, items, 0, start) == WalkFiles(fullPath, items, i, entries)
          {
            var child := PrepareFile(items[i]);
            err := IterFile(fullPath, child, items[i]);
            if err.Some? {
              return;
            }
          }
        }
      }
      err := None;
    }
  }

  // ---------------------------------------------------------------------------
  // Properties of the walk

  /** The full path an entry is filed under. */
  function FullPath(parent: string, n: Node): string
    requires StringVal(Prepared(n), "path").Ok?
  {
    PathJoin(parent, StringVal(Prepared(n), "path").value)
  }

  /** An entry without a string `path` stops the walk, naming `path`. */
  lemma PathRequired(parent: string, n: Node, fm: map<string, Value>)
    requires StringVal(Prepared(n), "path").Err?
    ensures WalkFile(parent, n, fm) == Err(if "path" in Prepared(n) then NotAString("path") else KeyNotFound("path"))
  {
  }

  /** A scalar is skipped where a root entry is expected, but is fatal where a child entry
      is expected (`prepareFile` returns a map without `path`). */
  lemma ScalarSkippedAtRootFatalAsChild(parent: string, n: Node, fm: map<string, Value>)
    requires n.Str? || n.Bool? || n.Null? || n.Other?
    ensures WalkRoot(n, fm) == Ok(fm)
    ensures WalkFile(parent, n, fm) == Err(KeyNotFound("path"))
  {
  }

  /** A missing or non-boolean `recursive` behaves exactly as `recursive: false`. */
  lemma RecursiveDefaultsToFalse(parent: string, f: map<string, Node>, fm: map<string, Value>)
    requires "recursive" !in f || !f["recursive"].Bool?
    ensures WalkFile(parent, StrMap(f), fm) == WalkFile(parent, StrMap(f["recursive" := Bool(false)]), fm)
  {
    var g := f["recursive" := Bool(false)];
    assert Prepared(StrMap(g)) == g && Prepared(StrMap(f)) == f;
    assert StringVal(g, "path") == StringVal(f, "path");
    assert AttrVal(g, "attr") == AttrVal(f, "attr");
    assert AttrVal(g, "attr-dir") == AttrVal(f, "attr-dir");
    assert AttrVal(g, "attr-file") == AttrVal(f, "attr-file");
    assert AttrTupleVal(g) == AttrTupleVal(f);
    assert ArrayVal(g, "files") == ArrayVal(f, "files");
    assert RecursiveFlag(g) == RecursiveFlag(f) == false;
  }

  /** A recursive entry adds exactly one key, its own full path, and never looks at `files`. */
  lemma RecursiveEntryAddsOneKey(parent: string, n: Node, fm: map<string, Value>)
    requires StringVal(Prepared(n), "path").Ok? && AttrTupleVal(Prepared(n)).Ok?
    requires RecursiveFlag(Prepared(n))
    ensures WalkFile(parent, n, fm) ==
      Ok(fm[FullPath(parent, n) := Value(true, AttrTupleVal(Prepared(n)).value)])
    ensures WalkFile(parent, n, fm).value.Keys == fm.Keys + {FullPath(parent, n)}
  {
  }

  /** An entry without a `files` list adds exactly its own full path, with the attribute
      pair it parsed and its recursive flag (false when `recursive` is absent). */
  lemma LeafEntryAddsOneKey(parent: string, n: Node, fm: map<string, Value>)
    requires StringVal(Prepared(n), "path").Ok? && AttrTupleVal(Prepared(n)).Ok?
    requires ArrayVal(Prepared(n), "files").Err?
    ensures WalkFile(parent, n, fm) ==
      Ok(fm[FullPath(parent, n) := Value(RecursiveFlag(Prepared(n)), AttrTupleVal(Prepared(n)).value)])
  {
  }

  /** A lone child is walked exactly as the entry it is. */
  lemma WalkOneChild(parent: string, c: Node, fm: map<string, Value>)
    ensures WalkFiles(parent, [c], 0, fm) == WalkFile(parent, c, fm)
  {
    if WalkFile(parent, c, fm).Ok? {
      assert WalkFiles(parent, [c], 1, WalkFile(parent, c, fm).value) == WalkFile(parent, c, fm);
    }
  }

  /** A non-recursive entry with a `files` list files itself, then walks its children under
      its full path. */
  lemma EntryThenChildren(parent: string, n: Node, fm: map<string, Value>)
    requires StringVal(Prepared(n), "path").Ok? && AttrTupleVal(Prepared(n)).Ok?
    requires !RecursiveFlag(Prepared(n)) && ArrayVal(Prepared(n), "files").Ok?
    ensures WalkFile(parent, n, fm) ==
      WalkFiles(FullPath(parent, n), ArrayVal(Prepared(n), "files").value, 0,
        fm[FullPath(parent, n) := Value(false, AttrTupleVal(Prepared(n)).value)])
  {
  }

  lemma OverwriteTwice(m: map<string, Value>, k: string, a: Value, b: Value)
    ensures m[k := a][k := b] == m[k := b]
  {
    assert m[k := a][k := b].Keys == m[k := b].Keys;
  }

  /** A child whose `path` is `""`, or `.` under a non-empty parent, has its parent's full
      path. */
  lemma VanishingChildPath(parent: string, elem: string, c: Node)
    requires StringVal(Prepared(c), "path") == Ok("") ||
      (StringVal(Prepared(c), "path") == Ok(".") && PathJoin(parent, elem) != "")
    ensures FullPath(PathJoin(parent, elem), c) == PathJoin(parent, elem)
  {
    JoinVanishingElement(parent, elem);
  }

  /** A child whose `path` is `""` (or `.` under a non-empty full path) lands on its parent's
      own key, so the child's value silently replaces the parent's. */
  lemma ChildAtParentPathReplacesParent(parent: string, n: Node, c: Node, fm: map<string, Value>)
    requires StringVal(Prepared(n), "path").Ok? && AttrTupleVal(Prepared(n)).Ok?
    requires !RecursiveFlag(Prepared(n)) && ArrayVal(Prepared(n), "files") == Ok([c])
    requires StringVal(Prepared(c), "path") == Ok("") ||
      (StringVal(Prepared(c), "path") == Ok(".") && FullPath(parent, n) != "")
    requires AttrTupleVal(Prepared(c)).Ok? && ArrayVal(Prepared(c), "files").Err?
    ensures FullPath(FullPath(parent, n), c) == FullPath(parent, n)
    ensures WalkFile(parent, n, fm) ==
      Ok(fm[FullPath(parent, n) := Value(RecursiveFlag(Prepared(c)), AttrTupleVal(Prepared(c)).value)])
  {
    var fullPath := FullPath(parent, n);
    VanishingChildPath(parent, StringVal(Prepared(n), "path").value, c);
    var next := fm[fullPath := Value(false, AttrTupleVal(Prepared(n)).value)];
    var v := Value(RecursiveFlag(Prepared(c)), AttrTupleVal(Prepared(c)).value);
    EntryThenChildren(parent, n, fm);
    WalkOneChild(fullPath, c, next);
    LeafEntryAddsOneKey(fullPath, c, next);
    calc {
      WalkFile(parent, n, fm);
      WalkFiles(fullPath, [c], 0, next);
      WalkFile(fullPath, c, next);
      Ok(next[FullPath(fullPath, c) := v]);
      Ok(next[fullPath := v]);
      { OverwriteTwice(fm, fullPath, Value(false, AttrTupleVal(Prepared(n)).value), v); }
      Ok(fm[fullPath := v]);
    }
  }

  /** An entry that parses is filed under its full path, whatever was there before; the
      walk only ever adds keys. */
  lemma {:induction false} WalkFileKeys(parent: string, n: Node, fm: map<string, Value>)
    requires WalkFile(parent, n, fm).Ok?
    ensures StringVal(Prepared(n), "path").Ok?
    ensures fm.Keys + {FullPath(parent, n)} <= WalkFile(parent, n, fm).value.Keys
    decreases n, 0
  {
    var m := Prepared(n);
    var fullPath := FullPath(parent, n);
    var next := fm[fullPath := Value(RecursiveFlag(m), AttrTupleVal(m).value)];
    if !RecursiveFlag(m) && ArrayVal(m, "files").Ok? {
      FilesBelow(n);
      WalkFilesKeys(fullPath, ArrayVal(m, "files").value, 0, next);
    }
  }

  lemma {:induction false} WalkFilesKeys(parent: string, files: seq<Node>, i: nat, fm: map<string, Value>)
    requires i <= |files|
    requires WalkFiles(parent, files, i, fm).Ok?
    ensures fm.Keys <= WalkFiles(parent, files, i, fm).value.Keys
    decreases List(files), |files| - i
  {
    if i < |files| {
      WalkFileKeys(parent, files[i], fm);
      WalkFilesKeys(parent, files, i + 1, WalkFile(parent, files[i], fm).value);
    }
  }

  /** Every child of a non-recursive entry is filed under the parent's full path joined
      with its own `path`. */
  lemma {:induction false} ChildrenFiledUnderParent(parent: string, n: Node, fm: map<string, Value>)
    requires WalkFile(parent, n, fm).Ok?
    requires !RecursiveFlag(Prepared(n)) && ArrayVal(Prepared(n), "files").Ok?
    ensures var files := ArrayVal(Prepared(n), "files").value;
      forall k :: 0 <= k < |files| ==>
        && StringVal(Prepared(files[k]), "path").Ok?
        && FullPath(FullPath(parent, n), files[k]) in WalkFile(parent, n, fm).value
  {
    var m := Prepared(n);
    var fullPath := FullPath(parent, n);
    var next := fm[fullPath := Value(false, AttrTupleVal(m).value)];
    FilesBelow(n);
    WalkFilesChildKeys(fullPath, ArrayVal(m, "files").value, 0, next);
  }

  lemma {:induction false} WalkFilesChildKeys(parent: string, files: seq<Node>, i: nat, fm: map<string, Value>)
    requires i <= |files|
    requires WalkFiles(parent, files, i, fm).Ok?
    ensures forall k :: i <= k < |files| ==>
      && StringVal(Prepared(files[k]), "path").Ok?
      && FullPath(parent, files[k]) in WalkFiles(parent, files, i, fm).value
    decreases |files| - i
  {
    if i < |files| {
      var next := WalkFile(parent, files[i], fm).value;
      var result := WalkFiles(parent, files, i, fm).value;
      assert WalkFiles(parent, files, i + 1, next).value == result;
      WalkFileKeys(parent, files[i], fm);
      WalkFilesKeys(parent, files, i + 1, next);
      WalkFilesChildKeys(parent, files, i + 1, next);
      forall k | i <= k < |files|
        ensures StringVal(Prepared(files[k]), "path").Ok? && FullPath(parent, files[k]) in result
      {
        if k == i {
          assert FullPath(parent, files[i]) in next;
        }
      }
    }
  }

  /** A list root walks its elements in order: one more element runs after all the others,
      starting from the map they left. */
  lemma {:induction false} WalkRootListSnoc(items: seq<Node>, x: Node, i: nat, fm: map<string, Value>)
    requires i <= |items|
    ensures WalkRootList(items + [x], i, fm) ==
      match WalkRootList(items, i, fm)
      case Err(e) => Err(e)
      case Ok(r) => WalkRoot(x, r)
    decreases |items| - i
  {
    var all := items + [x];
    if i == |items| {
      assert all[i] == x;
      match WalkRoot(x, fm)
      case Err(e) =>
      case Ok(r) =>
        assert WalkRootList(all, i + 1, r) == Ok(r);
    } else {
      assert all[i] == items[i];
      match WalkRoot(items[i], fm)
      case Err(e) =>
      case Ok(r) =>
        WalkRootListSnoc(items, x, i + 1, r);
    }
  }

  /** Duplicate paths are not detected: a recursive entry at the end of a list root is filed
      under its path even when an earlier entry already used it, and adding it never turns
      a successful walk into a failing one. */
  lemma LaterEntryOverwrites(items: seq<Node>, x: map<string, Node>, fm: map<string, Value>)
    requires StringVal(x, "path").Ok? && AttrTupleVal(x).Ok? && RecursiveFlag(x)
    ensures WalkRoot(List(items + [StrMap(x)]), fm).Ok? <==> WalkRoot(List(items), fm).Ok?
    ensures WalkRoot(List(items), fm).Ok? ==>
      WalkRoot(List(items + [StrMap(x)]), fm).value ==
        WalkRoot(List(items), fm).value[FullPath("", StrMap(x)) := Value(true, AttrTupleVal(x).value)]
  {
    WalkRootListSnoc(items, StrMap(x), 0, fm);
    if WalkRoot(List(items), fm).Ok? {
      RecursiveEntryAddsOneKey("", StrMap(x), WalkRoot(List(items), fm).value);
    }
  }
}
