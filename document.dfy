/** The generic configuration document and the field accessors of command/fix.go:
    `prepareFile`/`fromYamlMap` (normalising a map node to string keys), `val`, `stringval`,
    `boolval`, `arrayval`, and the attribute-token parsers `attrval` and `attrtupleval`.
    Owner, group and mode stay the verbatim strings of the token; nothing is resolved. */
module Document {
  import opened Wrappers
  import opened GoStrings

  /** A decoded JSON or YAML value. `StrMap` is a `map[string]interface{}` (what the JSON
      decoder produces), `AnyMap` a `map[interface{}]interface{}` (what the YAML decoder
      produces) given as its key/value pairs in the order a `range` loop visits them. `Null`
      is Go's `nil`; `Other` stands for every scalar that is neither a string nor a bool. */
  datatype Node =
    | List(items: seq<Node>)
    | StrMap(fields: map<string, Node>)
    | AnyMap(pairs: seq<(Node, Node)>)
    | Str(s: string)
    | Bool(b: bool)
    | Null
    | Other

  /** The errors the configuration walker reports (each one is fatal to the run). */
  datatype FixError =
    | KeyNotFound(key: string)      // "Key not found: <key>"
    | NotAString(key: string)       // "Unable to cast to string: <key>"
    | NotABool(key: string)         // "Unable to cast to bool: <key>"
    | NotAnArray(key: string)       // "Unable to cast to array: <key>"
    | BadAttributes(key: string)    // "Unable to parse attributes: <key>"
    | InvalidFormat                 // "please provide a valid format"
    | NoContent                     // "unable to parse, no content or invalid format provided."

  /** One `owner:group:mode` token, split but otherwise verbatim. */
  datatype Attr = Attr(uid: string, gid: string, perm: string)

  datatype AttrTuple = AttrTuple(dirAttr: Attr, fileAttr: Attr)

  /** What the walker records for one path. */
  datatype Value = Value(recursive: bool, attrs: AttrTuple)

  // ---------------------------------------------------------------------------
  // fromYamlMap / prepareFile

  /** The key `fromYamlMap` files a pair under: the string itself, or `""` (the zero value
      of the failed type assertion) for a key that is not a string. */
  function KeyString(k: Node): string {
    if k.Str? then k.s else ""
  }

  /** The map `fromYamlMap` builds from `pairs`: each pair in turn is stored under its key
      string, so a later pair overwrites an earlier one with the same key string. */
  function YamlToStringMap(pairs: seq<(Node, Node)>): map<string, Node>
    decreases |pairs|
  {
    if |pairs| == 0 then map[]
    else
      var last := pairs[|pairs| - 1];
      YamlToStringMap(pairs[..|pairs| - 1])[KeyString(last.0) := last.1]
  }

  /** Pair `j` is the last one filed under its key string. */
  predicate LastWithKey(pairs: seq<(Node, Node)>, j: int) {
    0 <= j < |pairs| &&
    forall j' :: j < j' < |pairs| ==> KeyString(pairs[j'].0) != KeyString(pairs[j].0)
  }

  /** The converted map has exactly the key strings of the pairs. */
  lemma {:induction false} YamlToStringMapKeys(pairs: seq<(Node, Node)>, k: string)
    ensures k in YamlToStringMap(pairs) <==>
      exists j :: 0 <= j < |pairs| && KeyString(pairs[j].0) == k
    decreases |pairs|
  {
    if |pairs| > 0 {
      var init := pairs[..|pairs| - 1];
      YamlToStringMapKeys(init, k);
      if k != KeyString(pairs[|pairs| - 1].0) && k in YamlToStringMap(pairs) {
        var j :| 0 <= j < |init| && KeyString(init[j].0) == k;
        assert init[j] == pairs[j];
      }
      if exists j :: 0 <= j < |pairs| && KeyString(pairs[j].0) == k {
        var j :| 0 <= j < |pairs| && KeyString(pairs[j].0) == k;
        if j < |init| {
          assert init[j] == pairs[j];
        }
      }
    }
  }

  /** Each key string holds the value of the LAST pair filed under it. */
  lemma {:induction false} YamlToStringMapLastWins(pairs: seq<(Node, Node)>, j: int)
    requires LastWithKey(pairs, j)
    ensures KeyString(pairs[j].0) in YamlToStringMap(pairs)
    ensures YamlToStringMap(pairs)[KeyString(pairs[j].0)] == pairs[j].1
    decreases |pairs|
  {
    if j < |pairs| - 1 {
      var init := pairs[..|pairs| - 1];
      assert init[j] == pairs[j];
      assert LastWithKey(init, j) by {
        forall j' | j < j' < |init| ensures KeyString(init[j'].0) != KeyString(init[j].0) {
          assert init[j'] == pairs[j'];
        }
      }
      YamlToStringMapLastWins(init, j);
    }
  }

  /** Every value of the converted map is the value of one of the pairs. */
  lemma {:induction false} YamlToStringMapValues(pairs: seq<(Node, Node)>, k: string)
    requires k in YamlToStringMap(pairs)
    ensures exists j :: 0 <= j < |pairs| && YamlToStringMap(pairs)[k] == pairs[j].1
    decreases |pairs|
  {
    var last := pairs[|pairs| - 1];
    if k != KeyString(last.0) {
      var init := pairs[..|pairs| - 1];
      YamlToStringMapValues(init, k);
      var j :| 0 <= j < |init| && YamlToStringMap(init)[k] == init[j].1;
      assert init[j] == pairs[j];
    }
  }

  /** `fromYamlMap`: the loop over the pairs that fills a fresh string-keyed map. */
  method FromYamlMap(pairs: seq<(Node, Node)>) returns (r: map<string, Node>)
    ensures r == YamlToStringMap(pairs)
  {
    r := map[];
    for i := 0 to |pairs|
      invariant r == YamlToStringMap(pairs[..i])
    {
      var (k, v) := pairs[i];
      var ky := KeyString(k);
      r := r[ky := v];
      assert pairs[..i + 1][..i] == pairs[..i];
    }
    assert pairs[..|pairs|] == pairs;
  }

  /** The map `prepareFile` hands to `iterFile`: a string-keyed map as it is, a YAML map
      converted, and `nil` (no keys at all) for anything else. */
  function Prepared(n: Node): map<string, Node> {
    match n
    case StrMap(f) => f
    case AnyMap(p) => YamlToStringMap(p)
    case _ => map[]
  }

  /** `prepareFile`. */
  method PrepareFile(n: Node) returns (m: map<string, Node>)
    ensures m == Prepared(n)
  {
    match n {
      case StrMap(f) => m := f;
      case AnyMap(p) => m := FromYamlMap(p);
      case _ => m := map[];
    }
  }

  // ---------------------------------------------------------------------------
  // val / stringval / boolval / arrayval

  /** `val`: the entry under `key`, or "Key not found". */
  function Val(m: map<string, Node>, key: string): (r: Result<Node, FixError>)
    ensures r.Ok? <==> key in m
    ensures r.Ok? ==> r.value == m[key]
    ensures r.Err? ==> r.error == KeyNotFound(key)
  {
    if key in m then Ok(m[key]) else Err(KeyNotFound(key))
  }

  /** `stringval`: present and a string, otherwise the first of the two errors that applies. */
  function StringVal(m: map<string, Node>, key: string): (r: Result<string, FixError>)
    ensures r.Ok? <==> key in m && m[key].Str?
    ensures r.Ok? ==> r.value == m[key].s
    ensures r.Err? ==> r.error == if key in m then NotAString(key) else KeyNotFound(key)
  {
    var i :- Val(m, key);
    if i.Str? then Ok(i.s) else Err(NotAString(key))
  }

  /** `boolval`. */
  function BoolVal(m: map<string, Node>, key: string): (r: Result<bool, FixError>)
    ensures r.Ok? <==> key in m && m[key].Bool?
    ensures r.Ok? ==> r.value == m[key].b
    ensures r.Err? ==> r.error == if key in m then NotABool(key) else KeyNotFound(key)
  {
    var i :- Val(m, key);
    if i.Bool? then Ok(i.b) else Err(NotABool(key))
  }

  /** `arrayval`. */
  function ArrayVal(m: map<string, Node>, key: string): (r: Result<seq<Node>, FixError>)
    ensures r.Ok? <==> key in m && m[key].List?
    ensures r.Ok? ==> r.value == m[key].items
    ensures r.Err? ==> r.error == if key in m then NotAnArray(key) else KeyNotFound(key)
  {
    var i :- Val(m, key);
    if i.List? then Ok(i.items) else Err(NotAnArray(key))
  }

  // ---------------------------------------------------------------------------
  // attrval / attrtupleval

  /** `attrval`: the string under `key` must split on `:` into exactly three parts, which
      become uid, gid and perm unchanged; joining them with `:` gives the token back. */
  function AttrVal(m: map<string, Node>, key: string): (r: Result<Attr, FixError>)
    ensures r.Ok? <==> key in m && m[key].Str? && Count(m[key].s, ':') == 2
    ensures r.Ok? ==> Join([r.value.uid, r.value.gid, r.value.perm], ':') == m[key].s
    ensures r.Ok? ==> ':' !in r.value.uid && ':' !in r.value.gid && ':' !in r.value.perm
    ensures r.Err? && key !in m ==> r.error == KeyNotFound(key)
    ensures r.Err? && key in m && !m[key].Str? ==> r.error == NotAString(key)
    ensures r.Err? && key in m && m[key].Str? ==> r.error == BadAttributes(key)
  {
    var v :- StringVal(m, key);
    var parts := Split(v, ':');
    if |parts| != 3 then Err(BadAttributes(key))
    else
      assert parts == [parts[0], parts[1], parts[2]];
      Ok(Attr(parts[0], parts[1], parts[2]))
  }

  /** A well-formed token `u:g:p` (no `:` inside the three parts) parses to exactly those parts. */
  lemma AttrValRoundTrip(m: map<string, Node>, key: string, u: string, g: string, p: string)
    requires ':' !in u && ':' !in g && ':' !in p
    requires key in m && m[key] == Str(u + ":" + g + ":" + p)
    ensures AttrVal(m, key) == Ok(Attr(u, g, p))
  {
    SplitThree(u, g, p, ':');
    assert u + ":" + g + ":" + p == u + [':'] + g + [':'] + p;
  }

  /** `attrtupleval`: a shared `attr` (if it parses) is used for both directories and files;
      otherwise `attr-dir` and `attr-file` must both parse, and the first failure is reported. */
  function AttrTupleVal(m: map<string, Node>): (r: Result<AttrTuple, FixError>)
    ensures AttrVal(m, "attr").Ok? ==>
      r.Ok? && r.value.dirAttr == r.value.fileAttr == AttrVal(m, "attr").value
    ensures AttrVal(m, "attr").Err? ==>
      (r.Ok? <==> AttrVal(m, "attr-dir").Ok? && AttrVal(m, "attr-file").Ok?)
    ensures AttrVal(m, "attr").Err? && r.Ok? ==>
      r.value == AttrTuple(AttrVal(m, "attr-dir").value, AttrVal(m, "attr-file").value)
    ensures r.Err? && AttrVal(m, "attr-dir").Err? ==> r.error == AttrVal(m, "attr-dir").error
    ensures r.Err? && AttrVal(m, "attr-dir").Ok? ==> r.error == AttrVal(m, "attr-file").error
  {
    match AttrVal(m, "attr")
    case Ok(a) => Ok(AttrTuple(a, a))
    case Err(_) =>
      var ad :- AttrVal(m, "attr-dir");
      var af :- AttrVal(m, "attr-file");
      Ok(AttrTuple(ad, af))
  }

  /** A present but malformed `attr` does not stop the split form from being used, and when
      the split form is incomplete the error names `attr-dir` or `attr-file`, never `attr`. */
  lemma AttrTupleFallback(m: map<string, Node>)
    requires AttrVal(m, "attr").Err?
    ensures AttrTupleVal(m).Err? ==>
      AttrTupleVal(m).error.key == "attr-dir" || AttrTupleVal(m).error.key == "attr-file"
  {
  }
}
