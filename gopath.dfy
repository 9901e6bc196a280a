/** Go's slash-separated path handling as used by the walker and the format default:
    `path.Clean`, two-argument `path.Join` and `filepath.Ext` on a Unix host. */
module GoPath {
  import opened GoStrings

  /** Segment stack of a cleaned path: no empty or `.` segment, no `/` inside a segment,
      `..` only as a leading run, and no `..` at all under a rooted path. */
  predicate Normal(st: seq<string>, rooted: bool) {
    && (forall i :: 0 <= i < |st| ==> st[i] != "" && st[i] != "." && '/' !in st[i])
    && (forall i, j :: 0 <= i < j < |st| && st[j] == ".." ==> st[i] == "..")
    && (rooted ==> forall i :: 0 <= i < |st| ==> st[i] != "..")
  }

  /** One segment applied to the stack: `""` and `.` vanish, `..` removes the segment before
      it, is dropped at the root, and is kept when nothing can be removed. */
  function Step(acc: seq<string>, s: string, rooted: bool): seq<string> {
    if s == "" || s == "." then acc
    else if s == ".." then
      if |acc| > 0 && acc[|acc| - 1] != ".." then acc[..|acc| - 1]
      else if rooted then acc
      else acc + [".."]
    else acc + [s]
  }

  function Resolve(segs: seq<string>, rooted: bool, acc: seq<string>): seq<string>
    decreases |segs|
  {
    if |segs| == 0 then acc else Resolve(segs[1..], rooted, Step(acc, segs[0], rooted))
  }

  /** `path.Clean`: never empty, since an empty result becomes `.`. */
  function Clean(p: string): (c: string)
    ensures c != ""
  {
    var rooted := |p| > 0 && p[0] == '/';
    var body := Join(Resolve(Split(p, '/'), rooted, []), '/');
    if rooted then "/" + body else if body == "" then "." else body
  }

  /** `path.Join(parent, elem)`: empty elements are ignored, an all-empty join is `""`,
      anything else is cleaned. */
  function PathJoin(parent: string, elem: string): (r: string)
    ensures r == "" <==> parent == "" && elem == ""
  {
    if parent == "" && elem == "" then ""
    else if parent == "" then Clean(elem)
    else Clean(parent + "/" + elem)
  }

  lemma {:induction false} StepNormal(acc: seq<string>, s: string, rooted: bool)
    requires Normal(acc, rooted) && '/' !in s
    ensures Normal(Step(acc, s, rooted), rooted)
  {
    var r := Step(acc, s, rooted);
    if s == ".." && !(|acc| > 0 && acc[|acc| - 1] != "..") && !rooted {
      forall i, j | 0 <= i < j < |r| && r[j] == ".." ensures r[i] == ".." {
        if j < |acc| {
        } else if |acc| > 0 {
          assert acc[|acc| - 1] == "..";
        }
      }
    }
  }

  lemma {:induction false} ResolveNormal(segs: seq<string>, rooted: bool, acc: seq<string>)
    requires Normal(acc, rooted)
    requires forall i :: 0 <= i < |segs| ==> '/' !in segs[i]
    ensures Normal(Resolve(segs, rooted, acc), rooted)
    decreases |segs|
  {
    if |segs| > 0 {
      StepNormal(acc, segs[0], rooted);
      ResolveNormal(segs[1..], rooted, Step(acc, segs[0], rooted));
    }
  }

  /** A normal stack replays onto a compatible prefix unchanged. */
  lemma {:induction false} ResolveNormalIdentity(st: seq<string>, rooted: bool, acc: seq<string>)
    requires Normal(acc + st, rooted)
    ensures Resolve(st, rooted, acc) == acc + st
    decreases |st|
  {
    if |st| == 0 {
      assert acc + st == acc;
    } else {
      var whole := acc + st;
      assert whole[|acc|] == st[0];
      if st[0] == ".." {
        assert !rooted;
        if |acc| > 0 {
          assert whole[|acc| - 1] == acc[|acc| - 1];
        }
      }
      assert Step(acc, st[0], rooted) == acc + [st[0]];
      assert acc + [st[0]] + st[1..] == whole;
      ResolveNormalIdentity(st[1..], rooted, acc + [st[0]]);
    }
  }

  lemma JoinNonEmpty(st: seq<string>)
    requires |st| > 0 && st[0] != ""
    ensures |Join(st, '/')| > 0 && Join(st, '/')[0] == st[0][0]
  {
  }

  /** Cleaning is idempotent: a cleaned path is already clean. */
  lemma CleanIdempotent(p: string)
    ensures Clean(Clean(p)) == Clean(p)
  {
    var rooted := |p| > 0 && p[0] == '/';
    var st := Resolve(Split(p, '/'), rooted, []);
    ResolveNormal(Split(p, '/'), rooted, []);
    var body := Join(st, '/');
    var c := Clean(p);
    ResolveNormalIdentity(st, rooted, []);
    assert [] + st == st;
    if |st| > 0 {
      JoinNonEmpty(st);
      SplitJoin(st, '/');
    }
    if rooted {
      assert c == "/" + body;
      SplitSepFreePrefix("", c, '/');
      assert Split(c, '/') == [""] + Split(body, '/') by {
        assert c == [c[0]] + c[1..] && c[1..] == body;
      }
      if |st| == 0 {
        assert Split(body, '/') == [""];
        assert Resolve(Split(c, '/'), true, []) == [];
      } else {
        assert Resolve(Split(c, '/'), true, []) == Resolve(st, true, []);
      }
    } else if |st| == 0 {
      assert c == ".";
      assert Split(c, '/') == ["."];
      assert Resolve(Split(c, '/'), false, []) == [];
    } else {
      assert c == body && c[0] != '/';
    }
  }

  /** A non-empty result of `path.Join` is already clean. */
  lemma PathJoinClean(parent: string, elem: string)
    ensures PathJoin(parent, elem) != "" ==> Clean(PathJoin(parent, elem)) == PathJoin(parent, elem)
  {
    if parent == "" && elem != "" {
      CleanIdempotent(elem);
    } else if parent != "" {
      CleanIdempotent(parent + "/" + elem);
    }
  }

  /** A trailing `""` or `.` segment changes nothing in the resolved stack. */
  lemma {:induction false} ResolveVanishingLast(segs: seq<string>, rooted: bool, acc: seq<string>, e: string)
    requires e == "" || e == "."
    ensures Resolve(segs + [e], rooted, acc) == Resolve(segs, rooted, acc)
    decreases |segs|
  {
    var all := segs + [e];
    if |segs| == 0 {
      assert all == [e];
      assert Resolve(all[1..], rooted, Step(acc, e, rooted)) == acc;
    } else {
      assert all[0] == segs[0] && all[1..] == segs[1..] + [e];
      ResolveVanishingLast(segs[1..], rooted, Step(acc, segs[0], rooted), e);
    }
  }

  /** A trailing `/`, or `/.`, is cleaned away. */
  lemma CleanVanishingLast(x: string, e: string)
    requires |x| > 0 && (e == "" || e == ".")
    ensures Clean(x + "/" + e) == Clean(x)
  {
    var p := x + "/" + e;
    assert p[0] == x[0];
    SplitSnoc(x, e, '/');
    ResolveVanishingLast(Split(x, '/'), x[0] == '/', [], e);
  }

  /** Joining an empty element to a joined path gives that path back, and so does joining
      `.` to a non-empty one. */
  lemma JoinVanishingElement(parent: string, elem: string)
    ensures PathJoin(PathJoin(parent, elem), "") == PathJoin(parent, elem)
    ensures PathJoin(parent, elem) != "" ==> PathJoin(PathJoin(parent, elem), ".") == PathJoin(parent, elem)
  {
    var q := PathJoin(parent, elem);
    PathJoinClean(parent, elem);
    if q != "" {
      CleanVanishingLast(q, "");
      CleanVanishingLast(q, ".");
    }
  }

  /** `filepath.Ext`: the suffix from the last `.` of the final path element, or `""`. */
  function Ext(p: string): (e: string)
    ensures e == "" || (e[0] == '.' && '.' !in e[1..] && '/' !in e)
    ensures |e| <= |p| && e == p[|p| - |e|..]
    ensures e == "" <==> forall i :: 0 <= i < |p| && p[i] == '.' ==> '/' in p[i..]
    decreases |p|
  {
    if |p| == 0 then ""
    else
      var last := p[|p| - 1];
      if last == '/' then
        assert forall i :: 0 <= i < |p| ==> p[i..][|p| - 1 - i] == '/';
        ""
      else if last == '.' then "."
      else
        var init := p[..|p| - 1];
        var e := Ext(init);
        assert forall i :: 0 <= i < |init| ==> p[i..] == init[i..] + [last];
        if e == "" then "" else e + [last]
  }
}
