/** The line matcher shared by os/lookup.go and os/group/lookup.go (both files carry the same
    `loopAndCompare` closure). The identity file is its text; `bufio.Reader.ReadString('\n')`
    hands out one newline-terminated line at a time, and a final chunk without a newline
    arrives together with `io.EOF`, which ends the loop before that chunk is looked at. */
module LineScan {
  import opened Wrappers
  import opened GoStrings

  /** No newline anywhere in `s`. */
  predicate NoNewline(s: string) {
    forall i :: 0 <= i < |s| ==> s[i] != '\n'
  }

  /** Index of the first newline of `s`, or `|s|` when there is none. */
  function FirstNewline(s: string): (k: nat)
    ensures k <= |s|
    ensures forall i :: 0 <= i < k ==> s[i] != '\n'
    ensures k < |s| ==> s[k] == '\n'
    decreases |s|
  {
    if |s| == 0 || s[0] == '\n' then 0 else 1 + FirstNewline(s[1..])
  }

  /** What one `ReadString('\n')` returns: the line (newline included), the text still
      unread, and whether the read hit the end of the data instead of a newline. */
  datatype Chunk = Chunk(line: string, rest: string, eof: bool)

  /** A line as `ReadString` delivers it before the end of the data: exactly one newline,
      at its end. */
  predicate Terminated(l: string) {
    |l| > 0 && l[|l| - 1] == '\n' && NoNewline(l[..|l| - 1])
  }

  /** `ReadString('\n')` on the unread text `s`: everything up to and including the first
      newline, or, when there is none, all of `s` together with the end of the data. */
  function ReadString(s: string): (c: Chunk)
    ensures c.line + c.rest == s
    ensures c.eof ==> c.rest == "" && NoNewline(s)
    ensures !c.eof ==> Terminated(c.line)
  {
    var k := FirstNewline(s);
    if k == |s| then
      assert s + "" == s;
      Chunk(s, "", true)
    else
      assert s[..k + 1][..k] == s[..k];
      assert s[..k + 1] + s[k + 1..] == s;
      Chunk(s[..k + 1], s[k + 1..], false)
  }

  /** The lines the loop of `loopAndCompare` gets to see, in file order. */
  function Lines(s: string): (ls: seq<string>)
    ensures forall i :: 0 <= i < |ls| ==> Terminated(ls[i])
    decreases |s|
  {
    var c := ReadString(s);
    if c.eof then [] else [c.line] + Lines(c.rest)
  }

  function Concat(ls: seq<string>): string
    decreases |ls|
  {
    if |ls| == 0 then "" else ls[0] + Concat(ls[1..])
  }

  /** The lines cover the text up to its last newline; what is left over holds no newline
      and is never examined. */
  lemma {:induction false} LinesCover(s: string)
    ensures |Concat(Lines(s))| <= |s|
    ensures Concat(Lines(s)) == s[..|Concat(Lines(s))|]
    ensures NoNewline(s[|Concat(Lines(s))|..])
    decreases |s|
  {
    var c := ReadString(s);
    if c.eof {
      assert Concat(Lines(s)) == "";
      assert s[0..] == s;
    } else {
      LinesCover(c.rest);
      var tail := Concat(Lines(c.rest));
      assert Lines(s)[1..] == Lines(c.rest);
      assert Concat(Lines(s)) == c.line + tail;
      assert s[|c.line + tail|..] == c.rest[|tail|..];
      assert s[..|c.line + tail|] == c.line + c.rest[..|tail|];
    }
  }

  /** Reading from the start of a terminated line stops exactly at its newline. */
  lemma ReadStringTerminated(l: string, t: string)
    requires Terminated(l)
    ensures ReadString(l + t) == Chunk(l, t, false)
  {
    var s := l + t;
    var k := FirstNewline(s);
    assert s[|l| - 1] == '\n';
    assert forall i :: 0 <= i < |l| - 1 ==> s[i] == l[..|l| - 1][i];
    assert k == |l| - 1;
    assert s[..k + 1] == l && s[k + 1..] == t;
  }

  /** A terminated line in front of more text is read first. */
  lemma LinesStep(line: string, rest: string)
    requires Terminated(line)
    ensures Lines(line + rest) == [line] + Lines(rest)
  {
    ReadStringTerminated(line, rest);
  }

  /** Reading back terminated lines written one after the other gives the same lines. */
  lemma {:induction false} LinesConcat(ls: seq<string>)
    requires forall i :: 0 <= i < |ls| ==> Terminated(ls[i])
    ensures Lines(Concat(ls)) == ls
    decreases |ls|
  {
    if |ls| > 0 {
      LinesStep(ls[0], Concat(ls[1..]));
      LinesConcat(ls[1..]);
      assert ls == [ls[0]] + ls[1..];
    }
  }

  /** A text that ends with a newline (or is empty) followed by a chunk without one: the
      chunk changes nothing about the lines examined. */
  lemma {:induction false} UnterminatedTailIgnored(s: string, tail: string)
    requires s == "" || s[|s| - 1] == '\n'
    requires NoNewline(tail)
    ensures Lines(s + tail) == Lines(s)
    decreases |s|
  {
    var c := ReadString(s);
    if c.eof {
      assert s == "";
      assert s + tail == tail;
      assert FirstNewline(tail) == |tail|;
    } else {
      UnreadKeepsLastChar(s);
      UnterminatedTailIgnored(c.rest, tail);
      LinesAppendAfterFirst(s, tail);
    }
  }

  /** The text left after a line ends as the whole text does. */
  lemma UnreadKeepsLastChar(s: string)
    requires !ReadString(s).eof
    ensures var c := ReadString(s); c.rest == "" || c.rest[|c.rest| - 1] == s[|s| - 1]
  {
    var c := ReadString(s);
    if c.rest != "" {
      assert s[|s| - 1] == (c.line + c.rest)[|c.line + c.rest| - 1] == c.rest[|c.rest| - 1];
    }
  }

  /** Text appended after the first line affects only the lines after it. */
  lemma LinesAppendAfterFirst(s: string, tail: string)
    requires !ReadString(s).eof
    requires Lines(ReadString(s).rest + tail) == Lines(ReadString(s).rest)
    ensures Lines(s + tail) == Lines(s)
  {
    var c := ReadString(s);
    assert Lines(s) == [c.line] + Lines(c.rest);
    LinesStepAppend(c.line, c.rest, tail);
  }

  lemma LinesStepAppend(line: string, rest: string, tail: string)
    requires Terminated(line)
    ensures Lines((line + rest) + tail) == [line] + Lines(rest + tail)
  {
    assert (line + rest) + tail == line + (rest + tail);
    LinesStep(line, rest + tail);
  }

  /** The `:`-separated fields of a line, the last one still carrying the newline. */
  function Fields(line: string): seq<string> {
    Split(line, ':')
  }

  /** The test of `loopAndCompare`: at least three fields, and the compared one equals the key. */
  predicate Candidate(line: string, idxCompare: nat, key: string)
    requires idxCompare < 3
  {
    |Fields(line)| >= 3 && Fields(line)[idxCompare] == key
  }

  /** Line `j` is a candidate and no line before it is. */
  predicate FirstCandidate(lines: seq<string>, idxCompare: nat, key: string, j: int)
    requires idxCompare < 3
  {
    && 0 <= j < |lines|
    && Candidate(lines[j], idxCompare, key)
    && forall i :: 0 <= i < j ==> !Candidate(lines[i], idxCompare, key)
  }

  /** What `loopAndCompare(idxCompare, key, idxReturn)` finds among `lines`: field `idxReturn`
      of the first candidate line, or nothing ("Could not find group"). */
  function FirstMatch(lines: seq<string>, idxCompare: nat, key: string, idxReturn: nat): (r: Option<string>)
    requires idxCompare < 3 && idxReturn < 3
    ensures r.None? <==> forall j :: 0 <= j < |lines| ==> !Candidate(lines[j], idxCompare, key)
    ensures r.Some? ==>
      exists j :: FirstCandidate(lines, idxCompare, key, j) && r.value == Fields(lines[j])[idxReturn]
    decreases |lines|
  {
    if |lines| == 0 then None
    else if Candidate(lines[0], idxCompare, key) then
      assert FirstCandidate(lines, idxCompare, key, 0);
      Some(Fields(lines[0])[idxReturn])
    else
      var r := FirstMatch(lines[1..], idxCompare, key, idxReturn);
      assert forall j :: 0 < j < |lines| ==> lines[j] == lines[1..][j - 1];
      if r.Some? then
        var j :| FirstCandidate(lines[1..], idxCompare, key, j) && r.value == Fields(lines[1..][j])[idxReturn];
        assert FirstCandidate(lines, idxCompare, key, j + 1);
        r
      else r
  }

  /** A single candidate line is found. */
  lemma FirstMatchSingle(line: string, idxCompare: nat, key: string, idxReturn: nat)
    requires idxCompare < 3 && idxReturn < 3
    requires |Fields(line)| >= 3 && Fields(line)[idxCompare] == key
    ensures FirstMatch([line], idxCompare, key, idxReturn) == Some(Fields(line)[idxReturn])
  {
  }

  /** The first candidate wins: lines after it are never consulted. */
  lemma {:induction false} FirstMatchAppend(a: seq<string>, b: seq<string>, idxCompare: nat, key: string, idxReturn: nat)
    requires idxCompare < 3 && idxReturn < 3
    ensures FirstMatch(a + b, idxCompare, key, idxReturn) ==
      if FirstMatch(a, idxCompare, key, idxReturn).Some? then FirstMatch(a, idxCompare, key, idxReturn)
      else FirstMatch(b, idxCompare, key, idxReturn)
    decreases |a|
  {
    if |a| > 0 {
      assert (a + b)[0] == a[0];
      assert (a + b)[1..] == a[1..] + b;
      FirstMatchAppend(a[1..], b, idxCompare, key, idxReturn);
    } else {
      assert a + b == b;
    }
  }

  /** `loopAndCompare`: read line after line until the end of the data, returning field
      `idxReturn` of the first line with at least three fields whose field `idxCompare`
      equals `valueCompare`. */
  method LoopAndCompare(data: string, idxCompare: nat, valueCompare: string, idxReturn: nat)
    returns (r: Option<string>)
    requires idxCompare < 3 && idxReturn < 3
    ensures r == FirstMatch(Lines(data), idxCompare, valueCompare, idxReturn)
  {
    var unread := data;
    while true
      invariant FirstMatch(Lines(data), idxCompare, valueCompare, idxReturn) ==
        FirstMatch(Lines(unread), idxCompare, valueCompare, idxReturn)
      decreases |unread|
    {
      var c := ReadString(unread);
      if c.eof {
        break;
      }
      var p := Split(c.line, ':');
      if |p| >= 3 && p[idxCompare] == valueCompare {
        return Some(p[idxReturn]);
      }
      assert Lines(unread)[1..] == Lines(c.rest);
      unread := c.rest;
    }
    return None;
  }

  /** The line `f0:f1:f2:rest`, as an identity file lays out name, password and id. */
  function Record(f0: string, f1: string, f2: string, rest: string): string {
    f0 + [':'] + (f1 + [':'] + (f2 + [':'] + rest))
  }

  /** Colon-free leading fields come back as fields 0, 1 and 2 of the record. */
  lemma RecordFields(f0: string, f1: string, f2: string, rest: string)
    requires ':' !in f0 && ':' !in f1 && ':' !in f2
    ensures Fields(Record(f0, f1, f2, rest)) == [f0, f1, f2] + Split(rest, ':')
  {
    SplitField(f2, rest, ':');
    SplitField(f1, f2 + [':'] + rest, ':');
    SplitField(f0, f1 + [':'] + (f2 + [':'] + rest), ':');
  }

  /** A single record line is found by any of its three leading fields, and gives back any
      of them. */
  lemma RecordMatch(f0: string, f1: string, f2: string, rest: string, idxCompare: nat, idxReturn: nat)
    requires ':' !in f0 && ':' !in f1 && ':' !in f2
    requires NoNewline(f0) && NoNewline(f1) && NoNewline(f2) && Terminated(rest)
    requires idxCompare < 3 && idxReturn < 3
    ensures FirstMatch(Lines(Record(f0, f1, f2, rest)), idxCompare, [f0, f1, f2][idxCompare], idxReturn) ==
      Some([f0, f1, f2][idxReturn])
  {
    var line := Record(f0, f1, f2, rest);
    RecordIsOneLine(f0, f1, f2, rest);
    RecordFields(f0, f1, f2, rest);
    var fs := Fields(line);
    assert fs[idxCompare] == [f0, f1, f2][idxCompare] && fs[idxReturn] == [f0, f1, f2][idxReturn];
    FirstMatchSingle(line, idxCompare, [f0, f1, f2][idxCompare], idxReturn);
  }

  /** A record whose leading fields hold no newline and whose tail is one terminated line is
      read as exactly one line. */
  lemma RecordIsOneLine(f0: string, f1: string, f2: string, rest: string)
    requires NoNewline(f0) && NoNewline(f1) && NoNewline(f2) && Terminated(rest)
    ensures Terminated(Record(f0, f1, f2, rest))
    ensures Lines(Record(f0, f1, f2, rest)) == [Record(f0, f1, f2, rest)]
  {
    var line := Record(f0, f1, f2, rest);
    var head := f0 + [':'] + f1 + [':'] + f2 + [':'];
    assert NoNewline(head);
    assert line == head + rest;
    assert line[..|line| - 1] == head + rest[..|rest| - 1];
    LinesStep(line, "");
    assert line + "" == line;
    assert Lines("") == [];
  }

  /** `t` is not empty and its last character is `c`. */
  predicate EndsIn(t: string, c: char) {
    |t| > 0 && t[|t| - 1] == c
  }

  /** The last field of a split text ends with the text's last character, when that is not
      the separator. */
  lemma {:induction false} SplitLastField(s: string, sep: char)
    requires |s| > 0 && s[|s| - 1] != sep
    ensures var ps := Split(s, sep); EndsIn(ps[|ps| - 1], s[|s| - 1])
    decreases |s|
  {
    if |s| > 1 {
      var tail := s[1..];
      SplitLastField(tail, sep);
      assert tail[|tail| - 1] == s[|s| - 1];
    }
    SplitLastStep(s, sep);
  }

  /** How the last field of a split text relates to the last field of its tail. */
  lemma SplitLastStep(s: string, sep: char)
    requires |s| > 0
    ensures var ps := Split(s, sep); var rest := Split(s[1..], sep);
      ps[|ps| - 1] == if s[0] == sep || |rest| > 1 then rest[|rest| - 1] else [s[0]] + rest[0]
  {
  }

  /** On a line with exactly three fields the third one keeps the line's newline, so it is
      never a number. */
  lemma ThreeFieldLineLastFieldNotNumber(line: string)
    requires Terminated(line) && |Fields(line)| == 3
    ensures Atoi(Fields(line)[2]) == None
  {
    SplitLastField(line, ':');
  }
}
