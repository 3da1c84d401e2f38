// The text of a redaction path: names separated by dots, and [*] for every array item.
module PathText {
  import opened Wrappers
  import opened Redactor

  predicate NameStart(c: char) {
    'A' <= c <= 'Z' || 'a' <= c <= 'z' || c == '_'
  }

  predicate NameChar(c: char) {
    NameStart(c) || '0' <= c <= '9'
  }

  // The length of the longest run of name characters at the front.
  function NameLength(s: string): (n: nat)
    ensures n <= |s|
  {
    if s == "" || !NameChar(s[0]) then 0 else 1 + NameLength(s[1..])
  }

  function Prepend(steps: Path, rest: Option<Path>): Option<Path> {
    match rest case None => None case Some(more) => Some(steps + more)
  }

  // The steps of a text; None where the parser raises.
  function Steps(s: string): Option<Path>
    decreases |s|
  {
    if s == "" then Some([])
    else if s[0] == '.' then Steps(s[1..])
    else if s[0] == '[' then if "[*]" <= s then Prepend([Items], Steps(s[3..])) else None
    else if NameStart(s[0]) then
      var n := NameLength(s);
      Prepend([Key(s[..n])], Steps(s[n..]))
    else None
  }

  function Parsed(path: string): Option<Path> {
    match Steps(path)
    case None => None
    case Some(steps) => if steps == [] then None else Some(steps)
  }

  method ParsePath(path: string) returns (r: Option<Path>)
    ensures r == Parsed(path)
  {
    if path == "" {
      return None;
    }
    var steps: Path := [];
    var i := 0;
    PrependNothing(Steps(path));
    assert path[0..] == path;
    while i < |path|
      invariant 0 <= i <= |path|
      invariant Steps(path) == Prepend(steps, Steps(path[i..]))
    {
      var ch := path[i];
      ghost var rest := path[i..];
      if ch == '.' {
        assert rest[1..] == path[i + 1..];
        i := i + 1;
        continue;
      }
      if ch == '[' {
        if !("[*]" <= path[i..]) {
          return None;
        }
        assert rest[3..] == path[i + 3..];
        PrependTwice(steps, [Items], Steps(path[i + 3..]));
        steps := steps + [Items];
        i := i + 3;
        continue;
      }
      if !NameStart(ch) {
        return None;
      }
      var n := NameLength(path[i..]);
      assert rest[n..] == path[i + n..];
      assert rest[..n] == path[i..i + n];
      PrependTwice(steps, [Key(path[i..i + n])], Steps(path[i + n..]));
      steps := steps + [Key(path[i..i + n])];
      i := i + n;
    }
    assert path[i..] == "" && steps + [] == steps;
    if steps == [] {
      return None;
    }
    r := Some(steps);
  }

  lemma PrependNothing(rest: Option<Path>)
    ensures Prepend([], rest) == rest
  {
    if rest.Some? { assert [] + rest.value == rest.value; }
  }

  lemma PrependTwice(a: Path, b: Path, rest: Option<Path>)
    ensures Prepend(a, Prepend(b, rest)) == Prepend(a + b, rest)
  {
    if rest.Some? { assert a + (b + rest.value) == (a + b) + rest.value; }
  }

  // ----- writing a path -----

  predicate IsName(s: string) {
    s != "" && NameStart(s[0]) && forall i :: 0 <= i < |s| ==> NameChar(s[i])
  }

  predicate Writable(path: Path) {
    forall i :: 0 <= i < |path| ==> path[i].Key? ==> IsName(path[i].name)
  }

  // The steps after the first: ".name" or "[*]".
  function Tail(path: Path): string {
    if path == [] then ""
    else (match path[0] case Key(k) => "." + k case Items => "[*]") + Tail(path[1..])
  }

  function Written(path: Path): string {
    if path == [] then ""
    else (match path[0] case Key(k) => k case Items => "[*]") + Tail(path[1..])
  }

  lemma {:induction false} NameEnds(k: string, rest: string)
    requires (forall i :: 0 <= i < |k| ==> NameChar(k[i])) && (rest == "" || !NameChar(rest[0]))
    ensures NameLength(k + rest) == |k|
  {
    if k == "" {
      assert k + rest == rest;
    } else {
      assert (k + rest)[1..] == k[1..] + rest;
      NameEnds(k[1..], rest);
    }
  }

  lemma StepsOfName(k: string, rest: string)
    requires IsName(k) && (rest == "" || !NameChar(rest[0]))
    ensures Steps(k + rest) == Prepend([Key(k)], Steps(rest))
  {
    NameEnds(k, rest);
    assert (k + rest)[..|k|] == k && (k + rest)[|k|..] == rest;
  }

  lemma StepsOfMarks(rest: string)
    ensures Steps("." + rest) == Steps(rest)
    ensures Steps("[*]" + rest) == Prepend([Items], Steps(rest))
  {
    assert ("." + rest)[1..] == rest && ("[*]" + rest)[3..] == rest;
  }

  lemma RestWritable(path: Path)
    requires path != [] && Writable(path)
    ensures Writable(path[1..])
  {
    var rest := path[1..];
    forall i | 0 <= i < |rest| && rest[i].Key? ensures IsName(rest[i].name) {
      assert path[i + 1] == rest[i];
    }
  }

  lemma {:induction false} TailReads(path: Path)
    requires Writable(path)
    ensures Steps(Tail(path)) == Some(path)
    ensures Tail(path) == "" || !NameChar(Tail(path)[0])
  {
    if path != [] {
      var rest := path[1..];
      RestWritable(path);
      TailReads(rest);
      StepReads(path, Tail(rest));
      assert [path[0]] + rest == path;
    }
  }

  lemma KeyReads(k: string, after: string)
    requires IsName(k) && (after == "" || !NameChar(after[0]))
    ensures Steps("." + k + after) == Prepend([Key(k)], Steps(after))
  {
    assert "." + k + after == "." + (k + after);
    StepsOfMarks(k + after);
    StepsOfName(k, after);
  }

  // The text of a path starts with its first step's mark.
  lemma StepReads(path: Path, after: string)
    requires path != [] && Writable(path) && after == Tail(path[1..]) && (after == "" || !NameChar(after[0]))
    ensures Steps(Tail(path)) == Prepend([path[0]], Steps(after)) && !NameChar(Tail(path)[0])
  {
    match path[0]
    case Key(k) => KeyReads(k, after);
    case Items => StepsOfMarks(after);
  }

  // Writing a path and parsing it gives the path.
  lemma PathRoundTrip(path: Path)
    requires path != [] && Writable(path)
    ensures Parsed(Written(path)) == Some(path)
  {
    var rest := path[1..];
    RestWritable(path);
    TailReads(rest);
    assert path == [path[0]] + rest;
    match path[0]
    case Key(k) => StepsOfName(k, Tail(rest));
    case Items => StepsOfMarks(Tail(rest));
  }
}
