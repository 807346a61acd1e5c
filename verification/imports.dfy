/** Import rewriting for the Solidity source loader (`extractImports` inside
    `resolve` in src/util.js). The file is split at line feeds; on each line a
    trailing `//` comment is removed, and when what remains holds
    `import <spaces><quote><path><quote>` the line is replaced, in the array of
    lines, by `import "<resolved path>";` and the raw path is recorded. The lines
    are joined back with line feeds. Resolving a path against the file system
    (`fs.realpathSync`) is a parameter. */
module Imports {
  import opened Outcomes
  import opened Text

  predicate IsQuote(c: char) {
    c == '"' || c == '\''
  }

  /** Length of the longest run of `\s` characters of `s` starting at `i`. */
  function SpaceRun(s: string, i: nat): (n: nat)
    requires i <= |s|
    ensures i + n <= |s|
    ensures forall k :: i <= k < i + n ==> IsJsSpace(s[k])
    ensures i + n == |s| || !IsJsSpace(s[i + n])
    decreases |s| - i
  {
    if i == |s| || !IsJsSpace(s[i]) then 0 else 1 + SpaceRun(s, i + 1)
  }

  /** Length of the longest run of `[^"']` characters of `s` starting at `i`. */
  function PathRun(s: string, i: nat): (n: nat)
    requires i <= |s|
    ensures i + n <= |s|
    ensures forall k :: i <= k < i + n ==> !IsQuote(s[k])
    ensures i + n == |s| || IsQuote(s[i + n])
    decreases |s| - i
  {
    if i == |s| || IsQuote(s[i]) then 0 else 1 + PathRun(s, i + 1)
  }

  /** The regular expression `import\s+["']([^"']+)["']` matches `s` at `p` with
      `w` spaces and captures `path`, written out position by position. */
  predicate ImportShape(s: string, p: nat, w: nat, path: string) {
    var q := p + 6 + w;
    var e := q + 1 + |path|;
    e < |s| && s[p..p + 6] == "import" && w >= 1
    && (forall k :: p + 6 <= k < q ==> IsJsSpace(s[k]))
    && IsQuote(s[q]) && |path| >= 1 && s[q + 1..e] == path
    && (forall k :: 0 <= k < |path| ==> !IsQuote(path[k]))
    && IsQuote(s[e])
  }

  /** The match attempt of that expression at position `p`: the spaces and the path
      are taken greedily, which is the only way the expression can match there. */
  function ImportAt(s: string, p: nat): Option<string>
    requires p <= |s|
  {
    if !(p + 6 <= |s| && s[p..p + 6] == "import") then None
    else
      var w := SpaceRun(s, p + 6);
      var q := p + 6 + w;
      if w == 0 || q == |s| || !IsQuote(s[q]) then None
      else
        var n := PathRun(s, q + 1);
        var e := q + 1 + n;
        if n == 0 || e == |s| then None else Some(s[q + 1..e])
  }

  /** A match attempt succeeds only in the shape the expression describes ... */
  lemma ImportAtSound(s: string, p: nat)
    requires p <= |s|
    ensures ImportAt(s, p).Some? ==> ImportShape(s, p, SpaceRun(s, p + 6), ImportAt(s, p).value)
  {
    if ImportAt(s, p).Some? {
      var path := ImportAt(s, p).value;
      var q := p + 6 + SpaceRun(s, p + 6);
      forall k | 0 <= k < |path| ensures !IsQuote(path[k]) {
        assert path[k] == s[q + 1 + k];
      }
    }
  }

  /** ... and it succeeds whenever the expression can match there, capturing the same path. */
  lemma ImportAtComplete(s: string, p: nat, w: nat, path: string)
    requires p <= |s|
    requires ImportShape(s, p, w, path)
    ensures ImportAt(s, p) == Some(path)
  {
    var q := p + 6 + w;
    var e := q + 1 + |path|;
    SpaceRunExact(s, p + 6, w);
    forall k | q + 1 <= k < e ensures !IsQuote(s[k]) {
      assert s[k] == path[k - q - 1];
    }
    PathRunExact(s, q + 1, |path|);
  }

  /** A run of spaces ended by a non-space is what `SpaceRun` measures. */
  lemma {:induction false} SpaceRunExact(s: string, i: nat, w: nat)
    requires i + w < |s| && !IsJsSpace(s[i + w])
    requires forall k :: i <= k < i + w ==> IsJsSpace(s[k])
    ensures SpaceRun(s, i) == w
    decreases w
  {
    if w > 0 {
      SpaceRunExact(s, i + 1, w - 1);
    }
  }

  /** A run of non-quotes ended by a quote is what `PathRun` measures. */
  lemma {:induction false} PathRunExact(s: string, i: nat, n: nat)
    requires i + n < |s| && IsQuote(s[i + n])
    requires forall k :: i <= k < i + n ==> !IsQuote(s[k])
    ensures PathRun(s, i) == n
    decreases n
  {
    if n > 0 {
      PathRunExact(s, i + 1, n - 1);
    }
  }

  /** `s.match(...)`: the leftmost position from `i` on where a match attempt succeeds. */
  function MatchFrom(s: string, i: nat): Option<string>
    requires i <= |s|
    decreases |s| - i
  {
    if ImportAt(s, i).Some? || i == |s| then ImportAt(s, i) else MatchFrom(s, i + 1)
  }

  /** The match found is the attempt at the leftmost position where one succeeds. */
  lemma {:induction false} MatchFromLeftmost(s: string, i: nat)
    requires i <= |s|
    ensures MatchFrom(s, i).Some? ==>
              exists p :: i <= p <= |s| && ImportAt(s, p) == MatchFrom(s, i)
                          && forall q :: i <= q < p ==> ImportAt(s, q).None?
    ensures MatchFrom(s, i).None? ==> forall p :: i <= p <= |s| ==> ImportAt(s, p).None?
    decreases |s| - i
  {
    if ImportAt(s, i).None? && i < |s| {
      MatchFromLeftmost(s, i + 1);
    }
  }

  function MatchImport(s: string): Option<string> {
    MatchFrom(s, 0)
  }

  /** The expression `\/\/.*$` matches at `i`: two slashes with no line terminator
      anywhere after them (`.` does not match one and `$` is the end of the line). */
  predicate CommentAt(s: string, i: nat) {
    i + 2 <= |s| && s[i] == '/' && s[i + 1] == '/'
    && forall k :: i + 2 <= k < |s| ==> !IsLineTerminator(s[k])
  }

  function StripFrom(s: string, i: nat): string
    requires i <= |s|
    decreases |s| - i
  {
    if i == |s| then s
    else if CommentAt(s, i) then s[..i]
    else StripFrom(s, i + 1)
  }

  /** `line.replace(/\/\/.*$/, '')`: cut at the leftmost comment that runs to the end. */
  function StripComment(line: string): string {
    StripFrom(line, 0)
  }

  /** What remains is a prefix of the line, cut exactly at the leftmost comment
      position, if there is one, and the whole line otherwise. */
  lemma {:induction false} StripFromLeftmost(s: string, i: nat)
    requires i <= |s|
    ensures var r := StripFrom(s, i);
            i <= |r| <= |s| && r == s[..|r|]
            && (|r| < |s| ==> CommentAt(s, |r|))
            && forall q :: i <= q < |r| ==> !CommentAt(s, q)
    decreases |s| - i
  {
    if i < |s| && !CommentAt(s, i) {
      StripFromLeftmost(s, i + 1);
    }
  }

  /** The raw path a line imports, if it is an import line. */
  function ImportOf(line: string): Option<string> {
    MatchImport(StripComment(line))
  }

  function ImportStatement(fp: string): string {
    "import \"" + fp + "\";"
  }

  /** What the loop leaves in `lines[ii]`. */
  function Rewritten(line: string, cwd: string, realpath: string -> string): string {
    match ImportOf(line)
    case Some(p) => ImportStatement(realpath(cwd + "/" + p))
    case None => line
  }

  function RewrittenLines(lines: seq<string>, cwd: string, realpath: string -> string): (r: seq<string>)
    ensures |r| == |lines|
  {
    seq(|lines|, i requires 0 <= i < |lines| => Rewritten(lines[i], cwd, realpath))
  }

  /** The values `find` reports for the lines, in line order: the loop's
      `imports.push` when `find` is the line's import path. */
  function Collect(lines: seq<string>, find: string -> Option<string>): seq<string> {
    if |lines| == 0 then []
    else
      var n := |lines| - 1;
      Collect(lines[..n], find) + Found(find(lines[n]))
  }

  function Found(o: Option<string>): seq<string> {
    match o
    case Some(p) => [p]
    case None => []
  }

  /** Extending the scanned prefix by one line adds what that line reports. */
  lemma CollectStep(lines: seq<string>, k: nat, find: string -> Option<string>)
    requires k < |lines|
    ensures Collect(lines[..k + 1], find) == Collect(lines[..k], find) + Found(find(lines[k]))
  {
    assert lines[..k + 1][..k] == lines[..k];
  }

  /** Nothing is collected exactly when `find` reports on no line. */
  lemma {:induction false} CollectEmpty(lines: seq<string>, find: string -> Option<string>)
    ensures Collect(lines, find) == [] <==> forall i :: 0 <= i < |lines| ==> find(lines[i]).None?
  {
    if |lines| > 0 {
      var n := |lines| - 1;
      CollectEmpty(lines[..n], find);
      assert forall i :: 0 <= i < n ==> lines[..n][i] == lines[i];
    }
  }

  /** The raw paths of the import lines, in line order. */
  function ImportsOf(lines: seq<string>): seq<string> {
    Collect(lines, ImportOf)
  }

  /** Collecting over consecutive blocks of lines concatenates the results, so the
      recorded list follows line order. */
  lemma {:induction false} CollectAppend(a: seq<string>, b: seq<string>, find: string -> Option<string>)
    ensures Collect(a + b, find) == Collect(a, find) + Collect(b, find)
    decreases |b|
  {
    if |b| > 0 {
      var n := |b| - 1;
      assert (a + b)[..|a + b| - 1] == a + b[..n];
      assert (a + b)[|a + b| - 1] == b[n];
      CollectAppend(a, b[..n], find);
    } else {
      assert a + b == a;
    }
  }

  /** One value is collected per line `find` reports on. */
  lemma {:induction false} CollectCount(lines: seq<string>, find: string -> Option<string>)
    ensures |Collect(lines, find)| == |set i | 0 <= i < |lines| && find(lines[i]).Some?|
  {
    if |lines| > 0 {
      var n := |lines| - 1;
      var front := lines[..n];
      CollectCount(front, find);
      var sf := set i | 0 <= i < n && find(front[i]).Some?;
      var sl := set i | 0 <= i < |lines| && find(lines[i]).Some?;
      assert forall i :: 0 <= i < n ==> front[i] == lines[i];
      if find(lines[n]).Some? {
        assert sl == sf + {n};
      } else {
        assert sl == sf;
      }
    }
  }

  /** The values collected are exactly the values `find` reports on some line. */
  lemma {:induction false} CollectMembers(lines: seq<string>, find: string -> Option<string>)
    ensures forall x :: x in Collect(lines, find) <==> exists i :: 0 <= i < |lines| && find(lines[i]) == Some(x)
  {
    if |lines| > 0 {
      var n := |lines| - 1;
      var front := lines[..n];
      CollectMembers(front, find);
      forall x ensures x in Collect(lines, find) <==> exists i :: 0 <= i < |lines| && find(lines[i]) == Some(x) {
        if exists i :: 0 <= i < |lines| && find(lines[i]) == Some(x) {
          var i :| 0 <= i < |lines| && find(lines[i]) == Some(x);
          if i < n {
            assert find(front[i]) == Some(x);
          }
        }
        if x in Collect(lines, find) && x !in Collect(front, find) {
          assert find(lines[n]) == Some(x);
        }
      }
    }
  }

  /** A file with no import line comes back unchanged and records nothing. */
  lemma NoImportsUnchanged(content: string, cwd: string, realpath: string -> string)
    requires forall line :: line in Split(content, '\n') ==> ImportOf(line).None?
    ensures Join(RewrittenLines(Split(content, '\n'), cwd, realpath), "\n") == content
    ensures ImportsOf(Split(content, '\n')) == []
  {
    var lines := Split(content, '\n');
    assert RewrittenLines(lines, cwd, realpath) == lines;
    JoinSplit(content, '\n');
    forall i | 0 <= i < |lines| ensures ImportOf(lines[i]).None? {
      assert lines[i] in lines;
    }
    CollectEmpty(lines, ImportOf);
  }

  /** As long as no resolved path holds a line feed, the rewritten code splits back
      into exactly the rewritten lines: the line count is kept, each import line is
      replaced by its statement and every other line is left as it was. */
  lemma ExtractKeepsLines(content: string, cwd: string, realpath: string -> string)
    requires forall x :: '\n' !in realpath(x)
    ensures var lines := Split(content, '\n');
            var out := RewrittenLines(lines, cwd, realpath);
            && Split(Join(out, "\n"), '\n') == out
            && |out| == |lines|
            && forall i :: 0 <= i < |lines| && ImportOf(lines[i]).None? ==> out[i] == lines[i]
  {
    var lines := Split(content, '\n');
    var out := RewrittenLines(lines, cwd, realpath);
    SplitPiecesFree(content, '\n');
    forall i | 0 <= i < |out| ensures '\n' !in out[i] {
      assert lines[i] in lines;
      match ImportOf(lines[i])
      case Some(p) =>
        var fp := realpath(cwd + "/" + p);
        assert '\n' !in fp;
        assert out[i] == "import \"" + fp + "\";";
      case None =>
    }
    SplitJoin(out, '\n');
  }

  /** A rewritten line is again an import line, of the resolved path, as long as that
      path is a non-empty path with no quote and no `//` in it. */
  lemma RewrittenLineReimports(fp: string)
    requires |fp| >= 1
    requires forall k :: 0 <= k < |fp| ==> !IsQuote(fp[k])
    requires forall k :: 0 <= k < |fp| - 1 ==> !(fp[k] == '/' && fp[k + 1] == '/')
    ensures ImportOf(ImportStatement(fp)) == Some(fp)
  {
    var s := ImportStatement(fp);
    StripFromLeftmost(s, 0);
    forall q | 0 <= q < |s| ensures !CommentAt(s, q) {
      if 8 <= q < 7 + |fp| {
        assert s[q] == fp[q - 8] && s[q + 1] == fp[q - 7];
      }
    }
    assert StripComment(s) == s;
    assert s[8..8 + |fp|] == fp;
    assert ImportShape(s, 0, 1, fp);
    ImportAtComplete(s, 0, 1, fp);
  }

  /** One iteration of the loop over `lines`: an import line is replaced by its
      statement; the match, if any, is returned for recording. */
  method RewriteLineAt(lines: array<string>, ii: nat, cwd: string, realpath: string -> string)
    returns (m: Option<string>)
    requires ii < lines.Length
    modifies lines
    ensures m == ImportOf(old(lines[ii]))
    ensures lines[ii] == Rewritten(old(lines[ii]), cwd, realpath)
    ensures forall k :: 0 <= k < lines.Length && k != ii ==> lines[k] == old(lines[k])
  {
    m := MatchImport(StripComment(lines[ii]));
    if m.Some? {
      var fp := realpath(cwd + "/" + m.value);
      lines[ii] := ImportStatement(fp);
    }
  }

  /** `extractImports(content)`: returns the rewritten code and the raw import paths. */
  method ExtractImports(content: string, cwd: string, realpath: string -> string)
    returns (finalCode: string, imports: seq<string>)
    ensures finalCode == Join(RewrittenLines(Split(content, '\n'), cwd, realpath), "\n")
    ensures imports == ImportsOf(Split(content, '\n'))
  {
    var parts := Split(content, '\n');
    var lines := new string[|parts|](i requires 0 <= i < |parts| => parts[i]);
    imports := [];
    var ii := 0;
    while ii < lines.Length
      invariant 0 <= ii <= lines.Length == |parts|
      invariant forall k :: 0 <= k < ii ==> lines[k] == Rewritten(parts[k], cwd, realpath)
      invariant forall k :: ii <= k < lines.Length ==> lines[k] == parts[k]
      invariant imports == ImportsOf(parts[..ii])
    {
      CollectStep(parts, ii, ImportOf);
      var m := RewriteLineAt(lines, ii, cwd, realpath);
      if m.Some? {
        imports := imports + [m.value];
      }
      ii := ii + 1;
    }
    assert parts[..ii] == parts;
    assert lines[..] == RewrittenLines(parts, cwd, realpath);
    finalCode := Join(lines[..], "\n");
  }
}
