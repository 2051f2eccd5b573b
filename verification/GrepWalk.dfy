/** The capped recursive text search against its uncapped specification. */
module GrepWalk {
  import opened Common
  import opened Decimal
  import opened Lists
  import opened TextLines

  const MAX_MATCHES := 100
  const MAX_FILES := 1000
  const MAX_DEPTH := 20

  /** A path as the file system shows it: a file, readable or not; a directory, readable or not; or a failed stat. */
  datatype FsNode = File(content: Option<string>) | Dir(listing: Listing) | Broken

  datatype Entry = Entry(path: string, node: FsNode)

  datatype Listing = Unreadable | Entries(entries: seq<Entry>)

  /** A file met on the way, with the depth of the directory that holds it. */
  datatype Found = Found(path: string, content: Option<string>, depth: nat)

  // ---- One file ----

  function StripCarriageReturn(line: string): string {
    if line != "" && line[|line| - 1] == '\r' then line[..|line| - 1] else line
  }

  /** The lines of a file: each newline, with a carriage return before it, is dropped; an unterminated last line is
      kept as it is. */
  function Lines(content: string): seq<string> {
    var complete, tail := CompleteLines(content), Tail(content);
    seq(|complete|, i requires 0 <= i < |complete| => StripCarriageReturn(complete[i])) + if tail == "" then [] else [tail]
  }

  predicate Contains(line: string, pattern: string) {
    StartsWith(line, pattern) || (line != "" && Contains(line[1..], pattern))
  }

  /** `Contains` means that the pattern occurs somewhere. */
  lemma {:induction false} ContainsIffOccurs(line: string, pattern: string)
    ensures Contains(line, pattern) <==> exists before, after :: line == before + (pattern + after)
  {
    if StartsWith(line, pattern) {
      assert line == "" + (pattern + line[|pattern|..]);
    } else if line != "" {
      ContainsIffOccurs(line[1..], pattern);
      if Contains(line[1..], pattern) {
        var before, after :| line[1..] == before + (pattern + after);
        assert line == [line[0]] + before + (pattern + after);
      }
      forall before, after | line == before + (pattern + after) ensures Contains(line[1..], pattern) {
        assert before != "";
        assert line[1..] == before[1..] + (pattern + after);
      }
    }
  }

  /** The matches among lines numbered from `from` up. */
  function LineMatches(path: string, pattern: string, lines: seq<string>, from: nat): seq<string> {
    if lines == [] then []
    else (if Contains(lines[0], pattern) then [path + ":" + Print(from) + ":" + lines[0]] else [])
         + LineMatches(path, pattern, lines[1..], from + 1)
  }

  /** A text of newline-terminated lines and a rest has those lines, each without a carriage return at its end if it has
      one, and then the rest, if there is any. */
  lemma LinesExactly(raw: seq<string>, rest: string)
    requires '\n' !in rest && forall line | line in raw :: '\n' !in line
    ensures var lines := Lines(Unlines(raw) + rest);
            && |lines| == |raw| + (if rest == "" then 0 else 1) && (rest != "" ==> lines[|raw|] == rest)
            && forall i | 0 <= i < |raw| ::
                 if raw[i] != "" && raw[i][|raw[i]| - 1] == '\r' then raw[i] == lines[i] + "\r" else raw[i] == lines[i]
  {
    OnlyLines(raw, rest);
  }

  /** Matches of lines in two parts are the matches of the first, then those of the second, numbered on. */
  lemma {:induction false} MatchesConcat(path: string, pattern: string, a: seq<string>, b: seq<string>, from: nat)
    ensures LineMatches(path, pattern, a + b, from) == LineMatches(path, pattern, a, from) + LineMatches(path, pattern, b, from + |a|)
  {
    hide Contains, Print;
    if a == [] {
      assert a + b == b;
    } else {
      assert (a + b)[1..] == a[1..] + b;
      MatchesConcat(path, pattern, a[1..], b, from + 1);
    }
  }

  /** One line matches exactly when the pattern occurs in it, and is reported with its path and number. */
  lemma OneLineMatches(path: string, pattern: string, line: string, from: nat)
    ensures LineMatches(path, pattern, [line], from) ==
            if exists before, after :: line == before + (pattern + after) then [path + ":" + Print(from) + ":" + line] else []
  {
    ContainsIffOccurs(line, pattern);
    hide Contains, Print;
    assert [line][1..] == [];
  }

  function MatchesIn(path: string, content: Option<string>, pattern: string): seq<string> {
    match content
    case None => []
    case Some(text) => LineMatches(path, pattern, Lines(text), 1)
  }

  lemma {:induction false} MatchesAre(path: string, pattern: string, lines: seq<string>, from: nat, m: string)
    ensures m in LineMatches(path, pattern, lines, from) <==>
            exists k | 0 <= k < |lines| :: Contains(lines[k], pattern) && m == path + ":" + Print(from + k) + ":" + lines[k]
  {
    if lines != [] {
      MatchesAre(path, pattern, lines[1..], from + 1, m);
      hide Contains, Print;
      assert forall k | 0 <= k < |lines| - 1 :: lines[1..][k] == lines[k + 1];
      if k :| 0 <= k < |lines| && Contains(lines[k], pattern) && m == path + ":" + Print(from + k) + ":" + lines[k] {
        if k > 0 { assert lines[1..][k - 1] == lines[k] && from + 1 + (k - 1) == from + k; }
      }
      if k :| 0 <= k < |lines| - 1 && Contains(lines[1..][k], pattern) && m == path + ":" + Print(from + 1 + k) + ":" + lines[1..][k] {
        assert lines[k + 1] == lines[1..][k] && from + (k + 1) == from + 1 + k;
      }
    }
  }

  /** The matches of a file are its lines in which the pattern occurs, counted from 1; an unreadable file has none. */
  lemma MatchesOfFile(path: string, text: string, pattern: string, m: string)
    ensures MatchesIn(path, None, pattern) == []
    ensures m in MatchesIn(path, Some(text), pattern) <==>
            exists k | 0 <= k < |Lines(text)| :: Contains(Lines(text)[k], pattern) && m == path + ":" + Print(k + 1) + ":" + Lines(text)[k]
  {
    MatchesAre(path, pattern, Lines(text), 1, m);
    hide Lines, Contains, Print;
  }

  function FileMatches(pattern: string): Found -> seq<string> {
    (f: Found) => MatchesIn(f.path, f.content, pattern)
  }

  function Take<T>(n: nat, s: seq<T>): (r: seq<T>)
    ensures |r| == Min(n, |s|) && r <= s
  {
    if |s| <= n then s else s[..n]
  }

  // ---- The whole tree, uncapped ----

  /** Every file, in reading order. */
  function Preorder(listing: Listing, depth: nat): seq<Found> {
    match listing
    case Unreadable => []
    case Entries(entries) => PreorderAll(entries, depth)
  }

  function PreorderAll(entries: seq<Entry>, depth: nat): seq<Found> {
    if entries == [] then [] else PreorderOne(entries[0], depth) + PreorderAll(entries[1..], depth)
  }

  function PreorderOne(entry: Entry, depth: nat): seq<Found> {
    match entry.node
    case Broken => []
    case File(content) => [Found(entry.path, content, depth)]
    case Dir(listing) => Preorder(listing, depth + 1)
  }

  lemma {:induction false} PreorderConcat(a: seq<Entry>, b: seq<Entry>, depth: nat)
    ensures PreorderAll(a + b, depth) == PreorderAll(a, depth) + PreorderAll(b, depth)
  {
    hide PreorderOne;
    if a == [] {
      assert a + b == b;
    } else {
      assert (a + b)[1..] == a[1..] + b;
      PreorderConcat(a[1..], b, depth);
    }
  }

  /** An entry stands for a file, for all files below a readable directory, or for nothing. */
  lemma PreorderOfOne(path: string, content: Option<string>, below: seq<Entry>, depth: nat)
    ensures PreorderAll([Entry(path, File(content))], depth) == [Found(path, content, depth)]
    ensures PreorderAll([Entry(path, Dir(Entries(below)))], depth) == PreorderAll(below, depth + 1)
    ensures PreorderAll([Entry(path, Dir(Unreadable))], depth) == PreorderAll([Entry(path, Broken)], depth) == []
  {
    JustOne(Entry(path, File(content)), depth);
    JustOne(Entry(path, Dir(Entries(below))), depth);
    JustOne(Entry(path, Dir(Unreadable)), depth);
    JustOne(Entry(path, Broken), depth);
  }

  lemma JustOne(e: Entry, depth: nat)
    ensures PreorderAll([e], depth) == PreorderOne(e, depth)
  {
    assert [e][1..] == [];
  }

  /** A file lies `depth` directories below these entries. */
  ghost predicate FileAt(entries: seq<Entry>, path: string, content: Option<string>, depth: nat)
    decreases entries
  {
    exists e | e in entries ::
      || (e.node.File? && depth == 0 && e.path == path && e.node.content == content)
      || (e.node.Dir? && e.node.listing.Entries? && depth > 0 && FileAt(e.node.listing.entries, path, content, depth - 1))
  }

  lemma OneFileAt(entries: seq<Entry>, f: Found, base: nat)
    requires entries != []
    ensures f.depth >= base ==>
            (FileAt(entries, f.path, f.content, f.depth - base) <==>
             FileAt([entries[0]], f.path, f.content, f.depth - base) || FileAt(entries[1..], f.path, f.content, f.depth - base))
  {
    assert forall e :: e in entries <==> e == entries[0] || e in entries[1..];
    assert forall e :: e in [entries[0]] <==> e == entries[0];
  }

  /** The walk meets exactly the files of the tree, each with its depth. */
  lemma {:induction false} MeetsFiles(entries: seq<Entry>, base: nat, f: Found)
    ensures f in PreorderAll(entries, base) <==> f.depth >= base && FileAt(entries, f.path, f.content, f.depth - base)
    decreases entries
  {
    if entries != [] {
      OneFileAt(entries, f, base);
      MeetsFiles(entries[1..], base, f);
      MeetsBelow(entries[0], base, f);
      hide FileAt, PreorderOne;
    }
  }

  lemma {:induction false} MeetsBelow(e: Entry, base: nat, f: Found)
    ensures f in PreorderOne(e, base) <==> f.depth >= base && FileAt([e], f.path, f.content, f.depth - base)
    decreases e
  {
    assert forall x :: x in [e] <==> x == e;
    if e.node.Dir? && e.node.listing.Entries? { MeetsFiles(e.node.listing.entries, base + 1, f); }
  }

  function Shallow(): Found -> seq<Found> {
    (f: Found) => if f.depth < 20 then [f] else []
  }

  /** The files the depth limit allows. */
  function Reachable(listing: Listing): seq<Found> {
    FlatMap(Shallow(), Preorder(listing, 0))
  }

  lemma {:induction false} ShallowOnes(files: seq<Found>, f: Found)
    ensures f in FlatMap(Shallow(), files) <==> f in files && f.depth < 20
  {
    if files != [] { ShallowOnes(files[1..], f); }
  }

  /** The files searched are those fewer than 20 directories below the root. */
  lemma ReachableExactly(entries: seq<Entry>, f: Found)
    ensures f in Reachable(Entries(entries)) <==> f.depth < 20 && FileAt(entries, f.path, f.content, f.depth)
  {
    MeetsFiles(entries, 0, f);
    ShallowOnes(PreorderAll(entries, 0), f);
    hide FileAt, PreorderAll, Shallow, FlatMap;
  }

  /** The specification: the first matches of the first files. */
  function Search(listing: Listing, pattern: string): seq<string> {
    Take(100, FlatMap(FileMatches(pattern), Take(1000, Reachable(listing))))
  }

  // ---- The walk as a fold over files ----

  datatype Progress = Progress(matches: seq<string>, visited: nat)

  predicate Capped(s: Progress) {
    |s.matches| >= MAX_MATCHES || s.visited >= MAX_FILES
  }

  function Visit(pattern: string, s: Progress, f: Found): Progress {
    if Capped(s) then s else Progress(Take(MAX_MATCHES, s.matches + FileMatches(pattern)(f)), s.visited + 1)
  }

  function VisitAll(pattern: string, s: Progress, files: seq<Found>): Progress
    decreases |files|
  {
    if files == [] then s
    else VisitAll(pattern, Visit(pattern, s, files[0]), files[1..])
  }

  function ShallowAll(entries: seq<Entry>, depth: nat): seq<Found> {
    FlatMap(Shallow(), PreorderAll(entries, depth))
  }

  lemma {:induction false} VisitConcat(pattern: string, s: Progress, a: seq<Found>, b: seq<Found>)
    ensures VisitAll(pattern, s, a + b) == VisitAll(pattern, VisitAll(pattern, s, a), b)
    decreases |a|
  {
    if a == [] {
      assert a + b == b;
    } else {
      VisitConcat(pattern, Visit(pattern, s, a[0]), a[1..], b);
      assert (a + b)[1..] == a[1..] + b;
    }
  }

  lemma {:induction false} CappedStays(pattern: string, s: Progress, files: seq<Found>)
    requires Capped(s)
    ensures VisitAll(pattern, s, files) == s
    decreases |files|
  {
    if files != [] { CappedStays(pattern, s, files[1..]); }
  }

  lemma {:induction false} TooDeep(listing: Listing, depth: nat)
    requires depth >= MAX_DEPTH
    ensures FlatMap(Shallow(), Preorder(listing, depth)) == []
    decreases listing, 1
  {
    if listing.Entries? { AllTooDeep(listing.entries, depth); }
  }

  lemma {:induction false} AllTooDeep(entries: seq<Entry>, depth: nat)
    requires depth >= MAX_DEPTH
    ensures ShallowAll(entries, depth) == []
    decreases entries, 0
  {
    if entries != [] {
      FlatMapConcat(Shallow(), PreorderOne(entries[0], depth), PreorderAll(entries[1..], depth));
      AllTooDeep(entries[1..], depth);
      match entries[0].node
      case Dir(listing) => TooDeep(listing, depth + 1);
      case _ =>
    }
  }

  class GrepSearch {
    var matches: seq<string>
    var filesVisited: nat

    constructor ()
      ensures Done() == Progress([], 0)
    {
      matches, filesVisited := [], 0;
    }

    function Done(): Progress
      reads this
    {
      Progress(matches, filesVisited)
    }

    /** Visits the files below a directory in reading order until a cap is reached. */
    method WalkAndGrep(listing: Listing, pattern: string, depth: nat)
      modifies this
      ensures Done() == VisitAll(pattern, old(Done()), FlatMap(Shallow(), Preorder(listing, depth)))
      decreases listing, 1
    {
      hide Visit, MatchesIn, FlatMap, Shallow, VisitAll, PreorderAll, PreorderOne;
      NothingToVisit(pattern, depth);
      if depth >= MAX_DEPTH || filesVisited >= MAX_FILES || |matches| >= MAX_MATCHES {
        if depth >= MAX_DEPTH {
          TooDeep(listing, depth);
        } else {
          CappedStays(pattern, Done(), FlatMap(Shallow(), Preorder(listing, depth)));
        }
        return;
      }
      match listing
      case Unreadable => return;
      case Entries(entries) =>
        ghost var spec := VisitAll(pattern, Done(), ShallowAll(entries, depth));
        for i := 0 to |entries|
          invariant spec == VisitAll(pattern, Done(), ShallowAll(entries[i..], depth))
        {
          if |matches| >= MAX_MATCHES || filesVisited >= MAX_FILES {
            CappedStays(pattern, Done(), ShallowAll(entries[i..], depth));
            return;
          }
          NextEntry(entries[i..], depth, pattern, Done());
          assert entries[i..][1..] == entries[i + 1..];
          match entries[i].node
          case Broken => continue;
          case Dir(below) => WalkAndGrep(below, pattern, depth + 1);
          case File(content) =>
            ghost var before := Done();
            filesVisited := filesVisited + 1;
            GrepFile(entries[i].path, content, pattern);
            VisitedOne(pattern, before, Found(entries[i].path, content, depth));
        }
        assert entries[|entries|..] == [];
    }

    method GrepFile(path: string, content: Option<string>, pattern: string)
      requires |matches| <= MAX_MATCHES
      modifies this`matches
      ensures matches == Take(MAX_MATCHES, old(matches) + MatchesIn(path, content, pattern))
    {
      match content
      case None => return;
      case Some(text) => GrepContent(path, text, pattern);
    }

    method GrepContent(path: string, content: string, pattern: string)
      requires |matches| <= MAX_MATCHES
      modifies this`matches
      ensures matches == Take(MAX_MATCHES, old(matches) + LineMatches(path, pattern, Lines(content), 1))
    {
      hide Lines, Contains, Print;
      var lines := Lines(content);
      ghost var spec := matches + LineMatches(path, pattern, lines, 1);
      for i := 0 to |lines|
        invariant |matches| <= MAX_MATCHES
        invariant spec == matches + LineMatches(path, pattern, lines[i..], i + 1)
      {
        if |matches| >= MAX_MATCHES { return; }
        NextLine(path, pattern, lines, i, matches);
        if Contains(lines[i], pattern) {
          matches := matches + [path + ":" + Print(i + 1) + ":" + lines[i]];
        }
      }
      NoMoreLines(path, pattern, lines, matches);
    }
  }

  lemma NextLine(path: string, pattern: string, lines: seq<string>, i: nat, before: seq<string>)
    requires i < |lines|
    ensures before + LineMatches(path, pattern, lines[i..], i + 1) ==
            (if Contains(lines[i], pattern) then before + [path + ":" + Print(i + 1) + ":" + lines[i]] else before)
            + LineMatches(path, pattern, lines[i + 1..], i + 2)
  {
    hide Contains, Print;
    assert lines[i..][1..] == lines[i + 1..];
  }

  lemma NoMoreLines(path: string, pattern: string, lines: seq<string>, before: seq<string>)
    ensures before + LineMatches(path, pattern, lines[|lines|..], |lines| + 1) == before
  {
  }

  lemma NothingToVisit(pattern: string, depth: nat)
    ensures forall s :: VisitAll(pattern, s, ShallowAll([], depth)) == s
    ensures FlatMap(Shallow(), []) == [] && forall s :: VisitAll(pattern, s, []) == s
  {
  }

  lemma VisitedOne(pattern: string, s: Progress, f: Found)
    requires !Capped(s)
    ensures VisitAll(pattern, s, [f]) == Progress(Take(MAX_MATCHES, s.matches + FileMatches(pattern)(f)), s.visited + 1)
  {
    assert [f][1..] == [];
  }

  lemma NextEntry(entries: seq<Entry>, depth: nat, pattern: string, s: Progress)
    requires entries != [] && depth < MAX_DEPTH
    ensures var here := FlatMap(Shallow(), PreorderOne(entries[0], depth));
            && VisitAll(pattern, s, ShallowAll(entries, depth)) == VisitAll(pattern, VisitAll(pattern, s, here), ShallowAll(entries[1..], depth))
            && (entries[0].node.File? ==> here == [Found(entries[0].path, entries[0].node.content, depth)])
            && (entries[0].node.Dir? ==> here == FlatMap(Shallow(), Preorder(entries[0].node.listing, depth + 1)))
            && (entries[0].node.Broken? ==> VisitAll(pattern, s, here) == s)
  {
    var one, rest := PreorderOne(entries[0], depth), PreorderAll(entries[1..], depth);
    FlatMapConcat(Shallow(), one, rest);
    VisitConcat(pattern, s, FlatMap(Shallow(), one), FlatMap(Shallow(), rest));
    if entries[0].node.File? { FlatMapOne(Shallow(), one[0]); }
  }

  // ---- The walk refines the specification ----

  /** The number of files looked at: those up to the cap, or up to the first that completes the matches. */
  ghost predicate StopsAt(files: seq<Found>, pattern: string, n: nat) {
    && n <= |files| && n <= 1000
    && (forall k | 0 <= k < n :: |FlatMap(FileMatches(pattern), files[..k])| < 100)
    && (n == |files| || n == 1000 || |FlatMap(FileMatches(pattern), files[..n])| >= 100)
  }

  lemma {:induction false} VisitedSoFar(pattern: string, files: seq<Found>)
    ensures var s := VisitAll(pattern, Progress([], 0), files);
            && s.matches == Take(MAX_MATCHES, FlatMap(FileMatches(pattern), Take(MAX_FILES, files)))
            && StopsAt(files, pattern, s.visited)
    decreases |files|
  {
    if files != [] {
      var init, last := files[..|files| - 1], files[|files| - 1];
      assert files == init + [last];
      VisitedSoFar(pattern, init);
      VisitConcat(pattern, Progress([], 0), init, [last]);
      OneMore(pattern, init, last, VisitAll(pattern, Progress([], 0), init));
    }
  }

  lemma OneMore(pattern: string, files: seq<Found>, f: Found, s: Progress)
    requires s.matches == Take(MAX_MATCHES, FlatMap(FileMatches(pattern), Take(MAX_FILES, files))) && StopsAt(files, pattern, s.visited)
    ensures var t := VisitAll(pattern, s, [f]);
            && t.matches == Take(MAX_MATCHES, FlatMap(FileMatches(pattern), Take(MAX_FILES, files + [f])))
            && StopsAt(files + [f], pattern, t.visited)
  {
    var m := FileMatches(pattern);
    hide FileMatches, FlatMap, VisitAll;
    FlatMapConcat(m, files, [f]);
    FlatMapOne(m, f);
    assert forall k | 0 <= k <= |files| :: (files + [f])[..k] == files[..k];
    if |files| >= MAX_FILES {
      assert Capped(s) by { StopsWhenCapped(pattern, files, s); }
      CappedStays(pattern, s, [f]);
    } else {
      assert Take(MAX_FILES, files) == files && Take(MAX_FILES, files + [f]) == files + [f];
      TakeMore(FlatMap(m, files), m(f));
      StopsWhenCapped(pattern, files, s);
      if Capped(s) {
        CappedStays(pattern, s, [f]);
      } else {
        VisitedOne(pattern, s, f);
        assert (files + [f])[..|files| + 1] == files + [f];
      }
    }
  }

  lemma TakeMore(a: seq<string>, b: seq<string>)
    ensures Take(MAX_MATCHES, Take(MAX_MATCHES, a) + b) == Take(MAX_MATCHES, a + b)
    ensures |a| >= MAX_MATCHES ==> Take(MAX_MATCHES, a + b) == Take(MAX_MATCHES, a)
  {
  }

  /** A walk that has not reached a cap has looked at every file. */
  lemma StopsWhenCapped(pattern: string, files: seq<Found>, s: Progress)
    requires s.matches == Take(MAX_MATCHES, FlatMap(FileMatches(pattern), Take(MAX_FILES, files))) && StopsAt(files, pattern, s.visited)
    ensures Capped(s) || s.visited == |files|
    ensures Capped(s) && |files| < MAX_FILES ==> |s.matches| == MAX_MATCHES
  {
    var m, n := FileMatches(pattern), s.visited;
    hide FileMatches, FlatMap;
    var first := Take(MAX_FILES, files);
    assert first[..n] == files[..n] && first == first[..n] + first[n..];
    FlatMapConcat(m, first[..n], first[n..]);
  }

  /** The walk returns exactly the first 100 matches of the first 1000 files within the depth limit, in reading
      order; it never exceeds its caps and looks at no file more than it needs. */
  lemma WalkRefinesSearch(listing: Listing, pattern: string)
    ensures var s := VisitAll(pattern, Progress([], 0), Reachable(listing));
            && s.matches == Search(listing, pattern)
            && |s.matches| <= 100 && s.visited <= 1000
            && StopsAt(Reachable(listing), pattern, s.visited)
  {
    VisitedSoFar(pattern, Reachable(listing));
  }

  function Join(lines: seq<string>): string {
    if lines == [] then "" else if |lines| == 1 then lines[0] else lines[0] + "\n" + Join(lines[1..])
  }

  /** Lines are joined by newlines, none at the end. */
  lemma {:induction false} JoinSnoc(lines: seq<string>, last: string)
    ensures Join([]) == ""
    ensures Join(lines + [last]) == if lines == [] then last else Join(lines) + "\n" + last
  {
    if lines == [] {
      assert lines + [last] == [last];
    } else {
      assert (lines + [last])[1..] == lines[1..] + [last];
      JoinSnoc(lines[1..], last);
      if |lines| > 1 {
        Regroup(lines[0], Join(lines[1..]), last);
      } else {
        assert lines[1..] == [];
      }
    }
  }

  lemma Regroup(a: string, b: string, c: string)
    ensures a + "\n" + (b + "\n" + c) == a + "\n" + b + "\n" + c
  {
  }

  /** The tool: refuses an empty pattern, and otherwise reports what the specification finds. */
  method GrepTool(listing: Listing, pattern: string) returns (r: Result<string, string>)
    ensures pattern == "" <==> r.Err?
    ensures r.Ok? ==> r.value == if Search(listing, pattern) == [] then "No matches found." else Join(Search(listing, pattern))
  {
    if pattern == "" { return Err("pattern must not be empty"); }
    var search := new GrepSearch();
    search.WalkAndGrep(listing, pattern, 0);
    WalkRefinesSearch(listing, pattern);
    if search.matches == [] { return Ok("No matches found."); }
    return Ok(Join(search.matches));
  }
}
