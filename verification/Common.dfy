/** Option, Result and JSON values shared by the component models. */
module Common {

  datatype Option<+T> = None | Some(value: T) {

    /** Converts None to the given default. */
    function GetOr(default: T): T {
      match this
      case None => default
      case Some(v) => v
    }
  }

  datatype Result<+R, +E> = Ok(value: R) | Err(error: E)

  /** A parsed JSON value. Numbers are integers: no component modelled here looks inside one. */
  datatype Json =
    | Null
    | Bool(b: bool)
    | Num(n: int)
    | Str(s: string)
    | Arr(items: seq<Json>)
    | Obj(fields: map<string, Json>)
  {
    /** Member lookup: None unless this is an object holding `key`. */
    function Get(key: string): (r: Option<Json>)
      ensures r.Some? <==> Obj? && key in fields
      ensures r.Some? ==> r.value == fields[key]
    {
      if Obj? && key in fields then Some(fields[key]) else None
    }

    /** The string under `key`; None also when the member is not a string. */
    function GetStr(key: string): (r: Option<string>)
      ensures r.Some? <==> Obj? && key in fields && fields[key].Str?
      ensures r.Some? ==> fields[key] == Str(r.value)
    {
      match Get(key)
      case Some(Str(s)) => Some(s)
      case _ => None
    }

    /** The boolean under `key`; None also when the member is not a boolean. */
    function GetBool(key: string): (r: Option<bool>)
      ensures r.Some? <==> Obj? && key in fields && fields[key].Bool?
      ensures r.Some? ==> fields[key] == Bool(r.value)
    {
      match Get(key)
      case Some(Bool(b)) => Some(b)
      case _ => None
    }
  }

  function Min(a: nat, b: nat): nat {
    if a < b then a else b
  }

  predicate StartsWith(s: string, prefix: string) {
    prefix <= s
  }

  /** A-Z, a-z and 0-9. */
  predicate IsAlphanumeric(c: char) {
    'a' <= c <= 'z' || 'A' <= c <= 'Z' || '0' <= c <= '9'
  }

  /** A segment of a topic or key: 1 to max characters, each alphanumeric, '_' or '-'. */
  predicate IsSegment(s: string, max: nat) {
    1 <= |s| <= max && forall c | c in s :: IsAlphanumeric(c) || c == '_' || c == '-'
  }
}

/** Unicode whitespace and trimming. */
module Whitespace {

  /** The characters Unicode calls White_Space. */
  predicate IsWhitespace(c: char) {
    var n := c as int;
    || 0x09 <= n <= 0x0D || n == 0x20 || n == 0x85 || n == 0xA0 || n == 0x1680
    || 0x2000 <= n <= 0x200A || n == 0x2028 || n == 0x2029 || n == 0x202F || n == 0x205F || n == 0x3000
  }

  function TrimStart(s: string): string {
    if s != "" && IsWhitespace(s[0]) then TrimStart(s[1..]) else s
  }

  function TrimEnd(s: string): string {
    if s != "" && IsWhitespace(s[|s| - 1]) then TrimEnd(s[..|s| - 1]) else s
  }

  function Trim(s: string): string {
    TrimEnd(TrimStart(s))
  }

  // ---- What trimming means ----

  predicate AllWhite(s: string) {
    forall c | c in s :: IsWhitespace(c)
  }

  /** Not empty, and no whitespace at either end. */
  predicate IsBare(s: string) {
    s != "" && !IsWhitespace(s[0]) && !IsWhitespace(s[|s| - 1])
  }

  lemma {:induction false} StartParts(s: string) returns (w: string)
    ensures s == w + TrimStart(s) && AllWhite(w)
    ensures TrimStart(s) == "" || !IsWhitespace(TrimStart(s)[0])
  {
    hide IsWhitespace;
    if s != "" && IsWhitespace(s[0]) {
      w := StartParts(s[1..]);
      w := [s[0]] + w;
    } else {
      w := "";
    }
  }

  lemma {:induction false} EndParts(s: string) returns (w: string)
    ensures s == TrimEnd(s) + w && AllWhite(w)
    ensures TrimEnd(s) == "" || (!IsWhitespace(TrimEnd(s)[|TrimEnd(s)| - 1]) && TrimEnd(s)[0] == s[0])
  {
    hide IsWhitespace;
    if s != "" && IsWhitespace(s[|s| - 1]) {
      w := EndParts(s[..|s| - 1]);
      w := w + [s[|s| - 1]];
    } else {
      w := "";
    }
  }

  /** Trimming leaves what stands between whitespace, and nothing of a text that is all whitespace. */
  lemma TrimParts(s: string) returns (w: string, w': string)
    ensures s == w + Trim(s) + w' && AllWhite(w) && AllWhite(w')
    ensures Trim(s) == "" || IsBare(Trim(s))
  {
    hide IsWhitespace, TrimStart, TrimEnd;
    w := StartParts(s);
    w' := EndParts(TrimStart(s));
    assert w + (Trim(s) + w') == w + Trim(s) + w';
  }

  lemma Lead(a: string, x: string, w: string, y: string)
    requires x != "" && AllWhite(w) && a + x == w + y
    ensures |a| < |w| ==> IsWhitespace(x[0])
  {
    if |a| < |w| { assert w[|a|] == (a + x)[|a|] == x[0]; }
  }

  lemma Trail(a: string, x: string, w: string, y: string)
    requires x != "" && AllWhite(w) && x + a == y + w
    ensures |a| < |w| ==> IsWhitespace(x[|x| - 1])
  {
    if |a| < |w| { assert w[|w| - |a| - 1] == (x + a)[|x| - 1] == x[|x| - 1]; }
  }

  lemma NotAllWhite(a: string, mid: string, b: string)
    requires mid != ""
    ensures AllWhite(a + mid + b) ==> IsWhitespace(mid[0])
  {
    assert (a + mid + b)[|a|] == mid[0];
  }

  lemma BothWhite(a: string, b: string)
    requires AllWhite(a) && AllWhite(b)
    ensures AllWhite(a + b)
  {
  }

  /** There is only one way to take whitespace off both ends. */
  lemma OneMiddle(a: string, mid: string, b: string, w: string, other: string, w': string)
    requires AllWhite(a) && AllWhite(b) && AllWhite(w) && AllWhite(w')
    requires IsBare(mid) && (other == "" || IsBare(other))
    requires a + mid + b == w + other + w'
    ensures mid == other
  {
    hide IsWhitespace;
    NotAllWhite(a, mid, b);
    BothWhite(w, w');
    assert w + "" + w' == w + w';
    if other != "" {
      assert a + mid + b == a + (mid + b) && w + other + w' == w + (other + w');
      Lead(a, mid + b, w, other + w');
      Lead(w, other + w', a, mid + b);
      Trail(b, a + mid, w', w + other);
      Trail(w', w + other, b, a + mid);
      assert mid == (a + mid + b)[|a|..|a| + |mid|];
      assert other == (w + other + w')[|w|..|w| + |other|];
    }
  }

  lemma TrimOf(a: string, mid: string, b: string)
    requires AllWhite(a) && AllWhite(b) && IsBare(mid)
    ensures Trim(a + mid + b) == mid
  {
    hide IsWhitespace, Trim, AllWhite, IsBare;
    var w, w' := TrimParts(a + mid + b);
    OneMiddle(a, mid, b, w, Trim(a + mid + b), w');
  }

  lemma TrimEmptyIff(s: string)
    ensures Trim(s) == "" <==> AllWhite(s)
  {
    hide IsWhitespace, Trim;
    var w, w' := TrimParts(s);
    if Trim(s) != "" {
      assert s[|w|] == Trim(s)[0];
    } else {
      assert forall c | c in s :: c in w || c in w';
    }
  }
}

/** Text cut at its newlines. */
module TextLines {
  import opened Common

  function FirstNewline(s: string): (n: Option<nat>)
    ensures n == None ==> '\n' !in s
    ensures n.Some? ==> n.value < |s| && s[n.value] == '\n' && '\n' !in s[..n.value]
  {
    if s == "" then None
    else if s[0] == '\n' then Some(0)
    else match FirstNewline(s[1..])
      case None => None
      case Some(k) =>
        assert s[..k + 1] == [s[0]] + s[1..][..k];
        Some(k + 1)
  }

  /** The newline-terminated lines of `s`, without their newlines. */
  function CompleteLines(s: string): seq<string>
    decreases |s|
  {
    match FirstNewline(s)
    case None => []
    case Some(n) => [s[..n]] + CompleteLines(s[n + 1..])
  }

  /** What follows the last newline. */
  function Tail(s: string): string
    decreases |s|
  {
    match FirstNewline(s)
    case None => s
    case Some(n) => Tail(s[n + 1..])
  }

  lemma {:induction false} NewlineInConcat(a: string, b: string)
    ensures FirstNewline(a).Some? ==> FirstNewline(a + b) == FirstNewline(a)
  {
    if a != "" && a[0] != '\n' {
      NewlineInConcat(a[1..], b);
      assert (a + b)[1..] == a[1..] + b;
    }
  }

  lemma CutFirst(a: string, b: string, n: nat)
    requires FirstNewline(a) == Some(n)
    ensures CompleteLines(a) == [a[..n]] + CompleteLines(a[n + 1..]) && Tail(a) == Tail(a[n + 1..])
    ensures CompleteLines(a + b) == [a[..n]] + CompleteLines(a[n + 1..] + b) && Tail(a + b) == Tail(a[n + 1..] + b)
  {
    NewlineInConcat(a, b);
    assert (a + b)[..n] == a[..n];
    assert (a + b)[n + 1..] == a[n + 1..] + b;
  }

  lemma NotCut(a: string, b: string)
    requires FirstNewline(a) == None
    ensures CompleteLines(a) == [] && Tail(a) == a
  {
  }

  lemma Chained<T>(all: seq<T>, first: seq<T>, x: seq<T>, y: seq<T>, rest: seq<T>)
    requires all == first + rest && rest == x + y
    ensures all == first + x + y
  {
  }

  function Unlines(lines: seq<string>): string {
    if lines == [] then "" else lines[0] + "\n" + Unlines(lines[1..])
  }

  lemma FirstLine(s: string, n: nat)
    requires FirstNewline(s) == Some(n)
    ensures CompleteLines(s) == [s[..n]] + CompleteLines(s[n + 1..]) && Tail(s) == Tail(s[n + 1..])
    ensures s == s[..n] + "\n" + s[n + 1..] && '\n' !in s[..n]
  {
    CutAt(s, n);
  }

  lemma CutAt(s: string, n: nat)
    requires n < |s| && s[n] == '\n'
    ensures s == s[..n] + "\n" + s[n + 1..]
  {
  }

  lemma UnlinesCons(line: string, lines: seq<string>, rest: string)
    ensures Unlines([line] + lines) + rest == line + "\n" + (Unlines(lines) + rest)
  {
    assert ([line] + lines)[1..] == lines;
  }

  /** The lines, each with its newline, and the tail are the text; none of them holds a newline. */
  lemma {:induction false} LinesRebuild(s: string)
    ensures s == Unlines(CompleteLines(s)) + Tail(s)
    ensures '\n' !in Tail(s) && forall line | line in CompleteLines(s) :: '\n' !in line
    decreases |s|
  {
    match FirstNewline(s)
    case None =>
    case Some(n) =>
      FirstLine(s, n);
      hide CompleteLines, Tail, FirstNewline, Unlines;
      LinesRebuild(s[n + 1..]);
      UnlinesCons(s[..n], CompleteLines(s[n + 1..]), Tail(s));
  }

  lemma {:induction false} NewlineAt(s: string, n: nat)
    requires n < |s| && s[n] == '\n' && '\n' !in s[..n]
    ensures FirstNewline(s) == Some(n)
  {
    if n > 0 {
      assert s[0] == s[..n][0] && s[1..][..n - 1] == s[..n][1..];
      NewlineAt(s[1..], n - 1);
    }
  }

  lemma AfterFirst(lines: seq<string>, tail: string)
    requires lines != [] && '\n' !in lines[0]
    ensures var s := Unlines(lines) + tail;
            FirstNewline(s) == Some(|lines[0]|) && s[..|lines[0]|] == lines[0] && s[|lines[0]| + 1..] == Unlines(lines[1..]) + tail
  {
    var s := lines[0] + "\n" + (Unlines(lines[1..]) + tail);
    UnlinesCons(lines[0], lines[1..], tail);
    assert [lines[0]] + lines[1..] == lines;
    NewlineAt(s, |lines[0]|);
  }

  /** There is one way only to cut a text at its newlines. */
  lemma {:induction false} OnlyLines(lines: seq<string>, tail: string)
    requires '\n' !in tail && forall line | line in lines :: '\n' !in line
    ensures CompleteLines(Unlines(lines) + tail) == lines && Tail(Unlines(lines) + tail) == tail
  {
    if lines == [] {
      assert "" + tail == tail;
    } else {
      AfterFirst(lines, tail);
      FirstLine(Unlines(lines) + tail, |lines[0]|);
      OnlyLines(lines[1..], tail);
      hide CompleteLines, Tail, FirstNewline, Unlines;
    }
  }

  /** Cutting lines out of text that arrives in two parts: the unfinished tail is carried over. */
  lemma {:induction false} LinesOfConcat(a: string, b: string)
    ensures CompleteLines(a + b) == CompleteLines(a) + CompleteLines(Tail(a) + b)
    ensures Tail(a + b) == Tail(Tail(a) + b)
    decreases |a|
  {
    hide CompleteLines, Tail;
    match FirstNewline(a)
    case None => NotCut(a, b);
    case Some(n) =>
      CutFirst(a, b, n);
      LinesOfConcat(a[n + 1..], b);
      Chained(CompleteLines(a + b), [a[..n]], CompleteLines(a[n + 1..]), CompleteLines(Tail(a) + b), CompleteLines(a[n + 1..] + b));
  }
}

/** Deterministic machines that read inputs one by one and write outputs. */
module Machines {

  /** What was written and the state reached. */
  datatype Step<S, O> = Step(out: seq<O>, state: S)

  function Run<S, I, O>(step: (S, I) -> Step<S, O>, s: S, input: seq<I>): Step<S, O>
    decreases |input|
  {
    if input == [] then Step([], s)
    else
      var first := step(s, input[0]);
      var rest := Run(step, first.state, input[1..]);
      Step(first.out + rest.out, rest.state)
  }

  /** Running on a concatenation is running on the first part, then on the second from where it ended. */
  lemma {:induction false} RunConcat<S, I, O>(step: (S, I) -> Step<S, O>, s: S, a: seq<I>, b: seq<I>)
    ensures var first := Run(step, s, a);
            var second := Run(step, first.state, b);
            Run(step, s, a + b) == Step(first.out + second.out, second.state)
    decreases |a|
  {
    if a == [] {
      assert a + b == b;
    } else {
      RunConcat(step, step(s, a[0]).state, a[1..], b);
      assert (a + b)[1..] == a[1..] + b;
    }
  }

  lemma RunCons<S, I, O>(step: (S, I) -> Step<S, O>, s: S, input: seq<I>)
    requires input != []
    ensures Run(step, s, input) == Prepend(step(s, input[0]).out, Run(step, step(s, input[0]).state, input[1..]))
  {
  }

  lemma RunNone<S, I, O>(step: (S, I) -> Step<S, O>, s: S)
    ensures Run(step, s, []) == Step([], s)
  {
  }

  lemma RunOne<S, I, O>(step: (S, I) -> Step<S, O>, s: S, x: I)
    ensures Run(step, s, [x]) == step(s, x)
  {
    assert Run(step, step(s, x).state, [x][1..]) == Step([], step(s, x).state);
  }

  /** The same step after output that was written earlier. */
  function Prepend<S, O>(out: seq<O>, s: Step<S, O>): Step<S, O> {
    Step(out + s.out, s.state)
  }

  lemma PrependPrepend<S, O>(a: seq<O>, b: seq<O>, s: Step<S, O>)
    ensures Prepend(a, Prepend(b, s)) == Prepend(a + b, s)
  {
    assert a + (b + s.out) == a + b + s.out;
  }
}

/** Lists of lists flattened. */
module Lists {

  function FlatMap<T, U>(f: T -> seq<U>, xs: seq<T>): seq<U> {
    if xs == [] then [] else f(xs[0]) + FlatMap(f, xs[1..])
  }

  lemma {:induction false} FlatMapConcat<T, U>(f: T -> seq<U>, a: seq<T>, b: seq<T>)
    ensures FlatMap(f, a + b) == FlatMap(f, a) + FlatMap(f, b)
  {
    if a == [] {
      assert a + b == b;
    } else {
      FlatMapConcat(f, a[1..], b);
      assert (a + b)[1..] == a[1..] + b;
      assert f(a[0]) + (FlatMap(f, a[1..]) + FlatMap(f, b)) == FlatMap(f, a) + FlatMap(f, b);
    }
  }

  lemma FlatMapOne<T, U>(f: T -> seq<U>, x: T)
    ensures FlatMap(f, [x]) == f(x)
  {
    assert FlatMap(f, [x][1..]) == [];
  }
}

/** Lists of positions. */
module IndexLists {

  predicate Ascending(list: seq<nat>) {
    forall i, j | 0 <= i < j < |list| :: list[i] < list[j]
  }

  predicate Below(list: seq<nat>, n: nat) {
    forall k | 0 <= k < |list| :: list[k] < n
  }
}

/** Sorting by a total order. */
module Sorting {

  ghost predicate TotalOrder<T(!new)>(le: (T, T) -> bool) {
    && (forall x, y :: le(x, y) || le(y, x))
    && (forall x, y, z :: le(x, y) && le(y, z) ==> le(x, z))
  }

  predicate Sorted<T>(le: (T, T) -> bool, s: seq<T>) {
    forall i, j | 0 <= i < j < |s| :: le(s[i], s[j])
  }

  function Insert<T>(le: (T, T) -> bool, x: T, s: seq<T>): seq<T> {
    if s == [] then [x] else if le(x, s[0]) then [x] + s else [s[0]] + Insert(le, x, s[1..])
  }

  function Sort<T>(le: (T, T) -> bool, s: seq<T>): seq<T> {
    if s == [] then [] else Insert(le, s[0], Sort(le, s[1..]))
  }

  lemma {:induction false} InsertKeeps<T>(le: (T, T) -> bool, x: T, s: seq<T>)
    ensures multiset(Insert(le, x, s)) == multiset(s) + multiset{x}
  {
    if s != [] && !le(x, s[0]) {
      InsertKeeps(le, x, s[1..]);
      assert s == [s[0]] + s[1..];
    }
  }

  lemma {:induction false} InsertSorts<T(!new)>(le: (T, T) -> bool, x: T, s: seq<T>)
    requires TotalOrder(le) && Sorted(le, s)
    ensures Sorted(le, Insert(le, x, s))
  {
    if s != [] {
      if le(x, s[0]) {
        forall j | 0 <= j < |s| ensures le(x, s[j]) { if j > 0 { assert le(s[0], s[j]); } }
      } else {
        InsertSorts(le, x, s[1..]);
        InsertKeeps(le, x, s[1..]);
        var rest := Insert(le, x, s[1..]);
        forall j | 0 <= j < |rest| ensures le(s[0], rest[j]) {
          assert rest[j] in multiset(rest);
          if rest[j] != x {
            assert rest[j] in s[1..];
            var k :| 0 <= k < |s[1..]| && s[1..][k] == rest[j];
            assert le(s[0], s[k + 1]);
          }
        }
      }
    }
  }

  /** A permutation in order. */
  lemma {:induction false} SortSorts<T(!new)>(le: (T, T) -> bool, s: seq<T>)
    requires TotalOrder(le)
    ensures Sorted(le, Sort(le, s)) && multiset(Sort(le, s)) == multiset(s) && |Sort(le, s)| == |s|
  {
    if s != [] {
      SortSorts(le, s[1..]);
      InsertSorts(le, s[0], Sort(le, s[1..]));
      InsertKeeps(le, s[0], Sort(le, s[1..]));
      assert s == [s[0]] + s[1..];
    }
    assert |multiset(Sort(le, s))| == |multiset(s)|;
  }

  predicate IntLe(x: int, y: int) {
    x <= y
  }

  /** Code point order. */
  predicate LexLe(x: string, y: string) {
    x == "" || (y != "" && (x[0] < y[0] || (x[0] == y[0] && LexLe(x[1..], y[1..]))))
  }

  lemma {:induction false} LexTotal(x: string, y: string)
    ensures LexLe(x, y) || LexLe(y, x)
  {
    if x != "" && y != "" { LexTotal(x[1..], y[1..]); }
  }

  lemma {:induction false} LexTransitive(x: string, y: string, z: string)
    requires LexLe(x, y) && LexLe(y, z)
    ensures LexLe(x, z)
  {
    if x != "" && x[0] == y[0] == z[0] { LexTransitive(x[1..], y[1..], z[1..]); }
  }

  lemma Orders()
    ensures TotalOrder(IntLe) && TotalOrder(LexLe)
  {
    forall x, y ensures LexLe(x, y) || LexLe(y, x) { LexTotal(x, y); }
    forall x, y, z | LexLe(x, y) && LexLe(y, z) ensures LexLe(x, z) { LexTransitive(x, y, z); }
  }
}
