/** Literal search through LIKE: the escaper, the matcher, and the path prefix
    filter built from them. */
module Like {
  import Text
  import opened Situations

  const ESCAPE: char := '\\'

  // --------------------------------------------------------------- the escaper

  /** Every occurrence of one character replaced by a text. */
  function Replace(s: string, c: char, with: string): string
  {
    if s == [] then [] else (if s[0] == c then with else [s[0]]) + Replace(s[1..], c, with)
  }

  function EscapeLike(query: string): string
  {
    Replace(Replace(Replace(query, ESCAPE, [ESCAPE, ESCAPE]), '%', [ESCAPE, '%']), '_', [ESCAPE, '_'])
  }

  predicate Special(c: char)
  {
    c == ESCAPE || c == '%' || c == '_'
  }

  function EscapeOne(c: char): string
  {
    if Special(c) then [ESCAPE, c] else [c]
  }

  /** The text with each special character escaped on its own. */
  function EscapeEach(query: string): string
  {
    if query == [] then [] else EscapeOne(query[0]) + EscapeEach(query[1..])
  }

  lemma {:induction false} ReplaceConcat(a: string, b: string, c: char, with: string)
    ensures Replace(a + b, c, with) == Replace(a, c, with) + Replace(b, c, with)
  {
    if a == [] {
      assert a + b == b;
    } else {
      ReplaceConcat(a[1..], b, c, with);
      assert (a + b)[1..] == a[1..] + b;
    }
  }

  lemma ReplaceOne(x: char, c: char, with: string)
    ensures Replace([x], c, with) == if x == c then with else [x]
  {
    assert [x][1..] == [];
  }

  lemma ReplaceTwo(x: char, y: char, c: char, with: string)
    ensures Replace([x, y], c, with) == (if x == c then with else [x]) + (if y == c then with else [y])
  {
    ReplaceOne(y, c, with);
    assert [x, y][1..] == [y];
  }

  lemma EscapeLikeOne(x: char)
    ensures EscapeLike([x]) == EscapeOne(x)
  {
    ReplaceOne(x, ESCAPE, [ESCAPE, ESCAPE]);
    ReplaceOne(x, '%', [ESCAPE, '%']);
    ReplaceOne(x, '_', [ESCAPE, '_']);
    ReplaceTwo(ESCAPE, ESCAPE, '%', [ESCAPE, '%']);
    ReplaceTwo(ESCAPE, ESCAPE, '_', [ESCAPE, '_']);
    ReplaceTwo(ESCAPE, '%', '_', [ESCAPE, '_']);
  }

  lemma EscapeLikeConcat(a: string, b: string)
    ensures EscapeLike(a + b) == EscapeLike(a) + EscapeLike(b)
  {
    var first := (s: string) => Replace(s, ESCAPE, [ESCAPE, ESCAPE]);
    var second := (s: string) => Replace(first(s), '%', [ESCAPE, '%']);
    ReplaceConcat(a, b, ESCAPE, [ESCAPE, ESCAPE]);
    ReplaceConcat(first(a), first(b), '%', [ESCAPE, '%']);
    ReplaceConcat(second(a), second(b), '_', [ESCAPE, '_']);
  }

  /** The three replacements in a row never escape an escape again: they equal one
      escape per special character. */
  lemma {:induction false} EscapesEachOnce(query: string)
    ensures EscapeLike(query) == EscapeEach(query)
  {
    if query != [] {
      EscapesEachOnce(query[1..]);
      EscapeLikeOne(query[0]);
      EscapeLikeConcat([query[0]], query[1..]);
      assert query == [query[0]] + query[1..];
    }
  }

  // --------------------------------------------------------------- the matcher

  /** The LIKE predicate with an escape character over a character comparison. */
  predicate Matches(pattern: string, s: string, same: (char, char) -> bool)
    decreases |pattern| + |s|, |pattern|
  {
    if pattern == [] then s == []
    else if pattern[0] == ESCAPE then
      |pattern| >= 2 && s != [] && same(pattern[1], s[0]) && Matches(pattern[2..], s[1..], same)
    else if pattern[0] == '%' then
      Matches(pattern[1..], s, same) || (s != [] && Matches(pattern, s[1..], same))
    else if pattern[0] == '_' then s != [] && Matches(pattern[1..], s[1..], same)
    else s != [] && same(pattern[0], s[0]) && Matches(pattern[1..], s[1..], same)
  }

  /** Two texts of one length that agree character by character. */
  predicate SameText(a: string, b: string, same: (char, char) -> bool)
  {
    |a| == |b| && forall k :: 0 <= k < |a| ==> same(a[k], b[k])
  }

  lemma {:induction false} PercentMatchesAll(s: string, same: (char, char) -> bool)
    ensures Matches("%", s, same)
  {
    if s != [] { PercentMatchesAll(s[1..], same); }
  }

  lemma SameTextStep(a: string, b: string, same: (char, char) -> bool)
    requires a != [] && b != []
    ensures SameText(a, b, same) <==> same(a[0], b[0]) && SameText(a[1..], b[1..], same)
  {
    if same(a[0], b[0]) && SameText(a[1..], b[1..], same) {
      forall k | 0 <= k < |a| ensures same(a[k], b[k]) {
        if k > 0 { assert a[k] == a[1..][k - 1] && b[k] == b[1..][k - 1]; }
      }
    }
  }

  lemma EscapedHead(c: char, rest: string, s: string, same: (char, char) -> bool)
    ensures Matches(EscapeOne(c) + rest, s, same) <==> s != [] && same(c, s[0]) && Matches(rest, s[1..], same)
  {
    var p := EscapeOne(c) + rest;
    if Special(c) {
      assert p[0] == ESCAPE && p[1] == c && p[2..] == rest;
    } else {
      assert p[0] == c && p[1..] == rest;
    }
  }

  /** An escaped text in a pattern matches itself, character by character. */
  lemma {:induction false} EscapedIsLiteral(query: string, rest: string, s: string, same: (char, char) -> bool)
    ensures Matches(EscapeEach(query) + rest, s, same) <==>
      |query| <= |s| && SameText(query, s[..|query|], same) && Matches(rest, s[|query|..], same)
  {
    if query == [] {
      assert EscapeEach(query) + rest == rest;
      assert s[0..] == s;
    } else {
      var tail := EscapeEach(query[1..]) + rest;
      assert EscapeEach(query) + rest == EscapeOne(query[0]) + tail;
      EscapedHead(query[0], tail, s, same);
      if s != [] {
        EscapedIsLiteral(query[1..], rest, s[1..], same);
        if |query| <= |s| {
          SameTextStep(query, s[..|query|], same);
          assert s[..|query|][1..] == s[1..][..|query| - 1];
          assert s[|query|..] == s[1..][|query| - 1..];
        }
      }
    }
  }

  predicate OccursAt(query: string, s: string, k: nat, same: (char, char) -> bool)
  {
    k + |query| <= |s| && SameText(query, s[k..k + |query|], same)
  }

  lemma LiteralThenAnything(query: string, s: string, same: (char, char) -> bool)
    ensures Matches(EscapeLike(query) + "%", s, same) <==> OccursAt(query, s, 0, same)
  {
    EscapesEachOnce(query);
    EscapedIsLiteral(query, "%", s, same);
    if |query| <= |s| { PercentMatchesAll(s[|query|..], same); }
  }

  lemma OccursLater(query: string, s: string, k: nat, same: (char, char) -> bool)
    requires s != []
    ensures OccursAt(query, s, k + 1, same) <==> OccursAt(query, s[1..], k, same)
  {
    if k + 1 + |query| <= |s| {
      assert s[k + 1..k + 1 + |query|] == s[1..][k..k + |query|];
    }
  }

  /** The search pattern of a query matches exactly the texts that contain it. */
  lemma {:induction false} SearchFindsSubstrings(query: string, s: string, same: (char, char) -> bool)
    ensures Matches("%" + EscapeLike(query) + "%", s, same) <==> exists k: nat :: OccursAt(query, s, k, same)
    decreases |s|
  {
    var p := "%" + EscapeLike(query) + "%";
    assert p[0] == '%' && p[1..] == EscapeLike(query) + "%";
    LiteralThenAnything(query, s, same);
    if s != [] {
      SearchFindsSubstrings(query, s[1..], same);
      if k: nat :| OccursAt(query, s[1..], k, same) {
        OccursLater(query, s, k, same);
      }
      if k: nat :| OccursAt(query, s, k, same) {
        if k > 0 { OccursLater(query, s, k - 1, same); }
      }
    }
  }

  // ----------------------------------------------------------------- the paths

  ghost predicate Segments(parts: seq<string>)
  {
    parts != [] && forall k :: 0 <= k < |parts| ==> '/' !in parts[k]
  }

  function Join(parts: seq<string>): string
    requires parts != []
  {
    if |parts| == 1 then parts[0] else parts[0] + "/" + Join(parts[1..])
  }

  function Split(path: string): (parts: seq<string>)
    ensures parts != []
  {
    if path == [] then [""]
    else
      var rest := Split(path[1..]);
      if path[0] == '/' then [""] + rest else [[path[0]] + rest[0]] + rest[1..]
  }

  /** Splitting a path and joining its segments gives the path back. */
  lemma {:induction false} SplitJoins(path: string)
    ensures Segments(Split(path)) && Join(Split(path)) == path
  {
    if path != [] {
      var rest := Split(path[1..]);
      SplitJoins(path[1..]);
      var parts := Split(path);
      if path[0] == '/' {
        assert parts[1..] == rest;
      } else {
        assert parts[1..] == rest[1..];
      }
      forall k | 0 <= k < |parts| ensures '/' !in parts[k] {
        if k > 0 { assert parts[k] == if path[0] == '/' then rest[k - 1] else rest[k]; }
      }
    }
  }

  predicate StartsWith(s: string, prefix: string)
  {
    |prefix| <= |s| && s[..|prefix|] == prefix
  }

  /** The text behind the first segment, each segment closed by a slash. */
  function Behind(parts: seq<string>): string
    requires parts != []
  {
    if |parts| == 1 then "" else Join(parts[1..]) + "/"
  }

  lemma JoinHead(parts: seq<string>)
    requires parts != []
    ensures Join(parts) + "/" == parts[0] + ['/'] + Behind(parts)
  {
  }

  lemma StartsAtSegment(x: string, xs: string, y: string, ys: string)
    requires '/' !in x && '/' !in y
    ensures StartsWith(y + ['/'] + ys, x + ['/'] + xs) <==> x == y && StartsWith(ys, xs)
  {
    var (p, q) := (x + ['/'] + xs, y + ['/'] + ys);
    if StartsWith(q, p) {
      assert q == p + q[|p|..];
      assert q == x + ['/'] + (xs + q[|p|..]);
      Text.SplitAt('/', x, xs + q[|p|..], y, ys);
    }
    if x == y && StartsWith(ys, xs) {
      assert q == p + ys[|xs|..];
    }
  }

  /** A path lies at or below a prefix in the text exactly when the segments of the
      prefix begin the segments of the path. */
  lemma {:induction false} DescendantsBySegment(a: seq<string>, b: seq<string>)
    requires Segments(a) && Segments(b)
    ensures StartsWith(Join(b) + "/", Join(a) + "/") <==> a <= b
  {
    JoinHead(a);
    JoinHead(b);
    StartsAtSegment(a[0], Behind(a), b[0], Behind(b));
    if |a| > 1 && |b| > 1 {
      DescendantsBySegment(a[1..], b[1..]);
      assert a <= b <==> a[0] == b[0] && a[1..] <= b[1..] by {
        assert a == [a[0]] + a[1..] && b == [b[0]] + b[1..];
      }
    }
  }

  // --------------------------------------------------------- the prefix filter

  /** What the recall statement keeps of the entity paths under a prefix: the path
      itself by equality, its children by LIKE. */
  predicate Kept(path: string, prefix: string, same: (char, char) -> bool)
  {
    path == prefix || Matches(EscapeLike(prefix) + "/%", path, same)
  }

  lemma SlashThenAnything(s: string, same: (char, char) -> bool)
    ensures Matches("/%", s, same) <==> s != [] && same('/', s[0])
  {
    assert "/%"[1..] == "%";
    if s != [] { PercentMatchesAll(s[1..], same); }
  }

  lemma ChildPattern(path: string, prefix: string, same: (char, char) -> bool)
    ensures Matches(EscapeLike(prefix) + "/%", path, same) <==>
      |prefix| < |path| && SameText(prefix, path[..|prefix|], same) && same('/', path[|prefix|])
  {
    EscapesEachOnce(prefix);
    EscapedIsLiteral(prefix, "/%", path, same);
    if |prefix| <= |path| { SlashThenAnything(path[|prefix|..], same); }
  }

  function Exact(): (char, char) -> bool
  {
    (a: char, b: char) => a == b
  }

  /** Under an exact comparison the filter keeps the prefix and its descendants,
      segment by segment, whatever wildcard characters the names hold. */
  lemma ExactFilterKeepsDescendants(path: string, prefix: string)
    ensures Kept(path, prefix, Exact()) <==> Split(prefix) <= Split(path)
  {
    ChildPattern(path, prefix, Exact());
    SplitJoins(path);
    SplitJoins(prefix);
    DescendantsBySegment(Split(prefix), Split(path));
    var (x, y) := (prefix + "/", path + "/");
    assert StartsWith(y, x) <==> Kept(path, prefix, Exact()) by {
      if StartsWith(y, x) {
        forall k | 0 <= k < |prefix| ensures prefix[k] == path[k] {
          assert y[..|x|][k] == x[k];
        }
        assert y[..|x|][|prefix|] == '/';
        if |path| == |prefix| { assert path == prefix; }
      }
      if |prefix| < |path| && SameText(prefix, path[..|prefix|], Exact()) && path[|prefix|] == '/' {
        assert y[..|x|] == x;
      }
    }
  }

  // ------------------------------------------------------- SQLite's comparison

  predicate IsUpper(c: char) { 'A' <= c <= 'Z' }

  predicate IsLower(c: char) { 'a' <= c <= 'z' }

  predicate IsLetter(c: char) { IsUpper(c) || IsLower(c) }

  function Lower(c: char): char
  {
    if IsUpper(c) then (c as int + 32) as char else c
  }

  /** LIKE in SQLite takes the 26 ASCII letters without regard to case. */
  function CaseBlind(): (char, char) -> bool
  {
    (a: char, b: char) => Lower(a) == Lower(b)
  }

  function OtherCase(c: char): char
    requires IsLetter(c)
  {
    if IsUpper(c) then (c as int + 32) as char else (c as int - 32) as char
  }

  lemma OtherCaseDiffers(c: char)
    requires IsLetter(c)
    ensures OtherCase(c) != c && Lower(OtherCase(c)) == Lower(c)
  {
  }

  lemma NotALetter(a: char, b: char)
    requires !IsLetter(a) && Lower(a) == Lower(b)
    ensures a == b
  {
  }

  lemma LetterlessIsExact(path: string, prefix: string)
    requires forall k :: 0 <= k < |prefix| ==> !IsLetter(prefix[k])
    ensures Kept(path, prefix, CaseBlind()) <==> Kept(path, prefix, Exact())
  {
    ChildPattern(path, prefix, CaseBlind());
    ChildPattern(path, prefix, Exact());
    if |prefix| < |path| {
      forall k | 0 <= k < |prefix|
        ensures CaseBlind()(prefix[k], path[..|prefix|][k]) <==> Exact()(prefix[k], path[..|prefix|][k])
      {
        if CaseBlind()(prefix[k], path[k]) { NotALetter(prefix[k], path[k]); }
      }
      if CaseBlind()('/', path[|prefix|]) { NotALetter('/', path[|prefix|]); }
    }
  }

  lemma CaseVariantIsKept(prefix: string, k: nat)
    requires k < |prefix| && IsLetter(prefix[k])
    ensures var path := prefix[k := OtherCase(prefix[k])] + "/x";
      Kept(path, prefix, CaseBlind()) && !(Split(prefix) <= Split(path))
  {
    var path := prefix[k := OtherCase(prefix[k])] + "/x";
    OtherCaseDiffers(prefix[k]);
    ChildPattern(path, prefix, CaseBlind());
    ChildPattern(path, prefix, Exact());
    ExactFilterKeepsDescendants(path, prefix);
    assert path[k] != prefix[k] && path[..|prefix|][k] == path[k];
    forall j | 0 <= j < |prefix| ensures CaseBlind()(prefix[j], path[..|prefix|][j]) {
      assert path[..|prefix|][j] == if j == k then OtherCase(prefix[k]) else prefix[j];
    }
  }

  // ------------------------------------------------------------- stored paths

  const MAX_SEGMENTS: nat := 3

  /** A path as the store keeps it: one to three segments, none empty. */
  ghost predicate Stored(path: string)
  {
    |Split(path)| <= MAX_SEGMENTS && forall k :: 0 <= k < |Split(path)| ==> Split(path)[k] != ""
  }

  /** Each segment cleaned, or nothing when one of them ends up empty; `clean` stands
      for composing and trimming one segment. */
  function CleanAll(parts: seq<string>, clean: string -> string): Option<seq<string>>
  {
    if parts == [] then Some([])
    else
      var rest := CleanAll(parts[1..], clean);
      if rest.None? || clean(parts[0]) == "" then None else Some([clean(parts[0])] + rest.value)
  }

  function NormalizePath(path: string, clean: string -> string): Option<string>
  {
    var parts := Split(path);
    if |parts| > MAX_SEGMENTS then None
    else
      var cleaned := CleanAll(parts, clean);
      if cleaned.None? || cleaned.value == [] then None else Some(Join(cleaned.value))
  }

  lemma {:induction false} CleanAllFacts(parts: seq<string>, clean: string -> string)
    ensures CleanAll(parts, clean).Some? <==> forall k :: 0 <= k < |parts| ==> clean(parts[k]) != ""
    ensures CleanAll(parts, clean).Some? ==>
      && |CleanAll(parts, clean).value| == |parts|
      && forall k :: 0 <= k < |parts| ==> CleanAll(parts, clean).value[k] == clean(parts[k])
  {
    if parts != [] {
      CleanAllFacts(parts[1..], clean);
      assert parts == [parts[0]] + parts[1..];
      if k :| 0 <= k < |parts[1..]| && clean(parts[1..][k]) == "" {
        assert clean(parts[k + 1]) == "";
      }
    }
  }

  lemma SplitHead(head: string, tail: string)
    requires '/' !in head
    ensures Split(head + "/" + tail) == [head] + Split(tail)
    decreases |head|
  {
    if head == "" {
      assert head + "/" + tail == "/" + tail && ("/" + tail)[1..] == tail;
    } else {
      SplitHead(head[1..], tail);
      assert (head + "/" + tail)[1..] == head[1..] + "/" + tail;
      assert [head[0]] + head[1..] == head;
    }
  }

  lemma SplitWhole(text: string)
    requires '/' !in text
    ensures Split(text) == [text]
    decreases |text|
  {
    if text != "" {
      SplitWhole(text[1..]);
      assert [text[0]] + text[1..] == text;
    }
  }

  /** Splitting undoes joining, so segments and paths correspond one to one. */
  lemma {:induction false} JoinSplits(parts: seq<string>)
    requires Segments(parts)
    ensures Split(Join(parts)) == parts
  {
    if |parts| == 1 {
      SplitWhole(parts[0]);
    } else {
      JoinSplits(parts[1..]);
      SplitHead(parts[0], Join(parts[1..]));
      assert parts == [parts[0]] + parts[1..];
    }
  }

  /** Normalization succeeds exactly on one to three segments none of which cleans to
      nothing, and then gives a stored path of the cleaned segments. */
  lemma {:induction false} NormalizesExactly(path: string, clean: string -> string)
    requires forall text :: '/' !in text ==> '/' !in clean(text)
    ensures var parts := Split(path);
      NormalizePath(path, clean).Some? <==>
        |parts| <= MAX_SEGMENTS && forall k :: 0 <= k < |parts| ==> clean(parts[k]) != ""
    ensures NormalizePath(path, clean).Some? ==>
      var (parts, stored) := (Split(path), NormalizePath(path, clean).value);
      && Stored(stored) && |Split(stored)| == |parts|
      && forall k :: 0 <= k < |parts| ==> Split(stored)[k] == clean(parts[k])
  {
    SplitJoins(path);
    CleanAllFacts(Split(path), clean);
    var cleaned := CleanAll(Split(path), clean);
    if cleaned.Some? { JoinSplits(cleaned.value); }
  }

  // ----------------------------------------------- exactness over stored paths

  predicate KeepsDescendant(path: string, prefix: string, same: (char, char) -> bool)
  {
    Kept(path, prefix, same) <==> Split(prefix) <= Split(path)
  }

  predicate Letterless(prefix: string)
  {
    forall k :: 0 <= k < |prefix| ==> !IsLetter(prefix[k])
  }

  ghost predicate ExactForStored(prefix: string)
  {
    forall path: string :: Stored(path) ==> KeepsDescendant(path, prefix, CaseBlind())
  }

  function Slashes(s: string): nat
  {
    if s == "" then 0 else (if s[0] == '/' then 1 else 0) + Slashes(s[1..])
  }

  lemma {:induction false} SlashesCountSegments(s: string)
    ensures |Split(s)| == Slashes(s) + 1
  {
    if s != "" { SlashesCountSegments(s[1..]); }
  }

  lemma {:induction false} SlashesConcat(a: string, b: string)
    ensures Slashes(a + b) == Slashes(a) + Slashes(b)
  {
    if a == "" {
      assert a + b == b;
    } else {
      SlashesConcat(a[1..], b);
      assert (a + b)[1..] == a[1..] + b;
    }
  }

  lemma SlashIsItself(a: char, b: char)
    requires Lower(a) == Lower(b)
    ensures a == '/' <==> b == '/'
  {
  }

  lemma {:induction false} SameTextSameSlashes(a: string, b: string)
    requires SameText(a, b, CaseBlind())
    ensures Slashes(a) == Slashes(b)
  {
    if a != "" {
      SameTextStep(a, b, CaseBlind());
      SlashIsItself(a[0], b[0]);
      SameTextSameSlashes(a[1..], b[1..]);
    }
  }

  /** A child pattern only matches paths of more segments than the prefix. */
  lemma ChildrenAreDeeper(path: string, prefix: string)
    requires Matches(EscapeLike(prefix) + "/%", path, CaseBlind())
    ensures |Split(path)| > |Split(prefix)|
  {
    ChildPattern(path, prefix, CaseBlind());
    var (head, rest) := (path[..|prefix|], path[|prefix|..]);
    SameTextSameSlashes(prefix, head);
    SlashIsItself('/', rest[0]);
    assert path == head + rest;
    SlashesConcat(head, rest);
    SlashesCountSegments(path);
    SlashesCountSegments(prefix);
  }

  /** Under a full-depth prefix nothing but the prefix itself is kept or below. */
  lemma FullDepthIsExact(path: string, prefix: string)
    requires Stored(path) && |Split(prefix)| == MAX_SEGMENTS
    ensures KeepsDescendant(path, prefix, CaseBlind())
  {
    if Matches(EscapeLike(prefix) + "/%", path, CaseBlind()) { ChildrenAreDeeper(path, prefix); }
    SplitJoins(path);
    SplitJoins(prefix);
    if Split(prefix) <= Split(path) { assert Split(prefix) == Split(path); }
  }

  lemma {:induction false} SplitConcat(a: string, tail: string)
    ensures Split(a + "/" + tail) == Split(a) + Split(tail)
  {
    SplitJoins(a);
    SplitJoins(tail);
    JoinConcat(Split(a), Split(tail));
    JoinSplits(Split(a) + Split(tail));
  }

  lemma {:induction false} JoinConcat(a: seq<string>, b: seq<string>)
    requires Segments(a) && Segments(b)
    ensures Segments(a + b) && Join(a + b) == Join(a) + "/" + Join(b)
  {
    if |a| == 1 {
      assert (a + b)[1..] == b;
    } else {
      JoinConcat(a[1..], b);
      assert (a + b)[1..] == a[1..] + b;
    }
  }

  lemma {:induction false} SameShape(a: string, b: string)
    requires |a| == |b| && forall k :: 0 <= k < |a| ==> (a[k] == '/' <==> b[k] == '/')
    ensures |Split(a)| == |Split(b)|
    ensures forall k :: 0 <= k < |Split(a)| ==> |Split(a)[k]| == |Split(b)[k]|
  {
    if a != "" {
      forall k | 0 <= k < |a[1..]| ensures a[1..][k] == '/' <==> b[1..][k] == '/' {
        assert a[1..][k] == a[k + 1] && b[1..][k] == b[k + 1];
      }
      SameShape(a[1..], b[1..]);
    }
  }

  /** The sibling in another case, with one child, is a stored path. */
  lemma CaseVariantIsStored(prefix: string, k: nat)
    requires Stored(prefix) && |Split(prefix)| < MAX_SEGMENTS && k < |prefix| && IsLetter(prefix[k])
    ensures Stored(prefix[k := OtherCase(prefix[k])] + "/x")
  {
    var variant := prefix[k := OtherCase(prefix[k])];
    assert OtherCase(prefix[k]) != '/';
    SameShape(prefix, variant);
    SplitConcat(variant, "x");
    SplitWhole("x");
    assert variant + "/x" == variant + "/" + "x";
    forall i | 0 <= i < |Split(variant)| ensures Split(variant)[i] != "" {
      assert |Split(variant)[i]| == |Split(prefix)[i]|;
    }
  }

  /** Under SQLite's case-blind comparison the filter keeps exactly the descendants
      of a stored prefix, for every stored path, if and only if the prefix holds no
      ASCII letter or already has three segments; otherwise it also keeps the
      descendants of a sibling that differs in case. */
  lemma {:induction false} FilterIsExactForStored(prefix: string)
    requires Stored(prefix)
    ensures ExactForStored(prefix) <==> Letterless(prefix) || |Split(prefix)| == MAX_SEGMENTS
  {
    if |Split(prefix)| == MAX_SEGMENTS {
      forall path: string | Stored(path) ensures KeepsDescendant(path, prefix, CaseBlind()) {
        FullDepthIsExact(path, prefix);
      }
    } else if Letterless(prefix) {
      forall path: string | Stored(path) ensures KeepsDescendant(path, prefix, CaseBlind()) {
        LetterlessIsExact(path, prefix);
        ExactFilterKeepsDescendants(path, prefix);
      }
    } else {
      var k :| 0 <= k < |prefix| && IsLetter(prefix[k]);
      CaseVariantIsStored(prefix, k);
      CaseVariantIsKept(prefix, k);
      var path := prefix[k := OtherCase(prefix[k])] + "/x";
      assert !KeepsDescendant(path, prefix, CaseBlind());
    }
  }

  /** Over all paths, stored or not, it takes a prefix without letters. */
  lemma {:induction false} FilterIsExactWithoutLetters(prefix: string)
    ensures (forall path: string :: KeepsDescendant(path, prefix, CaseBlind())) <==> Letterless(prefix)
  {
    if Letterless(prefix) {
      forall path: string ensures KeepsDescendant(path, prefix, CaseBlind()) {
        LetterlessIsExact(path, prefix);
        ExactFilterKeepsDescendants(path, prefix);
      }
    } else {
      var k :| 0 <= k < |prefix| && IsLetter(prefix[k]);
      CaseVariantIsKept(prefix, k);
      var path := prefix[k := OtherCase(prefix[k])] + "/x";
      assert !KeepsDescendant(path, prefix, CaseBlind());
    }
  }
}
