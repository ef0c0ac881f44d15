/** The text of a message body: an explicit-stack walk over the MIME parts against
    their pre-order listing. */
module Mime {
  import opened Situations

  datatype Media = Plain | Html | OtherMedia

  /** One part with its decoded body, if any, and whether decoding cut it short. */
  datatype Part = Part(media: Media, text: Option<string>, cut: bool, parts: seq<Part>)

  datatype Visit = Visit(part: Part, depth: nat)
  datatype Body = Body(text: Option<string>, truncated: bool, structureTruncated: bool)

  const MAX_DEPTH: nat := 8
  const MAX_PARTS: nat := 64

  // ---------------------------------------------------------------- pre-order

  /** All nodes of a tree, each before its children, children from left to right. */
  function Preorder(p: Part, depth: nat): seq<Visit>
    decreases p, 1, 0
  {
    [Visit(p, depth)] + PreorderAll(p, |p.parts|, depth + 1)
  }

  function PreorderAll(p: Part, n: nat, depth: nat): seq<Visit>
    requires n <= |p.parts|
    decreases p, 0, n
  {
    if n == 0 then [] else PreorderAll(p, n - 1, depth) + Preorder(p.parts[n - 1], depth)
  }

  /** The nodes of a listing that the walk pops; a node below the depth limit is
      popped, but its children are not. */
  function Reached(vs: seq<Visit>): seq<Visit>
  {
    if vs == [] then []
    else Reached(vs[..|vs| - 1]) + (if vs[|vs| - 1].depth <= MAX_DEPTH + 1 then [vs[|vs| - 1]] else [])
  }

  function Visits(root: Part): seq<Visit>
  {
    Reached(Preorder(root, 0))
  }

  lemma {:induction false} ReachedConcat(a: seq<Visit>, b: seq<Visit>)
    ensures Reached(a + b) == Reached(a) + Reached(b)
  {
    if b == [] {
      assert a + b == a;
    } else {
      ReachedConcat(a, b[..|b| - 1]);
      assert (a + b)[..|a + b| - 1] == a + b[..|b| - 1];
    }
  }

  lemma {:induction false} TooDeep(p: Part, depth: nat)
    requires depth > MAX_DEPTH + 1
    ensures Reached(Preorder(p, depth)) == []
    decreases p, 1, 0
  {
    TooDeepAll(p, |p.parts|, depth + 1);
    ReachedConcat([Visit(p, depth)], PreorderAll(p, |p.parts|, depth + 1));
  }

  lemma {:induction false} TooDeepAll(p: Part, n: nat, depth: nat)
    requires n <= |p.parts| && depth > MAX_DEPTH + 1
    ensures Reached(PreorderAll(p, n, depth)) == []
    decreases p, 0, n
  {
    if n > 0 {
      TooDeepAll(p, n - 1, depth);
      TooDeep(p.parts[n - 1], depth);
      ReachedConcat(PreorderAll(p, n - 1, depth), Preorder(p.parts[n - 1], depth));
    }
  }

  // -------------------------------------------------------------------- stack

  /** What a stack still stands for, its last entry first. */
  function Pending(stack: seq<Visit>): seq<Visit>
  {
    if stack == [] then []
    else
      var top := stack[|stack| - 1];
      Reached(Preorder(top.part, top.depth)) + Pending(stack[..|stack| - 1])
  }

  function Children(p: Part, n: nat, depth: nat): seq<Visit>
    requires n <= |p.parts|
  {
    if n == 0 then [] else [Visit(p.parts[n - 1], depth)] + Children(p, n - 1, depth)
  }

  lemma PendingTop(below: seq<Visit>, top: Visit)
    ensures Pending(below + [top]) == Reached(Preorder(top.part, top.depth)) + Pending(below)
  {
    assert (below + [top])[..|below|] == below;
  }

  lemma {:induction false} PendingConcat(below: seq<Visit>, above: seq<Visit>)
    ensures Pending(below + above) == Pending(above) + Pending(below)
  {
    if above == [] {
      assert below + above == below;
    } else {
      var (front, top) := (above[..|above| - 1], above[|above| - 1]);
      assert above == front + [top] && below + above == (below + front) + [top];
      PendingConcat(below, front);
      PendingTop(front, top);
      PendingTop(below + front, top);
    }
  }

  /** Pushing the children in reverse leaves the first child on top. */
  lemma {:induction false} PendingChildren(p: Part, n: nat, depth: nat)
    requires n <= |p.parts|
    ensures Pending(Children(p, n, depth)) == Reached(PreorderAll(p, n, depth))
  {
    if n > 0 {
      var last := Visit(p.parts[n - 1], depth);
      PendingChildren(p, n - 1, depth);
      PendingConcat([last], Children(p, n - 1, depth));
      assert Pending([last]) == Reached(Preorder(last.part, depth)) by { assert [last][..0] == []; }
      ReachedConcat(PreorderAll(p, n - 1, depth), Preorder(p.parts[n - 1], depth));
    }
  }

  /** What the walk reaches below a visit. */
  function ReachedBelow(v: Visit): seq<Visit>
  {
    Reached(PreorderAll(v.part, |v.part.parts|, v.depth + 1))
  }

  function Pushed(v: Visit): seq<Visit>
  {
    Children(v.part, |v.part.parts|, v.depth + 1)
  }

  lemma ReachedNode(v: Visit)
    requires v.depth <= MAX_DEPTH + 1
    ensures Reached(Preorder(v.part, v.depth)) == [v] + ReachedBelow(v)
  {
    ReachedConcat([v], PreorderAll(v.part, |v.part.parts|, v.depth + 1));
    assert Reached([v]) == [v] by { assert [v][..0] == []; }
  }

  lemma PushedStandsForBelow(below: seq<Visit>, top: Visit)
    ensures Pending(below + Pushed(top)) == ReachedBelow(top) + Pending(below)
  {
    PendingChildren(top.part, |top.part.parts|, top.depth + 1);
    PendingConcat(below, Pushed(top));
  }

  lemma NothingBelow(v: Visit)
    requires v.depth == MAX_DEPTH + 1
    ensures ReachedBelow(v) == []
  {
    TooDeepAll(v.part, |v.part.parts|, v.depth + 1);
  }

  lemma {:induction false} ChildrenDepth(p: Part, n: nat, depth: nat)
    requires n <= |p.parts|
    ensures forall k :: 0 <= k < |Children(p, n, depth)| ==> Children(p, n, depth)[k].depth == depth
  {
    if n > 0 { ChildrenDepth(p, n - 1, depth); }
  }

  ghost predicate NoneTooDeep(stack: seq<Visit>)
  {
    forall k :: 0 <= k < |stack| ==> stack[k].depth <= MAX_DEPTH + 1
  }

  ghost predicate StandsFor(stack: seq<Visit>, rest: seq<Visit>)
  {
    NoneTooDeep(stack) && Pending(stack) == rest
  }

  lemma DepthsStay(below: seq<Visit>, top: Visit)
    requires NoneTooDeep(below + [top])
    ensures NoneTooDeep(below) && top.depth <= MAX_DEPTH + 1
    ensures top.depth <= MAX_DEPTH ==> NoneTooDeep(below + Pushed(top))
  {
    assert top == (below + [top])[|below|];
    forall k | 0 <= k < |below| ensures below[k].depth <= MAX_DEPTH + 1 {
      assert below[k] == (below + [top])[k];
    }
    ChildrenDepth(top.part, |top.part.parts|, top.depth + 1);
  }

  lemma RestAfterPop(below: seq<Visit>, top: Visit)
    requires top.depth <= MAX_DEPTH + 1
    ensures Pending(below + [top]) == [top] + (ReachedBelow(top) + Pending(below))
  {
    PendingTop(below, top);
    ReachedNode(top);
  }

  /** Popping one entry takes one visit off, whether its children are pushed or lie
      too deep to be. */
  lemma {:induction false} PopOne(below: seq<Visit>, top: Visit, rest: seq<Visit>)
    requires StandsFor(below + [top], rest)
    ensures rest != [] && rest[0] == top
    ensures StandsFor(below, Pending(below)) && |Pending(below)| < |rest|
    ensures top.depth <= MAX_DEPTH ==> StandsFor(below + Pushed(top), rest[1..])
    ensures top.depth > MAX_DEPTH ==> Pending(below) == rest[1..]
  {
    DepthsStay(below, top);
    RestAfterPop(below, top);
    assert rest[1..] == ReachedBelow(top) + Pending(below);
    if top.depth <= MAX_DEPTH {
      PushedStandsForBelow(below, top);
    } else {
      NothingBelow(top);
    }
  }

  // ------------------------------------------------------------ the selection

  /** Visit `i` is read: it is among the first parts and not too deep. */
  predicate Readable(vs: seq<Visit>, i: nat)
  {
    i < |vs| && i < MAX_PARTS && vs[i].depth <= MAX_DEPTH
  }

  predicate Offers(vs: seq<Visit>, i: nat, media: Media)
  {
    Readable(vs, i) && vs[i].part.media == media && vs[i].part.text.Some?
  }

  ghost predicate FirstOffer(vs: seq<Visit>, i: nat, media: Media)
  {
    Offers(vs, i, media) && forall k: nat :: k < i ==> !Offers(vs, k, media)
  }

  ghost predicate SomeSkipped(vs: seq<Visit>, n: nat)
  {
    exists i: nat :: i < n && i < |vs| && !Readable(vs, i)
  }

  ghost predicate SomeCut(vs: seq<Visit>, n: nat)
  {
    exists i: nat :: i < n && Readable(vs, i) && vs[i].part.cut
  }

  ghost predicate HtmlCut(vs: seq<Visit>, n: nat, extract: string -> (string, bool))
  {
    exists i: nat :: i < n && FirstOffer(vs, i, Html) && extract(vs[i].part.text.value).1
  }

  /** The first readable plain text wins at once; otherwise the first readable HTML
      part is extracted. The flags tell what was skipped or cut up to that point. */
  ghost predicate Selects(vs: seq<Visit>, extract: string -> (string, bool), b: Body)
  {
    && (forall i: nat :: FirstOffer(vs, i, Plain) ==>
          && b.text == vs[i].part.text
          && (b.structureTruncated <==> SomeSkipped(vs, i))
          && (b.truncated <==> SomeCut(vs, i + 1) || HtmlCut(vs, i, extract)))
    && ((forall i: nat :: !Offers(vs, i, Plain)) ==>
          && (b.structureTruncated <==> SomeSkipped(vs, |vs|))
          && (b.truncated <==> SomeCut(vs, |vs|) || HtmlCut(vs, |vs|, extract))
          && (forall i: nat :: FirstOffer(vs, i, Html) ==> b.text == Some(extract(vs[i].part.text.value).0))
          && ((forall i: nat :: !Offers(vs, i, Html)) ==> b.text == None))
  }

  /** The part at position `i` exchanged for another one. */
  function WithPart(vs: seq<Visit>, i: nat, q: Part): seq<Visit>
    requires i < |vs|
  {
    vs[i := Visit(q, vs[i].depth)]
  }

  lemma SameOffers(vs: seq<Visit>, i: nat, q: Part)
    requires i < |vs| && !Readable(vs, i)
    ensures var ws := WithPart(vs, i, q);
      && |ws| == |vs|
      && (forall k: nat :: Readable(ws, k) <==> Readable(vs, k))
      && (forall k: nat :: Readable(vs, k) ==> ws[k] == vs[k])
      && (forall k: nat, media :: Offers(ws, k, media) <==> Offers(vs, k, media))
      && (forall k: nat, media :: FirstOffer(ws, k, media) <==> FirstOffer(vs, k, media))
  {
  }

  lemma SameFlags(vs: seq<Visit>, i: nat, q: Part, n: nat, extract: string -> (string, bool))
    requires i < |vs| && !Readable(vs, i)
    ensures var ws := WithPart(vs, i, q);
      && (SomeSkipped(ws, n) <==> SomeSkipped(vs, n))
      && (SomeCut(ws, n) <==> SomeCut(vs, n))
      && (HtmlCut(ws, n, extract) <==> HtmlCut(vs, n, extract))
  {
    SameOffers(vs, i, q);
    var ws := WithPart(vs, i, q);
    if k: nat :| k < n && k < |vs| && !Readable(vs, k) { assert !Readable(ws, k); }
    if k: nat :| k < n && k < |ws| && !Readable(ws, k) { assert !Readable(vs, k); }
    if k: nat :| k < n && Readable(vs, k) && vs[k].part.cut { assert Readable(ws, k); }
    if k: nat :| k < n && Readable(ws, k) && ws[k].part.cut { assert Readable(vs, k); }
  }

  lemma SelectsEither(vs: seq<Visit>, i: nat, q: Part, extract: string -> (string, bool), b: Body)
    requires i < |vs| && !Readable(vs, i) && Selects(vs, extract, b)
    ensures Selects(WithPart(vs, i, q), extract, b)
  {
    var ws := WithPart(vs, i, q);
    SameOffers(vs, i, q);
    forall k: nat | FirstOffer(ws, k, Plain)
      ensures b.text == ws[k].part.text
        && (b.structureTruncated <==> SomeSkipped(ws, k))
        && (b.truncated <==> SomeCut(ws, k + 1) || HtmlCut(ws, k, extract))
    {
      SameFlags(vs, i, q, k, extract);
      SameFlags(vs, i, q, k + 1, extract);
    }
    SameFlags(vs, i, q, |vs|, extract);
  }

  /** A part past either limit is counted and otherwise ignored: the walk reaches it
      but nothing below it, and whatever its own content is, the selection is the
      same. */
  lemma {:induction false} DeepPartIsOnlyCounted(vs: seq<Visit>, i: nat, q: Part, extract: string -> (string, bool), b: Body)
    requires i < |vs| && (vs[i].depth > MAX_DEPTH || i >= MAX_PARTS)
    ensures Selects(vs, extract, b) <==> Selects(WithPart(vs, i, q), extract, b)
    ensures SomeSkipped(vs, |vs|)
    ensures Reached(Preorder(q, MAX_DEPTH + 1)) == [Visit(q, MAX_DEPTH + 1)]
  {
    assert !Readable(vs, i);
    var ws := WithPart(vs, i, q);
    assert WithPart(ws, i, vs[i].part) == vs;
    if Selects(vs, extract, b) { SelectsEither(vs, i, q, extract, b); }
    if Selects(ws, extract, b) { SelectsEither(ws, i, vs[i].part, extract, b); }
    ReachedNode(Visit(q, MAX_DEPTH + 1));
    NothingBelow(Visit(q, MAX_DEPTH + 1));
  }

  // ----------------------------------------------------------------- the walk

  /** How far the walk has come: `seen` entries popped, with what was learned. */
  ghost predicate Progressed(
    vs: seq<Visit>, seen: nat, extract: string -> (string, bool), html: Option<string>, cut: bool, skipped: bool)
  {
    && (forall i: nat :: i < seen ==> !Offers(vs, i, Plain))
    && (skipped <==> SomeSkipped(vs, seen))
    && (cut <==> SomeCut(vs, seen) || HtmlCut(vs, seen, extract))
    && (html.None? ==> forall i: nat :: i < seen ==> !Offers(vs, i, Html))
    && (html.Some? ==> exists i: nat ::
          i < seen && FirstOffer(vs, i, Html) && html.value == extract(vs[i].part.text.value).0)
  }

  lemma FirstIsUnique(vs: seq<Visit>, i: nat, k: nat, media: Media)
    requires FirstOffer(vs, i, media) && FirstOffer(vs, k, media)
    ensures i == k
  {
  }

  lemma SkipOne(vs: seq<Visit>, seen: nat, extract: string -> (string, bool), html: Option<string>, cut: bool, skipped: bool)
    requires Progressed(vs, seen, extract, html, cut, skipped)
    requires seen < |vs| && !Readable(vs, seen)
    ensures Progressed(vs, seen + 1, extract, html, cut, true)
  {
    if html.Some? {
      var i: nat :| i < seen && FirstOffer(vs, i, Html) && html.value == extract(vs[i].part.text.value).0;
      assert i < seen + 1 && FirstOffer(vs, i, Html);
    }
    assert HtmlCut(vs, seen + 1, extract) ==> HtmlCut(vs, seen, extract);
    assert SomeCut(vs, seen + 1) ==> SomeCut(vs, seen);
  }

  lemma ReadOne(
    vs: seq<Visit>, seen: nat, extract: string -> (string, bool), html: Option<string>, cut: bool, skipped: bool)
    requires Progressed(vs, seen, extract, html, cut, skipped)
    requires Readable(vs, seen) && !Offers(vs, seen, Plain)
    ensures var p := vs[seen].part;
      if Offers(vs, seen, Html) && html.None?
      then Progressed(vs, seen + 1, extract, Some(extract(p.text.value).0),
                      cut || p.cut || extract(p.text.value).1, skipped)
      else Progressed(vs, seen + 1, extract, html, cut || p.cut, skipped)
  {
    var p := vs[seen].part;
    assert SomeCut(vs, seen + 1) <==> SomeCut(vs, seen) || p.cut;
    assert SomeSkipped(vs, seen + 1) <==> SomeSkipped(vs, seen);
    if Offers(vs, seen, Html) && html.None? {
      assert FirstOffer(vs, seen, Html);
      assert HtmlCut(vs, seen + 1, extract) <==> HtmlCut(vs, seen, extract) || extract(p.text.value).1;
    } else {
      if html.Some? {
        var i: nat :| i < seen && FirstOffer(vs, i, Html) && html.value == extract(vs[i].part.text.value).0;
        assert i < seen + 1 && FirstOffer(vs, i, Html);
      }
      assert HtmlCut(vs, seen + 1, extract) <==> HtmlCut(vs, seen, extract);
    }
  }

  lemma FoundPlain(
    vs: seq<Visit>, seen: nat, extract: string -> (string, bool), html: Option<string>, cut: bool, skipped: bool)
    requires Progressed(vs, seen, extract, html, cut, skipped)
    requires Offers(vs, seen, Plain)
    ensures Selects(vs, extract, Body(vs[seen].part.text, cut || vs[seen].part.cut, skipped))
  {
    assert FirstOffer(vs, seen, Plain);
    assert SomeCut(vs, seen + 1) <==> SomeCut(vs, seen) || vs[seen].part.cut;
    forall i: nat | FirstOffer(vs, i, Plain) ensures i == seen {
      FirstIsUnique(vs, i, seen, Plain);
    }
  }

  /** Once the parts limit is passed or the listing is used up, nothing is left to
      learn. */
  lemma NothingLeft(
    vs: seq<Visit>, seen: nat, extract: string -> (string, bool), html: Option<string>, cut: bool, skipped: bool)
    requires Progressed(vs, seen, extract, html, cut, skipped)
    requires seen == |vs| || (seen == MAX_PARTS + 1 && seen <= |vs|)
    ensures Selects(vs, extract, Body(html, cut, skipped))
  {
    assert forall i: nat :: i >= seen ==> !Readable(vs, i);
    assert SomeCut(vs, |vs|) <==> SomeCut(vs, seen);
    assert HtmlCut(vs, |vs|, extract) <==> HtmlCut(vs, seen, extract);
    assert SomeSkipped(vs, |vs|) <==> SomeSkipped(vs, seen) by {
      if seen == MAX_PARTS + 1 { assert !Readable(vs, MAX_PARTS); }
    }
    if html.Some? {
      var i: nat :| i < seen && FirstOffer(vs, i, Html) && html.value == extract(vs[i].part.text.value).0;
      forall k: nat | FirstOffer(vs, k, Html) ensures k == i { FirstIsUnique(vs, i, k, Html); }
      assert Offers(vs, i, Html);
    }
  }

  /** The walk selects from the pre-order listing of the parts. */
  method ProjectBody(root: Option<Part>, extract: string -> (string, bool)) returns (b: Body)
    ensures root.None? ==> b == Body(None, false, false)
    ensures root.Some? ==> Selects(Visits(root.value), extract, b)
  {
    if root.None? { return Body(None, false, false); }
    ghost var vs := Visits(root.value);
    var stack := [Visit(root.value, 0)];
    ghost var rest := vs;
    assert Pending(stack) == vs by { PendingTop([], stack[0]); assert [] + stack == stack; }
    var seen: nat, html: Option<string>, cut, skipped := 0, None, false, false;
    ghost var learned: nat := 0;
    while stack != []
      invariant StandsFor(stack, rest)
      invariant learned == if seen <= MAX_PARTS then seen else MAX_PARTS + 1
      invariant learned <= |vs|
      invariant seen <= MAX_PARTS ==> rest == vs[learned..]
      invariant Progressed(vs, learned, extract, html, cut, skipped)
      decreases |rest|
    {
      var top := stack[|stack| - 1];
      var below := stack[..|stack| - 1];
      assert stack == below + [top];
      PopOne(below, top, rest);
      stack := below;
      seen := seen + 1;
      if seen > MAX_PARTS || top.depth > MAX_DEPTH {
        if learned <= MAX_PARTS {
          SkipOne(vs, learned, extract, html, cut, skipped);
          learned := learned + 1;
        } else {
          assert !Readable(vs, MAX_PARTS);
        }
        rest := Pending(below);
        skipped := true;
        continue;
      }
      assert vs[learned] == top;
      if top.part.text.Some? && top.part.media == Plain {
        FoundPlain(vs, learned, extract, html, cut, skipped);
        return Body(top.part.text, cut || top.part.cut, skipped);
      }
      ReadOne(vs, learned, extract, html, cut, skipped);
      cut := cut || top.part.cut;
      if top.part.text.Some? && top.part.media == Html && html.None? {
        var (text, shortened) := extract(top.part.text.value);
        html, cut := Some(text), cut || shortened;
      }
      stack := below + Pushed(top);
      rest := rest[1..];
      learned := learned + 1;
    }
    NothingLeft(vs, learned, extract, html, cut, skipped);
    b := Body(html, cut, skipped);
  }
}
