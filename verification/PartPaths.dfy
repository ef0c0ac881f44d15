/** The listing of message parts by their paths in the tree. */
module PartPaths {
  import opened Mime

  /** A path leads from a part down to one of its descendants, child by child. */
  predicate Leads(p: Part, path: seq<nat>)
  {
    path == [] || (path[0] < |p.parts| && Leads(p.parts[path[0]], path[1..]))
  }

  function At(p: Part, path: seq<nat>): Part
    requires Leads(p, path)
  {
    if path == [] then p else At(p.parts[path[0]], path[1..])
  }

  /** A parent comes before its children, and children from left to right. */
  predicate Precedes(a: seq<nat>, b: seq<nat>)
  {
    b != [] && (a == [] || a[0] < b[0] || (a[0] == b[0] && Precedes(a[1..], b[1..])))
  }

  function Under(k: nat, paths: seq<seq<nat>>): seq<seq<nat>>
  {
    seq(|paths|, i requires 0 <= i < |paths| => [k] + paths[i])
  }

  function Paths(p: Part): seq<seq<nat>>
    decreases p, 1, 0
  {
    [[]] + PathsAll(p, |p.parts|)
  }

  function PathsAll(p: Part, n: nat): seq<seq<nat>>
    requires n <= |p.parts|
    decreases p, 0, n
  {
    if n == 0 then [] else PathsAll(p, n - 1) + Under(n - 1, Paths(p.parts[n - 1]))
  }

  /** The visits are the parts the paths lead to, as deep as the paths are long. */
  ghost predicate Follow(p: Part, depth: nat, paths: seq<seq<nat>>, vs: seq<Visit>)
  {
    && |paths| == |vs|
    && forall i :: 0 <= i < |vs| ==> Leads(p, paths[i]) && vs[i] == Visit(At(p, paths[i]), depth + |paths[i]|)
  }

  lemma Step(k: nat, path: seq<nat>)
    ensures ([k] + path)[0] == k && ([k] + path)[1..] == path
  {
  }

  lemma {:induction false} FollowUnder(p: Part, k: nat, depth: nat, paths: seq<seq<nat>>, vs: seq<Visit>)
    requires k < |p.parts| && Follow(p.parts[k], depth + 1, paths, vs)
    ensures Follow(p, depth, Under(k, paths), vs)
  {
    var ps := Under(k, paths);
    forall i | 0 <= i < |vs| ensures Leads(p, ps[i]) && vs[i] == Visit(At(p, ps[i]), depth + |ps[i]|) {
      Step(k, paths[i]);
    }
  }

  lemma FollowConcat(p: Part, depth: nat, a: seq<seq<nat>>, b: seq<seq<nat>>, vs: seq<Visit>, ws: seq<Visit>)
    requires Follow(p, depth, a, vs) && Follow(p, depth, b, ws)
    ensures Follow(p, depth, a + b, vs + ws)
  {
  }

  lemma {:induction false} ListingFollows(p: Part, depth: nat)
    ensures Follow(p, depth, Paths(p), Preorder(p, depth))
    decreases p, 1, 0
  {
    ListingFollowsAll(p, |p.parts|, depth);
    assert Follow(p, depth, [[]], [Visit(p, depth)]);
    FollowConcat(p, depth, [[]], PathsAll(p, |p.parts|), [Visit(p, depth)], PreorderAll(p, |p.parts|, depth + 1));
  }

  lemma {:induction false} ListingFollowsAll(p: Part, n: nat, depth: nat)
    requires n <= |p.parts|
    ensures Follow(p, depth, PathsAll(p, n), PreorderAll(p, n, depth + 1))
    decreases p, 0, n
  {
    if n > 0 {
      ListingFollowsAll(p, n - 1, depth);
      ListingFollows(p.parts[n - 1], depth + 1);
      FollowUnder(p, n - 1, depth, Paths(p.parts[n - 1]), Preorder(p.parts[n - 1], depth + 1));
      FollowConcat(p, depth, PathsAll(p, n - 1), Under(n - 1, Paths(p.parts[n - 1])),
                   PreorderAll(p, n - 1, depth + 1), Preorder(p.parts[n - 1], depth + 1));
    }
  }

  // ------------------------------------------------------- order and coverage

  ghost predicate InOrder(paths: seq<seq<nat>>)
  {
    forall i, j :: 0 <= i < j < |paths| ==> Precedes(paths[i], paths[j])
  }

  lemma UnderInOrder(k: nat, paths: seq<seq<nat>>)
    requires InOrder(paths)
    ensures InOrder(Under(k, paths))
  {
    var ps := Under(k, paths);
    forall i, j | 0 <= i < j < |ps| ensures Precedes(ps[i], ps[j]) {
      Step(k, paths[i]);
      Step(k, paths[j]);
    }
  }

  ghost predicate Below(paths: seq<seq<nat>>, n: nat)
  {
    forall i :: 0 <= i < |paths| ==> paths[i] != [] && paths[i][0] < n
  }

  lemma {:induction false} PathsInOrder(p: Part)
    ensures InOrder(Paths(p))
    decreases p, 1, 0
  {
    PathsAllInOrder(p, |p.parts|);
  }

  lemma {:induction false} PathsAllInOrder(p: Part, n: nat)
    requires n <= |p.parts|
    ensures InOrder(PathsAll(p, n)) && Below(PathsAll(p, n), n)
    decreases p, 0, n
  {
    if n > 0 {
      PathsAllInOrder(p, n - 1);
      PathsInOrder(p.parts[n - 1]);
      UnderInOrder(n - 1, Paths(p.parts[n - 1]));
    }
  }

  lemma {:induction false} PathIsListed(p: Part, path: seq<nat>)
    requires Leads(p, path)
    ensures path in Paths(p)
  {
    if path == [] {
      assert Paths(p)[0] == [];
    } else {
      var (k, rest) := (path[0], path[1..]);
      PathIsListed(p.parts[k], rest);
      var i :| 0 <= i < |Paths(p.parts[k])| && Paths(p.parts[k])[i] == rest;
      assert Under(k, Paths(p.parts[k]))[i] == path;
      ListedWith(p, |p.parts|, k, path);
    }
  }

  lemma {:induction false} ListedWith(p: Part, n: nat, k: nat, path: seq<nat>)
    requires k < n <= |p.parts| && path in Under(k, Paths(p.parts[k]))
    ensures path in PathsAll(p, n)
  {
    if k < n - 1 { ListedWith(p, n - 1, k, path); }
  }

  // ------------------------------------------------------- what the walk reaches

  /** The paths short enough for the walk to reach their parts. */
  function Short(paths: seq<seq<nat>>): seq<seq<nat>>
  {
    if paths == [] then []
    else Short(paths[..|paths| - 1]) + (if |paths[|paths| - 1]| <= 9 then [paths[|paths| - 1]] else [])
  }

  lemma {:induction false} ShortFollows(p: Part, paths: seq<seq<nat>>, vs: seq<Visit>)
    requires Follow(p, 0, paths, vs)
    ensures Follow(p, 0, Short(paths), Reached(vs))
  {
    if paths != [] {
      var n := |paths| - 1;
      ShortFollows(p, paths[..n], vs[..n]);
      if |paths[n]| <= 9 {
        FollowConcat(p, 0, Short(paths[..n]), [paths[n]], Reached(vs[..n]), [vs[n]]);
      }
    }
  }

  lemma {:induction false} ShortFacts(paths: seq<seq<nat>>)
    ensures forall path :: path in Short(paths) <==> path in paths && |path| <= 9
    ensures InOrder(paths) ==> InOrder(Short(paths))
  {
    if paths != [] {
      var n := |paths| - 1;
      var front := paths[..n];
      ShortFacts(front);
      assert paths == front + [paths[n]];
      if InOrder(paths) {
        forall i | 0 <= i < |Short(front)| ensures Precedes(Short(front)[i], paths[n]) {
          assert Short(front)[i] in front;
        }
      }
    }
  }

  /** The walk reaches exactly the parts at most nine levels down, each at its depth,
      parents before their children and children from left to right. */
  lemma {:induction false} WalkFollowsTree(root: Part) returns (paths: seq<seq<nat>>)
    ensures Follow(root, 0, paths, Visits(root))
    ensures InOrder(paths)
    ensures forall path :: path in paths <==> Leads(root, path) && |path| <= 9
  {
    paths := Short(Paths(root));
    ListingFollows(root, 0);
    PathsInOrder(root);
    ShortFollows(root, Paths(root), Preorder(root, 0));
    ShortFacts(Paths(root));
    forall path | Leads(root, path) && |path| <= 9 ensures path in paths {
      PathIsListed(root, path);
    }
    forall path | path in paths ensures Leads(root, path) {
      var i :| 0 <= i < |Paths(root)| && Paths(root)[i] == path;
    }
  }
}
