/**
 The dot-trimming loop of the AMD loaders: `normalize` of almond.js and `trimDots` of
 require.js splice "." and ".." out of an array of path segments in place, with an index
 that moves backwards.
 */
module TrimDots {
  import opened Common

  type Path = seq<string>

  /** The directory a path leads to from `base`; nothing when it climbs above the root. */
  function Walk(base: Path, path: Path): Option<Path>
    decreases |path|
  {
    if path == [] then Some(base)
    else if path[0] == "." then Walk(base, path[1..])
    else if path[0] == ".." then
      if base == [] then None else Walk(base[..|base| - 1], path[1..])
    else Walk(base + [path[0]], path[1..])
  }

  ghost predicate SameMeaning(p: Path, q: Path) {
    forall base :: Walk(base, p) == Walk(base, q)
  }

  /** No "." at all, and ".." at most as the first segment. */
  ghost predicate Trimmed(path: Path) {
    forall i :: 0 <= i < |path| ==> path[i] != "." && (i > 0 ==> path[i] != "..")
  }

  // ----- when the loop must stop early -----

  /** The segments the loop gets to see: with `stopAtEmpty`, those before the first empty one. */
  function Seen(path: Path, stopAtEmpty: bool): (s: Path)
    ensures |s| <= |path| && s == path[..|s|]
    ensures |s| < |path| ==> stopAtEmpty && path[|s|] == ""
    ensures stopAtEmpty ==> forall i :: 0 <= i < |s| ==> s[i] != ""
  {
    if path == [] || (stopAtEmpty && path[0] == "") then [] else [path[0]] + Seen(path[1..], stopAtEmpty)
  }

  /** How far down a path leads: segments less "..". */
  function Depth(path: Path): int {
    if path == [] then 0
    else
      var last := path[|path| - 1];
      Depth(path[..|path| - 1]) + (if last == "." then 0 else if last == ".." then -1 else 1)
  }

  /** A second ".." at `i` directly follows one that led back to the start, and takes the path below it
      for the first time. */
  ghost predicate Doubled(path: Path, i: int) {
    && 1 <= i < |path| && path[i - 1] == ".." && path[i] == ".." && Depth(path[..i]) == 0
    && NeverBelow(path, i, 0)
  }

  ghost predicate NeverBelow(path: Path, i: int, depth: int)
    requires 0 <= i <= |path|
  {
    forall k :: 0 <= k <= i ==> Depth(path[..k]) >= depth
  }

  /** The path leads two steps above its start, or one step by two ".." in a row. */
  ghost predicate MustStop(path: Path) {
    !NeverBelow(path, |path|, -1) || exists i :: Doubled(path, i)
  }

  ghost predicate NoDots(path: Path) {
    forall i :: 0 <= i < |path| ==> path[i] != "."
  }

  lemma DepthStep(path: Path, i: nat)
    requires i < |path|
    ensures Depth(path[..i + 1]) == Depth(path[..i]) + if path[i] == "." then 0 else if path[i] == ".." then -1 else 1
  {
    assert path[..i + 1][..i] == path[..i];
  }

  /** Without "." and without a leading "..", the first step above the start is by two ".." in a row. */
  lemma {:induction false} FirstBelow(path: Path, i: nat)
    requires NoDots(path) && i <= |path| && path != [] && path[0] != ".." && Depth(path[..i]) < 0
    ensures exists k :: Doubled(path, k)
  {
    if k :| 0 <= k < i && Depth(path[..k]) < 0 {
      FirstBelow(path, k);
    } else {
      assert path[..0] == [];
      DepthStep(path, i - 1);
      if i >= 2 {
        DepthStep(path, i - 2);
        assert Doubled(path, i - 1);
      }
    }
  }

  /** So for a path without "." it is a matter of depth alone. */
  lemma StopsWithoutDots(path: Path)
    requires NoDots(path)
    ensures MustStop(path) <==>
      path != [] && exists i :: 0 <= i <= |path| && Depth(path[..i]) < if path[0] == ".." then -1 else 0
  {
    if path != [] {
      assert path[..0] == [];
      DepthStep(path, 0);
      if path[0] != ".." {
        if i :| 0 <= i <= |path| && Depth(path[..i]) < 0 {
          FirstBelow(path, i);
        }
        if i :| Doubled(path, i) {
          DepthStep(path, i);
        }
      } else {
        assert Depth(path[..1]) == -1;
        assert forall i :: !Doubled(path, i);
      }
    } else {
      assert path[..0] == [];
    }
  }

  // ----- how far the loop has come -----

  /** With `j` segments processed, `i` are left of them, the first a ".." if `lead`. */
  ghost predicate Along(path: Path, j: nat, i: int, lead: bool) {
    && j <= |path| && NeverBelow(path, j, -1)
    && (lead <==> !NeverBelow(path, j, 0))
    && i == Depth(path[..j]) + (if lead then 2 else 0)
    && forall k :: Doubled(path, k) ==> k > j
  }

  lemma AlongStarts(path: Path)
    ensures Along(path, 0, 0, false)
  {
    assert path[..0] == [];
  }

  /** The loop goes on over segment `j`. */
  lemma AlongNext(path: Path, j: nat, i: nat, lead: bool)
    requires Along(path, j, i, lead) && j < |path|
    requires path[j] == ".." ==> !(lead && i == 1) && !(!lead && i == 1 && j + 1 < |path| && path[j + 1] == "..")
    ensures path[j] == "." ==> Along(path, j + 1, i, lead)
    ensures path[j] == ".." && i > 0 ==> Along(path, j + 1, i - 1, lead)
    ensures path[j] == ".." && i == 0 ==> Along(path, j + 1, 1, true)
    ensures path[j] != "." && path[j] != ".." ==> Along(path, j + 1, i + 1, lead)
  {
    DepthStep(path, j);
  }

  /** It stops at segment `j`. */
  lemma AlongStops(path: Path, j: nat, i: nat, lead: bool)
    requires Along(path, j, i, lead) && j < |path| && path[j] == ".." && i == 1
    requires lead || (j + 1 < |path| && path[j + 1] == "..")
    ensures MustStop(path)
  {
    DepthStep(path, j);
    if !lead {
      assert Doubled(path, j + 1);
    }
  }

  /** It has come to the end. */
  lemma AlongEnds(path: Path, i: nat, lead: bool)
    requires Along(path, |path|, i, lead)
    ensures !MustStop(path)
  {
  }

  lemma TwoInARow(path: Path, j: nat)
    requires NoDots(path) && 1 <= j < |path| && path[j] == ".."
    requires Depth(path[..j]) == 0 && NeverBelow(path, j, 0)
    ensures Doubled(path, j)
  {
    DepthStep(path, j - 1);
    assert Depth(path[..j - 1]) >= 0;
  }

  /** Without "." and without a leading ".." no ".." ever comes to stand first. */
  lemma NeverLeads(path: Path, j: nat)
    requires Along(path, j, 0, false) && j < |path|
    requires NoDots(path) && path[0] != ".."
    ensures path[j] != ".."
  {
    if path[j] == ".." {
      TwoInARow(path, j);
    }
  }

  // ----- walks -----

  lemma {:induction false} WalkAppend(base: Path, p: Path, q: Path)
    ensures Walk(base, p + q) == match Walk(base, p) case None => None case Some(d) => Walk(d, q)
    decreases |p|
  {
    if p == [] {
      assert p + q == q;
    } else {
      assert (p + q)[1..] == p[1..] + q;
      if p[0] == "." {
        WalkAppend(base, p[1..], q);
      } else if p[0] != ".." {
        WalkAppend(base + [p[0]], p[1..], q);
      } else if base != [] {
        WalkAppend(base[..|base| - 1], p[1..], q);
      }
    }
  }

  /** Cutting out a piece that leads nowhere does not change where a path leads. */
  lemma CutKeepsMeaning(path: Path, i: nat, j: nat)
    requires i <= j <= |path| && forall base :: Walk(base, path[i..j]) == Some(base)
    ensures SameMeaning(path[..i] + path[j..], path)
  {
    forall base ensures Walk(base, path[..i] + path[j..]) == Walk(base, path) {
      WalkAppend(base, path[..i], path[j..]);
      WalkAppend(base, path[..i], path[i..j] + path[j..]);
      assert path[..i] + (path[i..j] + path[j..]) == path;
      if Walk(base, path[..i]).Some? {
        WalkAppend(Walk(base, path[..i]).value, path[i..j], path[j..]);
      }
    }
  }

  lemma CutDot(path: Path, i: nat)
    requires i < |path| && path[i] == "."
    ensures var cut := path[..i] + path[i + 1..];
      SameMeaning(cut, path) && cut[..i] == path[..i] && cut[i..] == path[i + 1..]
  {
    forall base ensures Walk(base, path[i..i + 1]) == Some(base) {
      assert path[i..i + 1] == ["."];
      assert ["."][1..] == [];
    }
    CutKeepsMeaning(path, i, i + 1);
  }

  lemma DownUp(base: Path, x: string)
    requires x != "." && x != ".."
    ensures Walk(base, [x, ".."]) == Some(base)
  {
    assert [x, ".."][1..] == [".."] && [".."][1..] == [];
    assert (base + [x])[..|base + [x]| - 1] == base;
    assert Walk(base + [x], [".."]) == Walk(base, []);
  }

  lemma CutPair(path: Path, i: nat)
    requires 0 < i < |path| && path[i] == ".." && path[i - 1] != "." && path[i - 1] != ".."
    ensures var cut := path[..i - 1] + path[i + 1..];
      SameMeaning(cut, path) && cut[..i - 1] == path[..i][..i - 1] && cut[i - 1..] == path[i + 1..]
  {
    forall base ensures Walk(base, path[i - 1..i + 1]) == Some(base) {
      assert path[i - 1..i + 1] == [path[i - 1], ".."];
      DownUp(base, path[i - 1]);
    }
    CutKeepsMeaning(path, i - 1, i + 1);
  }

  lemma MeansTheSame(p: Path, q: Path, r: Path)
    requires SameMeaning(p, q) && SameMeaning(q, r)
    ensures SameMeaning(p, r)
  {
  }

  lemma MeansItself(path: Path)
    ensures SameMeaning(path, path)
  {
  }

  // ----- the loop -----

  /** Where the loop stands: of the path, `j` segments are processed and `i` are left of them. */
  ghost predicate Going(path: Path, stopAtEmpty: bool, name: Path, i: int, j: nat) {
    && 0 <= i <= |name| && j <= |Seen(path, stopAtEmpty)| && name[i..] == path[j..]
    && SameMeaning(name, path) && Trimmed(name[..i])
    && Along(Seen(path, stopAtEmpty), j, i, i > 0 && name[0] == "..")
    && (NoDots(path) && path != [] && path[0] != ".." ==> i == 0 || name[0] != "..")
  }

  /** What the loop looks at are the segments of the path. */
  lemma LooksAt(path: Path, stopAtEmpty: bool, name: Path, i: nat, j: nat)
    requires Going(path, stopAtEmpty, name, i, j) && i < |name| && !(stopAtEmpty && name[i] == "")
    ensures var seen := Seen(path, stopAtEmpty);
      && j < |seen| && seen[j] == name[i] && name[i + 1..] == path[j + 1..]
      && ((|name| > i + 1 && name[i + 1] == "..") <==> (j + 1 < |seen| && seen[j + 1] == ".."))
  {
    assert name[i..][0] == path[j..][0];
    assert name[i..][1..] == name[i + 1..] && path[j..][1..] == path[j + 1..];
    assert |name| > i + 1 ==> name[i..][1] == path[j..][1];
  }

  lemma GoesOverDot(path: Path, stopAtEmpty: bool, name: Path, i: nat, j: nat)
    requires Going(path, stopAtEmpty, name, i, j) && i < |name| && name[i] == "."
    ensures Going(path, stopAtEmpty, name[..i] + name[i + 1..], i, j + 1)
  {
    LooksAt(path, stopAtEmpty, name, i, j);
    AlongNext(Seen(path, stopAtEmpty), j, i, i > 0 && name[0] == "..");
    CutDot(name, i);
    MeansTheSame(name[..i] + name[i + 1..], name, path);
  }

  lemma GoesBack(path: Path, stopAtEmpty: bool, name: Path, i: nat, j: nat)
    requires Going(path, stopAtEmpty, name, i, j) && 0 < i < |name| && name[i] == ".."
    requires !(i == 1 && ((|name| > 2 && name[2] == "..") || name[0] == ".."))
    ensures Going(path, stopAtEmpty, name[..i - 1] + name[i + 1..], i - 1, j + 1)
  {
    LooksAt(path, stopAtEmpty, name, i, j);
    AlongNext(Seen(path, stopAtEmpty), j, i, i > 0 && name[0] == "..");
    assert name[..i][i - 1] != "." && name[..i][i - 1] != "..";
    CutPair(name, i);
    MeansTheSame(name[..i - 1] + name[i + 1..], name, path);
  }

  lemma GoesOn(path: Path, stopAtEmpty: bool, name: Path, i: nat, j: nat)
    requires Going(path, stopAtEmpty, name, i, j) && i < |name| && !(stopAtEmpty && name[i] == "")
    requires name[i] != "." && (name[i] == ".." ==> i == 0)
    ensures Going(path, stopAtEmpty, name, i + 1, j + 1)
  {
    LooksAt(path, stopAtEmpty, name, i, j);
    AlongNext(Seen(path, stopAtEmpty), j, i, i > 0 && name[0] == "..");
    if name[i] == ".." && NoDots(path) && path[0] != ".." {
      NeverLeads(Seen(path, stopAtEmpty), j);
    }
  }

  lemma GoesNoFurther(path: Path, stopAtEmpty: bool, name: Path, j: nat)
    requires Going(path, stopAtEmpty, name, 1, j) && 1 < |name| && name[1] == ".."
    requires (|name| > 2 && name[2] == "..") || name[0] == ".."
    ensures MustStop(Seen(path, stopAtEmpty))
  {
    LooksAt(path, stopAtEmpty, name, 1, j);
    AlongStops(Seen(path, stopAtEmpty), j, 1, name[0] == "..");
  }

  lemma GoesToTheEnd(path: Path, stopAtEmpty: bool, name: Path, i: nat, j: nat)
    requires Going(path, stopAtEmpty, name, i, j) && (i == |name| || (stopAtEmpty && name[i] == ""))
    ensures !MustStop(Seen(path, stopAtEmpty))
    ensures NoDots(path) && path != [] && path[0] != ".." ==> name == [] || name[0] != ".."
  {
    assert i < |name| ==> name[i..][0] == path[j..][0];
    AlongEnds(Seen(path, stopAtEmpty), i, i > 0 && name[0] == "..");
  }

  /** The loop of `normalize` (`stopAtEmpty` false) and of `trimDots` (`stopAtEmpty` true, because its
      condition `ary[i]` also fails at an empty segment).  `done` segments were processed. */
  method Trim(path: Path, stopAtEmpty: bool) returns (name: Path, broke: bool, done: nat)
    ensures SameMeaning(name, path)
    ensures broke <==> MustStop(Seen(path, stopAtEmpty))
    ensures done <= |name| && Trimmed(name[..done])
    ensures !broke ==> done == |name| || (stopAtEmpty && name[done] == "")
    ensures broke ==> done == 1 < |name| && name[1] == ".." && (name[0] == ".." || (|name| > 2 && name[2] == ".."))
    ensures NoDots(path) && path != [] && path[0] != ".." ==> name == [] || name[0] != ".."
  {
    hide SameMeaning, Along, MustStop, Seen, Walk;
    MeansItself(path);
    AlongStarts(Seen(path, stopAtEmpty));
    name := path;
    var i := 0;
    ghost var j := 0;
    while i < |name| && !(stopAtEmpty && name[i] == "")
      invariant Going(path, stopAtEmpty, name, i, j)
      decreases 2 * |name| - i
    {
      var part := name[i];
      if part == "." {
        GoesOverDot(path, stopAtEmpty, name, i, j);
        name := name[..i] + name[i + 1..];
        i := i - 1;
      } else if part == ".." {
        if i == 1 && ((|name| > 2 && name[2] == "..") || name[0] == "..") {
          GoesNoFurther(path, stopAtEmpty, name, j);
          return name, true, 1;
        } else if i > 0 {
          GoesBack(path, stopAtEmpty, name, i, j);
          name := name[..i - 1] + name[i + 1..];
          i := i - 2;
        } else {
          GoesOn(path, stopAtEmpty, name, i, j);
        }
      } else {
        GoesOn(path, stopAtEmpty, name, i, j);
      }
      i := i + 1;
      j := j + 1;
    }
    GoesToTheEnd(path, stopAtEmpty, name, i, j);
    return name, false, i;
  }

  // ----- what is left is canonical -----

  lemma {:induction false} WalkPlain(base: Path, path: Path)
    requires forall i :: 0 <= i < |path| ==> path[i] != "." && path[i] != ".."
    ensures Walk(base, path) == Some(base + path)
    decreases |path|
  {
    if path != [] {
      WalkPlain(base + [path[0]], path[1..]);
      assert base + path == (base + [path[0]]) + path[1..];
    } else {
      assert base + path == base;
    }
  }

  /** Where a trimmed path leads: down its segments, after one step up if it starts with "..". */
  lemma WalkTrimmed(base: Path, path: Path)
    requires Trimmed(path)
    ensures var lead := path != [] && path[0] == "..";
      Walk(base, path) ==
        (if !lead then Some(base + path)
         else if base == [] then None
         else Some(base[..|base| - 1] + path[1..]))
  {
    if path != [] && path[0] == ".." {
      if base != [] {
        WalkPlain(base[..|base| - 1], path[1..]);
      }
    } else {
      WalkPlain(base, path);
    }
  }

  /** A trimmed path is determined by its meaning: so a loop that does not give up returns the one
      trimmed path that leads where the given one does. */
  lemma TrimmedIsUnique(p: Path, q: Path)
    requires Trimmed(p) && Trimmed(q) && SameMeaning(p, q)
    ensures p == q
  {
    assert Walk([], p) == Walk([], q) && Walk(["x"], p) == Walk(["x"], q);
    WalkTrimmed([], p);
    WalkTrimmed([], q);
    WalkTrimmed(["x"], p);
    WalkTrimmed(["x"], q);
    assert ["x"][..0] == [];
    if p != [] && p[0] == ".." {
      assert [] + p[1..] == p[1..] && [] + q[1..] == q[1..];
      assert p == [".."] + p[1..] && q == [".."] + q[1..];
    } else {
      assert [] + p == p && [] + q == q;
    }
  }
}
