/** The ancestry chain: a colon-joined list of socket paths that must answer
    membership questions exactly. */
module Ancestry {
  import opened Bytes

  /** The segments between colons; never an empty list. */
  function Split(s: string): (r: seq<string>)
    ensures |r| >= 1
  {
    if s == "" then [""] else AddFront(s[0], Split(s[1..]))
  }

  /** One more character in front of a split string. */
  function AddFront(c: char, segments: seq<string>): (r: seq<string>)
    requires |segments| >= 1
    ensures |r| >= 1
  {
    if c == ':' then [""] + segments else [[c] + segments[0]] + segments[1..]
  }

  function ExtendAncestry(current: Option<string>, newPath: string): string {
    match current
    case Some(chain) => if chain == "" then newPath else chain + ":" + newPath
    case None => newPath
  }

  predicate AncestryContains(chain: Option<string>, target: string) {
    match chain
    case Some(c) => c != "" && target in Split(c)
    case None => false
  }

  /** The chain a session nested inside `paths`, outermost first, is given. */
  function Nested(paths: seq<string>): Option<string> {
    if paths == [] then None
    else Some(ExtendAncestry(Nested(paths[..|paths| - 1]), paths[|paths| - 1]))
  }

  lemma AddFrontKeepsTail(c: char, a: seq<string>, b: seq<string>)
    requires |a| >= 1
    ensures AddFront(c, a + b) == AddFront(c, a) + b
  {
    assert (a + b)[1..] == a[1..] + b;
  }

  /** Joining with a colon and splitting gives the segments of both sides. */
  lemma {:induction false} SplitUndoesJoin(a: string, b: string)
    ensures Split(a + ":" + b) == Split(a) + Split(b)
  {
    if a == "" {
      assert (a + ":" + b)[1..] == b;
    } else {
      assert (a + ":" + b)[1..] == a[1..] + ":" + b;
      SplitUndoesJoin(a[1..], b);
      AddFrontKeepsTail(a[0], Split(a[1..]), Split(b));
    }
  }

  lemma {:induction false} SplitPlain(s: string)
    ensures ':' !in s ==> Split(s) == [s]
    ensures forall t | t in Split(s) :: ':' !in t
  {
    if s != "" {
      SplitPlain(s[1..]);
      var rest := Split(s[1..]);
      assert s == [s[0]] + s[1..];
      forall t | t in Split(s) ensures ':' !in t {
        if s[0] != ':' && t == Split(s)[0] {
          assert rest[0] in rest;
        } else {
          assert t in rest || t == "";
        }
      }
    }
  }

  /** Extending a chain adds exactly the new path's segments, for any chain and
      any path; an empty path inside no session adds nothing. */
  lemma ExtendAdds(current: Option<string>, newPath: string, target: string)
    ensures AncestryContains(Some(ExtendAncestry(current, newPath)), target)
       <==> AncestryContains(current, target)
            || (target in Split(newPath) && ExtendAncestry(current, newPath) != "")
  {
    if current.Some? && current.value != "" {
      SplitUndoesJoin(current.value, newPath);
    }
  }

  /** The paths from the first non-empty one on. */
  function DropEmpty(paths: seq<string>): seq<string> {
    if paths == [] then [] else if paths[0] == "" then DropEmpty(paths[1..]) else paths
  }

  lemma {:induction false} DropEmptySnoc(paths: seq<string>, p: string)
    ensures DropEmpty(paths + [p]) == if DropEmpty(paths) == [] && p == "" then [] else DropEmpty(paths) + [p]
  {
    if paths == [] {
      assert paths + [p] == [p] && [p][1..] == [];
    } else if paths[0] == "" {
      assert (paths + [p])[1..] == paths[1..] + [p];
      DropEmptySnoc(paths[1..], p);
    }
  }

  /** A chain of colon-free paths splits back into those paths. */
  lemma {:induction false} NestedSegments(paths: seq<string>)
    requires forall p | p in paths :: ':' !in p
    ensures var kept := DropEmpty(paths);
      if kept == [] then Nested(paths) == None || Nested(paths) == Some("")
      else Nested(paths).Some? && Nested(paths).value != "" && Split(Nested(paths).value) == kept
    decreases |paths|
  {
    if paths != [] {
      var init, p := paths[..|paths| - 1], paths[|paths| - 1];
      NestedSegments(init);
      assert paths == init + [p];
      DropEmptySnoc(init, p);
      SplitPlain(p);
      if DropEmpty(init) != [] {
        SplitUndoesJoin(Nested(init).value, p);
      }
    }
  }

  lemma {:induction false} SegmentsArePlain(paths: seq<string>, target: string)
    ensures AncestryContains(Nested(paths), target) ==> ':' !in target
  {
    match Nested(paths) {
      case None =>
      case Some(c) => SplitPlain(c);
    }
  }

  /** The chain answers exactly which sessions one is nested in, if and only if
      no path holds a colon and no empty path comes only before all others. */
  lemma AncestryFaithful(paths: seq<string>)
    ensures (forall target :: AncestryContains(Nested(paths), target) <==> target in paths)
       <==> (forall p | p in paths :: ':' !in p) && ("" in paths ==> "" in DropEmpty(paths))
  {
    if forall p | p in paths :: ':' !in p {
      NestedSegments(paths);
      forall target ensures AncestryContains(Nested(paths), target) <==> target in DropEmpty(paths) {
      }
      forall target ensures target != "" ==> (target in DropEmpty(paths) <==> target in paths) {
        DropEmptyKeeps(paths, target);
      }
      if "" in DropEmpty(paths) {
        DropEmptyWithin(paths, "");
      }
      assert AncestryContains(Nested(paths), "") <==> "" in DropEmpty(paths);
    } else {
      var p :| p in paths && ':' in p;
      SegmentsArePlain(paths, p);
      assert !(AncestryContains(Nested(paths), p) <==> p in paths);
    }
  }

  lemma {:induction false} DropEmptyKeeps(paths: seq<string>, target: string)
    ensures target != "" ==> (target in DropEmpty(paths) <==> target in paths)
  {
    if paths != [] {
      DropEmptyKeeps(paths[1..], target);
      assert paths == [paths[0]] + paths[1..];
    }
  }

  lemma {:induction false} DropEmptyWithin(paths: seq<string>, target: string)
    ensures target in DropEmpty(paths) ==> target in paths
  {
    if paths != [] && paths[0] == "" {
      DropEmptyWithin(paths[1..], target);
    }
  }
}
