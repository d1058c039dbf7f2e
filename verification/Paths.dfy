/** Install paths: bytes with `/` between components, "" for the root, in byte order. */
module Paths {
  import opened Words

  type Path = seq<byte>

  const SLASH: byte := 0x2f

  // ---- Parents ----

  /** `rsplit_once('/')`: what comes before the last slash. */
  function Parent(p: Path): (up: Option<Path>)
    ensures up.Some? ==> |up.value| < |p| && up.value <= p && p[|up.value|] == SLASH
    ensures up.Some? ==> forall i :: |up.value| < i < |p| ==> p[i] != SLASH
    ensures up.None? ==> SLASH !in p
  {
    if p == [] then None
    else if p[|p| - 1] == SLASH then Some(p[..|p| - 1])
    else Parent(p[..|p| - 1])
  }

  /** Every path that chopping at slashes reaches. */
  function Above(p: Path): (ups: set<Path>)
    ensures forall q :: q in ups ==> |q| < |p| && q <= p
    decreases |p|
  {
    match Parent(p)
    case None => {}
    case Some(up) => {up} + Above(up)
  }

  /** The paths above `p` are its prefixes that end before a slash. */
  lemma {:induction false} AboveIsPrefixes(p: Path, q: Path)
    ensures q in Above(p) <==> |q| < |p| && q <= p && p[|q|] == SLASH
    decreases |p|
  {
    match Parent(p) {
      case None =>
        assert |q| < |p| ==> p[|q|] in p;
      case Some(up) =>
        AboveIsPrefixes(up, q);
        if |q| < |p| && q <= p && p[|q|] == SLASH {
          assert |q| <= |up|;
          assert q == p[..|q|] && up == p[..|up|];
        }
    }
  }

  /** A set of paths that holds every path above each of its own. */
  ghost predicate Closed(s: set<Path>) {
    forall p :: p in s ==> Above(p) <= s && [] in s
  }

  // ---- Order ----

  predicate Less(a: Path, b: Path) {
    b != [] && (a == [] || a[0] < b[0] || (a[0] == b[0] && Less(a[1..], b[1..])))
  }

  lemma {:induction false} LessIrreflexive(a: Path)
    ensures !Less(a, a)
  {
    if a != [] {
      LessIrreflexive(a[1..]);
    }
  }

  lemma {:induction false} LessTransitive(a: Path, b: Path, c: Path)
    requires Less(a, b) && Less(b, c)
    ensures Less(a, c)
  {
    if a != [] && a[0] == b[0] == c[0] {
      LessTransitive(a[1..], b[1..], c[1..]);
    }
  }

  lemma {:induction false} LessTotal(a: Path, b: Path)
    ensures a == b || Less(a, b) || Less(b, a)
  {
    if a != [] && b != [] && a[0] == b[0] {
      LessTotal(a[1..], b[1..]);
      assert a == [a[0]] + a[1..] && b == [b[0]] + b[1..];
    }
  }

  /** A proper prefix comes first. */
  lemma {:induction false} PrefixLess(a: Path, b: Path)
    requires |a| < |b| && a <= b
    ensures Less(a, b)
  {
    if a != [] {
      assert a[1..] <= b[1..];
      PrefixLess(a[1..], b[1..]);
    }
  }

  ghost predicate Sorted(s: seq<Path>) {
    forall i, j :: 0 <= i < j < |s| ==> Less(s[i], s[j])
  }

  /** Adds `p` to an ordered set kept as a sequence. */
  function Insert(s: seq<Path>, p: Path): seq<Path> {
    if s == [] then [p]
    else if p == s[0] then s
    else if Less(p, s[0]) then [p] + s
    else [s[0]] + Insert(s[1..], p)
  }

  lemma {:induction false} InsertMembers(s: seq<Path>, p: Path, q: Path)
    ensures q in Insert(s, p) <==> q in s || q == p
  {
    if s != [] && p != s[0] && !Less(p, s[0]) {
      InsertMembers(s[1..], p, q);
    }
  }

  lemma {:induction false} InsertSorted(s: seq<Path>, p: Path)
    requires Sorted(s)
    ensures Sorted(Insert(s, p))
  {
    if s != [] && p != s[0] {
      LessTotal(p, s[0]);
      if Less(p, s[0]) {
        forall j | 0 < j < |s|
          ensures Less(p, s[j])
        {
          LessTransitive(p, s[0], s[j]);
        }
      } else {
        InsertSorted(s[1..], p);
        var rest := Insert(s[1..], p);
        forall j | 0 <= j < |rest|
          ensures Less(s[0], rest[j])
        {
          InsertMembers(s[1..], p, rest[j]);
        }
      }
    }
  }

  /** In a sorted list, every path comes after all those above it. */
  lemma {:induction false} AboveComesFirst(s: seq<Path>, i: nat, j: nat)
    requires Sorted(s) && i < |s| && j < |s| && s[i] in Above(s[j])
    ensures i < j
  {
    AboveIsPrefixes(s[j], s[i]);
    PrefixLess(s[i], s[j]);
    if j <= i {
      LessIrreflexive(s[i]);
      if j < i {
        LessTransitive(s[i], s[j], s[i]);
      }
    }
  }
}
