/** Which set each path goes to, and the paths each set carries. */
module SetSelection {
  import opened Words
  import opened Paths
  import opened SetPatterns

  type SetName = seq<byte>

  /** A line of a set list: the set, and its pattern. */
  datatype Claim = Claim(name: SetName, pattern: Path)

  /** Patterns without `*` first, then the longer. */
  datatype Rank = Rank(exact: bool, length: nat) {
    predicate Below(other: Rank) {
      (!exact && other.exact) || (exact == other.exact && length < other.length)
    }
  }

  function RankOf(c: Claim): Rank {
    Rank(STAR !in c.pattern, |c.pattern|)
  }

  predicate Claims(c: Claim, path: Path) {
    Matches(Components(c.pattern), Components(path))
  }

  datatype Choice = Unclaimed | Tied | Chosen(name: SetName)

  // ---- What the choice means ----

  /** A matching claim that no matching claim outranks. */
  ghost predicate Best(claims: seq<Claim>, path: Path, c: Claim) {
    && c in claims && Claims(c, path)
    && forall d :: d in claims && Claims(d, path) ==> !RankOf(c).Below(RankOf(d))
  }

  ghost predicate IsChoice(claims: seq<Claim>, path: Path, r: Choice) {
    match r
    case Unclaimed => forall c :: c in claims ==> !Claims(c, path)
    case Tied => exists c, d :: Best(claims, path, c) && Best(claims, path, d) && c.name != d.name
    case Chosen(name) =>
      && (exists c :: Best(claims, path, c))
      && forall c :: Best(claims, path, c) ==> c.name == name
  }

  /** There is one choice, whatever the order of the lists and however often a line is repeated. */
  lemma {:induction false} ChoiceIgnoresOrder(claims: seq<Claim>, claims': seq<Claim>, path: Path, r: Choice,
                                              r': Choice)
    requires forall c :: c in claims <==> c in claims'
    requires IsChoice(claims, path, r) && IsChoice(claims', path, r')
    ensures r == r'
  {
    assert forall c :: Best(claims, path, c) <==> Best(claims', path, c);
    if r.Chosen? && r'.Chosen? {
      var c :| Best(claims, path, c);
      assert c.name == r.name == r'.name;
    }
  }

  // ---- The loop ----

  /** Best claim so far and whether another set ties with it. */
  ghost predicate BestSoFar(claims: seq<Claim>, n: nat, path: Path, best: Option<Claim>, tied: bool)
    requires n <= |claims|
  {
    match best
    case None => !tied && forall k :: 0 <= k < n ==> !Claims(claims[k], path)
    case Some(b) =>
      && Best(claims[..n], path, b)
      && (tied <==> exists c :: Best(claims[..n], path, c) && c.name != b.name)
  }

  lemma {:induction false} BestExtends(claims: seq<Claim>, n: nat, path: Path, c: Claim)
    requires n < |claims|
    ensures Best(claims[..n + 1], path, c) <==>
              || (c == claims[n] && Claims(c, path)
                  && forall d :: d in claims[..n] && Claims(d, path) ==> !RankOf(c).Below(RankOf(d)))
              || (Best(claims[..n], path, c) && !(Claims(claims[n], path) && RankOf(c).Below(RankOf(claims[n]))))
  {
    assert claims[..n + 1] == claims[..n] + [claims[n]];
  }

  /** The loop over the lists for one path. */
  method ChooseSet(claims: seq<Claim>, path: Path) returns (r: Choice)
    ensures IsChoice(claims, path, r)
  {
    var best: Option<Claim> := None;
    var tied := false;
    for n := 0 to |claims|
      invariant BestSoFar(claims, n, path, best, tied)
    {
      var c := claims[n];
      if Claims(c, path) {
        var rank := RankOf(c);
        if best.Some? && RankOf(best.value) == rank && best.value.name != c.name {
          TieFound(claims, n, path, best.value, tied);
          tied := true;
        } else if best.Some? && !RankOf(best.value).Below(rank) {
          BestStays(claims, n, path, best.value, tied);
        } else {
          NewBest(claims, n, path, best, tied);
          best, tied := Some(c), false;
        }
      } else {
        Passed(claims, n, path, best, tied);
      }
    }
    assert claims[..|claims|] == claims;
    match best
    case None => return Unclaimed;
    case Some(b) => return if tied then Tied else Chosen(b.name);
  }

  lemma {:induction false} Passed(claims: seq<Claim>, n: nat, path: Path, best: Option<Claim>, tied: bool)
    requires n < |claims| && BestSoFar(claims, n, path, best, tied) && !Claims(claims[n], path)
    ensures BestSoFar(claims, n + 1, path, best, tied)
  {
    if best.Some? {
      forall c
        ensures Best(claims[..n + 1], path, c) <==> Best(claims[..n], path, c)
      {
        BestExtends(claims, n, path, c);
      }
    }
  }

  lemma {:induction false} TieFound(claims: seq<Claim>, n: nat, path: Path, b: Claim, tied: bool)
    requires n < |claims| && BestSoFar(claims, n, path, Some(b), tied) && Claims(claims[n], path)
    requires RankOf(b) == RankOf(claims[n]) && b.name != claims[n].name
    ensures BestSoFar(claims, n + 1, path, Some(b), true)
  {
    BestExtends(claims, n, path, b);
    BestExtends(claims, n, path, claims[n]);
  }

  lemma {:induction false} BestStays(claims: seq<Claim>, n: nat, path: Path, b: Claim, tied: bool)
    requires n < |claims| && BestSoFar(claims, n, path, Some(b), tied) && Claims(claims[n], path)
    requires !RankOf(b).Below(RankOf(claims[n])) && (RankOf(b) == RankOf(claims[n]) ==> b.name == claims[n].name)
    ensures BestSoFar(claims, n + 1, path, Some(b), tied)
  {
    BestExtends(claims, n, path, b);
    forall c: Claim | c.name != b.name
      ensures Best(claims[..n + 1], path, c) <==> Best(claims[..n], path, c)
    {
      BestExtends(claims, n, path, c);
    }
  }

  lemma {:induction false} NewBest(claims: seq<Claim>, n: nat, path: Path, best: Option<Claim>, tied: bool)
    requires n < |claims| && BestSoFar(claims, n, path, best, tied) && Claims(claims[n], path)
    requires best.Some? ==> RankOf(best.value).Below(RankOf(claims[n]))
    ensures BestSoFar(claims, n + 1, path, Some(claims[n]), false)
  {
    BestExtends(claims, n, path, claims[n]);
    forall c | Best(claims[..n + 1], path, c)
      ensures c.name == claims[n].name
    {
      BestExtends(claims, n, path, c);
      if best.Some? && Best(claims[..n], path, c) {
        assert !RankOf(c).Below(RankOf(best.value)) && !RankOf(best.value).Below(RankOf(c));
      }
    }
  }

  /** `assign_sets`: `None` where it panics, for a tie or for a path in no set. */
  method AssignSets(claims: seq<Claim>, paths: seq<Path>) returns (r: Option<map<Path, SetName>>)
    ensures r.Some? ==>
              forall p :: (p in r.value <==> p in paths) && (p in r.value ==> IsChoice(claims, p, Chosen(r.value[p])))
    ensures r.None? <==> exists p, c :: p in paths && IsChoice(claims, p, c) && !c.Chosen?
  {
    var out: map<Path, SetName> := map[];
    var unclaimed: seq<Path> := [];
    for n := 0 to |paths|
      invariant forall p :: p in unclaimed ==> p in paths && IsChoice(claims, p, Unclaimed)
      invariant forall p :: p in paths[..n] <==> p in out || p in unclaimed
      invariant forall p :: p in out ==> IsChoice(claims, p, Chosen(out[p]))
    {
      var c := ChooseSet(claims, paths[n]);
      if c == Tied {
        assert paths[n] in paths && IsChoice(claims, paths[n], c);
        return None;
      }
      if c == Unclaimed {
        unclaimed := unclaimed + [paths[n]];
      } else {
        out := out[paths[n] := c.name];
      }
    }
    assert paths[..|paths|] == paths;
    if unclaimed != [] {
      assert unclaimed[0] in paths && IsChoice(claims, unclaimed[0], Unclaimed);
      return None;
    }
    forall p, c | p in paths && IsChoice(claims, p, c)
      ensures c.Chosen?
    {
      ChoiceIgnoresOrder(claims, claims, p, c, Chosen(out[p]));
    }
    return Some(out);
  }

  // ---- What a set carries ----

  /** A path of the set, one above it, or the root. */
  ghost predicate Carried(paths: seq<Path>, p: Path) {
    exists q :: q in paths && (p == q || p in Above(q) || p == [])
  }

  /** The paths a set carries: its own and every directory above them, in order. */
  method SetPaths(own: seq<Path>) returns (paths: seq<Path>)
    ensures Sorted(paths) && forall p :: p in paths <==> Carried(own, p)
  {
    paths := [];
    for n := 0 to |own|
      invariant Sorted(paths) && forall p :: p in paths <==> Carried(own[..n], p)
    {
      ghost var before := paths;
      paths := AddUp(paths, own[n]);
      forall p
        ensures p in paths <==> Carried(own[..n + 1], p)
      {
        assert own[..n + 1] == own[..n] + [own[n]];
        assert p in before <==> Carried(own[..n], p);
        if p == own[n] || p in Above(own[n]) || p == [] {
          assert own[n] in own[..n + 1];
        }
      }
    }
    assert own[..|own|] == own;
  }

  /** `path`, those above it and the root, added to `s`. */
  method AddUp(s: seq<Path>, path: Path) returns (r: seq<Path>)
    requires Sorted(s)
    ensures Sorted(r) && forall p :: p in r <==> p in s || p == path || p in Above(path) || p == []
  {
    r := InsertPath(s, path);
    var p := path;
    while Parent(p).Some?
      invariant Sorted(r) && forall q :: q in r || q in Above(p) <==> q in s || q == path || q in Above(path)
      decreases |p|
    {
      p := Parent(p).value;
      r := InsertPath(r, p);
    }
    r := InsertPath(r, []);
  }

  method InsertPath(s: seq<Path>, p: Path) returns (r: seq<Path>)
    requires Sorted(s)
    ensures Sorted(r) && forall q :: q in r <==> q in s || q == p
  {
    r := Insert(s, p);
    InsertSorted(s, p);
    forall q
      ensures q in r <==> q in s || q == p
    {
      InsertMembers(s, p, q);
    }
  }

  /** What a set carries holds every path above each of its own, and is all in the tree. */
  lemma {:induction false} CarriedIsClosed(own: seq<Path>, tree: set<Path>, p: Path, up: Path)
    requires Closed(tree) && (forall q :: q in own ==> q in tree) && Carried(own, p)
    ensures p in tree && (up in Above(p) || up == [] ==> Carried(own, up))
  {
    var q :| q in own && (p == q || p in Above(q) || p == []);
    if up in Above(p) && p in Above(q) {
      AboveIsPrefixes(q, p);
      AboveIsPrefixes(p, up);
      AboveIsPrefixes(q, up);
    }
  }

  /** So in a set's list the paths above each one are there, all before it. */
  lemma {:induction false} ParentsListedFirst(own: seq<Path>, tree: set<Path>, paths: seq<Path>, j: nat, up: Path)
    requires Closed(tree) && (forall q :: q in own ==> q in tree)
    requires Sorted(paths) && (forall p :: p in paths <==> Carried(own, p))
    requires j < |paths| && up in Above(paths[j])
    ensures paths[j] in tree && up in tree && up in paths[..j]
  {
    CarriedIsClosed(own, tree, paths[j], up);
    CarriedIsClosed(own, tree, up, []);
    var i :| 0 <= i < |paths| && paths[i] == up;
    AboveComesFirst(paths, i, j);
    assert paths[..j][i] == up;
  }
}
