/** Set-list patterns: `*` inside a component, `**` over components. */
module SetPatterns {
  import opened Words
  import opened Paths

  type Component = seq<byte>

  const STAR: byte := 0x2a
  const ANY_COMPONENTS: Component := [STAR, STAR]

  // ---- Components ----

  /** `split('/')`. */
  function SplitSlash(p: Path): (r: seq<Component>)
    ensures r != []
  {
    if p == [] then [[]] else Push(p[0], SplitSlash(p[1..]))
  }

  /** A byte in front: a slash opens a component, another byte joins the first. */
  function Push(b: byte, cs: seq<Component>): (r: seq<Component>)
    requires cs != []
    ensures r != []
  {
    if b == SLASH then [[]] + cs else [[b] + cs[0]] + cs[1..]
  }

  /** A path's components; the root has none. */
  function Components(p: Path): seq<Component> {
    if p == [] then [] else SplitSlash(p)
  }

  function Join(cs: seq<Component>): Path {
    if cs == [] then []
    else if |cs| == 1 then cs[0]
    else cs[0] + [SLASH] + Join(cs[1..])
  }

  lemma {:induction false} JoinSplit(p: Path)
    ensures Join(SplitSlash(p)) == p
  {
    if p != [] {
      JoinSplit(p[1..]);
      var rest := SplitSlash(p[1..]);
      assert p == [p[0]] + p[1..];
      if p[0] != SLASH {
        var split := SplitSlash(p);
        assert split[1..] == rest[1..];
        if |rest| > 1 {
          assert Join(split) == [p[0]] + rest[0] + [SLASH] + Join(rest[1..]);
        }
      } else {
        assert ([[]] + rest)[1..] == rest;
      }
    }
  }

  /** Different paths have different components. */
  lemma {:induction false} ComponentsInjective(p: Path, q: Path)
    requires Components(p) == Components(q)
    ensures p == q
  {
    JoinSplit(p);
    JoinSplit(q);
  }

  // ---- The matcher ----

  predicate ComponentMatches(p: seq<byte>, s: seq<byte>) {
    if p == [] then s == []
    else if p[0] == STAR then exists i :: 0 <= i <= |s| && ComponentMatches(p[1..], s[i..])
    else s != [] && s[0] == p[0] && ComponentMatches(p[1..], s[1..])
  }

  /** `set_pattern_matches`. */
  predicate Matches(pattern: seq<Component>, path: seq<Component>) {
    if pattern == [] then path == []
    else if pattern[0] == ANY_COMPONENTS then exists i :: 1 <= i <= |path| && Matches(pattern[1..], path[i..])
    else path != [] && ComponentMatches(pattern[0], path[0]) && Matches(pattern[1..], path[1..])
  }

  // ---- What a pattern means ----

  function Concat<T>(pieces: seq<seq<T>>): seq<T> {
    if pieces == [] then [] else pieces[0] + Concat(pieces[1..])
  }

  /** `s` cut into one piece per byte of `p`: a `*` takes any run, another byte itself. */
  ghost predicate Aligned(p: seq<byte>, s: seq<byte>, pieces: seq<seq<byte>>) {
    && |pieces| == |p| && Concat(pieces) == s
    && forall i :: 0 <= i < |p| ==> p[i] == STAR || pieces[i] == [p[i]]
  }

  ghost predicate ComponentFits(p: seq<byte>, s: seq<byte>) {
    exists pieces :: Aligned(p, s, pieces)
  }

  /** `path` cut into one group per component of `pattern`: `**` takes one or more, another exactly one
      that fits it. */
  ghost predicate Covered(pattern: seq<Component>, path: seq<Component>, groups: seq<seq<Component>>) {
    && |groups| == |pattern| && Concat(groups) == path
    && forall i :: 0 <= i < |pattern| ==> GroupFits(pattern[i], groups[i])
  }

  ghost predicate GroupFits(p: Component, group: seq<Component>) {
    if p == ANY_COMPONENTS then |group| >= 1 else |group| == 1 && ComponentFits(p, group[0])
  }

  lemma {:induction false} AlignedTail(p: seq<byte>, s: seq<byte>, pieces: seq<seq<byte>>)
    requires p != [] && Aligned(p, s, pieces)
    ensures |pieces[0]| <= |s| && s[..|pieces[0]|] == pieces[0] && Aligned(p[1..], s[|pieces[0]|..], pieces[1..])
  {
  }

  lemma {:induction false} AlignedCons(p: seq<byte>, s: seq<byte>, i: nat, pieces: seq<seq<byte>>)
    requires p != [] && i <= |s| && Aligned(p[1..], s[i..], pieces) && (p[0] == STAR || s[..i] == [p[0]])
    ensures Aligned(p, s, [s[..i]] + pieces)
  {
    var all := [s[..i]] + pieces;
    assert all[1..] == pieces;
    forall k | 0 <= k < |p|
      ensures p[k] == STAR || all[k] == [p[k]]
    {
      assert k > 0 ==> p[k] == p[1..][k - 1] && all[k] == pieces[k - 1];
    }
  }

  lemma {:induction false} ComponentMeaning(p: seq<byte>, s: seq<byte>)
    ensures ComponentMatches(p, s) <==> ComponentFits(p, s)
  {
    if p == [] {
      if s == [] {
        assert Aligned(p, s, []);
      }
    } else {
      if ComponentMatches(p, s) {
        var i :| 0 <= i <= |s| && ComponentMatches(p[1..], s[i..]) && (p[0] == STAR || s[..i] == [p[0]]) by {
          if p[0] != STAR {
            assert ComponentMatches(p[1..], s[1..]) && s[..1] == [p[0]];
          }
        }
        ComponentMeaning(p[1..], s[i..]);
        var pieces :| Aligned(p[1..], s[i..], pieces);
        AlignedCons(p, s, i, pieces);
      }
      if ComponentFits(p, s) {
        var pieces :| Aligned(p, s, pieces);
        AlignedTail(p, s, pieces);
        ComponentMeaning(p[1..], s[|pieces[0]|..]);
      }
    }
  }

  lemma {:induction false} CoveredTail(pattern: seq<Component>, path: seq<Component>, groups: seq<seq<Component>>)
    requires pattern != [] && Covered(pattern, path, groups)
    ensures |groups[0]| <= |path| && path[..|groups[0]|] == groups[0]
    ensures Covered(pattern[1..], path[|groups[0]|..], groups[1..])
  {
  }

  lemma {:induction false} CoveredCons(pattern: seq<Component>, path: seq<Component>, i: nat,
                                       groups: seq<seq<Component>>)
    requires pattern != [] && i <= |path| && Covered(pattern[1..], path[i..], groups)
             && GroupFits(pattern[0], path[..i])
    ensures Covered(pattern, path, [path[..i]] + groups)
  {
    var all := [path[..i]] + groups;
    assert all[1..] == groups;
    forall k | 0 <= k < |pattern|
      ensures GroupFits(pattern[k], all[k])
    {
      assert k > 0 ==> pattern[k] == pattern[1..][k - 1] && all[k] == groups[k - 1];
    }
  }

  /** The matcher accepts exactly the paths a pattern covers. */
  lemma {:induction false} MatcherMeaning(pattern: seq<Component>, path: seq<Component>)
    ensures Matches(pattern, path) <==> exists groups :: Covered(pattern, path, groups)
  {
    if pattern == [] {
      if path == [] {
        assert Covered(pattern, path, []);
      }
    } else {
      if Matches(pattern, path) {
        var i :| 0 <= i <= |path| && Matches(pattern[1..], path[i..]) && GroupFits(pattern[0], path[..i]) by {
          if pattern[0] != ANY_COMPONENTS {
            ComponentMeaning(pattern[0], path[0]);
            assert GroupFits(pattern[0], path[..1]) && Matches(pattern[1..], path[1..]);
          } else {
            var k :| 1 <= k <= |path| && Matches(pattern[1..], path[k..]);
            assert GroupFits(pattern[0], path[..k]);
          }
        }
        MatcherMeaning(pattern[1..], path[i..]);
        var groups :| Covered(pattern[1..], path[i..], groups);
        CoveredCons(pattern, path, i, groups);
      }
      if groups :| Covered(pattern, path, groups) {
        CoveredTail(pattern, path, groups);
        var n := |groups[0]|;
        MatcherMeaning(pattern[1..], path[n..]);
        assert GroupFits(pattern[0], groups[0]);
        if pattern[0] != ANY_COMPONENTS {
          ComponentMeaning(pattern[0], path[0]);
        }
      }
    }
  }

  // ---- Patterns without stars ----

  lemma {:induction false} PlainComponent(p: seq<byte>, s: seq<byte>)
    requires STAR !in p
    ensures ComponentMatches(p, s) <==> p == s
  {
    if p != [] {
      assert p[0] in p;
      assert p == [p[0]] + p[1..];
      if s != [] {
        assert s == [s[0]] + s[1..];
        PlainComponent(p[1..], s[1..]);
      }
    }
  }

  lemma {:induction false} PlainMatches(pattern: seq<Component>, path: seq<Component>)
    requires forall i :: 0 <= i < |pattern| ==> STAR !in pattern[i]
    ensures Matches(pattern, path) <==> pattern == path
  {
    if pattern != [] {
      assert STAR in ANY_COMPONENTS;
      assert pattern == [pattern[0]] + pattern[1..];
      if path != [] {
        assert path == [path[0]] + path[1..];
        PlainComponent(pattern[0], path[0]);
        PlainMatches(pattern[1..], path[1..]);
      }
    }
  }

  lemma {:induction false} SplitKeepsBytes(p: Path, i: nat, b: byte)
    requires i < |SplitSlash(p)| && b in SplitSlash(p)[i]
    ensures b in p
  {
    if p != [] {
      var rest := SplitSlash(p[1..]);
      if p[0] == SLASH {
        if i > 0 {
          SplitKeepsBytes(p[1..], i - 1, b);
        }
      } else if i > 0 {
        SplitKeepsBytes(p[1..], i, b);
      } else if b != p[0] {
        assert b in rest[0];
        SplitKeepsBytes(p[1..], 0, b);
      }
    }
  }

  /** A pattern without stars matches its own path and no other. */
  lemma {:induction false} StarFree(p: Path, q: Path)
    requires STAR !in p
    ensures Matches(Components(p), Components(q)) <==> p == q
  {
    forall i | 0 <= i < |Components(p)|
      ensures STAR !in Components(p)[i]
    {
      if STAR in Components(p)[i] {
        SplitKeepsBytes(p, i, STAR);
      }
    }
    PlainMatches(Components(p), Components(q));
    if Components(p) == Components(q) {
      ComponentsInjective(p, q);
    }
  }
}
