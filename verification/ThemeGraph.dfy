/**
 The dependency lists of themes.

 Every theme may extend another one.  Loading walks each chain of ancestors, records it
 root-first and drops the themes whose chain is broken.
 */
module ThemeGraph {
  // extendsId is empty for a theme without a parent; parent is its nearest base ancestor
  datatype Theme = Theme(id: string, extendsId: string, isBase: bool, parent: string, dependencies: seq<string>)

  type Themes = map<string, Theme>

  // ---- Chains of ancestors ----------------------------------------------------------------

  /** The complete chain of a theme's ancestors, the nearest first. */
  ghost predicate IsChain(themes: Themes, id: string, chain: seq<string>)
    decreases |chain|
  {
    && id in themes
    && if themes[id].extendsId == "" then chain == []
       else chain != [] && chain[0] == themes[id].extendsId && IsChain(themes, chain[0], chain[1..])
  }

  /** A chain that is usable: it ends in a base theme, and a base theme has base ancestors only. */
  ghost predicate Grounded(themes: Themes, id: string, chain: seq<string>)
    requires IsChain(themes, id, chain)
  {
    ChainInThemes(themes, id, chain);
    && themes[if chain == [] then id else chain[|chain| - 1]].isBase
    && (themes[id].isBase ==> forall i :: 0 <= i < |chain| ==> themes[chain[i]].isBase)
  }

  ghost predicate Survives(themes: Themes, id: string) {
    exists chain :: IsChain(themes, id, chain) && Grounded(themes, id, chain)
  }

  lemma {:induction false} ChainInThemes(themes: Themes, id: string, chain: seq<string>)
    requires IsChain(themes, id, chain)
    ensures forall i :: 0 <= i < |chain| ==> chain[i] in themes
    decreases |chain|
  {
    if chain != [] {
      ChainInThemes(themes, chain[0], chain[1..]);
      assert forall i :: 1 <= i < |chain| ==> chain[i] == chain[1..][i - 1];
    }
  }

  lemma {:induction false} ChainUnique(themes: Themes, id: string, a: seq<string>, b: seq<string>)
    requires IsChain(themes, id, a) && IsChain(themes, id, b)
    ensures a == b
    decreases |a|
  {
    if a != [] {
      ChainUnique(themes, a[0], a[1..], b[1..]);
      assert a == [a[0]] + a[1..] && b == [b[0]] + b[1..];
    }
  }

  /** What follows an ancestor in a chain is that ancestor's own chain. */
  lemma {:induction false} ChainSuffix(themes: Themes, id: string, chain: seq<string>, k: nat)
    requires IsChain(themes, id, chain) && k < |chain|
    ensures IsChain(themes, chain[k], chain[k + 1..])
    decreases k
  {
    if k > 0 {
      ChainSuffix(themes, chain[0], chain[1..], k - 1);
      assert chain[1..][k..] == chain[k + 1..];
    }
  }

  /** A finite chain never comes back to a theme it has left. */
  lemma {:induction false} ChainAcyclic(themes: Themes, id: string, chain: seq<string>)
    requires IsChain(themes, id, chain)
    ensures id !in chain && forall i, j :: 0 <= i < j < |chain| ==> chain[i] != chain[j]
  {
    if k :| 0 <= k < |chain| && chain[k] == id {
      ChainSuffix(themes, id, chain, k);
      ChainUnique(themes, id, chain, chain[k + 1..]);
      assert false;
    }
    forall i, j | 0 <= i < j < |chain| ensures chain[i] != chain[j] {
      if chain[i] == chain[j] {
        ChainSuffix(themes, id, chain, i);
        ChainSuffix(themes, id, chain, j);
        ChainUnique(themes, chain[i], chain[i + 1..], chain[j + 1..]);
        assert false;
      }
    }
  }

  lemma {:induction false} SurvivorIsLoaded(themes: Themes, id: string)
    requires Survives(themes, id)
    ensures id in themes
  {}

  // ---- Partial chains -----------------------------------------------------------------------

  function Before(id: string, path: seq<string>, i: nat): string
    requires i <= |path|
  {
    if i == 0 then id else path[i - 1]
  }

  /** The theme the walk goes to after these ancestors. */
  function NextOf(themes: Themes, id: string, path: seq<string>): string
    requires id in themes && forall i :: 0 <= i < |path| ==> path[i] in themes
  {
    themes[Before(id, path, |path|)].extendsId
  }

  ghost predicate IsPath(themes: Themes, id: string, path: seq<string>) {
    && id in themes
    && (forall i :: 0 <= i < |path| ==> path[i] in themes && path[i] != "")
    && (forall i :: 0 <= i < |path| ==> path[i] == themes[Before(id, path, i)].extendsId)
  }

  /** A walk follows the chain, if there is one. */
  lemma {:induction false} PathFollowsChain(themes: Themes, id: string, path: seq<string>, chain: seq<string>)
    requires IsPath(themes, id, path) && IsChain(themes, id, chain)
    ensures |path| <= |chain| && path == chain[..|path|]
    ensures if NextOf(themes, id, path) == "" then path == chain
            else |path| < |chain| && chain[|path|] == NextOf(themes, id, path)
  {
    if path != [] {
      var n := |path| - 1;
      assert forall i :: 0 <= i <= n ==> Before(id, path[..n], i) == Before(id, path, i);
      assert IsPath(themes, id, path[..n]);
      PathFollowsChain(themes, id, path[..n], chain);
      assert NextOf(themes, id, path[..n]) == path[n];
      ChainInThemes(themes, id, chain);
      ChainSuffix(themes, id, chain, n);
    }
  }

  lemma {:induction false} CompletePathIsChain(themes: Themes, id: string, path: seq<string>)
    requires IsPath(themes, id, path) && NextOf(themes, id, path) == ""
    ensures IsChain(themes, id, path)
    decreases |path|
  {
    if path != [] {
      var rest := path[1..];
      assert path[0] == themes[Before(id, path, 0)].extendsId;
      forall i | 0 <= i < |rest| ensures rest[i] in themes && rest[i] == themes[Before(path[0], rest, i)].extendsId {
        assert rest[i] == path[i + 1] && Before(path[0], rest, i) == Before(id, path, i + 1);
      }
      assert NextOf(themes, path[0], rest) == NextOf(themes, id, path);
      CompletePathIsChain(themes, path[0], rest);
    }
  }

  // ---- FindThemes -----------------------------------------------------------------------------

  function Reverse(s: seq<string>): (r: seq<string>)
    ensures |r| == |s| && forall i :: 0 <= i < |s| ==> r[i] == s[|s| - 1 - i]
  {
    if s == [] then [] else [s[|s| - 1]] + Reverse(s[..|s| - 1])
  }

  function FirstBase(themes: Themes, path: seq<string>, n: nat): string
    requires n <= |path| && forall i :: 0 <= i < |path| ==> path[i] in themes
  {
    if n == 0 then ""
    else if FirstBase(themes, path, n - 1) != "" then FirstBase(themes, path, n - 1)
    else if themes[path[n - 1]].isBase then path[n - 1]
    else ""
  }

  /** The first of the n nearest ancestors that is a base theme, if any is. */
  lemma {:induction false} FirstBaseIsNearest(themes: Themes, path: seq<string>, n: nat)
    requires n <= |path| && forall i :: 0 <= i < |path| ==> path[i] in themes && path[i] != ""
    ensures if FirstBase(themes, path, n) == "" then forall i :: 0 <= i < n ==> !themes[path[i]].isBase
            else exists i :: 0 <= i < n && path[i] == FirstBase(themes, path, n) && themes[path[i]].isBase
                             && forall j :: 0 <= j < i ==> !themes[path[j]].isBase
  {
    if n > 0 {
      FirstBaseIsNearest(themes, path, n - 1);
    }
  }

  lemma {:induction false} FirstBasePrefix(themes: Themes, longer: seq<string>, path: seq<string>, n: nat)
    requires n <= |path| <= |longer| && longer[..|path|] == path
    requires forall i :: 0 <= i < |longer| ==> longer[i] in themes
    ensures forall i :: 0 <= i < |path| ==> path[i] in themes
    ensures FirstBase(themes, longer, n) == FirstBase(themes, path, n)
  {
    assert forall i :: 0 <= i < |path| ==> path[i] == longer[i];
    if n > 0 {
      FirstBasePrefix(themes, longer, path, n - 1);
    }
  }

  /** One step of the walk. */
  lemma {:induction false} PathGrows(themes: Themes, id: string, path: seq<string>)
    requires IsPath(themes, id, path) && NextOf(themes, id, path) != "" && NextOf(themes, id, path) in themes
    ensures
      var next := NextOf(themes, id, path);
      var longer := path + [next];
      && IsPath(themes, id, longer) && NextOf(themes, id, longer) == themes[next].extendsId
      && Reverse(longer) == [next] + Reverse(path)
      && FirstBase(themes, longer, |longer|) ==
         if FirstBase(themes, path, |path|) == "" && themes[next].isBase then next else FirstBase(themes, path, |path|)
  {
    var next := NextOf(themes, id, path);
    var longer := path + [next];
    PathExtends(themes, id, path);
    assert longer[..|path|] == path;
    FirstBasePrefix(themes, longer, path, |path|);
    ReversePush(path, next);
  }

  lemma {:induction false} PathExtends(themes: Themes, id: string, path: seq<string>)
    requires IsPath(themes, id, path) && NextOf(themes, id, path) != "" && NextOf(themes, id, path) in themes
    ensures IsPath(themes, id, path + [NextOf(themes, id, path)])
  {
    var longer := path + [NextOf(themes, id, path)];
    forall i | 0 <= i < |longer|
      ensures longer[i] in themes && longer[i] != ""
      ensures Before(id, longer, i) in themes && longer[i] == themes[Before(id, longer, i)].extendsId
    {
      assert Before(id, longer, i) == Before(id, path, i);
      if i < |path| {
        assert longer[i] == path[i];
      }
    }
  }

  lemma {:induction false} ReversePush(s: seq<string>, x: string)
    ensures Reverse(s + [x]) == [x] + Reverse(s)
  {
    assert (s + [x])[..|s|] == s;
  }

  // ---- The four ways a walk fails -------------------------------------------------------------

  lemma {:induction false} BrokenWalk(themes: Themes, id: string, path: seq<string>)
    requires IsPath(themes, id, path) && NextOf(themes, id, path) != "" && NextOf(themes, id, path) !in themes
    ensures !Survives(themes, id)
  {
    forall chain | IsChain(themes, id, chain) ensures false {
      PathFollowsChain(themes, id, path, chain);
      ChainInThemes(themes, id, chain);
    }
  }

  lemma {:induction false} NonBaseAncestor(themes: Themes, id: string, path: seq<string>)
    requires IsPath(themes, id, path) && NextOf(themes, id, path) != "" && NextOf(themes, id, path) in themes
    requires themes[id].isBase && !themes[NextOf(themes, id, path)].isBase
    ensures !Survives(themes, id)
  {
    forall chain | IsChain(themes, id, chain) ensures !Grounded(themes, id, chain) {
      PathFollowsChain(themes, id, path, chain);
    }
  }

  lemma {:induction false} RepeatingWalk(themes: Themes, id: string, path: seq<string>)
    requires IsPath(themes, id, path) && NextOf(themes, id, path) != ""
    requires NextOf(themes, id, path) == id || NextOf(themes, id, path) in path
    ensures !Survives(themes, id)
  {
    forall chain | IsChain(themes, id, chain) ensures false {
      PathFollowsChain(themes, id, path, chain);
      ChainAcyclic(themes, id, chain);
    }
  }

  lemma {:induction false} UngroundedWalk(themes: Themes, id: string, path: seq<string>)
    requires IsPath(themes, id, path) && NextOf(themes, id, path) == ""
    requires !themes[if path == [] then id else path[|path| - 1]].isBase
    ensures !Survives(themes, id)
  {
    forall chain | IsChain(themes, id, chain) ensures !Grounded(themes, id, chain) {
      PathFollowsChain(themes, id, path, chain);
    }
  }

  /** What loading makes of a theme that survives. */
  ghost predicate Resolved(themes: Themes, id: string, theme: Theme) {
    exists chain :: IsChain(themes, id, chain) && Grounded(themes, id, chain) && ResolvedAs(themes, id, theme, chain)
  }

  ghost predicate ResolvedAs(themes: Themes, id: string, theme: Theme, chain: seq<string>)
    requires IsChain(themes, id, chain)
  {
    ChainInThemes(themes, id, chain);
    theme == themes[id].(dependencies := Reverse(chain),
                         parent := if themes[id].isBase then "" else FirstBase(themes, chain, |chain|))
  }

  ghost predicate Loaded(themes: Themes) {
    forall k :: k in themes ==> themes[k].id == k && themes[k].parent == "" && themes[k].dependencies == []
  }

  /** A theme is kept exactly if it survives, and then it is resolved. */
  ghost predicate Settled(themes: Themes, id: string, theme: Theme, kept: bool) {
    kept == Survives(themes, id) && (kept ==> Resolved(themes, id, theme))
  }

  /** Only the two computed fields of a theme differ. */
  predicate SameMeta(a: Theme, b: Theme) {
    a.id == b.id && a.extendsId == b.extendsId && a.isBase == b.isBase
  }

  // ---- Invariant of the walk --------------------------------------------------------------------

  /** The walk has recorded these ancestors in the theme and goes to this one next. */
  ghost predicate Along(themes: Themes, id: string, path: seq<string>, parentId: string, theme: Theme) {
    && IsPath(themes, id, path)
    && parentId == NextOf(themes, id, path)
    && theme == themes[id].(dependencies := Reverse(path),
                            parent := if themes[id].isBase then "" else FirstBase(themes, path, |path|))
    && (themes[id].isBase ==> forall i :: 0 <= i < |path| ==> themes[path[i]].isBase)
  }

  lemma {:induction false} AlongStart(themes: Themes, id: string)
    requires Loaded(themes) && id in themes
    ensures Along(themes, id, [], themes[id].extendsId, themes[id])
  {}

  lemma {:induction false} AlongStep(themes: Themes, id: string, path: seq<string>, parentId: string, theme: Theme)
    requires Along(themes, id, path, parentId, theme)
    requires parentId != "" && parentId in themes && (theme.isBase ==> themes[parentId].isBase)
    ensures
      var first := if !theme.isBase && themes[parentId].isBase && theme.parent == "" then parentId else theme.parent;
      Along(themes, id, path + [parentId], themes[parentId].extendsId,
            theme.(parent := first, dependencies := [parentId] + theme.dependencies))
  {
    PathGrows(themes, id, path);
  }

  lemma {:induction false} AlongFails(themes: Themes, id: string, path: seq<string>, parentId: string, theme: Theme)
    requires Along(themes, id, path, parentId, theme) && parentId != ""
    requires parentId !in themes || (theme.isBase && !themes[parentId].isBase) || parentId == id
          || parentId in theme.dependencies
    ensures !Survives(themes, id)
  {
    if parentId !in themes {
      BrokenWalk(themes, id, path);
    } else if theme.isBase && !themes[parentId].isBase {
      NonBaseAncestor(themes, id, path);
    } else {
      SameMembers(path);
      RepeatingWalk(themes, id, path);
    }
  }

  lemma {:induction false} AlongEnds(themes: Themes, id: string, path: seq<string>, last: string, theme: Theme)
    requires Along(themes, id, path + [last], "", theme)
    ensures last in themes && Survives(themes, id) == themes[last].isBase
    ensures themes[last].isBase ==> Resolved(themes, id, theme)
  {
    var all := path + [last];
    CompletePathIsChain(themes, id, all);
    assert all[|all| - 1] == last;
    if themes[last].isBase {
      assert Grounded(themes, id, all) && ResolvedAs(themes, id, theme, all);
    } else {
      UngroundedWalk(themes, id, all);
    }
  }

  class ThemeStore {
    var themes: Themes

    constructor (themes: Themes)
      ensures this.themes == themes
    {
      this.themes := themes;
    }

    /** Resolves one theme by walking its chain of ancestors. */
    method Walk(id: string, ghost start: Themes) returns (valid: bool)
      requires Loaded(start) && id in start
      requires themes.Keys == start.Keys && themes[id] == start[id]
      requires forall k :: k in start ==> SameMeta(themes[k], start[k])
      modifies this
      ensures id in themes && themes == old(themes)[id := themes[id]] && SameMeta(themes[id], start[id])
      ensures Settled(start, id, themes[id], valid)
    {
      hide Along, Survives, Resolved;
      var theme := themes[id];
      if theme.extendsId == "" {
        Rootless(start, id);
        return theme.isBase;
      }
      var parentId := theme.extendsId;
      ghost var path: seq<string> := [];
      ghost var unseen := start.Keys;
      AlongStart(start, id);
      while parentId != ""
        invariant themes == old(themes) && SameMeta(theme, start[id])
        invariant Along(start, id, path, parentId, theme)
        invariant parentId == "" ==> Settled(start, id, theme, true)
        invariant forall k :: k in start ==> k in unseen || k in theme.dependencies
        decreases |unseen|
      {
        if parentId !in themes {
          AlongFails(start, id, path, parentId, theme);
          themes := themes[id := theme];
          return false;
        }
        var parent := themes[parentId];

        if theme.isBase && !parent.isBase {
          AlongFails(start, id, path, parentId, theme);
          themes := themes[id := theme];
          return false;
        }

        if parent.id == theme.id || parent.id in theme.dependencies {
          AlongFails(start, id, path, parentId, theme);
          themes := themes[id := theme];
          return false;
        }

        AlongStep(start, id, path, parentId, theme);
        if !theme.isBase && parent.isBase && theme.parent == "" {
          theme := theme.(parent := parent.id);
        }
        theme := theme.(dependencies := [parent.id] + theme.dependencies);
        unseen := unseen - {parentId};
        parentId := parent.extendsId;
        if parentId == "" {
          AlongEnds(start, id, path, parent.id, theme);
        }
        path := path + [parent.id];

        if parentId == "" && !parent.isBase {
          themes := themes[id := theme];
          return false;
        }
      }
      themes := themes[id := theme];
      return true;
    }

    /** Resolves every theme, in no particular order, and drops the broken ones. */
    method FindThemes()
      requires Loaded(themes)
      modifies this
      ensures forall id :: id in themes <==> Survives(old(themes), id)
      ensures forall id :: id in themes ==> Resolved(old(themes), id, themes[id])
    {
      hide Loaded, Survives, Resolved, Settled, Progress;
      ghost var start := themes;
      NoProgress(start);
      var invalid: set<string> := {};
      var todo := themes.Keys;
      while todo != {}
        invariant Progress(start, themes, todo, invalid)
        decreases |todo|
      {
        var id :| id in todo;
        ProgressFacts(start, themes, todo, invalid, id);
        ghost var before := themes;
        var valid := Walk(id, start);
        ProgressStep(start, before, todo, invalid, id, themes[id], valid);
        todo := todo - {id};
        if !valid {
          invalid := invalid + {id};
        }
      }
      KeptExactly(start, themes, invalid);
      themes := themes - invalid;
    }
  }

  /** The themes that are no longer to do have been settled, and the others are as they were. */
  ghost predicate Progress(start: Themes, themes: Themes, todo: set<string>, invalid: set<string>) {
    && themes.Keys == start.Keys && todo <= start.Keys && invalid <= start.Keys - todo
    && (forall k :: k in start ==> SameMeta(themes[k], start[k]))
    && (forall k :: k in todo ==> themes[k] == start[k])
    && (forall k :: k in start && k !in todo ==> Settled(start, k, themes[k], k !in invalid))
  }

  lemma {:induction false} NoProgress(start: Themes)
    ensures Progress(start, start, start.Keys, {})
  {}

  lemma {:induction false} ProgressFacts(start: Themes, themes: Themes, todo: set<string>, invalid: set<string>,
          id: string)
    requires Progress(start, themes, todo, invalid) && id in todo
    ensures themes.Keys == start.Keys && id in start && themes[id] == start[id]
    ensures forall k :: k in start ==> SameMeta(themes[k], start[k])
  {}

  lemma {:induction false} ProgressStep(start: Themes, themes: Themes, todo: set<string>, invalid: set<string>,
          id: string, theme: Theme, valid: bool)
    requires Progress(start, themes, todo, invalid) && id in todo && id in start
    requires SameMeta(theme, start[id]) && Settled(start, id, theme, valid)
    ensures Progress(start, themes[id := theme], todo - {id}, if valid then invalid else invalid + {id})
  {
    hide Settled;
  }

  lemma {:induction false} KeptExactly(start: Themes, themes: Themes, invalid: set<string>)
    requires Progress(start, themes, {}, invalid)
    ensures themes.Keys == start.Keys
    ensures forall id :: id in start && id !in invalid <==> Survives(start, id)
    ensures forall id :: id in start && id !in invalid ==> Resolved(start, id, themes[id])
  {
    hide Resolved;
    forall id | Survives(start, id) ensures id in start {
      SurvivorIsLoaded(start, id);
    }
  }

  /** A theme without a parent survives exactly when it is a base theme. */
  lemma {:induction false} Rootless(themes: Themes, id: string)
    requires Loaded(themes) && id in themes && themes[id].extendsId == ""
    ensures Settled(themes, id, themes[id], themes[id].isBase)
  {
    assert IsChain(themes, id, []);
    if themes[id].isBase {
      assert Grounded(themes, id, []) && ResolvedAs(themes, id, themes[id], []);
    } else {
      UngroundedWalk(themes, id, []);
    }
  }

  // ---- What survivors depend on ---------------------------------------------------------------

  /** No base theme of the chain has an ancestor that is not one. */
  ghost predicate BaseSuffix(themes: Themes, chain: seq<string>)
    requires forall i :: 0 <= i < |chain| ==> chain[i] in themes
  {
    forall i, j :: 0 <= i < j < |chain| && themes[chain[i]].isBase ==> themes[chain[j]].isBase
  }

  /**
   All dependencies of a survivor survive too, unless a base theme among them has an ancestor
   that is not a base theme.
   */
  lemma {:induction false} DependenciesSurvive(themes: Themes, id: string, theme: Theme)
    requires Resolved(themes, id, theme)
    ensures forall d :: d in theme.dependencies ==> d in themes && d != id
    ensures (forall d :: d in theme.dependencies ==> Survives(themes, d))
       <==> BaseSuffix(themes, Reverse(theme.dependencies))
  {
    var chain :| IsChain(themes, id, chain) && Grounded(themes, id, chain) && ResolvedAs(themes, id, theme, chain);
    hide Survives, IsChain;
    ChainInThemes(themes, id, chain);
    ChainAcyclic(themes, id, chain);
    SameMembers(chain);
    assert Reverse(Reverse(chain)) == chain;
    AncestorsSurvive(themes, id, chain);
  }

  lemma {:induction false} AncestorsSurvive(themes: Themes, id: string, chain: seq<string>)
    requires IsChain(themes, id, chain) && Grounded(themes, id, chain)
    requires forall i :: 0 <= i < |chain| ==> chain[i] in themes
    ensures (forall d :: d in chain ==> Survives(themes, d)) <==> BaseSuffix(themes, chain)
  {
    hide Survives, IsChain, Grounded;
    if forall d :: d in chain ==> Survives(themes, d) {
      forall i, j | 0 <= i < j < |chain| && themes[chain[i]].isBase ensures themes[chain[j]].isBase {
        assert Survives(themes, chain[i]);
        AncestorSurvives(themes, id, chain, i);
      }
    }
    if BaseSuffix(themes, chain) {
      forall d | d in chain ensures Survives(themes, d) {
        var i :| 0 <= i < |chain| && chain[i] == d;
        AncestorSurvives(themes, id, chain, i);
      }
    }
  }

  lemma {:induction false} SameMembers(s: seq<string>)
    ensures forall d :: d in s <==> d in Reverse(s)
  {
    forall d | d in s ensures d in Reverse(s) {
      var i :| 0 <= i < |s| && s[i] == d;
      assert Reverse(s)[|s| - 1 - i] == d;
    }
  }

  lemma {:induction false} AncestorSurvives(themes: Themes, id: string, chain: seq<string>, i: nat)
    requires IsChain(themes, id, chain) && Grounded(themes, id, chain) && i < |chain|
    ensures forall j :: 0 <= j < |chain| ==> chain[j] in themes
    ensures Survives(themes, chain[i]) <==>
      (themes[chain[i]].isBase ==> forall j :: i < j < |chain| ==> themes[chain[j]].isBase)
  {
    ChainInThemes(themes, id, chain);
    ChainSuffix(themes, id, chain, i);
    var rest := chain[i + 1..];
    assert forall j :: i < j < |chain| ==> chain[j] == rest[j - i - 1];
    if other :| IsChain(themes, chain[i], other) && Grounded(themes, chain[i], other) {
      ChainUnique(themes, chain[i], other, rest);
    }
    if themes[chain[i]].isBase ==> forall j :: i < j < |chain| ==> themes[chain[j]].isBase {
      assert Grounded(themes, chain[i], rest);
    }
  }

  /** A survivor that depends on a theme that is dropped. */
  lemma {:induction false} SurvivorWithDroppedDependency()
    returns (themes: Themes, theme: Theme)
    ensures Loaded(themes) && Survives(themes, "leaf") && Resolved(themes, "leaf", theme)
    ensures "base" in theme.dependencies && !Survives(themes, "base")
  {
    themes := map["leaf" := Theme("leaf", "base", false, "", []),
                      "base" := Theme("base", "middle", true, "", []),
                      "middle" := Theme("middle", "root", false, "", []),
                      "root" := Theme("root", "", true, "", [])];
    var chain := ["base", "middle", "root"];
    assert chain[1..] == ["middle", "root"] && chain[1..][1..] == ["root"] && chain[1..][1..][1..] == [];
    assert IsChain(themes, "root", []);
    assert IsChain(themes, "middle", ["root"]);
    assert IsChain(themes, "base", ["middle", "root"]);
    assert IsChain(themes, "leaf", chain);
    assert Grounded(themes, "leaf", chain);
    theme := themes["leaf"].(dependencies := Reverse(chain), parent := FirstBase(themes, chain, |chain|));
    assert ResolvedAs(themes, "leaf", theme, chain);
    assert Resolved(themes, "leaf", theme);
    assert theme.dependencies[2] == "base";
    NonBaseAncestor(themes, "base", []);
  }
}
