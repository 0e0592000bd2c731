/** What the path allowlist of a plan holds, read from the characters of the mission's entries. */
module BpfPaths {

  import opened Results
  import opened Text
  import opened Paths
  import opened BpfPolicy
  import opened BpfLower

  predicate SlashesOnly(s: string) {
    forall i :: 0 <= i < |s| ==> s[i] == '/'
  }

  /** An absolute path that ends in a slash only if it is the root. */
  predicate Absolute(p: string) {
    p != "" && p[0] == '/' && (p[|p| - 1] == '/' ==> p == "/")
  }

  /** At most 32 segments after the leading slashes. */
  ghost predicate Shallow(p: string) {
    p == "/" || exists k :: LeadEnds(p, k) && multiset(p[k..])['/'] < 32
  }

  predicate LeadEnds(p: string, k: int) {
    0 < k < |p| && SlashesOnly(p[..k]) && p[k] != '/'
  }

  /** What a path in the plan looks like. */
  ghost predicate Enforceable(p: string) {
    Absolute(p) && !Upward(p) && Shallow(p)
  }

  /** The entry is the path between blanks, with slashes after it. */
  ghost predicate Spells(entry: string, p: string) {
    exists i, j :: SpelledAt(entry, p, i, j)
  }

  predicate SpelledAt(entry: string, p: string, i: int, j: int) {
    && 0 <= i && i + |p| <= j <= |entry|
    && AllBlank(entry[..i]) && entry[i..i + |p|] == p && SlashesOnly(entry[i + |p|..j]) && AllBlank(entry[j..])
    && (j > 0 ==> !IsBlank(entry[j - 1]))
  }

  // ---- normalizing ---------------------------------------------------------------------------

  lemma {:induction false} StripLeftOf(a: string, m: string)
    requires AllBlank(a) && m != "" && !IsBlank(m[0])
    ensures StripLeft(a + m) == m
  {
    if a == "" {
      assert a + m == m;
    } else {
      assert (a + m)[1..] == a[1..] + m;
      StripLeftOf(a[1..], m);
    }
  }

  lemma {:induction false} StripRightOf(m: string, b: string)
    requires AllBlank(b) && m != "" && !IsBlank(m[|m| - 1])
    ensures StripRight(m + b) == m
  {
    if b == "" {
      assert m + b == m;
    } else {
      assert (m + b)[..|m + b| - 1] == m + b[..|b| - 1];
      StripRightOf(m, b[..|b| - 1]);
    }
  }

  lemma StripsTo(a: string, m: string, b: string)
    requires AllBlank(a) && AllBlank(b) && m != "" && !IsBlank(m[0]) && !IsBlank(m[|m| - 1])
    ensures Strip(a + m + b) == m
  {
    assert a + m + b == a + (m + b);
    StripLeftOf(a, m + b);
    StripRightOf(m, b);
  }

  lemma {:induction false} TrimRightOf(p: string, t: string)
    requires SlashesOnly(t)
    ensures TrimRight(p + t) == TrimRight(p)
  {
    if t == "" {
      assert p + t == p;
    } else {
      assert (p + t)[..|p + t| - 1] == p + t[..|t| - 1];
      TrimRightOf(p, t[..|t| - 1]);
    }
  }

  lemma {:induction false} TrimRightParts(s: string)
    ensures TrimRight(s) == "" || TrimRight(s)[|TrimRight(s)| - 1] != '/'
    ensures SlashesOnly(s[|TrimRight(s)|..])
  {
    if s != "" && s[|s| - 1] == '/' {
      TrimRightParts(s[..|s| - 1]);
      var n := |TrimRight(s)|;
      assert s[n..] == s[..|s| - 1][n..] + ['/'];
    }
  }

  /** Slashes at the end neither add nor remove an upward segment. */
  lemma UpwardTrail(p: string, t: string)
    requires SlashesOnly(t)
    ensures Upward(p + t) <==> Upward(p)
  {
    var s := p + t;
    if Upward(p) {
      var i :| SegmentAt(p, i, "..");
      assert s[i..i + 2] == p[i..i + 2];
      assert SegmentAt(s, i, "..");
    }
    if Upward(s) {
      var i :| SegmentAt(s, i, "..");
      assert s[i] == s[i..i + 2][0] == '.' && s[i + 1] == s[i..i + 2][1] == '.';
      assert i + 1 < |p|;
      assert s[i..i + 2] == p[i..i + 2];
      assert SegmentAt(p, i, "..");
    }
  }

  lemma BlankIsNotSlash(c: char)
    ensures c == '/' ==> !IsBlank(c)
  {
  }

  lemma RootOrTrimmed(s: string, p: string)
    requires s != "" && s[0] == '/' && p == OrRoot(TrimRight(s))
    ensures Absolute(p) && p <= s && SlashesOnly(s[|p|..])
  {
    hide TrimRight;
    TrimRightParts(s);
    if TrimRight(s) == "" { assert p == s[..1] && s[0..] == s; }
  }

  /** Where the stripped text lies. */
  lemma StripLies(entry: string) returns (i: nat, j: nat)
    ensures i <= j <= |entry| && entry[i..j] == Strip(entry) && AllBlank(entry[..i]) && AllBlank(entry[j..])
    ensures Strip(entry) != "" ==> j > 0 && !IsBlank(entry[j - 1])
  {
    hide IsBlank, StripLeft, StripRight;
    var l := StripLeft(entry);
    i, j := |entry| - |l|, |entry| - |l| + |Strip(entry)|;
    assert entry[i..] == l && entry[j..] == l[|Strip(entry)|..];
  }

  lemma NormalizedSpells(entry: string, p: string)
    requires Normalized(entry) == Some(p)
    ensures Absolute(p) && !Upward(p) && Spells(entry, p)
  {
    hide Split, Upward, Strip, TrimRight, AllBlank, IsBlank, SlashesOnly, Absolute;
    var s := Strip(entry);
    var i, j := StripLies(entry);
    RootOrTrimmed(s, p);
    UpwardSplit(s);
    assert s == p + s[|p|..];
    UpwardTrail(p, s[|p|..]);
    assert entry[i..i + |p|] == s[..|p|] && entry[i + |p|..j] == s[|p|..];
    assert SpelledAt(entry, p, i, j);
  }

  lemma SpelledNormalizes(entry: string, p: string)
    requires Absolute(p) && !Upward(p) && Spells(entry, p)
    ensures Normalized(entry) == Some(p)
  {
    hide Split, Upward, Strip;
    var i, j :| SpelledAt(entry, p, i, j);
    var n := i + |p|;
    var t := entry[n..j];
    var m := p + t;
    assert entry == entry[..i] + m + entry[j..];
    BlankIsNotSlash(m[0]);
    assert m[|m| - 1] == entry[j - 1];
    StripsTo(entry[..i], m, entry[j..]);
    TrimRightOf(p, t);
    UpwardTrail(p, t);
    UpwardSplit(m);
    TrimRightAbsolute(p);
  }

  lemma TrimRightAbsolute(p: string)
    requires Absolute(p)
    ensures OrRoot(TrimRight(p)) == p
  {
    if p == "/" { assert p[..0] == ""; }
  }

  /** A prefix is normalized to the path that its characters spell, if that is absolute and does not go upward. */
  lemma NormalizedIff(entry: string, p: string)
    ensures Normalized(entry) == Some(p) <==> Absolute(p) && !Upward(p) && Spells(entry, p)
  {
    hide Normalized, Upward, Spells, Absolute;
    if Normalized(entry) == Some(p) { NormalizedSpells(entry, p); }
    if Absolute(p) && !Upward(p) && Spells(entry, p) { SpelledNormalizes(entry, p); }
  }

  // ---- depth -----------------------------------------------------------------------------------

  lemma {:induction false} TrimLeftOf(p: string, k: nat)
    requires k < |p| && SlashesOnly(p[..k]) && p[k] != '/'
    ensures TrimLeft(p) == p[k..]
  {
    if k > 0 {
      assert p[0] == p[..k][0] && p[1..][..k - 1] == p[..k][1..] && p[1..][k - 1..] == p[k..];
      TrimLeftOf(p[1..], k - 1);
    }
  }

  lemma {:induction false} LeadExists(p: string) returns (k: nat)
    requires p != "" && p[|p| - 1] != '/'
    ensures k < |p| && SlashesOnly(p[..k]) && p[k] != '/'
  {
    if p[0] != '/' {
      k := 0;
    } else {
      var n := LeadExists(p[1..]);
      k := n + 1;
      assert p[..k] == [p[0]] + p[1..][..n];
    }
  }

  lemma DepthAt(p: string, k: int)
    requires Absolute(p) && LeadEnds(p, k)
    ensures Depth(p) == 1 + multiset(p[k..])['/']
  {
    hide Split;
    TrimLeftOf(p, k);
    var rest := p[k..];
    assert rest[|rest| - 1] == p[|p| - 1] && p != "/";
    assert TrimRight(rest) == rest;
    SplitCount(rest);
  }

  /** The depth test is the count of slashes. */
  lemma ShallowIff(p: string)
    requires Absolute(p)
    ensures Shallow(p) <==> !TooDeep(p)
  {
    hide Depth;
    if p == "/" {
      RootDepth();
    } else {
      var k := LeadExists(p);
      assert k > 0;
      assert LeadEnds(p, k);
      DepthAt(p, k);
      if Shallow(p) {
        var n :| LeadEnds(p, n) && multiset(p[n..])['/'] < 32;
        DepthAt(p, n);
      }
    }
  }

  lemma RootDepth()
    ensures Depth("/") == 0
  {
    assert "/"[1..] == "";
  }

  // ---- the plan's paths -----------------------------------------------------------------------

  lemma ScopePathIff(entry: string, p: string)
    ensures p in ScopePath(entry) <==> Enforceable(p) && Spells(entry, p)
  {
    hide Normalized, TooDeep, Spells, Shallow, Absolute, Upward;
    NormalizedIff(entry, p);
    if Absolute(p) { ShallowIff(p); }
  }

  lemma {:induction false} ScopePathsMembers(scope: seq<string>, p: string)
    ensures p in ScopePaths(scope) <==> exists i :: 0 <= i < |scope| && p in ScopePath(scope[i])
  {
    hide ScopePath;
    if scope != [] {
      var init := scope[..|scope| - 1];
      ScopePathsMembers(init, p);
      assert scope == init + [scope[|scope| - 1]];
      if p in ScopePaths(init) {
        var i :| 0 <= i < |init| && p in ScopePath(init[i]);
        assert p in ScopePath(scope[i]);
      }
      if exists i :: 0 <= i < |scope| && p in ScopePath(scope[i]) {
        var i :| 0 <= i < |scope| && p in ScopePath(scope[i]);
        if i < |init| { assert p in ScopePath(init[i]); }
      }
    }
  }

  /** The root of a subpath policy, without the slashes at its end, spells the path. */
  ghost predicate RootSpells(raw: RawPolicy, p: string) {
    raw.RawSubpath? && raw.root.Some? && raw.root.value != "" && raw.root.value[0] == '/' && !Upward(raw.root.value)
    && exists n :: RootSpellsAt(raw.root.value, p, n)
  }

  ghost predicate RootSpellsAt(root: string, p: string, n: int) {
    && 0 <= n <= |root| && SlashesOnly(root[n..]) && (n > 0 ==> root[n - 1] != '/')
    && Spells(if n == 0 then "/" else root[..n], p)
  }

  /** What a policy adds to the path list. */
  function PolicyPath(raw: RawPolicy): seq<string> {
    match LoadPolicy(raw)
    case Some(Subpath(root)) => ScopePath(root)
    case _ => []
  }

  lemma TrimRightAt(root: string, n: int)
    requires 0 <= n <= |root| && SlashesOnly(root[n..]) && (n > 0 ==> root[n - 1] != '/')
    ensures TrimRight(root) == root[..n]
  {
    assert root == root[..n] + root[n..];
    TrimRightOf(root[..n], root[n..]);
  }

  lemma PolicyPathIff(raw: RawPolicy, p: string)
    ensures p in PolicyPath(raw) <==> Enforceable(p) && RootSpells(raw, p)
  {
    hide Split, Spells, Enforceable, Upward, ScopePath;
    if raw.RawSubpath? && raw.root.Some? {
      var root := raw.root.value;
      UpwardSplit(root);
      TrimRightParts(root);
      var t := TrimRight(root);
      var base := OrRoot(t);
      ScopePathIff(base, p);
      if Spells(base, p) { assert t == root[..|t|] && RootSpellsAt(root, p, |t|); }
      if exists n :: RootSpellsAt(root, p, n) {
        var n :| RootSpellsAt(root, p, n);
        TrimRightAt(root, n);
      }
    }
  }

  lemma {:induction false} AddAllNewMembers(xs: seq<string>, ys: seq<string>, p: string)
    ensures p in AddAllNew(xs, ys) <==> p in xs || p in ys
  {
    if ys != [] {
      AddAllNewMembers(xs, ys[..|ys| - 1], p);
      assert ys == ys[..|ys| - 1] + [ys[|ys| - 1]];
    }
  }

  lemma {:induction false} PolicyPathsMembers(start: seq<string>, policies: seq<RawPolicy>, p: string)
    ensures p in PolicyPaths(start, policies) <==> p in start || exists i :: 0 <= i < |policies| && p in PolicyPath(policies[i])
  {
    hide PolicyPath, AddPaths;
    if policies != [] {
      var init, last := policies[..|policies| - 1], policies[|policies| - 1];
      PolicyPathsMembers(start, init, p);
      assert policies == init + [last];
      AddPathsMembers(PolicyPaths(start, init), last, p);
      if exists i :: 0 <= i < |init| && p in PolicyPath(init[i]) {
        var i :| 0 <= i < |init| && p in PolicyPath(init[i]);
        assert p in PolicyPath(policies[i]);
      }
      if exists i :: 0 <= i < |policies| && p in PolicyPath(policies[i]) {
        var i :| 0 <= i < |policies| && p in PolicyPath(policies[i]);
        if i < |init| { assert p in PolicyPath(init[i]); }
      }
    }
  }

  lemma AddPathsMembers(paths: seq<string>, raw: RawPolicy, p: string)
    ensures p in AddPaths(paths, raw) <==> p in paths || p in PolicyPath(raw)
  {
    hide LoadPolicy, ScopePath, AddAllNew;
    match LoadPolicy(raw)
    case Some(Subpath(root)) => AddAllNewMembers(paths, ScopePath(root), p);
    case _ =>
  }

  /**
   The path list of a plan: a path is in it exactly if it is absolute without a slash at its end,
   has no `..` segment and no more than 32 segments, and either a scope entry or the root of a subpath
   policy spells it.
   */
  lemma PlanPathsIff(env: Env, m: Mission, plan: Plan, p: string)
    requires Represents(env, m, plan)
    ensures p in plan.paths <==>
              && Enforceable(p)
              && ((exists i :: 0 <= i < |m.scope| && Spells(m.scope[i], p))
                  || exists i :: 0 <= i < |m.policies| && RootSpells(m.policies[i], p))
  {
    hide ScopePaths, PolicyPaths, ScopePath, PolicyPath, Enforceable, Spells, RootSpells, Lookup, WellFormed, DeclaredTier2, DeclaredAction;
    PolicyPathsMembers(ScopePaths(m.scope), m.policies, p);
    ScopePathsMembers(m.scope, p);
    forall i | 0 <= i < |m.scope| ensures p in ScopePath(m.scope[i]) <==> Enforceable(p) && Spells(m.scope[i], p) {
      ScopePathIff(m.scope[i], p);
    }
    forall i | 0 <= i < |m.policies| ensures p in PolicyPath(m.policies[i]) <==> Enforceable(p) && RootSpells(m.policies[i], p) {
      PolicyPathIff(m.policies[i], p);
    }
  }

  // ---- when lowering returns, and when file ops are listed --------------------------------------

  /** A subpath policy with an absolute root that does not go upward, or a URL policy with non-empty domains. */
  ghost predicate Loads(raw: RawPolicy) {
    || (raw.RawSubpath? && raw.root.Some? && raw.root.value != "" && raw.root.value[0] == '/' && !Upward(raw.root.value))
    || (raw.RawUrls? && raw.domains.Some? && raw.domains.value != []
        && forall i :: 0 <= i < |raw.domains.value| ==> raw.domains.value[i] != "")
  }

  lemma LoadsIff(raw: RawPolicy)
    ensures LoadPolicy(raw).Some? <==> Loads(raw)
    ensures IsSubpathPolicy(raw) <==> Loads(raw) && raw.RawSubpath?
  {
    hide Split, Upward, TrimRight;
    if raw.RawSubpath? && raw.root.Some? { UpwardSplit(raw.root.value); }
  }

  /** A path that would be listed if it had no more than 32 segments. */
  ghost predicate Deep(p: string) {
    Absolute(p) && !Upward(p) && !Shallow(p)
  }

  lemma DeepPathIff(entry: string)
    ensures DeepPath(entry) <==> exists p :: Deep(p) && Spells(entry, p)
  {
    hide Normalized, TooDeep, Spells, Shallow, Absolute, Upward;
    if Normalized(entry).Some? {
      var q := Normalized(entry).value;
      NormalizedIff(entry, q);
      ShallowIff(q);
    }
    if exists p :: Deep(p) && Spells(entry, p) {
      var p :| Deep(p) && Spells(entry, p);
      NormalizedIff(entry, p);
      ShallowIff(p);
    }
  }

  lemma DeepPolicyIff(raw: RawPolicy)
    ensures DeepPolicy(raw) <==> exists p :: Deep(p) && RootSpells(raw, p)
  {
    hide Split, Spells, Deep, Upward, DeepPath;
    if raw.RawSubpath? && raw.root.Some? {
      var root := raw.root.value;
      UpwardSplit(root);
      TrimRightParts(root);
      var t := TrimRight(root);
      DeepPathIff(OrRoot(t));
      if root != "" && root[0] == '/' && !Upward(root) && DeepPath(OrRoot(t)) {
        var p :| Deep(p) && Spells(OrRoot(t), p);
        assert t == root[..|t|] && RootSpellsAt(root, p, |t|);
        assert RootSpells(raw, p);
      }
      if exists p :: Deep(p) && RootSpells(raw, p) {
        var p :| Deep(p) && RootSpells(raw, p);
        var n :| RootSpellsAt(root, p, n);
        TrimRightAt(root, n);
        assert Spells(OrRoot(t), p);
      }
    }
  }

  /**
   Lowering returns exactly if every class is one of the five, every policy loads and, in strict mode,
   no entry or root spells a path of more than 32 segments and no semantic policy is declared.
   */
  lemma LowerableIff(m: Mission)
    ensures Lowerable(m) <==>
              && (forall i :: 0 <= i < |m.classes| ==> m.classes[i] in {"exec", "read", "write", "network", "external_send"})
              && (forall i :: 0 <= i < |m.policies| ==> Loads(m.policies[i]))
              && (m.mode == Enforce ==>
                    && (forall i, p :: 0 <= i < |m.scope| && Deep(p) ==> !Spells(m.scope[i], p))
                    && (forall i, p :: 0 <= i < |m.policies| && Deep(p) ==> !RootSpells(m.policies[i], p))
                    && !m.effects && !m.flows && !m.budgets)
  {
    hide LoadPolicy, DeepPath, DeepPolicy, Deep, Spells, RootSpells, Loads, KnownClass;
    forall i | 0 <= i < |m.classes|
      ensures KnownClass(m.classes[i]) <==> m.classes[i] in {"exec", "read", "write", "network", "external_send"}
    {
      FiveClasses(m.classes[i]);
    }
    forall i | 0 <= i < |m.policies|
      ensures LoadPolicy(m.policies[i]).Some? <==> Loads(m.policies[i])
      ensures DeepPolicy(m.policies[i]) <==> exists p :: Deep(p) && RootSpells(m.policies[i], p)
    {
      LoadsIff(m.policies[i]);
      DeepPolicyIff(m.policies[i]);
    }
    forall i | 0 <= i < |m.scope| ensures DeepPath(m.scope[i]) <==> exists p :: Deep(p) && Spells(m.scope[i], p) { DeepPathIff(m.scope[i]); }
  }

  lemma FiveClasses(cls: string)
    ensures KnownClass(cls) <==> cls in {"exec", "read", "write", "network", "external_send"}
  {
  }

  /** File ops are listed exactly if a scope entry spells a path that can be enforced, or a subpath policy loads. */
  lemma FilesListedIff(m: Mission)
    ensures FilesListed(m) <==>
              || (exists i, p :: 0 <= i < |m.scope| && Enforceable(p) && Spells(m.scope[i], p))
              || (exists i :: 0 <= i < |m.policies| && Loads(m.policies[i]) && m.policies[i].RawSubpath?)
  {
    hide ScopePaths, ScopePath, Enforceable, Spells, Loads, IsSubpathPolicy;
    forall i | 0 <= i < |m.policies| ensures IsSubpathPolicy(m.policies[i]) <==> Loads(m.policies[i]) && m.policies[i].RawSubpath? {
      LoadsIff(m.policies[i]);
    }
    if ScopePaths(m.scope) != [] {
      var p := ScopePaths(m.scope)[0];
      ScopePathsMembers(m.scope, p);
      var i :| 0 <= i < |m.scope| && p in ScopePath(m.scope[i]);
      ScopePathIff(m.scope[i], p);
    }
    if exists i, p :: 0 <= i < |m.scope| && Enforceable(p) && Spells(m.scope[i], p) {
      var i, p :| 0 <= i < |m.scope| && Enforceable(p) && Spells(m.scope[i], p);
      ScopePathIff(m.scope[i], p);
      ScopePathsMembers(m.scope, p);
    }
  }

  // ---- the plan's nets ------------------------------------------------------------------------

  lemma {:induction false} NetsMembers(env: Env, xs: seq<string>, n: string)
    ensures n in Nets(env, xs) <==> n in xs && env.isNet(n)
  {
    if xs != [] {
      NetsMembers(env, xs[..|xs| - 1], n);
      assert xs == xs[..|xs| - 1] + [xs[|xs| - 1]];
    }
  }

  /** A URL policy with a list of non-empty domains that has this one. */
  predicate NamesDomain(raw: RawPolicy, n: string) {
    && raw.RawUrls? && raw.domains.Some? && n in raw.domains.value
    && forall i :: 0 <= i < |raw.domains.value| ==> raw.domains.value[i] != ""
  }

  lemma AddNetsMembers(env: Env, nets: seq<string>, raw: RawPolicy, n: string)
    ensures n in AddNets(env, nets, raw) <==> n in nets || (env.isNet(n) && NamesDomain(raw, n))
  {
    hide AddAllNew, Nets;
    if raw.RawUrls? && raw.domains.Some? {
      AddAllNewMembers(nets, Nets(env, raw.domains.value), n);
      NetsMembers(env, raw.domains.value, n);
    }
  }

  lemma {:induction false} PolicyNetsMembers(env: Env, policies: seq<RawPolicy>, n: string)
    ensures n in PolicyNets(env, policies) <==> env.isNet(n) && exists i :: 0 <= i < |policies| && NamesDomain(policies[i], n)
  {
    hide NamesDomain, AddNets;
    if policies != [] {
      var init, last := policies[..|policies| - 1], policies[|policies| - 1];
      PolicyNetsMembers(env, init, n);
      assert policies == init + [last];
      AddNetsMembers(env, PolicyNets(env, init), last, n);
      if exists i :: 0 <= i < |init| && NamesDomain(init[i], n) {
        var i :| 0 <= i < |init| && NamesDomain(init[i], n);
        assert NamesDomain(policies[i], n);
      }
      if exists i :: 0 <= i < |policies| && NamesDomain(policies[i], n) {
        var i :| 0 <= i < |policies| && NamesDomain(policies[i], n);
        if i < |init| { assert NamesDomain(init[i], n); }
      }
    }
  }

  /** The net list of a plan: the declared prefixes and the domains of URL policies that are addresses or CIDR prefixes. */
  lemma PlanNetsIff(env: Env, m: Mission, plan: Plan, n: string)
    requires Represents(env, m, plan)
    ensures n in plan.nets <==>
              env.isNet(n) && (n in m.prefixes || exists i :: 0 <= i < |m.policies| && NamesDomain(m.policies[i], n))
  {
    hide PolicyNets, Nets, AddAllNew, NamesDomain, Lookup, WellFormed, DeclaredTier2, DeclaredAction, DeclaredPaths;
    AddAllNewMembers(PolicyNets(env, m.policies), Nets(env, m.prefixes), n);
    PolicyNetsMembers(env, m.policies, n);
    NetsMembers(env, m.prefixes, n);
  }
}
