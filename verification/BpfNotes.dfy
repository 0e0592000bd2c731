/** What a plan says of each op, and that nothing a mission declares is lost between its kernel part and its tier-2 list. */
module BpfNotes {

  import opened Results
  import opened Text
  import opened Paths
  import opened BpfPolicy
  import opened BpfLower
  import opened BpfPaths

  // ---- actions ----------------------------------------------------------------------------------

  /** The mission lists the class of the op, or no class at all. */
  predicate ClassListed(m: Mission, op: Op) {
    m.classes == [] ||
    match op
    case Exec => "exec" in m.classes
    case FileRead => "read" in m.classes
    case FileWrite => "write" in m.classes
    case NetConnect => "network" in m.classes
    case ExternalSend => "external_send" in m.classes
  }

  predicate Names(env: Env, tools: seq<string>, op: Op) {
    exists i :: 0 <= i < |tools| && env.project(tools[i]) == Some(op)
  }

  /** Files and connections are listed where something is declared for them. */
  ghost predicate Listed(env: Env, m: Mission, op: Op) {
    match op
    case NetConnect => exists n :: env.isNet(n) && (n in m.prefixes || exists i :: 0 <= i < |m.policies| && NamesDomain(m.policies[i], n))
    case FileRead => SomeFiles(m)
    case FileWrite => SomeFiles(m)
    case _ => false
  }

  ghost predicate SomeFiles(m: Mission) {
    || (exists i, p :: 0 <= i < |m.scope| && Enforceable(p) && Spells(m.scope[i], p))
    || (exists i :: 0 <= i < |m.policies| && Loads(m.policies[i]) && m.policies[i].RawSubpath?)
  }

  lemma NetsListed(env: Env, m: Mission, plan: Plan)
    requires Represents(env, m, plan)
    ensures DeclaredNets(env, m) != [] <==> Listed(env, m, NetConnect)
  {
    hide NamesDomain, Lookup, WellFormed, DeclaredTier2, DeclaredAction, DeclaredPaths, DeclaredNets;
    forall n ensures n in plan.nets <==>
              env.isNet(n) && (n in m.prefixes || exists i :: 0 <= i < |m.policies| && NamesDomain(m.policies[i], n)) {
      PlanNetsIff(env, m, plan, n);
    }
    if plan.nets != [] { assert plan.nets[0] in plan.nets; }
  }

  /**
   The action of an op in a plan: denied if its class is not listed or a forbidden tool names it, else
   listed where the mission declares something for it, else allowed if an allowed tool names it, else none.
   */
  lemma PlanActionIff(env: Env, m: Mission, plan: Plan, op: Op)
    requires Represents(env, m, plan)
    ensures Lookup(plan.entries, op) ==
              if !ClassListed(m, op) || Names(env, m.forbidden, op) then Some(Deny)
              else if Listed(env, m, op) then Some(Allowlist)
              else if Names(env, m.allowed, op) then Some(Allow)
              else None
  {
    hide Lookup, WellFormed, DeclaredTier2, DeclaredPaths, DeclaredNets, Enforceable, Spells, Loads, ScopePaths, AnySubpath;
    NetsListed(env, m, plan);
    FilesListedIff(m);
    assert Lookup(plan.entries, op) == DeclaredAction(env, m, op);
  }

  // ---- the tier-2 list -----------------------------------------------------------------------------

  lemma {:induction false} ForbiddenNoted(env: Env, tools: seq<string>, n: Tier2)
    ensures n in ForbiddenNotes(env, tools) <==> n.ForbiddenTool? && n.tool in tools && env.project(n.tool).None?
  {
    if tools != [] {
      ForbiddenNoted(env, tools[..|tools| - 1], n);
      assert tools == tools[..|tools| - 1] + [tools[|tools| - 1]];
    }
  }

  lemma {:induction false} AllowedNoted(env: Env, m: Mission, tools: seq<string>, n: Tier2)
    ensures n in AllowedNotes(env, m, tools) <==>
              || (n.AllowedTool? && n.tool in tools && env.project(n.tool).None?)
              || (n.OverriddenAllow? && n.tool in tools && env.project(n.tool).Some? && Denied(env, m, env.project(n.tool).value))
  {
    hide Denied;
    if tools != [] {
      AllowedNoted(env, m, tools[..|tools| - 1], n);
      assert tools == tools[..|tools| - 1] + [tools[|tools| - 1]];
    }
  }

  lemma {:induction false} PrefixesNoted(env: Env, prefixes: seq<string>, n: Tier2)
    ensures n in PrefixNotes(env, prefixes) <==> n.InvalidPrefix? && n.prefix in prefixes && !env.isNet(n.prefix)
  {
    if prefixes != [] {
      PrefixesNoted(env, prefixes[..|prefixes| - 1], n);
      assert prefixes == prefixes[..|prefixes| - 1] + [prefixes[|prefixes| - 1]];
    }
  }

  lemma {:induction false} HostsNoted(env: Env, domains: seq<string>, n: Tier2)
    ensures n in HostNotes(env, domains) <==> n.Hostname? && n.domain in domains && !env.isNet(n.domain)
  {
    if domains != [] {
      HostsNoted(env, domains[..|domains| - 1], n);
      assert domains == domains[..|domains| - 1] + [domains[|domains| - 1]];
    }
  }

  lemma DeepNoted(entry: string, n: Tier2)
    ensures n in DeepNote(entry) <==> n.PathTooDeep? && Deep(n.path) && Spells(entry, n.path)
  {
    hide Normalized, TooDeep, Spells, Shallow, Absolute, Upward;
    if Normalized(entry).Some? {
      NormalizedIff(entry, Normalized(entry).value);
      ShallowIff(Normalized(entry).value);
    }
    if n.PathTooDeep? {
      NormalizedIff(entry, n.path);
      if Absolute(n.path) { ShallowIff(n.path); }
    }
  }

  lemma {:induction false} ScopeNoted(scope: seq<string>, n: Tier2)
    ensures n in ScopeNotes(scope) <==> n.PathTooDeep? && Deep(n.path) && exists i :: 0 <= i < |scope| && Spells(scope[i], n.path)
  {
    hide DeepNote, Deep, Spells;
    if scope != [] {
      var init, last := scope[..|scope| - 1], scope[|scope| - 1];
      ScopeNoted(init, n);
      DeepNoted(last, n);
      assert scope == init + [last];
      if n.PathTooDeep? { SpellsMore(init, last, n.path); }
    }
  }

  lemma SpellsMore(init: seq<string>, last: string, p: string)
    ensures (exists i :: 0 <= i < |init + [last]| && Spells((init + [last])[i], p)) <==>
              (exists i :: 0 <= i < |init| && Spells(init[i], p)) || Spells(last, p)
  {
    hide Spells;
    var all := init + [last];
    assert all[|init|] == last && forall i :: 0 <= i < |init| ==> all[i] == init[i];
    if exists i :: 0 <= i < |init| && Spells(init[i], p) {
      var i :| 0 <= i < |init| && Spells(init[i], p);
      assert Spells(all[i], p);
    }
  }

  /** What a policy leaves to tier 2. */
  ghost predicate PolicyLeaves(env: Env, raw: RawPolicy, n: Tier2) {
    || (n.PathTooDeep? && Deep(n.path) && RootSpells(raw, n.path))
    || (n.Hostname? && NamesDomain(raw, n.domain) && !env.isNet(n.domain))
  }

  lemma PolicyNoted(env: Env, raw: RawPolicy, n: Tier2)
    ensures n in PolicyNote(env, raw) <==> PolicyLeaves(env, raw, n)
  {
    hide DeepNote, HostNotes, Deep, Spells, Split, Upward;
    match raw
    case RawSubpath(Some(root)) =>
      UpwardSplit(root);
      DeepNoted(OrRoot(TrimRight(root)), n);
      if n.PathTooDeep? { RootSpellsIff(root, n.path); }
    case RawUrls(Some(domains)) => HostsNoted(env, domains, n);
    case _ =>
  }

  lemma RootSpellsIff(root: string, p: string)
    ensures (exists k :: RootSpellsAt(root, p, k)) <==> Spells(OrRoot(TrimRight(root)), p)
  {
    hide Spells;
    TrimRightParts(root);
    var t := TrimRight(root);
    if Spells(OrRoot(t), p) { assert t == root[..|t|] && RootSpellsAt(root, p, |t|); }
    if exists k :: RootSpellsAt(root, p, k) {
      var k :| RootSpellsAt(root, p, k);
      TrimRightAt(root, k);
    }
  }

  lemma {:induction false} PoliciesNoted(env: Env, policies: seq<RawPolicy>, n: Tier2)
    ensures n in PolicyNotes(env, policies) <==> exists i :: 0 <= i < |policies| && PolicyLeaves(env, policies[i], n)
  {
    hide PolicyNote, PolicyLeaves;
    if policies != [] {
      var init, last := policies[..|policies| - 1], policies[|policies| - 1];
      PoliciesNoted(env, init, n);
      PolicyNoted(env, last, n);
      assert policies == init + [last];
      if exists i :: 0 <= i < |init| && PolicyLeaves(env, init[i], n) {
        var i :| 0 <= i < |init| && PolicyLeaves(env, init[i], n);
        assert PolicyLeaves(env, policies[i], n);
      }
      if exists i :: 0 <= i < |policies| && PolicyLeaves(env, policies[i], n) {
        var i :| 0 <= i < |policies| && PolicyLeaves(env, policies[i], n);
        if i < |init| { assert PolicyLeaves(env, init[i], n); }
      }
    }
  }

  /** What of a mission the kernel does not enforce. */
  ghost predicate LeftToTier2(env: Env, m: Mission, plan: Plan, n: Tier2) {
    match n
    case ForbiddenTool(tool) => tool in m.forbidden && env.project(tool).None?
    case AllowedTool(tool) => tool in m.allowed && env.project(tool).None?
    case OverriddenAllow(tool) => tool in m.allowed && env.project(tool).Some? && Lookup(plan.entries, env.project(tool).value) == Some(Deny)
    case PathTooDeep(p) =>
      Deep(p) && ((exists i :: 0 <= i < |m.scope| && Spells(m.scope[i], p)) || exists i :: 0 <= i < |m.policies| && RootSpells(m.policies[i], p))
    case Hostname(domain) => !env.isNet(domain) && exists i :: 0 <= i < |m.policies| && NamesDomain(m.policies[i], domain)
    case InvalidPrefix(prefix) => prefix in m.prefixes && !env.isNet(prefix)
    case Semantic(d) => (d == "effect_policies" && m.effects) || (d == "flow_policies" && m.flows) || (d == "lineage_budgets" && m.budgets)
  }

  lemma SemanticsNoted(m: Mission, n: Tier2)
    ensures n in SemanticNotes(m) <==>
              n.Semantic? && ((n.dimension == "effect_policies" && m.effects) || (n.dimension == "flow_policies" && m.flows)
                              || (n.dimension == "lineage_budgets" && m.budgets))
  {
  }

  lemma LeavesSplit(env: Env, policies: seq<RawPolicy>, n: Tier2)
    ensures (exists i :: 0 <= i < |policies| && PolicyLeaves(env, policies[i], n)) <==>
              || (n.PathTooDeep? && Deep(n.path) && exists i :: 0 <= i < |policies| && RootSpells(policies[i], n.path))
              || (n.Hostname? && !env.isNet(n.domain) && exists i :: 0 <= i < |policies| && NamesDomain(policies[i], n.domain))
  {
    hide Deep, RootSpells, NamesDomain;
    if n.PathTooDeep? && Deep(n.path) && exists i :: 0 <= i < |policies| && RootSpells(policies[i], n.path) {
      var i :| 0 <= i < |policies| && RootSpells(policies[i], n.path);
      assert PolicyLeaves(env, policies[i], n);
    }
    if n.Hostname? && !env.isNet(n.domain) && exists i :: 0 <= i < |policies| && NamesDomain(policies[i], n.domain) {
      var i :| 0 <= i < |policies| && NamesDomain(policies[i], n.domain);
      assert PolicyLeaves(env, policies[i], n);
    }
  }

  /** The tier-2 list of a plan is exactly what the mission declares and the kernel does not enforce. */
  lemma PlanTier2Iff(env: Env, m: Mission, plan: Plan, n: Tier2)
    requires Represents(env, m, plan)
    ensures n in plan.tier2 <==> LeftToTier2(env, m, plan, n)
  {
    hide Lookup, WellFormed, DeclaredPaths, DeclaredNets, Deep, Spells, RootSpells, NamesDomain, PolicyLeaves, Denied, ScopePaths, AnySubpath;
    hide ForbiddenNotes, AllowedNotes, ScopeNotes, PolicyNotes, PrefixNotes, SemanticNotes;
    ForbiddenNoted(env, m.forbidden, n);
    AllowedNoted(env, m, m.allowed, n);
    ScopeNoted(m.scope, n);
    PoliciesNoted(env, m.policies, n);
    LeavesSplit(env, m.policies, n);
    PrefixesNoted(env, m.prefixes, n);
    SemanticsNoted(m, n);
    if n.OverriddenAllow? && env.project(n.tool).Some? {
      assert Lookup(plan.entries, env.project(n.tool).value) == DeclaredAction(env, m, env.project(n.tool).value);
    }
  }

  /** So no path of a mission is lost: whatever an entry or root spells, absolute and not upward, is listed or left to tier 2. */
  lemma NoPathIsLost(env: Env, m: Mission, plan: Plan, p: string)
    requires Represents(env, m, plan) && Absolute(p) && !Upward(p)
    requires (exists i :: 0 <= i < |m.scope| && Spells(m.scope[i], p)) || exists i :: 0 <= i < |m.policies| && RootSpells(m.policies[i], p)
    ensures p in plan.paths <==> PathTooDeep(p) !in plan.tier2
  {
    hide Represents, Spells, RootSpells, Shallow, Upward, Absolute;
    PlanPathsIff(env, m, plan, p);
    PlanTier2Iff(env, m, plan, PathTooDeep(p));
  }
}
