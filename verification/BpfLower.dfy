/** The seven mutating passes of the lowering compiler, proved against the declared precedence. */
module BpfLower {

  import opened Results
  import opened BpfPolicy

  // ---- what the entries say between passes --------------------------------------------------

  /** The action of an op once the given tools have been seen and the given allowlists switched on. */
  function Stage(env: Env, m: Mission, forbidden: seq<string>, allowed: seq<string>, files: bool, nets: bool, op: Op): Option<Action> {
    if ClassDenied(m, op) || Projects(env, forbidden, op) then Some(Deny)
    else if files && op in {FileRead, FileWrite} then Some(Allowlist)
    else if nets && op == NetConnect then Some(Allowlist)
    else if Projects(env, allowed, op) then Some(Allow)
    else None
  }

  ghost predicate Stands(env: Env, m: Mission, forbidden: seq<string>, allowed: seq<string>, files: bool, nets: bool, es: seq<Entry>) {
    WellFormed(es, m.mode) && forall op :: Lookup(es, op) == Stage(env, m, forbidden, allowed, files, nets, op)
  }

  lemma ProjectsMore(env: Env, tools: seq<string>, i: nat, op: Op)
    requires i < |tools|
    ensures Projects(env, tools[..i + 1], op) <==> Projects(env, tools[..i], op) || env.project(tools[i]) == Some(op)
  {
    assert forall k :: 0 <= k < i ==> tools[..i + 1][k] == tools[..i][k];
    assert tools[..i + 1][i] == tools[i];
    if Projects(env, tools[..i], op) {
      var k :| 0 <= k < i && env.project(tools[..i][k]) == Some(op);
      assert env.project(tools[..i + 1][k]) == Some(op);
    }
  }

  // ---- the passes ------------------------------------------------------------------------------

  lemma ClassTable()
    ensures |CLASSES| == 5 && CLASSES[0] == ("exec", Exec) && CLASSES[1] == ("read", FileRead) && CLASSES[2] == ("write", FileWrite)
    ensures CLASSES[3] == ("network", NetConnect) && CLASSES[4] == ("external_send", ExternalSend)
  {
  }

  function Place(op: Op): nat {
    match op case Exec => 0 case FileRead => 1 case FileWrite => 2 case NetConnect => 3 case ExternalSend => 4
  }

  lemma ClassAt(i: nat)
    requires i < |CLASSES|
    ensures CLASSES[i].0 == ClassOf(CLASSES[i].1) && Place(CLASSES[i].1) == i && |CLASSES| == 5
  {
    ClassTable();
  }

  /** 1. Classes that the mission does not list, if it lists any. */
  method PassClasses(env: Env, m: Mission) returns (es: seq<Entry>)
    ensures Stands(env, m, [], [], false, false, es)
  {
    hide Lookup, Upsert;
    es := [];
    LookupOfNone();
    if m.classes == [] { return; }
    var i := 0;
    while i < |CLASSES|
      invariant 0 <= i <= |CLASSES| && WellFormed(es, m.mode)
      invariant forall op :: Lookup(es, op) == if Place(op) < i && ClassDenied(m, op) then Some(Deny) else None
    {
      ClassAt(i);
      var op := CLASSES[i].1;
      if CLASSES[i].0 !in m.classes {
        if Lookup(es, op).None? {
          forall o { UpsertLookup(es, op, Deny, m.mode, o); }
          UpsertWellFormed(es, op, Deny, m.mode);
          es := Upsert(es, op, Deny, m.mode);
        }
      }
      forall o | Place(o) == i ensures o == op { }
      i := i + 1;
    }
    ClassTable();
  }

  lemma LookupOfNone()
    ensures forall op :: Lookup([], op) == None
  {
  }

  /** 2. Forbidden tools that name an op. */
  method PassForbidden(env: Env, m: Mission, start: seq<Entry>) returns (es: seq<Entry>, notes: seq<Tier2>)
    requires Stands(env, m, [], [], false, false, start)
    ensures Stands(env, m, m.forbidden, [], false, false, es) && notes == ForbiddenNotes(env, m.forbidden)
  {
    hide Lookup, Upsert, ClassDenied, WellFormed, Projects;
    es, notes := start, [];
    var i := 0;
    assert m.forbidden[..0] == [];
    while i < |m.forbidden|
      invariant 0 <= i <= |m.forbidden|
      invariant Stands(env, m, m.forbidden[..i], [], false, false, es) && notes == ForbiddenNotes(env, m.forbidden[..i])
    {
      var tool := m.forbidden[i];
      assert m.forbidden[..i + 1][..i] == m.forbidden[..i] && m.forbidden[..i + 1][i] == tool;
      forall o { ProjectsMore(env, m.forbidden, i, o); }
      var op := env.project(tool);
      if op.Some? {
        forall o { UpsertLookup(es, op.value, Deny, m.mode, o); }
        UpsertWellFormed(es, op.value, Deny, m.mode);
        es := Upsert(es, op.value, Deny, m.mode);
      } else {
        notes := notes + [ForbiddenTool(tool)];
      }
      i := i + 1;
    }
    assert m.forbidden[..|m.forbidden|] == m.forbidden;
  }

  /** 3. Allowed tools, unless their op is already denied. */
  method PassAllowed(env: Env, m: Mission, start: seq<Entry>) returns (es: seq<Entry>, notes: seq<Tier2>)
    requires Stands(env, m, m.forbidden, [], false, false, start)
    ensures Stands(env, m, m.forbidden, m.allowed, false, false, es) && notes == AllowedNotes(env, m, m.allowed)
  {
    hide Lookup, Upsert, ClassDenied, WellFormed, Projects;
    es, notes := start, [];
    var i := 0;
    assert m.allowed[..0] == [];
    while i < |m.allowed|
      invariant 0 <= i <= |m.allowed|
      invariant Stands(env, m, m.forbidden, m.allowed[..i], false, false, es) && notes == AllowedNotes(env, m, m.allowed[..i])
    {
      var tool := m.allowed[i];
      assert m.allowed[..i + 1][..i] == m.allowed[..i] && m.allowed[..i + 1][i] == tool;
      forall o { ProjectsMore(env, m.allowed, i, o); }
      var op := env.project(tool);
      if op.Some? {
        if Lookup(es, op.value) == Some(Deny) {
          notes := notes + [OverriddenAllow(tool)];
        } else {
          forall o { UpsertLookup(es, op.value, Allow, m.mode, o); }
          UpsertWellFormed(es, op.value, Allow, m.mode);
          es := Upsert(es, op.value, Allow, m.mode);
        }
      } else {
        notes := notes + [AllowedTool(tool)];
      }
      i := i + 1;
    }
    assert m.allowed[..|m.allowed|] == m.allowed;
  }

  /** An op becomes allowlisted unless it is denied. */
  method ListOp(es: seq<Entry>, op: Op, mode: Mode) returns (r: seq<Entry>)
    requires WellFormed(es, mode)
    ensures WellFormed(r, mode)
    ensures forall o :: Lookup(r, o) == if o == op && Lookup(es, op) != Some(Deny) then Some(Allowlist) else Lookup(es, o)
  {
    hide Lookup, Upsert, WellFormed;
    r := es;
    if Lookup(es, op) != Some(Deny) {
      forall o { UpsertLookup(es, op, Allowlist, mode, o); }
      UpsertWellFormed(es, op, Allowlist, mode);
      r := Upsert(es, op, Allowlist, mode);
    }
  }

  method ListFiles(env: Env, m: Mission, es: seq<Entry>, ghost files: bool) returns (r: seq<Entry>)
    requires Stands(env, m, m.forbidden, m.allowed, files, false, es)
    ensures Stands(env, m, m.forbidden, m.allowed, true, false, r)
  {
    hide Lookup, ClassDenied, WellFormed, Projects;
    r := ListOp(es, FileRead, m.mode);
    r := ListOp(r, FileWrite, m.mode);
  }

  method ListNets(env: Env, m: Mission, es: seq<Entry>, ghost files: bool) returns (r: seq<Entry>)
    requires Stands(env, m, m.forbidden, m.allowed, files, false, es)
    ensures Stands(env, m, m.forbidden, m.allowed, files, true, r)
  {
    hide Lookup, ClassDenied, WellFormed, Projects;
    r := ListOp(es, NetConnect, m.mode);
  }

  /** 4. Scope paths; false where strict mode raises. */
  method PassScope(m: Mission) returns (ok: bool, paths: seq<string>, notes: seq<Tier2>)
    ensures ok <==> m.mode == Enforce ==> forall i :: 0 <= i < |m.scope| ==> !DeepPath(m.scope[i])
    ensures ok ==> paths == ScopePaths(m.scope) && notes == ScopeNotes(m.scope)
  {
    hide Normalized, TooDeep, ScopePaths, ScopeNotes;
    ok, paths, notes := true, [], [];
    ScopeOfNone(m.scope[..0]);
    var i := 0;
    while i < |m.scope|
      invariant 0 <= i <= |m.scope|
      invariant paths == ScopePaths(m.scope[..i]) && notes == ScopeNotes(m.scope[..i])
      invariant m.mode == Enforce ==> forall k :: 0 <= k < i ==> !DeepPath(m.scope[k])
    {
      ScopeMore(m.scope, i);
      var normalized := Normalized(m.scope[i]);
      if normalized.Some? {
        if TooDeep(normalized.value) {
          if m.mode == Enforce {
            assert DeepPath(m.scope[i]);
            return false, paths, notes;
          }
          notes := notes + [PathTooDeep(normalized.value)];
        } else {
          paths := paths + [normalized.value];
        }
      }
      i := i + 1;
    }
    assert m.scope[..|m.scope|] == m.scope;
  }

  lemma ScopeOfNone(scope: seq<string>)
    requires scope == []
    ensures ScopePaths(scope) == [] && ScopeNotes(scope) == []
  {
  }

  lemma ScopeMore(scope: seq<string>, i: nat)
    requires i < |scope|
    ensures ScopePaths(scope[..i + 1]) == ScopePaths(scope[..i]) + ScopePath(scope[i])
    ensures ScopeNotes(scope[..i + 1]) == ScopeNotes(scope[..i]) + DeepNote(scope[i])
  {
    hide ScopePath, DeepNote;
    assert scope[..i + 1][..i] == scope[..i] && scope[..i + 1][i] == scope[i];
  }

  /** The domains of one URL policy. */
  method PassDomains(env: Env, domains: seq<string>, start: seq<string>) returns (nets: seq<string>, notes: seq<Tier2>)
    ensures nets == AddAllNew(start, Nets(env, domains)) && notes == HostNotes(env, domains)
  {
    nets, notes := start, [];
    var i := 0;
    while i < |domains|
      invariant 0 <= i <= |domains|
      invariant nets == AddAllNew(start, Nets(env, domains[..i])) && notes == HostNotes(env, domains[..i])
    {
      var domain := domains[i];
      assert domains[..i + 1][..i] == domains[..i] && domains[..i + 1][i] == domain;
      assert Nets(env, domains[..i]) + [] == Nets(env, domains[..i]);
      if env.isNet(domain) {
        AddLast(start, Nets(env, domains[..i]), domain);
        if domain !in nets { nets := nets + [domain]; }
      } else {
        notes := notes + [Hostname(domain)];
      }
      i := i + 1;
    }
    assert domains[..|domains|] == domains;
  }

  lemma AddLast(start: seq<string>, xs: seq<string>, x: string)
    ensures AddAllNew(start, xs + [x]) == AddNew(AddAllNew(start, xs), x)
  {
    assert (xs + [x])[..|xs|] == xs;
  }

  /** One typed policy; false where loading it, or strict mode, raises. */
  method PassPolicy(env: Env, m: Mission, raw: RawPolicy, es: seq<Entry>, paths: seq<string>, nets: seq<string>, ghost files: bool)
    returns (ok: bool, r: seq<Entry>, morePaths: seq<string>, moreNets: seq<string>, notes: seq<Tier2>)
    requires Stands(env, m, m.forbidden, m.allowed, files, false, es)
    ensures ok <==> LoadPolicy(raw).Some? && (m.mode == Enforce ==> !DeepPolicy(raw))
    ensures ok ==> Stands(env, m, m.forbidden, m.allowed, files || IsSubpathPolicy(raw), false, r) && notes == PolicyNote(env, raw)
    ensures ok ==> morePaths == AddPaths(paths, raw) && moreNets == AddNets(env, nets, raw)
  {
    hide Normalized, TooDeep, Stands, LoadPolicy, Nets, HostNotes;
    r, morePaths, moreNets, notes := es, paths, nets, [];
    var policy := LoadPolicy(raw);
    if policy.None? { return false, r, morePaths, moreNets, notes; }
    match policy.value {
      case Subpath(root) =>
        var normalized := Normalized(root);
        if normalized.Some? {
          if TooDeep(normalized.value) {
            if m.mode == Enforce { return false, r, morePaths, moreNets, notes; }
            notes := [PathTooDeep(normalized.value)];
          } else {
            AddLast(paths, [], normalized.value);
            if normalized.value !in paths { morePaths := paths + [normalized.value]; }
          }
        }
        r := ListFiles(env, m, es, files);
      case Urls(domains) =>
        moreNets, notes := PassDomains(env, domains, nets);
    }
    ok := true;
  }

  /** 5. Typed resource policies. */
  method PassPolicies(env: Env, m: Mission, start: seq<Entry>, scopePaths: seq<string>)
    returns (ok: bool, es: seq<Entry>, paths: seq<string>, nets: seq<string>, notes: seq<Tier2>)
    requires Stands(env, m, m.forbidden, m.allowed, scopePaths != [], false, start)
    ensures ok <==> && (forall i :: 0 <= i < |m.policies| ==> LoadPolicy(m.policies[i]).Some?)
                    && (m.mode == Enforce ==> forall i :: 0 <= i < |m.policies| ==> !DeepPolicy(m.policies[i]))
    ensures ok ==> Stands(env, m, m.forbidden, m.allowed, scopePaths != [] || AnySubpath(m.policies), false, es)
    ensures ok ==> paths == PolicyPaths(scopePaths, m.policies) && nets == PolicyNets(env, m.policies) && notes == PolicyNotes(env, m.policies)
  {
    hide Stands, LoadPolicy, DeepPolicy, IsSubpathPolicy, PolicyNote, AddPaths, AddNets;
    es, paths, nets, notes := start, scopePaths, [], [];
    ghost var files := scopePaths != [];
    var i := 0;
    while i < |m.policies|
      invariant 0 <= i <= |m.policies|
      invariant files <==> scopePaths != [] || exists k :: 0 <= k < i && IsSubpathPolicy(m.policies[k])
      invariant Stands(env, m, m.forbidden, m.allowed, files, false, es)
      invariant paths == PolicyPaths(scopePaths, m.policies[..i]) && nets == PolicyNets(env, m.policies[..i])
      invariant notes == PolicyNotes(env, m.policies[..i])
      invariant forall k :: 0 <= k < i ==> LoadPolicy(m.policies[k]).Some?
      invariant m.mode == Enforce ==> forall k :: 0 <= k < i ==> !DeepPolicy(m.policies[k])
    {
      var raw := m.policies[i];
      assert m.policies[..i + 1][..i] == m.policies[..i] && m.policies[..i + 1][i] == raw;
      var more;
      ok, es, paths, nets, more := PassPolicy(env, m, raw, es, paths, nets, files);
      if !ok { return; }
      notes := notes + more;
      files := files || IsSubpathPolicy(raw);
      i := i + 1;
    }
    assert m.policies[..|m.policies|] == m.policies;
    ok := true;
  }

  /** 6. Net prefixes that the caller has resolved. */
  method PassPrefixes(env: Env, prefixes: seq<string>, start: seq<string>) returns (nets: seq<string>, notes: seq<Tier2>)
    ensures nets == AddAllNew(start, Nets(env, prefixes)) && notes == PrefixNotes(env, prefixes)
  {
    nets, notes := start, [];
    var i := 0;
    while i < |prefixes|
      invariant 0 <= i <= |prefixes|
      invariant nets == AddAllNew(start, Nets(env, prefixes[..i])) && notes == PrefixNotes(env, prefixes[..i])
    {
      var prefix := prefixes[i];
      assert prefixes[..i + 1][..i] == prefixes[..i] && prefixes[..i + 1][i] == prefix;
      assert Nets(env, prefixes[..i]) + [] == Nets(env, prefixes[..i]);
      if env.isNet(prefix) {
        AddLast(start, Nets(env, prefixes[..i]), prefix);
        if prefix !in nets { nets := nets + [prefix]; }
      } else {
        notes := notes + [InvalidPrefix(prefix)];
      }
      i := i + 1;
    }
    assert prefixes[..|prefixes|] == prefixes;
  }

  // ---- the whole compiler --------------------------------------------------------------------

  /** A plan says what the mission declares: one entry per op, by precedence, and exactly the declared lists. */
  ghost predicate Represents(env: Env, m: Mission, p: Plan) {
    && WellFormed(p.entries, m.mode) && (forall op :: Lookup(p.entries, op) == DeclaredAction(env, m, op))
    && p.paths == DeclaredPaths(m) && p.nets == DeclaredNets(env, m) && p.tier2 == DeclaredTier2(env, m) && p.mode == m.mode
  }

  /** `lower_to_bpf_policy_plan`; None where it raises. */
  method LowerToPlan(env: Env, m: Mission) returns (r: Option<Plan>)
    ensures r.Some? <==> Lowerable(m)
    ensures r.Some? ==> Represents(env, m, r.value)
  {
    hide WellFormed, Lookup, ClassDenied, Projects, DeepPath, DeepPolicy, LoadPolicy, KnownClass, AnySubpath;
    hide ScopePaths, PolicyPaths, PolicyNets, Nets, AddAllNew;
    hide ForbiddenNotes, AllowedNotes, ScopeNotes, PolicyNotes, PrefixNotes;
    if exists i :: 0 <= i < |m.classes| && !KnownClass(m.classes[i]) { return None; }
    var es := PassClasses(env, m);
    var tier2, more;
    es, tier2 := PassForbidden(env, m, es);
    es, more := PassAllowed(env, m, es);
    tier2 := tier2 + more;
    var ok, paths;
    ok, paths, more := PassScope(m);
    if !ok { return None; }
    tier2 := tier2 + more;
    if paths != [] { es := ListFiles(env, m, es, false); }
    var nets;
    ok, es, paths, nets, more := PassPolicies(env, m, es, paths);
    if !ok { return None; }
    tier2 := tier2 + more;
    nets, more := PassPrefixes(env, m.prefixes, nets);
    tier2 := tier2 + more;
    if nets != [] { es := ListNets(env, m, es, FilesListed(m)); }
    if Semantics(m) {
      if m.mode == Enforce { return None; }
      tier2 := tier2 + SemanticNotes(m);
    }
    return Some(Plan(es, paths, nets, tier2, m.mode));
  }

  // ---- restriction ---------------------------------------------------------------------------

  /** The kernel's reading of a plan: no entry, no rule; an allowlist admits the targets it covers. */
  predicate Permits(p: Plan, covers: (string, string) -> bool, op: Op, target: string) {
    match Lookup(p.entries, op)
    case None => true
    case Some(Allow) => true
    case Some(Deny) => false
    case Some(Allowlist) =>
      if op == NetConnect then exists i :: 0 <= i < |p.nets| && covers(p.nets[i], target)
      else exists i :: 0 <= i < |p.paths| && covers(p.paths[i], target)
  }

  /** Two missions that differ in what they deny, and nothing else, the second denying no less. */
  ghost predicate DeniesMore(env: Env, m: Mission, n: Mission) {
    && n == m.(classes := n.classes, forbidden := n.forbidden)
    && forall op :: Denied(env, m, op) ==> Denied(env, n, op)
  }

  lemma RestrictionIsMonotone(env: Env, m: Mission, n: Mission, p: Plan, q: Plan, covers: (string, string) -> bool, op: Op, target: string)
    requires DeniesMore(env, m, n) && Represents(env, m, p) && Represents(env, n, q) && Permits(q, covers, op, target)
    ensures Permits(p, covers, op, target)
  {
    hide Denied, Projects, ScopePaths, AnySubpath, PolicyPaths, PolicyNets, Nets, AddAllNew, DeclaredTier2, Lookup, WellFormed;
    assert Lookup(p.entries, op) == DeclaredAction(env, m, op);
    assert Lookup(q.entries, op) == DeclaredAction(env, n, op);
    assert DeclaredNets(env, m) == DeclaredNets(env, n) && DeclaredPaths(m) == DeclaredPaths(n) && FilesListed(m) == FilesListed(n);
  }

  /** Forbidding one more tool lowers just as well, and permits nothing that was not permitted. */
  lemma ForbiddingIsMonotone(env: Env, m: Mission, tool: string, p: Plan, q: Plan, covers: (string, string) -> bool, op: Op, target: string)
    requires var n := m.(forbidden := m.forbidden + [tool]); Represents(env, m, p) && Represents(env, n, q)
    requires Permits(q, covers, op, target)
    ensures Permits(p, covers, op, target)
    ensures Lowerable(m) <==> Lowerable(m.(forbidden := m.forbidden + [tool]))
  {
    var n := m.(forbidden := m.forbidden + [tool]);
    forall o ensures Denied(env, m, o) ==> Denied(env, n, o) {
      if Projects(env, m.forbidden, o) {
        var k :| 0 <= k < |m.forbidden| && env.project(m.forbidden[k]) == Some(o);
        assert n.forbidden[k] == m.forbidden[k];
      }
    }
    assert StrictlyLowerable(m) <==> StrictlyLowerable(n);
    hide Represents, Permits, Denied, StrictlyLowerable;
    RestrictionIsMonotone(env, m, n, p, q, covers, op, target);
  }

  /** Dropping classes from the list permits nothing new, as long as the list does not become empty. */
  lemma DroppingClassesIsMonotone(env: Env, m: Mission, classes: seq<string>, p: Plan, q: Plan, covers: (string, string) -> bool, op: Op, target: string)
    requires classes != [] && (forall c :: c in classes ==> c in m.classes)
    requires Represents(env, m, p) && Represents(env, m.(classes := classes), q) && Permits(q, covers, op, target)
    ensures Permits(p, covers, op, target)
  {
    hide Represents, Permits, Projects;
    RestrictionIsMonotone(env, m, m.(classes := classes), p, q, covers, op, target);
  }

  /** Whether an allowlist takes over for an op, and whether it then covers the target. */
  predicate ListCovers(env: Env, m: Mission, covers: (string, string) -> bool, op: Op, target: string) {
    && (op in {FileRead, FileWrite} && FilesListed(m) ==> exists i :: 0 <= i < |DeclaredPaths(m)| && covers(DeclaredPaths(m)[i], target))
    && (op == NetConnect && DeclaredNets(env, m) != [] ==>
          exists i :: 0 <= i < |DeclaredNets(env, m)| && covers(DeclaredNets(env, m)[i], target))
  }

  /**
   Dropping every class lifts the restriction: it newly permits exactly the ops that only the class
   list denied, to the targets that an allowlist, if one takes over, covers.
   */
  lemma DroppingEveryClassLifts(env: Env, m: Mission, p: Plan, q: Plan, covers: (string, string) -> bool, op: Op, target: string)
    requires Represents(env, m, p) && Represents(env, m.(classes := []), q)
    ensures (Permits(q, covers, op, target) && !Permits(p, covers, op, target)) <==>
              ClassDenied(m, op) && !Projects(env, m.forbidden, op) && ListCovers(env, m, covers, op, target)
  {
    hide Projects, ScopePaths, AnySubpath, PolicyPaths, PolicyNets, Nets, AddAllNew, DeclaredTier2, Lookup, WellFormed;
    var n := m.(classes := []);
    assert Lookup(p.entries, op) == DeclaredAction(env, m, op);
    assert Lookup(q.entries, op) == DeclaredAction(env, n, op);
    assert DeclaredNets(env, m) == DeclaredNets(env, n) && DeclaredPaths(m) == DeclaredPaths(n) && FilesListed(m) == FilesListed(n);
  }
}
