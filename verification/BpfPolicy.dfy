/** What lowering a mission to a kernel policy plan means: one precedence per op, and lists in source order. */
module BpfPolicy {

  import opened Results
  import opened Text
  import opened Paths

  datatype Op = Exec | FileRead | FileWrite | NetConnect | ExternalSend

  datatype Action = Allow | Deny | Allowlist

  datatype Mode = Permissive | Enforce

  datatype Entry = Entry(op: Op, action: Action, mode: Mode)

  /** Policy dimensions that are left to the proxy. */
  datatype Tier2 =
    | ForbiddenTool(tool: string)
    | AllowedTool(tool: string)
    | OverriddenAllow(tool: string)
    | PathTooDeep(path: string)
    | Hostname(domain: string)
    | InvalidPrefix(prefix: string)
    | Semantic(dimension: string)

  /** A `resource_policies` entry: each field is None if it has the wrong type. */
  datatype RawPolicy = RawSubpath(root: Option<string>) | RawUrls(domains: Option<seq<string>>) | RawUnknown

  datatype Policy = Subpath(root: string) | Urls(domains: seq<string>)

  datatype Mission = Mission(
    classes: seq<string>,
    forbidden: seq<string>,
    allowed: seq<string>,
    scope: seq<string>,
    policies: seq<RawPolicy>,
    effects: bool,
    flows: bool,
    budgets: bool,
    prefixes: seq<string>,
    mode: Mode)

  datatype Plan = Plan(entries: seq<Entry>, paths: seq<string>, nets: seq<string>, tier2: seq<Tier2>, mode: Mode)

  /** The projection of tool names to ops, and the recognizer of IP addresses and CIDR prefixes. */
  datatype Env = Env(project: string -> Option<Op>, isNet: string -> bool)

  /** `SEC_TO_OPS`, in its own order. */
  const CLASSES: seq<(string, Op)> :=
    [("exec", Exec), ("read", FileRead), ("write", FileWrite), ("network", NetConnect), ("external_send", ExternalSend)]

  function ClassOf(op: Op): string {
    match op
    case Exec => "exec"
    case FileRead => "read"
    case FileWrite => "write"
    case NetConnect => "network"
    case ExternalSend => "external_send"
  }

  predicate KnownClass(cls: string) {
    cls in ["exec", "read", "write", "network", "external_send"]
  }

  // ---- paths -----------------------------------------------------------------------------

  function TrimRight(s: string): (r: string)
    ensures r <= s
  {
    if s != "" && s[|s| - 1] == '/' then TrimRight(s[..|s| - 1]) else s
  }

  function TrimLeft(s: string): string {
    if s != "" && s[0] == '/' then TrimLeft(s[1..]) else s
  }

  function OrRoot(s: string): string {
    if s == "" then "/" else s
  }

  /** `_normalize_path_prefix`. */
  function Normalized(path: string): Option<string> {
    var s := Strip(path);
    if s == "" || s[0] != '/' || ".." in Split(s) then None else Some(OrRoot(TrimRight(s)))
  }

  const MAX_DEPTH := 32

  /** `_path_ancestor_depth`. */
  function Depth(path: string): nat {
    var trimmed := TrimRight(TrimLeft(path));
    if trimmed == "" then 0 else |Split(trimmed)|
  }

  predicate TooDeep(path: string) {
    Depth(path) > MAX_DEPTH
  }

  /** `load_resource_policy`; None where it raises. */
  function LoadPolicy(raw: RawPolicy): Option<Policy> {
    match raw
    case RawSubpath(Some(root)) =>
      if root == "" || root[0] != '/' || ".." in Split(root) then None else Some(Subpath(OrRoot(TrimRight(root))))
    case RawUrls(Some(domains)) =>
      if domains == [] || exists i :: 0 <= i < |domains| && domains[i] == "" then None else Some(Urls(domains))
    case _ => None
  }

  // ---- when lowering returns --------------------------------------------------------------

  predicate DeepPath(path: string) {
    Normalized(path).Some? && TooDeep(Normalized(path).value)
  }

  predicate DeepPolicy(raw: RawPolicy) {
    match LoadPolicy(raw)
    case Some(Subpath(root)) => DeepPath(root)
    case _ => false
  }

  predicate Semantics(m: Mission) {
    m.effects || m.flows || m.budgets
  }

  /** Strict mode refuses what the kernel cannot enforce of paths and of semantic policies, and nothing else. */
  predicate StrictlyLowerable(m: Mission) {
    && (forall i :: 0 <= i < |m.scope| ==> !DeepPath(m.scope[i]))
    && (forall i :: 0 <= i < |m.policies| ==> !DeepPolicy(m.policies[i]))
    && !Semantics(m)
  }

  predicate Lowerable(m: Mission) {
    && (forall i :: 0 <= i < |m.classes| ==> KnownClass(m.classes[i]))
    && (forall i :: 0 <= i < |m.policies| ==> LoadPolicy(m.policies[i]).Some?)
    && (m.mode == Enforce ==> StrictlyLowerable(m))
  }

  // ---- the precedence ----------------------------------------------------------------------

  predicate ClassDenied(m: Mission, op: Op) {
    m.classes != [] && ClassOf(op) !in m.classes
  }

  predicate Projects(env: Env, tools: seq<string>, op: Op) {
    exists i :: 0 <= i < |tools| && env.project(tools[i]) == Some(op)
  }

  predicate Denied(env: Env, m: Mission, op: Op) {
    ClassDenied(m, op) || Projects(env, m.forbidden, op)
  }

  /** Some declared root can be enforced, or a subpath policy is declared at all. */
  predicate FilesListed(m: Mission) {
    ScopePaths(m.scope) != [] || AnySubpath(m.policies)
  }

  predicate IsSubpathPolicy(raw: RawPolicy) {
    LoadPolicy(raw).Some? && LoadPolicy(raw).value.Subpath?
  }

  predicate AnySubpath(policies: seq<RawPolicy>) {
    exists i :: 0 <= i < |policies| && IsSubpathPolicy(policies[i])
  }

  function DeclaredAction(env: Env, m: Mission, op: Op): Option<Action> {
    if Denied(env, m, op) then Some(Deny)
    else if op in {FileRead, FileWrite} && FilesListed(m) then Some(Allowlist)
    else if op == NetConnect && DeclaredNets(env, m) != [] then Some(Allowlist)
    else if Projects(env, m.allowed, op) then Some(Allow)
    else None
  }

  // ---- the lists ---------------------------------------------------------------------------

  function ScopePath(path: string): seq<string> {
    if Normalized(path).Some? && !TooDeep(Normalized(path).value) then [Normalized(path).value] else []
  }

  function DeepNote(path: string): seq<Tier2> {
    if DeepPath(path) then [PathTooDeep(Normalized(path).value)] else []
  }

  function ScopePaths(scope: seq<string>): seq<string> {
    if scope == [] then [] else ScopePaths(scope[..|scope| - 1]) + ScopePath(scope[|scope| - 1])
  }

  function ScopeNotes(scope: seq<string>): seq<Tier2> {
    if scope == [] then [] else ScopeNotes(scope[..|scope| - 1]) + DeepNote(scope[|scope| - 1])
  }

  function AddNew(xs: seq<string>, x: string): seq<string> {
    if x in xs then xs else xs + [x]
  }

  function AddAllNew(xs: seq<string>, ys: seq<string>): seq<string> {
    if ys == [] then xs else AddNew(AddAllNew(xs, ys[..|ys| - 1]), ys[|ys| - 1])
  }

  /** The paths with the root of a subpath policy. */
  function AddPaths(paths: seq<string>, raw: RawPolicy): seq<string> {
    match LoadPolicy(raw)
    case Some(Subpath(root)) => AddAllNew(paths, ScopePath(root))
    case _ => paths
  }

  function PolicyPaths(start: seq<string>, policies: seq<RawPolicy>): seq<string> {
    if policies == [] then start else AddPaths(PolicyPaths(start, policies[..|policies| - 1]), policies[|policies| - 1])
  }

  function Nets(env: Env, xs: seq<string>): seq<string> {
    if xs == [] then []
    else Nets(env, xs[..|xs| - 1]) + if env.isNet(xs[|xs| - 1]) then [xs[|xs| - 1]] else []
  }

  /** The nets with the addresses of a URL policy. */
  function AddNets(env: Env, nets: seq<string>, raw: RawPolicy): seq<string> {
    match LoadPolicy(raw)
    case Some(Urls(domains)) => AddAllNew(nets, Nets(env, domains))
    case _ => nets
  }

  function PolicyNets(env: Env, policies: seq<RawPolicy>): seq<string> {
    if policies == [] then [] else AddNets(env, PolicyNets(env, policies[..|policies| - 1]), policies[|policies| - 1])
  }

  function DeclaredPaths(m: Mission): seq<string> {
    PolicyPaths(ScopePaths(m.scope), m.policies)
  }

  function DeclaredNets(env: Env, m: Mission): seq<string> {
    AddAllNew(PolicyNets(env, m.policies), Nets(env, m.prefixes))
  }

  function ForbiddenNotes(env: Env, tools: seq<string>): seq<Tier2> {
    if tools == [] then []
    else ForbiddenNotes(env, tools[..|tools| - 1])
         + if env.project(tools[|tools| - 1]).None? then [ForbiddenTool(tools[|tools| - 1])] else []
  }

  function AllowedNote(env: Env, m: Mission, tool: string): seq<Tier2> {
    match env.project(tool)
    case None => [AllowedTool(tool)]
    case Some(op) => if Denied(env, m, op) then [OverriddenAllow(tool)] else []
  }

  function AllowedNotes(env: Env, m: Mission, tools: seq<string>): seq<Tier2> {
    if tools == [] then [] else AllowedNotes(env, m, tools[..|tools| - 1]) + AllowedNote(env, m, tools[|tools| - 1])
  }

  function HostNotes(env: Env, domains: seq<string>): seq<Tier2> {
    if domains == [] then []
    else HostNotes(env, domains[..|domains| - 1])
         + if env.isNet(domains[|domains| - 1]) then [] else [Hostname(domains[|domains| - 1])]
  }

  function PolicyNote(env: Env, raw: RawPolicy): seq<Tier2> {
    match LoadPolicy(raw)
    case Some(Subpath(root)) => DeepNote(root)
    case Some(Urls(domains)) => HostNotes(env, domains)
    case None => []
  }

  function PolicyNotes(env: Env, policies: seq<RawPolicy>): seq<Tier2> {
    if policies == [] then [] else PolicyNotes(env, policies[..|policies| - 1]) + PolicyNote(env, policies[|policies| - 1])
  }

  function PrefixNotes(env: Env, prefixes: seq<string>): seq<Tier2> {
    if prefixes == [] then []
    else PrefixNotes(env, prefixes[..|prefixes| - 1])
         + if env.isNet(prefixes[|prefixes| - 1]) then [] else [InvalidPrefix(prefixes[|prefixes| - 1])]
  }

  function SemanticNotes(m: Mission): seq<Tier2> {
    (if m.effects then [Semantic("effect_policies")] else [])
    + (if m.flows then [Semantic("flow_policies")] else [])
    + (if m.budgets then [Semantic("lineage_budgets")] else [])
  }

  function DeclaredTier2(env: Env, m: Mission): seq<Tier2> {
    ForbiddenNotes(env, m.forbidden) + AllowedNotes(env, m, m.allowed) + ScopeNotes(m.scope)
    + PolicyNotes(env, m.policies) + PrefixNotes(env, m.prefixes) + SemanticNotes(m)
  }

  // ---- entries as a dictionary ---------------------------------------------------------------

  function Lookup(es: seq<Entry>, op: Op): Option<Action> {
    if es == [] then None else if es[0].op == op then Some(es[0].action) else Lookup(es[1..], op)
  }

  /** Assignment to a dictionary key: in place if the key is there, at the end if not. */
  function Upsert(es: seq<Entry>, op: Op, action: Action, mode: Mode): seq<Entry> {
    if es == [] then [Entry(op, action, mode)]
    else if es[0].op == op then [Entry(op, action, mode)] + es[1..]
    else [es[0]] + Upsert(es[1..], op, action, mode)
  }

  /** One entry per op, and every entry in the same mode. */
  predicate WellFormed(es: seq<Entry>, mode: Mode) {
    && (forall i, k :: 0 <= i < k < |es| ==> es[i].op != es[k].op)
    && (forall i :: 0 <= i < |es| ==> es[i].mode == mode)
  }

  lemma {:induction false} UpsertLookup(es: seq<Entry>, op: Op, action: Action, mode: Mode, o: Op)
    ensures Lookup(Upsert(es, op, action, mode), o) == if o == op then Some(action) else Lookup(es, o)
  {
    if es != [] && es[0].op != op { UpsertLookup(es[1..], op, action, mode, o); }
  }

  lemma {:induction false} LookupNone(es: seq<Entry>, op: Op)
    ensures Lookup(es, op).None? <==> forall i :: 0 <= i < |es| ==> es[i].op != op
  {
    if es != [] {
      LookupNone(es[1..], op);
      assert es == [es[0]] + es[1..];
    }
  }

  lemma {:induction false} UpsertWellFormed(es: seq<Entry>, op: Op, action: Action, mode: Mode)
    requires WellFormed(es, mode)
    ensures WellFormed(Upsert(es, op, action, mode), mode)
  {
    if es != [] && es[0].op != op {
      var rest := es[1..];
      assert es == [es[0]] + rest;
      UpsertWellFormed(rest, op, action, mode);
      var up := Upsert(rest, op, action, mode);
      UpsertLookup(rest, op, action, mode, es[0].op);
      LookupNone(rest, es[0].op);
      LookupNone(up, es[0].op);
    }
  }

  /** An action is what the entry list holds for its op, and nothing else. */
  lemma {:induction false} LookupIff(es: seq<Entry>, mode: Mode, op: Op, action: Action)
    requires WellFormed(es, mode)
    ensures Lookup(es, op) == Some(action) <==> Entry(op, action, mode) in es
  {
    if es != [] {
      assert es == [es[0]] + es[1..];
      LookupIff(es[1..], mode, op, action);
      LookupNone(es[1..], es[0].op);
    }
  }
}
