/** Attenuating Agent Token grants (draft-niyikiza-oauth-attenuating-agent-tokens-00): reading them, and narrowing along chains. */
module AatGrants {

  import opened Results
  import opened Text

  /** A decoded JSON value. */
  datatype Val = Null | Bool(b: bool) | Int(i: int) | Float | Str(s: string) | Arr(items: seq<Val>) | Obj(fields: map<string, Val>)

  type Claims = map<string, Val>

  const DETAIL_TYPE := "attenuating_agent_token"
  const NO_BUDGET := 1_000_000_000

  function Field(m: Claims, name: string): Val {
    if name in m then m[name] else Null
  }

  // ---- reading a grant ------------------------------------------------------------------------

  predicate IsDetail(v: Val) {
    v.Obj? && Field(v.fields, "type").Str? && Field(v.fields, "type").s != ""
  }

  predicate IsOurs(v: Val) {
    v.Obj? && Field(v.fields, "type") == Str(DETAIL_TYPE)
  }

  function Ours(items: seq<Val>): (r: seq<Val>)
    ensures forall i :: 0 <= i < |r| ==> IsOurs(r[i])
  {
    if items == [] then []
    else Ours(items[..|items| - 1]) + if IsOurs(items[|items| - 1]) then [items[|items| - 1]] else []
  }

  /** `_authorization_details`: the one supported detail; None where it raises. */
  function Detail(claims: Claims): Option<Claims> {
    var raw := Field(claims, "authorization_details");
    if !raw.Arr? || exists i :: 0 <= i < |raw.items| && !IsDetail(raw.items[i]) then None
    else if |Ours(raw.items)| != 1 then None
    else Some(Ours(raw.items)[0].fields)
  }

  predicate Blank(s: string) {
    Strip(s) == ""
  }

  /** A map of tools may not carry argument constraints. */
  predicate Unconstrained(tools: Claims) {
    forall name :: name in tools && !Blank(name) ==> tools[name] == Obj(map[])
  }

  /** One entry of a list of tools: None where it raises, and no name where it is ignored. */
  function ListedTool(item: Val): Option<set<string>> {
    if item.Str? && !Blank(item.s) then Some({item.s})
    else if item.Obj? && Field(item.fields, "name").Str? then
      (if item.fields.Keys == {"name"} then Some({Field(item.fields, "name").s}) else None)
    else Some({})
  }

  function ListedTools(items: seq<Val>): Option<set<string>> {
    if items == [] then Some({})
    else match (ListedTools(items[..|items| - 1]), ListedTool(items[|items| - 1]))
         case (Some(a), Some(b)) => Some(a + b)
         case _ => None
  }

  function DetailTools(detail: Claims): Option<set<string>> {
    match Field(detail, "tools")
    case Obj(tools) => if Unconstrained(tools) then Some(set name | name in tools && !Blank(name)) else None
    case Arr(items) => ListedTools(items)
    case _ => Some({})
  }

  /** `_extract_tools`; None where it raises. */
  function Tools(claims: Claims): Option<set<string>> {
    match Detail(claims)
    case None => None
    case Some(detail) =>
      match DetailTools(detail)
      case None => None
      case Some(tools) => if tools == {} then None else Some(tools)
  }

  lemma {:induction false} ListedNone(items: seq<Val>, i: nat)
    requires i < |items| && ListedTool(items[i]).None?
    ensures ListedTools(items).None?
  {
    if i < |items| - 1 { ListedNone(items[..|items| - 1], i); }
  }

  /** An item that gives a tool's name, as text or as an object. */
  predicate Gives(item: Val, name: string) {
    || (item == Str(name) && !Blank(name))
    || (item.Obj? && Field(item.fields, "name") == Str(name))
  }

  /** An item that carries more than a name. */
  predicate Overloaded(item: Val) {
    item.Obj? && Field(item.fields, "name").Str? && item.fields.Keys != {"name"}
  }

  ghost predicate Given(items: seq<Val>, name: string) {
    exists i :: 0 <= i < |items| && Gives(items[i], name)
  }

  predicate AnyOverloaded(items: seq<Val>) {
    exists i :: 0 <= i < |items| && Overloaded(items[i])
  }

  lemma ListedToolMeaning(item: Val)
    ensures ListedTool(item).None? <==> Overloaded(item)
    ensures ListedTool(item).Some? ==> forall name :: name in ListedTool(item).value <==> Gives(item, name)
  {
    hide Blank;
  }

  lemma GivenMore(items: seq<Val>, last: Val, name: string)
    ensures Given(items + [last], name) <==> Given(items, name) || Gives(last, name)
    ensures AnyOverloaded(items + [last]) <==> AnyOverloaded(items) || Overloaded(last)
  {
    hide Gives, Overloaded;
    var more := items + [last];
    assert more[|items|] == last && forall i :: 0 <= i < |items| ==> more[i] == items[i];
    if Given(items, name) {
      var i :| 0 <= i < |items| && Gives(items[i], name);
      assert Gives(more[i], name);
    }
    if AnyOverloaded(items) {
      var i :| 0 <= i < |items| && Overloaded(items[i]);
      assert Overloaded(more[i]);
    }
  }

  /** What a list of tools says: it is refused exactly if some item carries more than a name, and otherwise names what its items give. */
  lemma {:induction false} ListedToolsMeaning(items: seq<Val>, name: string)
    ensures ListedTools(items).None? <==> AnyOverloaded(items)
    ensures ListedTools(items).Some? ==> (name in ListedTools(items).value <==> Given(items, name))
  {
    if items != [] {
      hide Given, AnyOverloaded, Gives, Overloaded, ListedTool;
      var init, last := items[..|items| - 1], items[|items| - 1];
      assert items == init + [last];
      ListedToolsMeaning(init, name);
      ListedToolMeaning(last);
      GivenMore(init, last, name);
    }
  }

  /** The loop over a map of tools. */
  method NamedTools(fields: Claims) returns (r: Option<set<string>>)
    ensures r == if Unconstrained(fields) then Some(set name | name in fields && !Blank(name)) else None
  {
    hide Blank;
    var tools: set<string> := {};
    var names := fields.Keys;
    while names != {}
      invariant names <= fields.Keys
      invariant tools == set name | name in fields && !Blank(name) && name !in names
      invariant forall name :: name in fields && !Blank(name) && name !in names ==> fields[name] == Obj(map[])
      decreases |names|
    {
      var name :| name in names;
      names := names - {name};
      if !Blank(name) {
        if fields[name] != Obj(map[]) { return None; }
        tools := tools + {name};
      }
    }
    assert tools == set name | name in fields && !Blank(name);
    return Some(tools);
  }

  /** The loops of `_extract_tools` over the detail's tools. */
  method ExtractTools(claims: Claims) returns (r: Option<set<string>>)
    ensures r == Tools(claims)
  {
    hide Blank;
    var detail := Detail(claims);
    if detail.None? { return None; }
    var raw := Field(detail.value, "tools");
    var tools: set<string> := {};
    if raw.Obj? {
      var named := NamedTools(raw.fields);
      if named.None? { return None; }
      tools := named.value;
    } else if raw.Arr? {
      var i := 0;
      while i < |raw.items|
        invariant 0 <= i <= |raw.items| && ListedTools(raw.items[..i]) == Some(tools)
      {
        assert raw.items[..i + 1][..i] == raw.items[..i];
        var item := ListedTool(raw.items[i]);
        if item.None? {
          ListedNone(raw.items, i);
          return None;
        }
        tools := tools + item.value;
        i := i + 1;
      }
      assert raw.items[..|raw.items|] == raw.items;
    }
    if tools == {} { return None; }
    return Some(tools);
  }

  /** A budget that is present must be a positive integer: None where it raises, and no candidate if it is absent. */
  function Candidate(m: Claims, name: string): Option<seq<int>> {
    if name !in m then Some([])
    else if m[name].Int? && m[name].i > 0 then Some([m[name].i])
    else None
  }

  function BudgetClaims(claims: Claims): Claims {
    if Field(claims, "budget").Obj? then Field(claims, "budget").fields else map[]
  }

  /** Every budget the grant declares; None where reading them raises. */
  function Candidates(claims: Claims): Option<seq<int>> {
    match (Candidate(claims, "max_tool_calls"), Candidate(BudgetClaims(claims), "tool_calls"), Detail(claims))
    case (Some(a), Some(b), Some(detail)) =>
      (match Candidate(detail, "max_tool_calls")
       case Some(c) => Some(a + b + c)
       case None => None)
    case _ => None
  }

  function Min(xs: seq<int>): (m: int)
    requires xs != []
    ensures m in xs && forall i :: 0 <= i < |xs| ==> m <= xs[i]
  {
    if |xs| == 1 then xs[0]
    else
      assert xs == [xs[0]] + xs[1..];
      var rest := Min(xs[1..]);
      if xs[0] <= rest then xs[0] else rest
  }

  /** `_extract_max_tool_calls`; None where it raises. */
  function Budget(claims: Claims, fallback: int): Option<int> {
    match Candidates(claims)
    case None => None
    case Some(xs) => if xs != [] then Some(Min(xs)) else if fallback > 0 then Some(fallback) else None
  }

  lemma {:induction false} OursNone(items: seq<Val>)
    ensures Ours(items) == [] <==> forall i :: 0 <= i < |items| ==> !IsOurs(items[i])
  {
    hide IsOurs;
    if items != [] {
      OursNone(items[..|items| - 1]);
      assert items == items[..|items| - 1] + [items[|items| - 1]];
    }
  }

  predicate OnlyOurs(items: seq<Val>, i: int) {
    0 <= i < |items| && IsOurs(items[i]) && forall j :: 0 <= j < |items| && j != i ==> !IsOurs(items[j])
  }

  /** An object whose type is this text. */
  predicate Typed(v: Val, t: string) {
    v.Obj? && "type" in v.fields && v.fields["type"] == Str(t)
  }

  lemma {:induction false} OursOneIff(items: seq<Val>, v: Val)
    ensures Ours(items) == [v] <==> exists i :: OnlyOurs(items, i) && items[i] == v
  {
    hide IsOurs;
    if items != [] {
      var n := |items| - 1;
      var init, last := items[..n], items[n];
      assert items == init + [last];
      if IsOurs(last) {
        OursNone(init);
        if Ours(init) == [] { assert Ours(items) == [last] && OnlyOurs(items, n); }
      } else {
        OursOneIff(init, v);
        if Ours(init) == [v] {
          var i :| OnlyOurs(init, i) && init[i] == v;
          assert OnlyOurs(items, i) && items[i] == v;
        }
        if exists i :: OnlyOurs(items, i) && items[i] == v {
          var i :| OnlyOurs(items, i) && items[i] == v;
          assert OnlyOurs(init, i) && init[i] == v;
        }
      }
    }
  }

  /** The only entry of the supported type. */
  predicate OnlyToken(items: seq<Val>, i: int) {
    && 0 <= i < |items| && Typed(items[i], "attenuating_agent_token")
    && forall j :: 0 <= j < |items| && j != i ==> !Typed(items[j], "attenuating_agent_token")
  }

  ghost predicate HasType(v: Val) {
    exists t :: t != "" && Typed(v, t)
  }

  ghost predicate AllTyped(items: seq<Val>) {
    forall i :: 0 <= i < |items| ==> HasType(items[i])
  }

  lemma EntriesTyped(items: seq<Val>)
    ensures AllTyped(items) <==> forall i :: 0 <= i < |items| ==> IsDetail(items[i])
    ensures forall i :: OnlyToken(items, i) <==> OnlyOurs(items, i)
  {
    hide IsDetail, IsOurs, Typed, HasType;
    forall i | 0 <= i < |items|
      ensures IsDetail(items[i]) <==> HasType(items[i])
      ensures IsOurs(items[i]) <==> Typed(items[i], "attenuating_agent_token")
    {
      TypedIff(items[i]);
    }
  }

  /** The detail of a grant: every entry is an object with a non-empty type, and this one is the only one of the supported type. */
  lemma DetailMeaning(claims: Claims, d: Claims)
    ensures Detail(claims) == Some(d) <==>
              && "authorization_details" in claims && claims["authorization_details"].Arr?
              && var items := claims["authorization_details"].items;
                 AllTyped(items) && exists i :: OnlyToken(items, i) && items[i] == Obj(d)
  {
    hide IsDetail, IsOurs, AllTyped, OnlyToken;
    if "authorization_details" in claims && claims["authorization_details"].Arr? {
      var items := claims["authorization_details"].items;
      EntriesTyped(items);
      OursOneIff(items, Obj(d));
      if |Ours(items)| == 1 { OursAreObjects(items); }
      if exists i :: OnlyToken(items, i) && items[i] == Obj(d) {
        var i :| OnlyToken(items, i) && items[i] == Obj(d);
        assert OnlyOurs(items, i);
      }
    }
  }

  lemma TypedIff(v: Val)
    ensures IsDetail(v) <==> HasType(v)
    ensures IsOurs(v) <==> Typed(v, "attenuating_agent_token")
  {
    if IsDetail(v) { assert Typed(v, Field(v.fields, "type").s); }
  }

  lemma OursAreObjects(items: seq<Val>)
    requires |Ours(items)| == 1
    ensures Ours(items)[0].Obj? && Ours(items) == [Obj(Ours(items)[0].fields)]
  {
  }

  // ---- what a grant's parts say -------------------------------------------------------------------

  /** A tool that the detail names: a visible key of its map of tools, or an item of its list. */
  ghost predicate NamesTool(detail: Claims, name: string) {
    "tools" in detail &&
    match detail["tools"]
    case Obj(tools) => name in tools && Strip(name) != ""
    case Arr(items) => Given(items, name)
    case _ => false
  }

  /** A tool that comes with more than its name. */
  ghost predicate ConstrainsTool(detail: Claims) {
    "tools" in detail &&
    match detail["tools"]
    case Obj(tools) => exists name :: name in tools && Strip(name) != "" && tools[name] != Obj(map[])
    case Arr(items) => AnyOverloaded(items)
    case _ => false
  }

  lemma DetailToolsMeaning(detail: Claims, name: string)
    ensures DetailTools(detail).None? <==> ConstrainsTool(detail)
    ensures DetailTools(detail).Some? ==> (name in DetailTools(detail).value <==> NamesTool(detail, name))
  {
    hide Strip, Given, AnyOverloaded, ListedTools;
    if Field(detail, "tools").Arr? { ListedToolsMeaning(Field(detail, "tools").items, name); }
  }

  /** The tools of a grant are those its detail names; reading them raises exactly if it has none, or one comes with more than its name. */
  lemma ToolsMeaning(claims: Claims, name: string)
    ensures Tools(claims).Some? ==> (name in Tools(claims).value <==> NamesTool(Detail(claims).value, name))
    ensures Tools(claims).None? <==>
              Detail(claims).None? || ConstrainsTool(Detail(claims).value) || forall x :: !NamesTool(Detail(claims).value, x)
  {
    hide Detail, DetailTools, NamesTool, ConstrainsTool;
    if Detail(claims).Some? {
      var d := Detail(claims).value;
      forall x ensures DetailTools(d).Some? ==> (x in DetailTools(d).value <==> NamesTool(d, x)) { DetailToolsMeaning(d, x); }
      DetailToolsMeaning(d, name);
    }
  }

  /** The depth of a grant is its own claim, else the older one, else zero; its limit is read the same way, else it is its depth. */
  lemma DepthMeaning(claims: Claims, d: int, m: int)
    ensures DepthOf(claims) == Some(d) <==>
              if "del_depth" in claims then claims["del_depth"] == Int(d)
              else if "delegation_depth" in claims then claims["delegation_depth"] == Int(d)
              else d == 0
    ensures DepthOf(claims) == Some(d) ==>
              (MaxDepthOf(claims) == Some(m) <==>
                 if "del_max_depth" in claims then claims["del_max_depth"] == Int(m)
                 else if "max_delegation_depth" in claims then claims["max_delegation_depth"] == Int(m)
                 else m == d)
  {
  }

  /** A budget that the grant declares in one of its three places. */
  predicate DeclaresBudget(claims: Claims, v: Val) {
    || ("max_tool_calls" in claims && claims["max_tool_calls"] == v)
    || ("budget" in claims && claims["budget"].Obj? && "tool_calls" in claims["budget"].fields && claims["budget"].fields["tool_calls"] == v)
    || (Detail(claims).Some? && "max_tool_calls" in Detail(claims).value && Detail(claims).value["max_tool_calls"] == v)
  }

  /**
   The budget read from a grant is one that it declares and at most each that it declares, or the fallback
   if it declares none; reading it raises exactly if the grant has no detail, if something declared is not
   a positive integer, or if nothing is declared and the fallback is not positive.
   */
  lemma BudgetMeaning(claims: Claims, fallback: int)
    ensures Budget(claims, fallback).None? <==>
              || Detail(claims).None?
              || (exists v :: DeclaresBudget(claims, v) && !(v.Int? && v.i > 0))
              || ((forall v :: !DeclaresBudget(claims, v)) && fallback <= 0)
    ensures Budget(claims, fallback).Some? ==>
              var n := Budget(claims, fallback).value;
              && (forall v :: DeclaresBudget(claims, v) ==> v.Int? && n <= v.i)
              && (DeclaresBudget(claims, Int(n)) || ((forall v :: !DeclaresBudget(claims, v)) && n == fallback))
  {
    hide Detail;
    if Detail(claims).Some? {
      DeclaredAt(claims);
      var xs := Candidates(claims);
      if xs.Some? && xs.value != [] { assert Min(xs.value) in xs.value; }
    }
  }

  /** The candidates are what is declared, if all of it is positive integers. */
  lemma DeclaredAt(claims: Claims)
    requires Detail(claims).Some?
    ensures Candidates(claims).None? <==> exists v :: DeclaresBudget(claims, v) && !(v.Int? && v.i > 0)
    ensures Candidates(claims).Some? ==> forall v :: DeclaresBudget(claims, v) <==> v.Int? && v.i in Candidates(claims).value
  {
    hide Detail;
    var a, b, d := claims, BudgetClaims(claims), Detail(claims).value;
    assert "max_tool_calls" in a ==> DeclaresBudget(claims, a["max_tool_calls"]);
    assert "tool_calls" in b ==> DeclaresBudget(claims, b["tool_calls"]);
    assert "max_tool_calls" in d ==> DeclaresBudget(claims, d["max_tool_calls"]);
  }

  /** `_int_claim`; None where it raises. */
  function IntClaim(claims: Claims, name: string, alias: string, fallback: int): Option<int> {
    var raw := if name in claims then claims[name] else if alias in claims then claims[alias] else Int(fallback);
    if raw.Int? then Some(raw.i) else None
  }

  function DepthOf(claims: Claims): Option<int> {
    IntClaim(claims, "del_depth", "delegation_depth", 0)
  }

  function MaxDepthOf(claims: Claims): Option<int> {
    match DepthOf(claims)
    case None => None
    case Some(depth) => IntClaim(claims, "del_max_depth", "max_delegation_depth", depth)
  }

  function Stamp(claims: Claims, name: string): Option<int> {
    if name in claims && claims[name].Int? then Some(claims[name].i) else None
  }

  // ---- the two checks ---------------------------------------------------------------------------

  /** A grant all of whose parts can be read. */
  predicate Readable(g: Claims) {
    && Tools(g).Some? && Budget(g, NO_BUDGET).Some? && DepthOf(g).Some? && MaxDepthOf(g).Some?
    && Stamp(g, "iat").Some? && Stamp(g, "exp").Some?
  }

  /** `_assert_child_grant_narrows_parent` returns. */
  predicate Narrows(child: Claims, parent: Claims) {
    && Readable(child) && Readable(parent)
    && Tools(child).value <= Tools(parent).value
    && Budget(child, NO_BUDGET).value <= Budget(parent, NO_BUDGET).value
    && DepthOf(child).value == DepthOf(parent).value + 1
    && DepthOf(child).value <= MaxDepthOf(child).value <= MaxDepthOf(parent).value
    && Stamp(parent, "iat").value <= Stamp(child, "iat").value
    && Stamp(child, "exp").value <= Stamp(parent, "exp").value
    && Field(child, "mission_ref") == Field(parent, "mission_ref")
  }

  datatype Mission = Mission(tools: set<string>, maxCalls: int, maxDuration: int, scope: seq<string>)

  predicate StringList(v: Val) {
    v.Arr? && forall i :: 0 <= i < |v.items| ==> v.items[i].Str?
  }

  function Strings(v: Val): set<string>
    requires StringList(v)
  {
    set i | 0 <= i < |v.items| :: v.items[i].s
  }

  /** `_extract_resource_scope` as a set, against the mission only; None where it raises. */
  function Scope(claims: Claims, mission: seq<string>): Option<set<string>> {
    var raw := Field(claims, "resource_scope");
    if raw == Null then Some(set x | x in mission)
    else if !StringList(raw) then None
    else if "**" in Strings(raw) && Strings(raw) != {"**"} then None
    else if mission != ["**"] && exists x :: x in Strings(raw) && x !in mission then None
    else Some(Strings(raw))
  }

  /** The mission's checks in `material_from_aat_grant`. */
  predicate WithinMission(g: Claims, mission: Mission) {
    && Tools(g).Some? && Tools(g).value <= mission.tools
    && Budget(g, mission.maxCalls).Some? && Budget(g, mission.maxCalls).value <= mission.maxCalls
    && DepthOf(g).Some? && MaxDepthOf(g).Some? && Scope(g, mission.scope).Some?
  }

  function RemainingDepth(g: Claims): int
    requires DepthOf(g).Some? && MaxDepthOf(g).Some?
  {
    var left := MaxDepthOf(g).value - DepthOf(g).value;
    if left > 0 then left else 0
  }

  function Ttl(g: Claims, mission: Mission, now: int): int
    requires Stamp(g, "exp").Some?
  {
    var left := Stamp(g, "exp").value - now;
    var capped := if left <= mission.maxDuration then left else mission.maxDuration;
    if capped >= 1 then capped else 1
  }

  // ---- chains ----------------------------------------------------------------------------------

  predicate Chain(gs: seq<Claims>, mission: Mission) {
    && (forall i :: 0 <= i < |gs| ==> WithinMission(gs[i], mission))
    && (forall i :: 0 <= i < |gs| - 1 ==> Narrows(gs[i + 1], gs[i]))
  }

  /** All that a descendant takes over from an ancestor without widening it. */
  ghost predicate Contained(child: Claims, parent: Claims, mission: Mission) {
    && Readable(child) && Readable(parent)
    && Tools(child).value <= Tools(parent).value
    && Stamp(parent, "iat").value <= Stamp(child, "iat").value && Stamp(child, "exp").value <= Stamp(parent, "exp").value
    && Field(child, "mission_ref") == Field(parent, "mission_ref")
    && RemainingDepth(child) <= RemainingDepth(parent)
    && (forall now :: Ttl(child, mission, now) <= Ttl(parent, mission, now))
  }

  lemma NarrowsContained(child: Claims, parent: Claims, mission: Mission)
    requires Narrows(child, parent)
    ensures Contained(child, parent, mission)
  {
    hide Tools, Budget, IntClaim, DepthOf, MaxDepthOf;
  }

  lemma ContainedTransitive(a: Claims, b: Claims, c: Claims, mission: Mission)
    requires Contained(a, b, mission) && Contained(b, c, mission)
    ensures Contained(a, c, mission)
  {
    hide Tools, Budget, IntClaim, DepthOf, MaxDepthOf, Ttl, RemainingDepth;
    forall now ensures Ttl(a, mission, now) <= Ttl(c, mission, now) {
      assert Ttl(a, mission, now) <= Ttl(b, mission, now) <= Ttl(c, mission, now);
    }
  }

  /** Along a chain of any length every grant is contained in each of its ancestors, and each hop uses up a level of depth. */
  lemma {:induction false} DescendantContained(gs: seq<Claims>, mission: Mission, i: nat, j: nat)
    requires Chain(gs, mission) && i < j < |gs|
    ensures Contained(gs[j], gs[i], mission)
    ensures DepthOf(gs[j]).value == DepthOf(gs[i]).value + (j - i)
    ensures DepthOf(gs[j]).value <= MaxDepthOf(gs[j]).value <= MaxDepthOf(gs[i]).value
    decreases j
  {
    hide Tools, Budget, IntClaim, DepthOf, MaxDepthOf, WithinMission, Contained;
    var k := j - 1;
    assert Narrows(gs[k + 1], gs[k]);
    NarrowsContained(gs[j], gs[k], mission);
    assert Readable(gs[j]) && Readable(gs[k]);
    if i < k {
      DescendantContained(gs, mission, i, k);
      ContainedTransitive(gs[j], gs[k], gs[i], mission);
    }
    assert Readable(gs[i]) by { ContainedReadable(gs[j], gs[i], mission); }
  }

  lemma ContainedReadable(child: Claims, parent: Claims, mission: Mission)
    requires Contained(child, parent, mission)
    ensures Readable(child) && Readable(parent)
  {
  }

  /** A chain has no more hops than its root grants levels. */
  lemma HopsBounded(gs: seq<Claims>, mission: Mission)
    requires Chain(gs, mission) && |gs| >= 2
    ensures DepthOf(gs[0]).Some? && MaxDepthOf(gs[0]).Some?
    ensures |gs| - 1 <= MaxDepthOf(gs[0]).value - DepthOf(gs[0]).value
  {
    hide Tools, Budget, IntClaim, DepthOf, MaxDepthOf, WithinMission;
    DescendantContained(gs, mission, 0, |gs| - 1);
  }

  // ---- the call budget ------------------------------------------------------------------------------

  /** The calls that a session for this grant may make. */
  function EffectiveBudget(g: Claims, mission: Mission): int
    requires WithinMission(g, mission)
  {
    Budget(g, mission.maxCalls).value
  }

  /**
   Exactly when a grant that passes both checks still has more calls than its parent: it declares
   no budget of its own, and its parent declares one below the mission's.
   */
  lemma BudgetGrowsIff(child: Claims, parent: Claims, mission: Mission)
    requires Narrows(child, parent) && WithinMission(child, mission) && WithinMission(parent, mission)
    ensures EffectiveBudget(child, mission) > EffectiveBudget(parent, mission) <==>
              && Candidates(child) == Some([]) && Candidates(parent) != Some([])
              && EffectiveBudget(parent, mission) < mission.maxCalls
    ensures EffectiveBudget(child, mission) > EffectiveBudget(parent, mission) ==> NO_BUDGET <= EffectiveBudget(parent, mission)
  {
    hide Tools, Candidates, IntClaim, DepthOf, MaxDepthOf, Scope;
  }

  /** For a mission of at most 10^9 calls the effective budget never grows along a chain, whether or not grants declare one. */
  lemma {:induction false} BudgetNeverGrows(gs: seq<Claims>, mission: Mission, i: nat, j: nat)
    requires Chain(gs, mission) && i <= j < |gs| && mission.maxCalls <= NO_BUDGET
    ensures WithinMission(gs[i], mission) && WithinMission(gs[j], mission)
    ensures EffectiveBudget(gs[j], mission) <= EffectiveBudget(gs[i], mission)
    decreases j
  {
    hide Narrows, WithinMission, EffectiveBudget;
    if i < j {
      BudgetNeverGrows(gs, mission, i, j - 1);
      assert Narrows(gs[j - 1 + 1], gs[j - 1]);
      BudgetGrowsIff(gs[j], gs[j - 1], mission);
    }
  }

  function SampleDetail(budget: Option<int>): Val {
    var base := map["type" := Str(DETAIL_TYPE), "tools" := Arr([Str("read")])];
    Obj(if budget.Some? then base["max_tool_calls" := Int(budget.value)] else base)
  }

  function SampleGrant(depth: int, budget: Option<int>): Claims {
    map["authorization_details" := Arr([SampleDetail(budget)]), "del_depth" := Int(depth), "del_max_depth" := Int(1),
        "iat" := Int(0), "exp" := Int(60)]
  }

  lemma SampleDetailRead(depth: int, budget: Option<int>)
    ensures Detail(SampleGrant(depth, budget)) == Some(SampleDetail(budget).fields)
  {
    var d := SampleDetail(budget);
    var items := [d];
    assert IsDetail(d) && IsOurs(d);
    assert items[..0] == [];
    assert Ours(items) == [d];
  }

  lemma SampleTools(depth: int, budget: Option<int>)
    ensures Tools(SampleGrant(depth, budget)) == Some({"read"})
  {
    hide Detail, Blank;
    SampleDetailRead(depth, budget);
    var tools := [Str("read")];
    assert tools[..0] == [];
    assert !Blank("read") by { ReadIsNotBlank(); }
    assert ListedTool(tools[0]) == Some({"read"}) && ListedTools([]) == Some({});
    assert ListedTools(tools) == Some({} + {"read"}) && {} + {"read"} == {"read"};
    assert Field(SampleDetail(budget).fields, "tools") == Arr(tools);
    assert DetailTools(SampleDetail(budget).fields) == Some({"read"}) && "read" in {"read"};
  }

  lemma ReadIsNotBlank()
    ensures !Blank("read")
  {
    StripTrimmed("read");
  }

  lemma SampleCandidates(depth: int, budget: Option<int>)
    requires budget.Some? ==> budget.value > 0
    ensures Candidates(SampleGrant(depth, budget)) == Some(if budget.Some? then [budget.value] else [])
  {
    hide Detail;
    SampleDetailRead(depth, budget);
    var g, d := SampleGrant(depth, budget), SampleDetail(budget).fields;
    assert Candidate(g, "max_tool_calls") == Some([]) && BudgetClaims(g) == map[];
    assert Candidate(BudgetClaims(g), "tool_calls") == Some([]);
    var c := if budget.Some? then [budget.value] else [];
    assert Candidate(d, "max_tool_calls") == Some(c) && [] + [] + c == c;
  }

  lemma SampleReads(depth: int, budget: Option<int>)
    requires budget.Some? ==> budget.value > 0
    ensures var g := SampleGrant(depth, budget);
            && DepthOf(g) == Some(depth) && MaxDepthOf(g) == Some(1)
            && Stamp(g, "iat") == Some(0) && Stamp(g, "exp") == Some(60)
            && Field(g, "mission_ref") == Null && Field(g, "resource_scope") == Null
  {
  }

  /** Above 10^9 it can grow, for every such mission: under a parent that declares 10^9 calls, a child that declares none gets them all. */
  lemma BudgetGrowsAbove(maxCalls: int)
    requires maxCalls > NO_BUDGET
    ensures Chain([SampleGrant(0, Some(NO_BUDGET)), SampleGrant(1, None)], Mission({"read"}, maxCalls, 60, []))
    ensures Budget(SampleGrant(0, Some(NO_BUDGET)), maxCalls) == Some(NO_BUDGET)
    ensures Budget(SampleGrant(1, None), maxCalls) == Some(maxCalls)
  {
    hide SampleGrant, Tools, Candidates, DepthOf, MaxDepthOf, Stamp, Field;
    var mission, parent, child := Mission({"read"}, maxCalls, 60, []), SampleGrant(0, Some(NO_BUDGET)), SampleGrant(1, None);
    SampleReads(0, Some(NO_BUDGET));
    SampleReads(1, None);
    SampleTools(0, Some(NO_BUDGET));
    SampleTools(1, None);
    SampleCandidates(0, Some(NO_BUDGET));
    SampleCandidates(1, None);
    assert Min([NO_BUDGET]) == NO_BUDGET;
    assert Narrows(child, parent);
    assert WithinMission(child, mission) && WithinMission(parent, mission);
    ChainOfTwo(parent, child, mission);
  }

  lemma ChainOfTwo(parent: Claims, child: Claims, mission: Mission)
    requires Narrows(child, parent) && WithinMission(child, mission) && WithinMission(parent, mission)
    ensures Chain([parent, child], mission)
  {
    hide Narrows, WithinMission;
    var gs := [parent, child];
    forall i | 0 <= i < |gs| - 1 ensures Narrows(gs[i + 1], gs[i]) { assert i == 0; }
  }

  // ---- the session of a grant ---------------------------------------------------------------------

  /**
   What a session gets: tools and calls within the mission's, every scope entry the mission's unless the
   mission is unrestricted, the levels that are left, and a time of at least one second that lasts
   neither beyond the grant nor beyond the mission's limit unless it is that one second.
   */
  lemma SessionWithinMission(g: Claims, mission: Mission, now: int)
    requires WithinMission(g, mission) && Stamp(g, "exp").Some?
    ensures Tools(g).value <= mission.tools && 0 < EffectiveBudget(g, mission) <= mission.maxCalls
    ensures forall x :: x in Scope(g, mission.scope).value ==> x in mission.scope || mission.scope == ["**"]
    ensures "**" in Scope(g, mission.scope).value && Field(g, "resource_scope") != Null ==> Scope(g, mission.scope).value == {"**"}
    ensures var t, left := Ttl(g, mission, now), Stamp(g, "exp").value - now;
            && t >= 1 && (t == 1 || (t <= left && t <= mission.maxDuration)) && (t >= left || t >= mission.maxDuration)
    ensures var n := RemainingDepth(g);
            && n >= 0 && (DepthOf(g).value + n == MaxDepthOf(g).value || (n == 0 && DepthOf(g).value >= MaxDepthOf(g).value))
  {
    hide Tools, Detail, IntClaim;
    BudgetMeaning(g, mission.maxCalls);
    BudgetPositive(g, mission.maxCalls);
  }

  lemma BudgetPositive(g: Claims, fallback: int)
    requires Budget(g, fallback).Some?
    ensures Budget(g, fallback).value > 0
  {
    hide Detail;
    BudgetMeaning(g, fallback);
  }

  // ---- the resource scope ---------------------------------------------------------------------------

  predicate DeclaresScope(g: Claims) {
    Field(g, "resource_scope") != Null
  }

  /** An entry of one scope that another does not have, and does not admit by the wildcard. */
  predicate Beyond(x: string, scope: set<string>) {
    x !in scope && "**" !in scope
  }

  /** Between two grants the session's scope gains an entry. */
  predicate ScopeGrows(child: Claims, parent: Claims, mission: seq<string>)
    requires Scope(child, mission).Some? && Scope(parent, mission).Some?
  {
    exists x :: x in Scope(child, mission).value && Beyond(x, Scope(parent, mission).value)
  }

  lemma ScopeOf(g: Claims, mission: seq<string>)
    requires Scope(g, mission).Some?
    ensures DeclaresScope(g) ==> StringList(Field(g, "resource_scope")) && Scope(g, mission).value == Strings(Field(g, "resource_scope"))
    ensures DeclaresScope(g) && mission != ["**"] ==> forall x :: x in Scope(g, mission).value ==> x in mission
    ensures !DeclaresScope(g) ==> Scope(g, mission).value == set x | x in mission
  {
  }

  /**
   Exactly when the scope grows between a grant and its parent, as it is checked against the mission
   only: the parent declares a scope, and the child either declares none while the mission has an
   entry beyond the parent's, or declares an entry beyond it.
   */
  lemma ScopeGrowsIff(child: Claims, parent: Claims, mission: Mission)
    requires WithinMission(child, mission) && WithinMission(parent, mission)
    ensures ScopeGrows(child, parent, mission.scope) <==>
              && DeclaresScope(parent)
              && exists x :: Beyond(x, Scope(parent, mission.scope).value)
                   && if DeclaresScope(child) then x in Strings(Field(child, "resource_scope")) else x in mission.scope
  {
    hide Tools, Budget, DepthOf, MaxDepthOf, Scope;
    ScopeOf(child, mission.scope);
    ScopeOf(parent, mission.scope);
  }

  /** What a grant gets, declared or from the mission, is nothing beyond a scope its parent declares. */
  predicate KeepsScope(child: Claims, parent: Claims, mission: Mission)
    requires WithinMission(child, mission) && WithinMission(parent, mission)
  {
    DeclaresScope(parent) ==>
      if DeclaresScope(child) then forall x :: x in Strings(Field(child, "resource_scope")) ==> !Beyond(x, Scope(parent, mission.scope).value)
      else forall x :: x in mission.scope ==> !Beyond(x, Scope(parent, mission.scope).value)
  }

  lemma KeepsScopeIff(child: Claims, parent: Claims, mission: Mission)
    requires WithinMission(child, mission) && WithinMission(parent, mission)
    ensures KeepsScope(child, parent, mission) <==> !ScopeGrows(child, parent, mission.scope)
  {
    hide WithinMission, Scope, Beyond, ScopeGrows, Field, Strings;
    ScopeGrowsIff(child, parent, mission);
  }

  lemma ScopeGrowsNotTwice(child: Claims, parent: Claims, ancestor: Claims, mission: seq<string>)
    requires Scope(child, mission).Some? && Scope(parent, mission).Some? && Scope(ancestor, mission).Some?
    requires !ScopeGrows(child, parent, mission) && !ScopeGrows(parent, ancestor, mission)
    ensures !ScopeGrows(child, ancestor, mission)
  {
    hide Scope;
    var c, p, a := Scope(child, mission).value, Scope(parent, mission).value, Scope(ancestor, mission).value;
    forall x | x in c ensures !Beyond(x, a) {
      assert !Beyond(x, p);
      if x in p { assert !Beyond(x, a); } else { assert !Beyond("**", a); }
    }
  }

  predicate EachKeepsScope(gs: seq<Claims>, mission: Mission)
    requires Chain(gs, mission)
  {
    forall k :: 0 <= k < |gs| - 1 ==> KeepsScope(gs[k + 1], gs[k], mission)
  }

  lemma {:induction false} NoStepGrows(gs: seq<Claims>, mission: Mission, i: nat, j: nat)
    requires i <= j < |gs| && Chain(gs, mission) && EachKeepsScope(gs, mission)
    ensures !ScopeGrows(gs[j], gs[i], mission.scope)
    decreases j - i
  {
    hide KeepsScope, Narrows, Tools, Budget, Scope;
    if i < j {
      NoStepGrows(gs, mission, i, j - 1);
      assert KeepsScope(gs[j - 1 + 1], gs[j - 1], mission);
      KeepsScopeIff(gs[j], gs[j - 1], mission);
      ScopeGrowsNotTwice(gs[j], gs[j - 1], gs[i], mission.scope);
    }
  }

  /**
   Along a chain of any length no grant's session scope goes beyond any ancestor's exactly if at each
   link the child declares, or takes from the mission, nothing beyond what its parent declares.
   */
  lemma ScopeNeverGrowsIff(gs: seq<Claims>, mission: Mission)
    requires Chain(gs, mission)
    ensures (forall i, j :: 0 <= i <= j < |gs| ==> !ScopeGrows(gs[j], gs[i], mission.scope))
            <==> EachKeepsScope(gs, mission)
  {
    hide KeepsScope, ScopeGrows, Narrows, Tools, Budget, Scope;
    if EachKeepsScope(gs, mission) {
      forall i, j | 0 <= i <= j < |gs| ensures !ScopeGrows(gs[j], gs[i], mission.scope) { NoStepGrows(gs, mission, i, j); }
    }
    if forall i, j :: 0 <= i <= j < |gs| ==> !ScopeGrows(gs[j], gs[i], mission.scope) {
      forall k | 0 <= k < |gs| - 1 ensures KeepsScope(gs[k + 1], gs[k], mission) { KeepsScopeIff(gs[k + 1], gs[k], mission); }
    }
  }

  function ScopedGrant(depth: int, scope: Option<string>): Claims {
    var g := SampleGrant(depth, None);
    if scope.Some? then g["resource_scope" := Arr([Str(scope.value)])] else g
  }

  lemma ScopedReads(depth: int, scope: Option<string>)
    ensures var g := ScopedGrant(depth, scope);
            && Tools(g) == Some({"read"}) && DepthOf(g) == Some(depth) && MaxDepthOf(g) == Some(1)
            && Stamp(g, "iat") == Some(0) && Stamp(g, "exp") == Some(60) && Field(g, "mission_ref") == Null
            && Candidates(g) == Some([])
            && Field(g, "resource_scope") == if scope.Some? then Arr([Str(scope.value)]) else Null
  {
    hide DetailTools, Ours;
    SampleTools(depth, None);
    SampleCandidates(depth, None);
    SampleReads(depth, None);
    var g, b := ScopedGrant(depth, scope), SampleGrant(depth, None);
    assert Field(g, "authorization_details") == Field(b, "authorization_details");
    assert Detail(g) == Detail(b);
  }

  lemma ScopedWithin(depth: int, scope: Option<string>, mission: Mission)
    requires mission == Mission({"read"}, 10, 60, ["/a", "/b"]) && (scope.Some? ==> scope.value == "/a")
    ensures WithinMission(ScopedGrant(depth, scope), mission)
    ensures Scope(ScopedGrant(depth, scope), mission.scope) == Some(if scope.Some? then {"/a"} else {"/a", "/b"})
  {
    hide ScopedGrant, Tools, Candidates, DepthOf, MaxDepthOf, Stamp, Field;
    var g := ScopedGrant(depth, scope);
    ScopedReads(depth, scope);
    if scope.Some? {
      var v := Arr([Str(scope.value)]);
      assert StringList(v) && v.items[0].s in Strings(v) && Strings(v) == {"/a"};
    } else {
      assert (set x | x in mission.scope) == {"/a", "/b"};
    }
  }

  /** Such a chain: a parent restricted to one of the mission's two roots, and a child that says nothing and gets both. */
  lemma SilentChildRegainsScope()
    ensures var mission, parent, child := Mission({"read"}, 10, 60, ["/a", "/b"]), ScopedGrant(0, Some("/a")), ScopedGrant(1, None);
            && Chain([parent, child], mission)
            && Scope(parent, mission.scope) == Some({"/a"}) && Scope(child, mission.scope) == Some({"/a", "/b"})
  {
    hide ScopedGrant, Tools, Candidates, DepthOf, MaxDepthOf, Stamp, Field, Scope;
    var mission, parent, child := Mission({"read"}, 10, 60, ["/a", "/b"]), ScopedGrant(0, Some("/a")), ScopedGrant(1, None);
    ScopedReads(0, Some("/a"));
    ScopedReads(1, None);
    ScopedWithin(0, Some("/a"), mission);
    ScopedWithin(1, None, mission);
    assert Narrows(child, parent);
    ChainOfTwo(parent, child, mission);
  }
}
