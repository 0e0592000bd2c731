/** The facts of one Biscuit block, and the typed reads that verification makes of them. */
module PassportFacts {

  import opened Results
  import opened Lists

  datatype Term = TStr(s: string) | TInt(i: int) | TBool(b: bool)

  /** The fact names that verification knows, and any other. */
  datatype Name =
    | AgentId | Mission | MissionId | IssuerSpiffeId | SpiffeId | Jti | ParentJti
    | Iat | Exp | MaxToolCalls | MaxDuration | DelegationAllowed | MaxDelegationDepth | Cwd
    | AllowedTool | ForbiddenTool | ResourceScope | ResourceScopeEmpty | AllowedSideEffectClass | MaxToolCallsPerClass
    | Other(text: string)

  datatype Fact = Fact(name: Name, terms: seq<Term>)

  /** A block: its facts, and the bounds n of its checks `time($t), $t <= n`. */
  datatype Block = Block(facts: seq<Fact>, checks: seq<int>)

  /** `block.get(name, [])`; the name is "in" the block exactly if there is a row. */
  function Rows(facts: seq<Fact>, name: Name): seq<seq<Term>> {
    if facts == [] then []
    else if facts[0].name == name then [facts[0].terms] + Rows(facts[1..], name)
    else Rows(facts[1..], name)
  }

  function RequiredStr(facts: seq<Fact>, name: Name): Option<string> {
    var rows := Rows(facts, name);
    if |rows| == 1 && |rows[0]| == 1 && rows[0][0].TStr? then Some(rows[0][0].s) else None
  }

  function RequiredInt(facts: seq<Fact>, name: Name): Option<int> {
    var rows := Rows(facts, name);
    if |rows| == 1 && |rows[0]| == 1 && rows[0][0].TInt? then Some(rows[0][0].i) else None
  }

  function RequiredBool(facts: seq<Fact>, name: Name): Option<bool> {
    var rows := Rows(facts, name);
    if |rows| == 1 && |rows[0]| == 1 && rows[0][0].TBool? then Some(rows[0][0].b) else None
  }

  /** None where the read raises. */
  function OptionalStr(facts: seq<Fact>, name: Name): Option<Option<string>> {
    if Rows(facts, name) == [] then Some(None)
    else match RequiredStr(facts, name)
         case None => None
         case Some(s) => Some(Some(s))
  }

  predicate StrRow(row: seq<Term>) {
    |row| == 1 && row[0].TStr?
  }

  function Strings(rows: seq<seq<Term>>): (r: seq<string>)
    requires forall i :: 0 <= i < |rows| ==> StrRow(rows[i])
  {
    seq(|rows|, i requires 0 <= i < |rows| => (assert StrRow(rows[i]); rows[i][0].s))
  }

  /** `_fact_values` for strings. */
  function StrValues(facts: seq<Fact>, name: Name): Option<seq<string>> {
    var rows := Rows(facts, name);
    if forall i :: 0 <= i < |rows| ==> StrRow(rows[i]) then Some(Strings(rows)) else None
  }

  predicate PairRow(row: seq<Term>) {
    |row| == 2 && row[0].TStr? && row[1].TInt?
  }

  function Pairs(rows: seq<seq<Term>>): map<string, int>
    requires forall i :: 0 <= i < |rows| ==> PairRow(rows[i])
  {
    if rows == [] then map[]
    else
      var last := rows[|rows| - 1];
      assert PairRow(last);
      Pairs(rows[..|rows| - 1])[last[0].s := last[1].i]
  }

  /** `_pair_values`. */
  function PairValues(facts: seq<Fact>, name: Name): Option<map<string, int>> {
    var rows := Rows(facts, name);
    if forall i :: 0 <= i < |rows| ==> PairRow(rows[i]) then Some(Pairs(rows)) else None
  }

  /** A list-valued fact of a child block: absent means "inherit". */
  function DeclaredStrs(facts: seq<Fact>, name: Name): Option<Option<seq<string>>> {
    if Rows(facts, name) == [] then Some(None)
    else match StrValues(facts, name)
         case None => None
         case Some(xs) => Some(Some(xs))
  }

  // ---- writing facts ---------------------------------------------------------------

  /** The facts of one name, as a builder adds them. */
  datatype Group = Group(name: Name, rows: seq<seq<Term>>)

  function GroupFacts(g: Group): seq<Fact> {
    seq(|g.rows|, i requires 0 <= i < |g.rows| => Fact(g.name, g.rows[i]))
  }

  function Flatten(gs: seq<Group>): seq<Fact> {
    if gs == [] then [] else GroupFacts(gs[0]) + Flatten(gs[1..])
  }

  function StrRows(xs: seq<string>): (r: seq<seq<Term>>)
    ensures |r| == |xs| && forall i :: 0 <= i < |r| ==> StrRow(r[i]) && r[i][0].s == xs[i]
  {
    seq(|xs|, i requires 0 <= i < |xs| => [TStr(xs[i])])
  }

  lemma {:induction false} RowsConcat(a: seq<Fact>, b: seq<Fact>, name: Name)
    ensures Rows(a + b, name) == Rows(a, name) + Rows(b, name)
  {
    if a == [] {
      assert a + b == b;
    } else {
      assert (a + b)[1..] == a[1..] + b;
      RowsConcat(a[1..], b, name);
    }
  }

  lemma {:induction false} RowsUniform(facts: seq<Fact>, own: Name, name: Name)
    requires forall i :: 0 <= i < |facts| ==> facts[i].name == own
    ensures Rows(facts, name) == if own == name then seq(|facts|, i requires 0 <= i < |facts| => facts[i].terms) else []
  {
    if facts != [] {
      RowsUniform(facts[1..], own, name);
      assert facts == [facts[0]] + facts[1..];
    }
  }

  lemma {:induction false} RowsOfAbsent(gs: seq<Group>, name: Name)
    requires forall i :: 0 <= i < |gs| ==> gs[i].name != name
    ensures Rows(Flatten(gs), name) == []
  {
    if gs != [] {
      RowsConcat(GroupFacts(gs[0]), Flatten(gs[1..]), name);
      RowsUniform(GroupFacts(gs[0]), gs[0].name, name);
      RowsOfAbsent(gs[1..], name);
    }
  }

  /** A block built from groups of distinct names reads back each group. */
  lemma {:induction false} RowsOfGroup(gs: seq<Group>, k: nat)
    requires k < |gs| && (forall i, j :: 0 <= i < j < |gs| ==> gs[i].name != gs[j].name)
    ensures Rows(Flatten(gs), gs[k].name) == gs[k].rows
  {
    RowsConcat(GroupFacts(gs[0]), Flatten(gs[1..]), gs[k].name);
    RowsUniform(GroupFacts(gs[0]), gs[0].name, gs[k].name);
    if k == 0 {
      RowsOfAbsent(gs[1..], gs[0].name);
    } else {
      RowsOfGroup(gs[1..], k - 1);
    }
  }

  /** The groups of a builder that adds a fixed order of names, each with its rows. */
  function GroupsOf(n: nat, nameAt: nat -> Name, rows: Name -> seq<seq<Term>>): seq<Group> {
    seq(n, k requires 0 <= k < n => Group(nameAt(k), rows(nameAt(k))))
  }

  predicate NamesDiffer(n: nat, nameAt: nat -> Name) {
    forall i, k :: 0 <= i < k < n ==> nameAt(i) != nameAt(k)
  }

  /** Each name of such a builder reads back exactly the rows written under it. */
  lemma NamedRows(n: nat, nameAt: nat -> Name, rows: Name -> seq<seq<Term>>, k: nat)
    requires k < n && NamesDiffer(n, nameAt)
    ensures Rows(Flatten(GroupsOf(n, nameAt, rows)), nameAt(k)) == rows(nameAt(k))
  {
    hide Rows, Flatten;
    RowsOfGroup(GroupsOf(n, nameAt, rows), k);
  }

  lemma UnnamedRows(n: nat, nameAt: nat -> Name, rows: Name -> seq<seq<Term>>, name: Name)
    requires forall k :: 0 <= k < n ==> nameAt(k) != name
    ensures Rows(Flatten(GroupsOf(n, nameAt, rows)), name) == []
  {
    hide Rows, Flatten;
    RowsOfAbsent(GroupsOf(n, nameAt, rows), name);
  }

  // ---- lists and caps, written and read back -------------------------------------------

  ghost function Listing(keys: set<string>): (r: seq<string>)
    ensures forall x :: x in r <==> x in keys
    ensures forall i, j :: 0 <= i < j < |r| ==> r[i] != r[j]
  {
    if keys == {} then [] else var x :| x in keys; [x] + Listing(keys - {x})
  }

  function CapRows(caps: map<string, int>, keys: seq<string>): (r: seq<seq<Term>>)
    requires forall i :: 0 <= i < |keys| ==> keys[i] in caps
    ensures |r| == |keys| && forall i :: 0 <= i < |r| ==> PairRow(r[i]) && r[i][0].s == keys[i] && r[i][1].i == caps[keys[i]]
  {
    seq(|keys|, i requires 0 <= i < |keys| => [TStr(keys[i]), TInt(caps[keys[i]])])
  }

  /** The rows of `sorted(caps.items())`. */
  ghost function AllCapRows(caps: map<string, int>): (r: seq<seq<Term>>) {
    SortedSame(Listing(caps.Keys));
    CapRows(caps, Sorted(Listing(caps.Keys)))
  }

  lemma {:induction false} PairsOf(rows: seq<seq<Term>>, caps: map<string, int>, keys: seq<string>)
    requires forall i :: 0 <= i < |keys| ==> keys[i] in caps
    requires forall i, j :: 0 <= i < j < |keys| ==> keys[i] != keys[j]
    requires rows == CapRows(caps, keys)
    ensures forall x :: x in Pairs(rows) <==> x in keys
    ensures forall x :: x in keys ==> Pairs(rows)[x] == caps[x]
  {
    if keys != [] {
      var init := keys[..|keys| - 1];
      assert keys == init + [keys[|keys| - 1]];
      assert rows[..|rows| - 1] == CapRows(caps, init);
      PairsOf(rows[..|rows| - 1], caps, init);
    }
  }

  lemma CapKeys(caps: map<string, int>, keys: seq<string>)
    requires keys == Sorted(Listing(caps.Keys))
    ensures forall x :: x in keys <==> x in caps
    ensures forall i, j :: 0 <= i < j < |keys| ==> keys[i] != keys[j]
    ensures keys == [] <==> caps == map[]
  {
    var listed := Listing(caps.Keys);
    SortedSame(listed);
    SortedDistinct(listed);
    if caps != map[] {
      var x :| x in caps;
      assert x in keys;
    }
  }

  lemma CapsReadBack(facts: seq<Fact>, caps: map<string, int>)
    requires Rows(facts, MaxToolCallsPerClass) == AllCapRows(caps)
    ensures PairValues(facts, MaxToolCallsPerClass) == Some(caps)
    ensures Rows(facts, MaxToolCallsPerClass) == [] <==> caps == map[]
  {
    hide Rows, Sorted, Listing, Pairs;
    var keys := Sorted(Listing(caps.Keys));
    CapKeys(caps, keys);
    PairsOf(AllCapRows(caps), caps, keys);
    assert Pairs(AllCapRows(caps)) == caps;
  }

  function DeclaredIfAny<T>(xs: seq<T>): Option<seq<T>> {
    if xs == [] then None else Some(xs)
  }

  lemma StrsReadBack(facts: seq<Fact>, name: Name, xs: seq<string>)
    requires Rows(facts, name) == StrRows(xs)
    ensures DeclaredStrs(facts, name) == Some(DeclaredIfAny(xs))
  {
    assert Strings(StrRows(xs)) == xs;
  }
}
