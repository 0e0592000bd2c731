/** What a resource scope permits of local paths: the glob match, and then the comparison of resolved paths. */
module ScopeResolution {

  import opened Results
  import opened Text
  import opened Paths
  import opened Lists
  import opened BiscuitChain
  import opened ResourceScope

  // ---- the second half of the scope check -------------------------------------------------

  /** An entry whose root can be resolved: an absolute path, alone or with all that lies below it. */
  datatype Local = Local(root: string, below: bool)

  /** `_simple_local_scope_pattern`. */
  function LocalOf(p: string): Option<Local> {
    if p == "" || p[0] != '/' then None
    else
      var below := |p| >= 2 && p[|p| - 2..] == "/*";
      var root := if below then p[..|p| - 2] else p;
      if Literal(root) then Some(Local(if root == "" then "/" else root, below)) else None
  }

  function TrimSlashes(s: string): (r: string)
    ensures r <= s && (r == "" || r[|r| - 1] != '/')
  {
    if s != "" && s[|s| - 1] == '/' then TrimSlashes(s[..|s| - 1]) else s
  }

  /** What every path below a directory starts with. */
  function Dir(s: string): string {
    TrimSlashes(s) + ['/']
  }

  predicate Inside(candidate: string, root: string, below: bool) {
    candidate == root || (below && Dir(root) <= candidate)
  }

  predicate MatchedLocal(inSet: (string, char) -> bool, entry: string, resource: string) {
    LocalOf(entry).Some? && Glob(inSet, entry, resource)
  }

  /** The loop over the matching local entries; a root that cannot be resolved refuses at once. */
  predicate SomeRoot(inSet: (string, char) -> bool, resolve: string -> Option<string>, scope: seq<string>, resource: string, candidate: string) {
    if scope == [] then false
    else if !MatchedLocal(inSet, scope[0], resource) then SomeRoot(inSet, resolve, scope[1..], resource, candidate)
    else
      var l := LocalOf(scope[0]).value;
      resolve(l.root).Some?
      && (Inside(candidate, resolve(l.root).value, l.below) || SomeRoot(inSet, resolve, scope[1..], resource, candidate))
  }

  /** `_resolved_local_match`; `resolve` resolves links, and fails where resolving raises. */
  predicate Resolved(inSet: (string, char) -> bool, resolve: string -> Option<string>, scope: seq<string>, resource: string) {
    || resource == "" || resource[0] != '/'
    || (forall i :: 0 <= i < |scope| ==> !MatchedLocal(inSet, scope[i], resource))
    || (resolve(resource).Some? && SomeRoot(inSet, resolve, scope, resource, resolve(resource).value))
  }

  /** A sanitized resource is permitted if it matches the scope and, where a local entry matches, resolves inside one. */
  predicate Permits(inSet: (string, char) -> bool, resolve: string -> Option<string>, scope: seq<string>, resource: string) {
    Touches(inSet, scope, resource) && Resolved(inSet, resolve, scope, resource)
  }

  // ---- scopes of local entries -------------------------------------------------------------

  /** Every entry is local, and its root resolves to a path without a slash at its end. */
  predicate Settled(resolve: string -> Option<string>, scope: seq<string>) {
    forall i :: 0 <= i < |scope| ==> SettledEntry(resolve, scope[i])
  }

  predicate SettledEntry(resolve: string -> Option<string>, entry: string) {
    && LocalOf(entry).Some? && resolve(LocalOf(entry).value.root).Some?
    && var x := resolve(LocalOf(entry).value.root).value; x == "/" || (x != "" && x[|x| - 1] != '/')
  }

  function RootOf(resolve: string -> Option<string>, entry: string): string
    requires SettledEntry(resolve, entry)
  {
    resolve(LocalOf(entry).value.root).value
  }

  /** The entry lets the resource through: it matches, and the resolved resource lies inside its root. */
  predicate Admits(inSet: (string, char) -> bool, resolve: string -> Option<string>, entry: string, resource: string)
    requires SettledEntry(resolve, entry)
  {
    Glob(inSet, entry, resource) && resolve(resource).Some? && Inside(resolve(resource).value, RootOf(resolve, entry), LocalOf(entry).value.below)
  }

  lemma {:induction false} SomeRootIff(inSet: (string, char) -> bool, resolve: string -> Option<string>, scope: seq<string>, resource: string)
    requires Settled(resolve, scope) && resolve(resource).Some?
    ensures SomeRoot(inSet, resolve, scope, resource, resolve(resource).value) <==>
              exists i :: 0 <= i < |scope| && Admits(inSet, resolve, scope[i], resource)
  {
    hide Glob, LocalOf, Inside;
    if scope != [] {
      var rest := scope[1..];
      assert scope == [scope[0]] + rest;
      assert SettledEntry(resolve, scope[0]);
      assert forall i :: 0 <= i < |rest| ==> SettledEntry(resolve, rest[i]) by {
        forall i | 0 <= i < |rest| ensures SettledEntry(resolve, rest[i]) { assert rest[i] == scope[i + 1]; }
      }
      SomeRootIff(inSet, resolve, rest, resource);
      if exists i :: 0 <= i < |rest| && Admits(inSet, resolve, rest[i], resource) {
        var i :| 0 <= i < |rest| && Admits(inSet, resolve, rest[i], resource);
        assert scope[i + 1] == rest[i];
      }
      if exists i :: 0 <= i < |scope| && Admits(inSet, resolve, scope[i], resource) {
        var i :| 0 <= i < |scope| && Admits(inSet, resolve, scope[i], resource);
        assert i > 0 ==> rest[i - 1] == scope[i];
      }
    }
  }

  lemma LocalShape(entry: string)
    requires LocalOf(entry).Some?
    ensures StarOnly(entry) && entry != "" && entry[0] == '/' && entry != UNRESTRICTED
    ensures !LocalOf(entry).value.below ==> Literal(entry) && LocalOf(entry).value.root == entry
  {
    if LocalOf(entry).value.below {
      var root := entry[..|entry| - 2];
      assert entry == root + "/*";
    }
  }

  lemma MatchIsAbsolute(inSet: (string, char) -> bool, entry: string, resource: string)
    requires LocalOf(entry).Some? && Glob(inSet, entry, resource)
    ensures resource != "" && resource[0] == '/'
  {
    LocalShape(entry);
    assert Tokens(entry)[0] == Lit('/');
  }

  /** A scope of settled local entries permits exactly what one of its entries admits. */
  lemma PermitsIff(inSet: (string, char) -> bool, resolve: string -> Option<string>, scope: seq<string>, resource: string)
    requires Settled(resolve, scope) && StarAlone(scope)
    ensures Permits(inSet, resolve, scope, resource) <==> exists i :: 0 <= i < |scope| && Admits(inSet, resolve, scope[i], resource)
  {
    hide Glob, LocalOf, Inside, SomeRoot, StarAlone;
    if resolve(resource).Some? { SomeRootIff(inSet, resolve, scope, resource); }
    if Touches(inSet, scope, resource) {
      var i :| 0 <= i < |scope| && scope[i] != "" && Glob(inSet, scope[i], resource);
      assert SettledEntry(resolve, scope[i]) && MatchedLocal(inSet, scope[i], resource);
      MatchIsAbsolute(inSet, scope[i], resource);
    }
    if exists i :: 0 <= i < |scope| && Admits(inSet, resolve, scope[i], resource) {
      var i :| 0 <= i < |scope| && Admits(inSet, resolve, scope[i], resource);
      assert SettledEntry(resolve, scope[i]);
      LocalShape(scope[i]);
    }
  }

  // ---- when permission does not grow ---------------------------------------------------------

  /** The parent's entry matches the child's as a text, and the child's root resolves inside the parent's. */
  predicate Contains(inSet: (string, char) -> bool, resolve: string -> Option<string>, entry: string, parent: string)
    requires SettledEntry(resolve, entry) && SettledEntry(resolve, parent)
  {
    var c, q := LocalOf(entry).value, LocalOf(parent).value;
    && Glob(inSet, parent, entry)
    && if c.below then q.below && Dir(RootOf(resolve, parent)) <= Dir(RootOf(resolve, entry))
       else Inside(RootOf(resolve, entry), RootOf(resolve, parent), q.below)
  }

  /** A name that no entry and no resolved root of the parent mentions, and that nothing below a root of the child has. */
  predicate FreshName(resolve: string -> Option<string>, child: seq<string>, parent: seq<string>, z: char)
    requires Settled(resolve, child) && Settled(resolve, parent)
  {
    && z !in {'/', '*', '?', '['}
    && (forall k :: 0 <= k < |parent| ==> (assert SettledEntry(resolve, parent[k]); z !in parent[k] && z !in RootOf(resolve, parent[k])))
    && (forall i :: 0 <= i < |child| ==> (assert SettledEntry(resolve, child[i]); LocalOf(child[i]).value.below ==>
          resolve(Filled(child[i], z)) == Some(Dir(RootOf(resolve, child[i])) + [z])))
  }

  lemma TrimKeeps(s: string)
    requires s == "" || s[|s| - 1] != '/'
    ensures TrimSlashes(s) == s
  {
  }

  lemma DirOf(x: string)
    requires x == "/" || (x != "" && x[|x| - 1] != '/')
    ensures Dir(x) == if x == "/" then "/" else x + ['/']
  {
    if x != "/" { TrimKeeps(x); } else { assert x[..0] == ""; }
  }

  /** Inside the child's root is inside the parent's. */
  lemma InsideMore(candidate: string, c: string, q: string)
    requires (c == "/" || (c != "" && c[|c| - 1] != '/')) && (q == "/" || (q != "" && q[|q| - 1] != '/'))
    requires Dir(q) <= Dir(c) && Inside(candidate, c, true)
    ensures Inside(candidate, q, true)
  {
    DirOf(c);
    DirOf(q);
    if candidate == c && |Dir(q)| == |Dir(c)| {
      assert Dir(q) == Dir(c) && c != "/" ==> q == Dir(q)[..|q|];
    }
  }

  lemma ContainedAdmits(inSet: (string, char) -> bool, resolve: string -> Option<string>, entry: string, parent: string, resource: string)
    requires SettledEntry(resolve, entry) && SettledEntry(resolve, parent)
    requires Contains(inSet, resolve, entry, parent) && Admits(inSet, resolve, entry, resource)
    ensures Admits(inSet, resolve, parent, resource)
  {
    hide Matches, Tokens, LocalOf, Dir;
    LocalShape(entry);
    LocalShape(parent);
    if LocalOf(entry).value.below {
      TokensPlain(parent, '?');
      PlainForStar(parent);
      MatchCompose(inSet, Tokens(parent), entry, resource);
      InsideMore(resolve(resource).value, RootOf(resolve, entry), RootOf(resolve, parent));
    } else {
      LiteralMatchesItself(inSet, entry, resource);
    }
  }

  lemma PlainForStar(p: string)
    requires StarOnly(p) && PlainToks(Tokens(p), '?')
    ensures PlainToks(Tokens(p), '*')
  {
  }

  /** If every child entry is contained in a parent entry, the child permits nothing more. */
  lemma ContainedPermits(inSet: (string, char) -> bool, resolve: string -> Option<string>, child: seq<string>, parent: seq<string>, resource: string)
    requires Settled(resolve, child) && Settled(resolve, parent) && StarAlone(child) && StarAlone(parent)
    requires EachContained(inSet, resolve, child, parent) && Permits(inSet, resolve, child, resource)
    ensures Permits(inSet, resolve, parent, resource)
  {
    hide Permits, Admits, Contains, StarAlone, SettledEntry;
    PermitsIff(inSet, resolve, child, resource);
    PermitsIff(inSet, resolve, parent, resource);
    var i :| 0 <= i < |child| && Admits(inSet, resolve, child[i], resource);
    assert EntryContained(inSet, resolve, child[i], parent);
    var k :| 0 <= k < |parent| && Contains(inSet, resolve, child[i], parent[k]);
    ContainedAdmits(inSet, resolve, child[i], parent[k], resource);
  }

  predicate EntryContained(inSet: (string, char) -> bool, resolve: string -> Option<string>, entry: string, parent: seq<string>)
    requires SettledEntry(resolve, entry) && Settled(resolve, parent)
  {
    exists k :: 0 <= k < |parent| && (assert SettledEntry(resolve, parent[k]); Contains(inSet, resolve, entry, parent[k]))
  }

  predicate EachContained(inSet: (string, char) -> bool, resolve: string -> Option<string>, child: seq<string>, parent: seq<string>)
    requires Settled(resolve, child) && Settled(resolve, parent)
  {
    forall i :: 0 <= i < |child| ==> (assert SettledEntry(resolve, child[i]); EntryContained(inSet, resolve, child[i], parent))
  }

  /** What a child entry admits in any case: a path itself, or the fresh name below it. */
  lemma AdmitsProbe(inSet: (string, char) -> bool, resolve: string -> Option<string>, entry: string, z: char)
    requires SettledEntry(resolve, entry)
    requires LocalOf(entry).value.below ==> resolve(Filled(entry, z)) == Some(Dir(RootOf(resolve, entry)) + [z])
    ensures Admits(inSet, resolve, entry, Filled(entry, z))
  {
    hide Matches, Tokens, LocalOf, Dir, TrimSlashes;
    LocalShape(entry);
    FilledMatches(inSet, entry, z);
    if !LocalOf(entry).value.below { FilledLiteral(entry, z); }
  }

  lemma ProbeContained(inSet: (string, char) -> bool, resolve: string -> Option<string>, entry: string, parent: string, z: char)
    requires SettledEntry(resolve, entry) && SettledEntry(resolve, parent) && z !in {'/', '*', '?', '['}
    requires z !in parent && z !in RootOf(resolve, parent)
    requires LocalOf(entry).value.below ==> resolve(Filled(entry, z)) == Some(Dir(RootOf(resolve, entry)) + [z])
    requires Admits(inSet, resolve, parent, Filled(entry, z))
    ensures Contains(inSet, resolve, entry, parent)
  {
    hide Matches, Tokens, LocalOf, TrimSlashes;
    LocalShape(entry);
    LocalShape(parent);
    if !LocalOf(entry).value.below {
      FilledLiteral(entry, z);
    } else {
      TokensPlain(parent, z);
      UnfilledMatches(inSet, Tokens(parent), entry, z);
      var probe, c, q := Filled(entry, z), RootOf(resolve, entry), RootOf(resolve, parent);
      var resolved := Dir(c) + [z];
      assert resolved[|Dir(c)|] == z;
      assert resolved != q;
      assert LocalOf(parent).value.below && Dir(q) <= resolved;
      assert Dir(q)[|Dir(q)| - 1] == '/';
      assert |Dir(q)| <= |Dir(c)|;
    }
  }

  /**
   For local entries, which are those whose roots the check resolves: a child's scope permits no
   resource beyond its parent's exactly if for each of its entries the parent has one that matches it
   as a text and whose resolved root holds its resolved root.
   */
  lemma PermitsNoMoreIff(inSet: (string, char) -> bool, resolve: string -> Option<string>, child: seq<string>, parent: seq<string>, z: char)
    requires Settled(resolve, child) && Settled(resolve, parent) && StarAlone(child) && StarAlone(parent) && FreshName(resolve, child, parent, z)
    ensures (forall r :: Permits(inSet, resolve, child, r) ==> Permits(inSet, resolve, parent, r)) <==> EachContained(inSet, resolve, child, parent)
  {
    hide Permits, Admits, Contains, StarAlone, SettledEntry, LocalOf, Dir;
    if EachContained(inSet, resolve, child, parent) {
      forall r | Permits(inSet, resolve, child, r) ensures Permits(inSet, resolve, parent, r) {
        ContainedPermits(inSet, resolve, child, parent, r);
      }
    }
    if forall r :: Permits(inSet, resolve, child, r) ==> Permits(inSet, resolve, parent, r) {
      forall i | 0 <= i < |child| ensures SettledEntry(resolve, child[i]) && EntryContained(inSet, resolve, child[i], parent) {
        var probe := Filled(child[i], z);
        AdmitsProbe(inSet, resolve, child[i], z);
        PermitsIff(inSet, resolve, child, probe);
        PermitsIff(inSet, resolve, parent, probe);
        var k :| 0 <= k < |parent| && Admits(inSet, resolve, parent[k], probe);
        ProbeContained(inSet, resolve, child[i], parent[k], z);
      }
    }
  }

  // ---- an entry that is a link -----------------------------------------------------------------

  /** A child's entry that resolves outside the parent's roots: the patterns match no more, and permission still grows. */
  lemma LinkedEntryPermitsMore(inSet: (string, char) -> bool, resolve: string -> Option<string>)
    requires resolve("/a") == Some("/a") && resolve("/a/b") == Some("/etc/passwd")
    ensures DeriveScope(["/a", "/a/*"], ["/a/b"]) == Some(["/a/b"]) && Globbed(inSet, "/a/b", ["/a", "/a/*"])
    ensures Permits(inSet, resolve, ["/a/b"], "/a/b") && !Permits(inSet, resolve, ["/a", "/a/*"], "/a/b")
  {
    hide Glob, LocalOf, Permits, Admits, DeriveScope, Dir;
    var child, parent := ["/a/b"], ["/a", "/a/*"];
    LinkedDerives(child, parent);
    LocalSamples();
    assert SettledEntry(resolve, child[0]) && SettledEntry(resolve, parent[0]) && SettledEntry(resolve, parent[1]);
    PermitsIff(inSet, resolve, child, "/a/b");
    PermitsIff(inSet, resolve, parent, "/a/b");
    BelowMatches(inSet);
    assert Glob(inSet, parent[1], "/a/b");
    LinkAdmits(inSet, resolve);
  }

  lemma LinkAdmits(inSet: (string, char) -> bool, resolve: string -> Option<string>)
    requires resolve("/a") == Some("/a") && resolve("/a/b") == Some("/etc/passwd")
    requires SettledEntry(resolve, "/a/b") && SettledEntry(resolve, "/a") && SettledEntry(resolve, "/a/*")
    ensures Admits(inSet, resolve, "/a/b", "/a/b") && !Admits(inSet, resolve, "/a", "/a/b") && !Admits(inSet, resolve, "/a/*", "/a/b")
  {
    hide Glob, LocalOf, Dir;
    LocalSamples();
    LiteralMatchesItself(inSet, "/a/b", "/a/b");
    NotInside();
    assert RootOf(resolve, "/a/b") == "/etc/passwd" && RootOf(resolve, "/a") == "/a" && RootOf(resolve, "/a/*") == "/a";
  }

  lemma LinkedDerives(child: seq<string>, parent: seq<string>)
    requires child == ["/a/b"] && parent == ["/a", "/a/*"]
    ensures DeriveScope(parent, child) == Some(child)
  {
    hide NormalizeCwd, ScopeEntryNarrower, Dedupe;
    DedupeDistinct(child);
    BelowNarrower();
    assert EntryCovered(child[0], parent) by { assert parent[0] == "/a"; }
  }

  lemma LocalSamples()
    ensures LocalOf("/a") == Some(Local("/a", false)) && LocalOf("/a/b") == Some(Local("/a/b", false))
    ensures LocalOf("/a/*") == Some(Local("/a", true))
  {
    assert "/a/*"[2..] == "/*" && "/a/*"[..2] == "/a" && "/a"[0..] == "/a" && "/a/b"[2..] == "/b";
  }

  lemma BelowMatches(inSet: (string, char) -> bool)
    ensures Glob(inSet, "/a/*", "/a/b")
  {
    assert Filled("/a/*", 'b') == "/a/b" by {
      assert "/a/*"[1..] == "a/*" && "a/*"[1..] == "/*" && "/*"[1..] == "*" && "*"[1..] == "";
      assert Filled("*", 'b') == "b" && Filled("/*", 'b') == "/b" && Filled("a/*", 'b') == "a/b";
    }
    FilledMatches(inSet, "/a/*", 'b');
  }

  lemma NotInside()
    ensures !Inside("/etc/passwd", "/a", true) && !Inside("/etc/passwd", "/a", false)
  {
    DirOf("/a");
    assert Dir("/a")[1] == 'a' && "/etc/passwd"[1] == 'e';
  }
}
