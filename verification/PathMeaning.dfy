/** What the cwd normal form and the subpath test say, in terms of characters and segments. */
module PathMeaning {

  import opened Results
  import opened Text
  import opened Paths

  // ---- the normal form ------------------------------------------------------------------------

  lemma {:induction false} KeptMembers(segments: seq<string>, x: string)
    ensures x in KeepSegments(segments) <==> x in segments && x != "" && x != "."
  {
    if segments != [] {
      KeptMembers(segments[1..], x);
      assert segments == [segments[0]] + segments[1..];
    }
  }

  /** The segments of a path, without those that say nothing. */
  function SegmentsOf(path: string): seq<string> {
    KeepSegments(Split(path))
  }

  lemma KeptSlashless(path: string)
    ensures forall i :: 0 <= i < |SegmentsOf(path)| ==> Kept(SegmentsOf(path)[i]) && Slashless(SegmentsOf(path)[i])
  {
    hide Split, Slashless;
    SplitSlashless(path);
  }

  /** Exactly two slashes in front. */
  predicate TwoSlashes(s: string) {
    |s| >= 2 && s[0] == '/' && s[1] == '/' && (|s| == 2 || s[2] != '/')
  }

  function Lead(s: string): string {
    if TwoSlashes(s) then "//" else "/"
  }

  /**
   A cwd is refused exactly if it is not blank and either not absolute or has a `..` segment. What is
   accepted is absolute again, keeps two slashes in front only where exactly two were, and has, in
   their order, the segments of the given one that are neither empty nor `.`.
   */
  lemma NormalizeMeaning(value: string)
    ensures NormalizeCwd(value).Err? <==> Strip(value) != "" && (Strip(value)[0] != '/' || Upward(Strip(value)))
    ensures NormalizeCwd(value) == Ok(None) <==> Strip(value) == ""
    ensures NormalizeCwd(value).Ok? && NormalizeCwd(value).value.Some? ==>
              var y, s := NormalizeCwd(value).value.value, Strip(value);
              && y[0] == '/' && SegmentsOf(y) == SegmentsOf(s) && y == Lead(s) + Join(SegmentsOf(s))
              && (forall x :: x in Split(y) ==> x == "" || (x != "." && x != ".." && HasSegment(s, x)))
              && (forall x :: HasSegment(s, x) && Slashless(x) && x != "" && x != "." ==> x in SegmentsOf(y))
  {
    hide Strip, Split, Join, Slashes, KeepSegments, SegmentsOf, Lead;
    var s := Strip(value);
    UpwardSplit(s);
    if s != "" && s[0] == '/' && !Upward(s) { NormalSegments(s); }
  }

  lemma NormalSegments(s: string)
    requires s != "" && s[0] == '/' && !Upward(s)
    ensures var y := NormPath(s);
            && y != "" && y[0] == '/' && SegmentsOf(y) == SegmentsOf(s) && y == Lead(s) + Join(SegmentsOf(s))
            && (forall x :: x in Split(y) ==> x == "" || (x != "." && x != ".." && HasSegment(s, x)))
            && (forall x :: HasSegment(s, x) && Slashless(x) && x != "" && x != "." ==> x in SegmentsOf(y))
  {
    hide Split, Join, KeepSegments, HasSegment;
    var y, segments := NormPath(s), SegmentsOf(s);
    KeptSlashless(s);
    SegmentsOfNormal(Slashes(s), segments);
    UpwardSplit(s);
    SplitSlashless(s);
    forall x | x in Split(y) ensures x == "" || (x != "." && x != ".." && HasSegment(s, x)) {
      if x != "" {
        KeptMembers(Split(s), x);
        SegmentIff(s, x);
      }
    }
    forall x | HasSegment(s, x) && Slashless(x) && x != "" && x != "." ensures x in SegmentsOf(y) {
      SegmentIff(s, x);
      KeptMembers(Split(s), x);
    }
  }

  // ---- the subpath test ------------------------------------------------------------------------

  lemma SameHead(x: string, y: string, a: string, b: string)
    requires Slashless(x) && Slashless(y) && (b == "" || b[0] == '/') && x + ['/'] + a <= y + b
    ensures x == y && b != "" && a <= b[1..]
  {
    var l, r := x + ['/'] + a, y + b;
    assert l[|x|] == '/' && forall i :: 0 <= i < |l| ==> l[i] == r[i];
    assert forall i :: 0 <= i < |x| ==> l[i] == x[i];
    assert forall i :: 0 <= i < |y| ==> r[i] == y[i];
    assert |x| >= |y|;
    assert |x| <= |y| by { assert b != "" ==> r[|y|] == '/'; }
    assert x == y by { assert forall i :: 0 <= i < |x| ==> x[i] == y[i]; }
    forall i | 0 <= i < |a| ensures b[1 + i] == a[i] { assert l[|x| + 1 + i] == a[i] && r[|y| + 1 + i] == b[1 + i]; }
  }

  function Tail(segments: seq<string>): string
    requires segments != []
  {
    if |segments| == 1 then "" else ['/'] + Join(segments[1..])
  }

  lemma JoinTail(segments: seq<string>)
    requires segments != []
    ensures Join(segments) == segments[0] + Tail(segments)
  {
    if |segments| > 1 { assert segments[0] + ['/'] + Join(segments[1..]) == segments[0] + (['/'] + Join(segments[1..])); }
  }

  /** A joined list is continued by another exactly if it is a proper prefix of it. */
  lemma {:induction false} JoinPrefixIff(a: seq<string>, b: seq<string>)
    requires a != [] && (forall i :: 0 <= i < |a| ==> Slashless(a[i])) && (forall i :: 0 <= i < |b| ==> Slashless(b[i]))
    requires forall i :: 0 <= i < |b| ==> b[i] != ""
    ensures Join(a) + ['/'] <= Join(b) <==> a < b
    decreases |a|
  {
    hide Slashless;
    if b != [] {
      JoinTail(a);
      JoinTail(b);
      if |a| == 1 {
        if Join(a) + ['/'] <= Join(b) { SameHead(a[0], b[0], "", Tail(b)); PrefixOfOne(a, b); }
        if a < b { assert b[0] == a[0] && |b| > 1; TailContinues(a[0], "", Join(b[1..])); }
      } else {
        var more := Join(a[1..]) + ['/'];
        assert Join(a) + ['/'] == a[0] + ['/'] + more;
        if Join(a) + ['/'] <= Join(b) {
          SameHead(a[0], b[0], more, Tail(b));
          assert |b| > 1 && Tail(b)[1..] == Join(b[1..]);
          JoinPrefixIff(a[1..], b[1..]);
          PrefixMore(a, b);
        }
        if a < b {
          assert b[0] == a[0] && a[1..] < b[1..];
          JoinPrefixIff(a[1..], b[1..]);
          TailContinues(a[0], more, Join(b[1..]));
        }
      }
    }
  }

  lemma PrefixOfOne(a: seq<string>, b: seq<string>)
    requires |a| == 1 && b != [] && a[0] == b[0] && Tail(b) != ""
    ensures a < b
  {
  }

  lemma PrefixMore(a: seq<string>, b: seq<string>)
    requires a != [] && b != [] && a[0] == b[0] && a[1..] < b[1..]
    ensures a < b
  {
    assert a == [a[0]] + a[1..] && b == [b[0]] + b[1..];
  }

  lemma TailContinues(x: string, a: string, b: string)
    requires a <= b
    ensures x + ['/'] + a <= x + (['/'] + b)
  {
    assert b == a + b[|a|..];
    assert x + (['/'] + b) == x + ['/'] + a + b[|a|..];
  }

  lemma {:induction false} JoinInjective(a: seq<string>, b: seq<string>)
    requires (forall i :: 0 <= i < |a| ==> Slashless(a[i]) && a[i] != "") && (forall i :: 0 <= i < |b| ==> Slashless(b[i]) && b[i] != "")
    ensures Join(a) == Join(b) ==> a == b
  {
    if Join(a) == Join(b) && a != [] && b != [] {
      SplitJoin(a);
      SplitJoin(b);
    }
  }

  /** A path in the normal form. */
  predicate Normal(lead: string, segments: seq<string>) {
    (lead == "/" || lead == "//") && forall i :: 0 <= i < |segments| ==> Kept(segments[i]) && Slashless(segments[i])
  }

  lemma LeadApart(lead: string, s: seq<string>, lead': string, s': seq<string>)
    requires Normal(lead, s) && Normal(lead', s') && s != [] && lead + Join(s) <= lead' + Join(s')
    ensures lead == lead' && Join(s) <= Join(s')
  {
    hide Slashless, Kept;
    assert Join(s) != "" && Join(s)[0] != '/' by { assert Kept(s[0]) && Slashless(s[0]); JoinStarts(s); }
    if s' != [] { assert Join(s') != "" && Join(s')[0] != '/' by { assert Kept(s'[0]) && Slashless(s'[0]); JoinStarts(s'); } }
    var l, r := lead + Join(s), lead' + Join(s');
    assert forall i :: 0 <= i < |l| ==> l[i] == r[i];
    assert (lead == "/" ==> l[1] == Join(s)[0]) && (lead == "//" ==> l[1] == '/');
    assert (lead' == "/" && s' != [] ==> r[1] == Join(s')[0]) && (lead' == "//" ==> r[1] == '/');
    forall i | 0 <= i < |Join(s)| && lead == lead' ensures Join(s)[i] == Join(s')[i] { assert l[|lead| + i] == r[|lead| + i]; }
  }

  /**
   On normal forms the subpath test is the prefix test on segments: every path is below `/`, and else
   the leading slashes agree and the parent's segments begin the child's; below `//` itself is only `//`.
   */
  lemma SubpathIff(lead: string, s: seq<string>, lead': string, s': seq<string>)
    requires Normal(lead, s) && Normal(lead', s')
    ensures IsSubpath(lead + Join(s), lead' + Join(s')) <==>
              (lead' == "/" && s' == []) || (lead == lead' && s' <= s && (s' == [] ==> s == []))
  {
    hide Normal, IsSubpath, Join;
    if s' == [] {
      RootCase(lead, s, lead');
    } else {
      SubpathOfSegments(lead, s, lead', s');
    }
  }

  lemma SubpathOfSegments(lead: string, s: seq<string>, lead': string, s': seq<string>)
    requires Normal(lead, s) && Normal(lead', s') && s' != []
    ensures IsSubpath(lead + Join(s), lead' + Join(s')) <==> lead == lead' && s' <= s
  {
    hide Normal, Join;
    var child, parent := lead + Join(s), lead' + Join(s');
    assert parent != "/" by { NotRoot(lead', s'); }
    if child == parent { SamePath(lead, s, lead', s'); }
    if parent + ['/'] <= child { Continued(lead, s, lead', s'); }
    if lead == lead' && s' <= s {
      if |s'| < |s| { Continues(lead, s, s'); } else { assert s == s'; }
    }
  }

  lemma NotRoot(lead: string, s: seq<string>)
    requires Normal(lead, s) && s != []
    ensures lead + Join(s) != "/" && Join(s) != "" && Join(s)[0] != '/'
  {
    hide Slashless, Kept;
    assert Kept(s[0]) && Slashless(s[0]);
    JoinStarts(s);
  }

  lemma SamePath(lead: string, s: seq<string>, lead': string, s': seq<string>)
    requires Normal(lead, s) && Normal(lead', s') && s' != [] && lead + Join(s) == lead' + Join(s')
    ensures lead == lead' && s == s'
  {
    hide Slashless;
    LeadApart(lead', s', lead, s);
    NotRoot(lead', s');
    assert |Join(s)| == |Join(s')|;
    JoinInjective(s, s');
  }

  lemma Continues(lead: string, s: seq<string>, s': seq<string>)
    requires Normal(lead, s) && Normal(lead, s') && s' != [] && s' < s
    ensures lead + Join(s') + ['/'] <= lead + Join(s)
  {
    hide Slashless;
    JoinPrefixIff(s', s);
    var j := Join(s') + ['/'];
    assert Join(s) == j + Join(s)[|j|..];
    assert lead + Join(s) == lead + Join(s') + ['/'] + Join(s)[|j|..];
  }

  lemma Continued(lead: string, s: seq<string>, lead': string, s': seq<string>)
    requires Normal(lead, s) && Normal(lead', s') && s' != [] && lead' + Join(s') + ['/'] <= lead + Join(s)
    ensures lead == lead' && s' < s
  {
    hide Slashless, Join;
    var l, r := lead' + Join(s'), lead + Join(s);
    assert l <= r by { assert forall i :: 0 <= i < |l| ==> l[i] == (l + ['/'])[i]; }
    LeadApart(lead', s', lead, s);
    var j := Join(s') + ['/'];
    assert l + ['/'] == lead' + j;
    assert j <= Join(s) by { forall i | 0 <= i < |j| ensures j[i] == Join(s)[i] { assert (lead' + j)[|lead'| + i] == r[|lead| + i]; } }
    JoinPrefixIff(s', s);
  }

  lemma RootCase(lead: string, s: seq<string>, lead': string)
    requires Normal(lead, s) && Normal(lead', [])
    ensures IsSubpath(lead + Join(s), lead' + Join([])) <==> lead' == "/" || (lead == lead' && s == [])
  {
    hide Kept;
    var child, parent := lead + Join(s), lead' + Join([]);
    assert parent == lead';
    if s != [] {
      assert Join(s) != "" && Join(s)[0] != '/' by { assert Kept(s[0]) && Slashless(s[0]); JoinStarts(s); }
      assert child[|lead|] == Join(s)[0];
    } else {
      assert child == lead;
    }
    if lead' == "//" { assert parent + ['/'] == "///"; }
  }

  // ---- scope entries and cwds as they are written -------------------------------------------------

  /** One path is another or lies below it, read from their texts. */
  predicate Below(child: string, parent: string) {
    var c, p := SegmentsOf(child), SegmentsOf(parent);
    (p == [] && !TwoSlashes(parent)) || (TwoSlashes(child) == TwoSlashes(parent) && p <= c && (p == [] ==> c == []))
  }

  lemma NormalOf(s: string)
    ensures Normal(Lead(s), SegmentsOf(s))
  {
    hide Split, KeepSegments, Slashless, Kept;
    KeptSlashless(s);
  }

  lemma NormPathOf(s: string)
    requires s != "" && s[0] == '/'
    ensures NormPath(s) == Lead(s) + Join(SegmentsOf(s))
  {
  }

  /** On paths that do not go upward, normalizing both and testing is `Below`. */
  lemma NormalizedSubpathIff(child: string, parent: string)
    requires child != "" && child[0] == '/' && parent != "" && parent[0] == '/'
    ensures IsSubpath(NormPath(child), NormPath(parent)) <==> Below(child, parent)
  {
    hide IsSubpath, NormPath, SegmentsOf, Join, Normal;
    NormalOf(child);
    NormalOf(parent);
    NormPathOf(child);
    NormPathOf(parent);
    SubpathIff(Lead(child), SegmentsOf(child), Lead(parent), SegmentsOf(parent));
  }

  lemma StripKeepsSlash(s: string)
    requires s != "" && s[0] == '/'
    ensures Strip(s) != "" && Strip(s)[0] == '/'
  {
    assert StripLeft(s) == s && s[|Strip(s)|..] == s[|StripRight(s)|..];
  }
}
