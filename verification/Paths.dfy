/** Absolute paths as passports carry them: the cwd normal form and the subpath test. */
module Paths {

  import opened Results
  import opened Text

  /** `s.split("/")`. */
  function Split(s: string): (r: seq<string>)
    ensures |r| >= 1
  {
    if s == "" then [""]
    else
      var rest := Split(s[1..]);
      if s[0] == '/' then [""] + rest else [[s[0]] + rest[0]] + rest[1..]
  }

  /** `"/".join(segments)`. */
  function Join(segments: seq<string>): string {
    if segments == [] then ""
    else if |segments| == 1 then segments[0]
    else segments[0] + ['/'] + Join(segments[1..])
  }

  predicate Kept(segment: string) {
    segment != "" && segment != "."
  }

  function KeepSegments(segments: seq<string>): (r: seq<string>)
    ensures forall i :: 0 <= i < |r| ==> Kept(r[i]) && r[i] in segments
  {
    if segments == [] then []
    else if Kept(segments[0]) then [segments[0]] + KeepSegments(segments[1..])
    else KeepSegments(segments[1..])
  }

  /** `posixpath.normpath` keeps exactly two leading slashes, and otherwise one. */
  function Slashes(s: string): string
  {
    if |s| >= 2 && s[1] == '/' && !(|s| >= 3 && s[2] == '/') then "//" else "/"
  }

  /** `posixpath.normpath` of a path that starts with `/` and has no `..` segment. */
  function NormPath(s: string): string {
    Slashes(s) + Join(KeepSegments(Split(s)))
  }

  /** `_normalize_cwd`: blank reads as no cwd; relative paths and `..` segments are refused. */
  function NormalizeCwd(value: string): (r: Result<Option<string>, string>)
    ensures r.Ok? && r.value.Some? ==> r.value.value != "" && r.value.value[0] == '/'
  {
    var stripped := Strip(value);
    if stripped == "" then Ok(None)
    else if stripped[0] != '/' then Err("cwd must be an absolute path")
    else if ".." in Split(stripped) then Err("cwd must not contain '..' segments")
    else Ok(Some(NormPath(stripped)))
  }

  /** `_cwd_is_subpath`. */
  predicate IsSubpath(child: string, parent: string) {
    || child == parent
    || (if parent == "/" then child != "" && child[0] == '/' else parent + ['/'] <= child)
  }

  lemma SubpathTransitive(a: string, b: string, c: string)
    requires IsSubpath(a, b) && IsSubpath(b, c)
    ensures IsSubpath(a, c)
  {
    if a != b && b != c && c != "/" {
      assert c + ['/'] <= b;
      if b == "/" {
        assert |c + ['/']| <= 1;
        assert c + ['/'] == "/";
      } else {
        assert b + ['/'] <= a;
        PrefixOf(c + ['/'], b, a);
      }
    }
  }

  lemma PrefixOf(x: string, b: string, a: string)
    requires x <= b && b + ['/'] <= a
    ensures x <= a
  {
    assert forall i :: 0 <= i < |b| ==> a[i] == (b + ['/'])[i];
  }

  // ---- when the normal form is stable ---------------------------------------------

  predicate Slashless(s: string) {
    forall i :: 0 <= i < |s| ==> s[i] != '/'
  }

  lemma {:induction false} SplitSlashless(s: string)
    ensures forall i :: 0 <= i < |Split(s)| ==> Slashless(Split(s)[i])
  {
    if s != "" { SplitSlashless(s[1..]); }
  }

  /** A segment as the characters show it: it ends at slashes or at the ends of the text. */
  predicate SegmentAt(s: string, i: int, x: string) {
    && 0 <= i && i + |x| <= |s| && s[i..i + |x|] == x
    && (i == 0 || s[i - 1] == '/') && (i + |x| == |s| || s[i + |x|] == '/')
  }

  lemma SegmentShift(s: string, i: int, x: string)
    requires s != "" && i >= 1
    ensures SegmentAt(s, i, x) <==> SegmentAt(s[1..], i - 1, x) && (i > 1 || s[0] == '/')
  {
    var t, j, n := s[1..], i - 1, |x|;
    if i + n <= |s| {
      var here, there := s[i..i + n], t[j..j + n];
      forall k | 0 <= k < n ensures here[k] == there[k] { assert here[k] == s[i + k] == t[j + k]; }
      assert here == there;
    }
  }

  lemma SegmentFirst(s: string, x: string)
    requires s != "" && s[0] != '/'
    ensures SegmentAt(s, 0, x) <==> x != "" && x[0] == s[0] && SegmentAt(s[1..], 0, x[1..])
  {
    if x != "" && |x| <= |s| {
      assert s[0..|x|] == [s[0]] + s[1..][0..|x| - 1];
      assert x == [x[0]] + x[1..];
    }
  }

  lemma {:induction false} SplitPlaces(s: string, x: string)
    requires Slashless(x)
    ensures x == Split(s)[0] <==> SegmentAt(s, 0, x)
    ensures x in Split(s)[1..] <==> exists i :: i >= 1 && SegmentAt(s, i, x)
  {
    if s != "" {
      var rest := s[1..];
      forall i | i >= 1 ensures SegmentAt(s, i, x) <==> SegmentAt(rest, i - 1, x) && (i > 1 || s[0] == '/') { SegmentShift(s, i, x); }
      if s[0] == '/' {
        SplitPlaces(rest, x);
        assert Split(s)[1..] == Split(rest) == [Split(rest)[0]] + Split(rest)[1..];
        if x in Split(rest)[1..] {
          var i :| i >= 1 && SegmentAt(rest, i, x);
          assert SegmentAt(s, i + 1, x);
        }
        if SegmentAt(rest, 0, x) { assert SegmentAt(s, 1, x); }
      } else {
        SplitPlaces(rest, x);
        assert Split(s)[1..] == Split(rest)[1..];
        if x in Split(rest)[1..] {
          var i :| i >= 1 && SegmentAt(rest, i, x);
          assert SegmentAt(s, i + 1, x);
        }
        SegmentFirst(s, x);
        if x != "" {
          SplitPlaces(rest, x[1..]);
          assert x == [x[0]] + x[1..];
          assert Split(s)[0] == [s[0]] + Split(rest)[0] && Split(s)[0][1..] == Split(rest)[0];
        }
      }
    }
  }

  ghost predicate HasSegment(s: string, x: string) {
    exists i :: SegmentAt(s, i, x)
  }

  /** Splitting finds a segment exactly if the characters show it somewhere. */
  lemma SegmentIff(s: string, x: string)
    requires Slashless(x)
    ensures x in Split(s) <==> HasSegment(s, x)
  {
    SplitPlaces(s, x);
    assert Split(s) == [Split(s)[0]] + Split(s)[1..];
  }

  ghost predicate Upward(s: string) {
    HasSegment(s, "..")
  }

  lemma UpwardSplit(s: string)
    ensures Upward(s) <==> ".." in Split(s)
  {
    SegmentIff(s, "..");
  }

  /** One segment more than there are slashes. */
  lemma {:induction false} SplitCount(s: string)
    ensures |Split(s)| == 1 + multiset(s)['/']
  {
    if s != "" {
      SplitCount(s[1..]);
      assert s == [s[0]] + s[1..];
    }
  }

  lemma {:induction false} SplitHead(a: string, t: string)
    requires Slashless(a)
    ensures Split(a + ['/'] + t) == [a] + Split(t)
  {
    var s := a + ['/'] + t;
    if a == "" {
      assert s[1..] == t;
    } else {
      assert s[1..] == a[1..] + ['/'] + t;
      SplitHead(a[1..], t);
      assert a == [a[0]] + a[1..];
      assert ([a[1..]] + Split(t))[1..] == Split(t);
    }
  }

  lemma {:induction false} SplitOne(a: string)
    requires Slashless(a)
    ensures Split(a) == [a]
  {
    if a != "" {
      SplitOne(a[1..]);
      assert a == [a[0]] + a[1..];
    }
  }

  lemma {:induction false} SplitJoin(segments: seq<string>)
    requires segments != [] && (forall i :: 0 <= i < |segments| ==> Slashless(segments[i]))
    ensures Split(Join(segments)) == segments
  {
    if |segments| == 1 {
      SplitOne(segments[0]);
    } else {
      SplitJoin(segments[1..]);
      SplitHead(segments[0], Join(segments[1..]));
    }
  }

  lemma {:induction false} KeepKept(segments: seq<string>)
    requires forall i :: 0 <= i < |segments| ==> Kept(segments[i])
    ensures KeepSegments(segments) == segments
  {
    if segments != [] { KeepKept(segments[1..]); }
  }

  lemma SplitSlash(t: string)
    ensures Split(['/'] + t) == [""] + Split(t)
  {
    assert (['/'] + t)[1..] == t;
  }

  lemma KeepEmptyHead(segments: seq<string>)
    ensures KeepSegments([""] + segments) == KeepSegments(segments)
  {
    assert ([""] + segments)[1..] == segments;
  }

  /** A normal form splits back into the segments it was joined from. */
  lemma SegmentsOfNormal(lead: string, segments: seq<string>)
    requires (lead == "/" || lead == "//") && (forall i :: 0 <= i < |segments| ==> Kept(segments[i]) && Slashless(segments[i]))
    ensures KeepSegments(Split(lead + Join(segments))) == segments
    ensures Slashes(lead + Join(segments)) == lead
    ensures forall x :: x in Split(lead + Join(segments)) ==> x == "" || x in segments
  {
    var t := Join(segments);
    if segments == [] {
      assert Split(t) == [""];
      assert KeepSegments([""]) == [] by { assert [""][1..] == []; }
    } else {
      SplitJoin(segments);
      KeepKept(segments);
      JoinStarts(segments);
    }
    KeepEmptyHead(Split(t));
    SplitSlash(t);
    if lead == "//" {
      SplitSlash(['/'] + t);
      KeepEmptyHead([""] + Split(t));
      assert lead + t == ['/'] + (['/'] + t);
    } else {
      assert lead + t == ['/'] + t;
    }
  }

  lemma JoinStarts(segments: seq<string>)
    requires segments != [] && Kept(segments[0]) && Slashless(segments[0])
    ensures Join(segments) != "" && Join(segments)[0] != '/'
  {
  }

  /** Normalizing a normal form again changes nothing, unless it ends in white space that the second pass strips. */
  lemma NormalizeStable(value: string, y: string)
    requires NormalizeCwd(value) == Ok(Some(y)) && Trimmed(y)
    ensures NormalizeCwd(y) == Ok(Some(y))
  {
    hide Strip;
    var stripped := Strip(value);
    var segments := KeepSegments(Split(stripped));
    SplitSlashless(stripped);
    SegmentsOfNormal(Slashes(stripped), segments);
    StripTrimmed(y);
    assert ".." !in segments;
  }

  lemma {:induction false} JoinSplit(s: string)
    ensures Join(Split(s)) == s
  {
    if s != "" {
      JoinSplit(s[1..]);
      var rest := Split(s[1..]);
      assert s == [s[0]] + s[1..];
      if s[0] == '/' {
        assert ([""] + rest)[1..] == rest;
      } else {
        assert ([[s[0]] + rest[0]] + rest[1..])[1..] == rest[1..];
      }
    }
  }

  lemma {:induction false} KeepShrinks(segments: seq<string>)
    ensures |Join(KeepSegments(segments))| <= |Join(segments)|
  {
    if segments != [] {
      KeepShrinks(segments[1..]);
      var rest := KeepSegments(segments[1..]);
      assert ([segments[0]] + rest)[1..] == rest;
    }
  }

  /** A normal form is no longer than the path it came from. */
  lemma NormPathShrinks(s: string)
    requires s != "" && s[0] == '/'
    ensures |NormPath(s)| <= |s|
  {
    hide Split, KeepSegments, Join;
    var t := s[1..];
    assert s == ['/'] + t;
    SplitSlash(t);
    KeepEmptyHead(Split(t));
    if Slashes(s) == "//" {
      var u := t[1..];
      assert t == ['/'] + u;
      SplitSlash(u);
      KeepEmptyHead(Split(u));
      KeepShrinks(Split(u));
      JoinSplit(u);
    } else {
      KeepShrinks(Split(t));
      JoinSplit(t);
    }
  }

  /** The normal form is stable exactly if no white space is left at its end. */
  lemma NormalizeStableIff(value: string, y: string)
    requires NormalizeCwd(value) == Ok(Some(y))
    ensures NormalizeCwd(y) == Ok(Some(y)) <==> Trimmed(y)
  {
    hide Strip, NormPath, Split;
    if Trimmed(y) {
      NormalizeStable(value, y);
    } else {
      StripShrinks(y);
      if NormalizeCwd(y) == Ok(Some(y)) { NormPathShrinks(Strip(y)); }
    }
  }
}
