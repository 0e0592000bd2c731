/** Splitting a block's printed source into Datalog statements. */
module BlockStatements {

  import opened Results
  import opened Text

  /** Outside a quoted string, inside one, or just after its backslash. */
  datatype Mode = Plain | Quoted | Escaped

  function Next(m: Mode, c: char): Mode {
    match m
    case Plain => if c == '"' then Quoted else Plain
    case Quoted => if c == '\\' then Escaped else if c == '"' then Plain else Quoted
    case Escaped => Quoted
  }

  function Prepend(xs: seq<string>, rest: Option<seq<string>>): Option<seq<string>> {
    if rest.Some? then Some(xs + rest.value) else None
  }

  /** The statements of the rest of a source, read in a mode with a buffer; None where the splitter raises. */
  function Cut(m: Mode, buffer: string, s: string): Option<seq<string>>
    decreases |s|
  {
    if s == "" then (if m == Plain && Strip(buffer) == "" then Some([]) else None)
    else if m == Plain && s[0] == ';' then Prepend(Flushed(buffer + [s[0]]), Cut(Plain, "", s[1..]))
    else Cut(Next(m, s[0]), buffer + [s[0]], s[1..])
  }

  function Split(source: string): Option<seq<string>> {
    Cut(Plain, "", source)
  }

  function ModeOf(inString: bool, escaped: bool): Mode {
    if !inString then Plain else if escaped then Escaped else Quoted
  }

  /** `_split_block_statements`. */
  method SplitBlockStatements(source: string) returns (r: Option<seq<string>>)
    ensures r == Split(source)
  {
    hide Strip;
    var statements: seq<string> := [];
    var buffer := "";
    var inString, escaped := false, false;
    var i := 0;
    assert source[0..] == source && (Split(source).Some? ==> statements + Split(source).value == Split(source).value);
    while i < |source|
      invariant 0 <= i <= |source| && (escaped ==> inString)
      invariant Split(source) == Prepend(statements, Cut(ModeOf(inString, escaped), buffer, source[i..]))
    {
      var c := source[i];
      assert source[i..][0] == c && source[i..][1..] == source[i + 1..];
      buffer := buffer + [c];
      i := i + 1;
      if inString {
        if escaped {
          escaped := false;
        } else if c == '\\' {
          escaped := true;
        } else if c == '"' {
          inString := false;
        }
      } else if c == '"' {
        inString := true;
      } else if c == ';' {
        ghost var before := statements;
        ghost var rest := Cut(Plain, "", source[i..]);
        var statement := Strip(buffer);
        if statement != "" { statements := statements + [statement]; }
        assert rest.Some? ==> before + (Flushed(buffer) + rest.value) == statements + rest.value;
        buffer := "";
      }
    }
    if inString || Strip(buffer) != "" { return None; }
    assert statements + [] == statements;
    return Some(statements);
  }

  // ---- what the statements of a source are ---------------------------------------------------

  /** The text has one unquoted semicolon, its last character. */
  predicate Ends(m: Mode, s: string)
    decreases |s|
  {
    s != "" && if m == Plain && s[0] == ';' then |s| == 1 else Ends(Next(m, s[0]), s[1..])
  }

  predicate IsStatement(s: string) {
    Trimmed(s) && Ends(Plain, s)
  }

  function Concat(chunks: seq<string>): string {
    if chunks == [] then "" else chunks[0] + Concat(chunks[1..])
  }

  /** A source laid out as one padded chunk for each statement, and white space. */
  predicate Layout(source: string, statements: seq<string>, chunks: seq<string>, tail: string) {
    && source == Concat(chunks) + tail && AllBlank(tail)
    && |chunks| == |statements|
    && forall i :: 0 <= i < |chunks| ==> Ends(Plain, chunks[i]) && Strip(chunks[i]) == statements[i]
  }

  lemma {:induction false} EndsLast(m: Mode, s: string)
    requires Ends(m, s)
    ensures s != "" && s[|s| - 1] == ';'
    decreases |s|
  {
    if !(m == Plain && s[0] == ';') { EndsLast(Next(m, s[0]), s[1..]); }
  }

  lemma Visible()
    ensures !IsBlank(';') && !IsBlank('"') && IsBlank('\n')
  {
  }

  lemma VisibleStrips(s: string, i: nat)
    requires i < |s| && !IsBlank(s[i])
    ensures Strip(s) != ""
  {
    hide IsBlank, Strip;
    BlankStrips(s);
  }

  lemma EndsStrips(buffer: string, m: Mode, s: string)
    requires Ends(m, s)
    ensures Flushed(buffer + s) == [Strip(buffer + s)]
  {
    hide IsBlank, Strip, Ends;
    EndsLast(m, s);
    Visible();
    VisibleStrips(buffer + s, |buffer + s| - 1);
  }

  lemma {:induction false} CutChunk(m: Mode, buffer: string, s: string, t: string)
    requires Ends(m, s)
    ensures Cut(m, buffer, s + t) == Prepend([Strip(buffer + s)], Cut(Plain, "", t))
    decreases |s|
  {
    hide Strip;
    assert (s + t)[0] == s[0] && (s + t)[1..] == s[1..] + t;
    if m == Plain && s[0] == ';' {
      assert s == [s[0]] && s[1..] + t == t;
      EndsStrips(buffer, m, s);
    } else {
      CutChunk(Next(m, s[0]), buffer + [s[0]], s[1..], t);
      assert buffer + [s[0]] + s[1..] == buffer + s;
    }
  }

  lemma {:induction false} CutBlank(buffer: string, s: string)
    requires AllBlank(s) && AllBlank(buffer)
    ensures Cut(Plain, buffer, s) == Some([])
    decreases |s|
  {
    Visible();
    hide Strip, IsBlank;
    if s == "" { BlankStrips(buffer); } else { CutBlank(buffer + [s[0]], s[1..]); }
  }

  /** Every laid-out source splits into its statements. */
  lemma {:induction false} LayoutSplits(source: string, statements: seq<string>, chunks: seq<string>, tail: string)
    requires Layout(source, statements, chunks, tail)
    ensures Split(source) == Some(statements)
    decreases |chunks|
  {
    hide Strip, Ends;
    if chunks == [] {
      assert source == tail;
      CutBlank("", tail);
    } else {
      var rest := Concat(chunks[1..]) + tail;
      assert source == chunks[0] + rest;
      CutChunk(Plain, "", chunks[0], rest);
      assert "" + chunks[0] == chunks[0];
      LayoutSplits(rest, statements[1..], chunks[1..], tail);
      assert statements == [statements[0]] + statements[1..];
    }
  }

  /** The text consumed up to the first unquoted semicolon, if there is one. */
  lemma {:induction false} CutHead(m: Mode, buffer: string, s: string) returns (n: nat)
    requires Cut(m, buffer, s).Some? && (m != Plain || Strip(buffer) != "" || Cut(m, buffer, s).value != [])
    ensures 0 < n <= |s| && Ends(m, s[..n])
    decreases |s|
  {
    hide Strip;
    if m == Plain && s[0] == ';' {
      n := 1;
    } else {
      if Cut(m, buffer, s).value == [] { NoneLeft(m, buffer, s); }
      var k := CutHead(Next(m, s[0]), buffer + [s[0]], s[1..]);
      n := k + 1;
      assert s[..n][1..] == s[1..][..k];
    }
  }

  /** Leaving a string, or going on outside one, never empties the buffer. */
  lemma NoneLeft(m: Mode, buffer: string, s: string)
    requires s != "" && (m != Plain || Strip(buffer) != "")
    ensures Next(m, s[0]) == Plain ==> Strip(buffer + [s[0]]) != ""
  {
    hide IsBlank, Strip;
    var b := buffer + [s[0]];
    Visible();
    if m == Plain {
      BlankStrips(buffer);
      var i :| 0 <= i < |buffer| && !IsBlank(buffer[i]);
      VisibleStrips(b, i);
    } else if s[0] == '"' {
      VisibleStrips(b, |buffer|);
    }
  }

  /** Once something visible is buffered, the source either has a statement left or is rejected. */
  lemma VisibleLeavesMore(m: Mode, buffer: string, s: string)
    requires m != Plain || Strip(buffer) != ""
    ensures Cut(m, buffer, s) != Some([])
  {
    hide Strip, Ends, Cut;
    if Cut(m, buffer, s) == Some([]) {
      var n := CutHead(m, buffer, s);
      assert s == s[..n] + s[n..];
      CutChunk(m, buffer, s[..n], s[n..]);
    }
  }

  lemma {:induction false} NoStatementsIsBlank(buffer: string, s: string)
    requires Cut(Plain, buffer, s) == Some([])
    ensures AllBlank(s)
    decreases |s|
  {
    hide IsBlank, Strip;
    if s != "" {
      var b := buffer + [s[0]];
      Visible();
      if !IsBlank(s[0]) {
        VisibleStrips(b, |buffer|);
        VisibleLeavesMore(Next(Plain, s[0]), b, s[1..]);
      } else {
        NoStatementsIsBlank(b, s[1..]);
        assert forall i :: 1 <= i < |s| ==> s[i] == s[1..][i - 1];
      }
    }
  }

  /** Every source that splits is laid out so. */
  lemma {:induction false} SplitIsLayout(source: string, statements: seq<string>) returns (chunks: seq<string>, tail: string)
    requires Split(source) == Some(statements)
    ensures Layout(source, statements, chunks, tail)
    decreases |source|
  {
    hide Strip, Ends;
    if statements == [] {
      NoStatementsIsBlank("", source);
      chunks, tail := [], source;
    } else {
      var n := CutHead(Plain, "", source);
      var head, rest := source[..n], source[n..];
      assert source == head + rest && "" + head == head;
      CutChunk(Plain, "", head, rest);
      var more;
      more, tail := SplitIsLayout(rest, statements[1..]);
      chunks := [head] + more;
      assert chunks[1..] == more && source == Concat(chunks) + tail;
    }
  }

  // ---- the round trip ----------------------------------------------------------------------------

  /** `"\n".join(statements)`. */
  function JoinLines(statements: seq<string>): string {
    if statements == [] then ""
    else if |statements| == 1 then statements[0]
    else statements[0] + "\n" + JoinLines(statements[1..])
  }

  function Padded(statements: seq<string>): (chunks: seq<string>)
    ensures |chunks| == |statements| && forall i :: 0 <= i < |chunks| ==> chunks[i] == "\n" + statements[i]
  {
    seq(|statements|, i requires 0 <= i < |statements| => "\n" + statements[i])
  }

  lemma {:induction false} JoinIsConcat(statements: seq<string>)
    requires statements != []
    ensures JoinLines(statements) == statements[0] + Concat(Padded(statements[1..]))
  {
    var rest := statements[1..];
    if rest != [] {
      JoinIsConcat(rest);
      assert Padded(rest)[1..] == Padded(rest[1..]);
    }
  }

  lemma PaddedStrips(s: string)
    requires IsStatement(s)
    ensures Ends(Plain, "\n" + s) && Strip("\n" + s) == s && Strip(s) == s
  {
    assert ("\n" + s)[0] == '\n' && ("\n" + s)[1..] == s;
    Visible();
    hide IsBlank;
    StripTrimmed(s);
    assert StripLeft("\n" + s) == StripLeft(s);
  }

  /** Splitting inverts joining by newlines. */
  lemma JoinedSplits(statements: seq<string>)
    requires forall i :: 0 <= i < |statements| ==> IsStatement(statements[i])
    ensures Split(JoinLines(statements)) == Some(statements)
  {
    hide Strip, Ends, Cut, IsBlank, JoinLines;
    if statements == [] {
      CutBlank("", "");
      assert JoinLines(statements) == "" by { JoinNone(statements); }
    } else {
      var padded := Padded(statements[1..]);
      var chunks := [statements[0]] + padded;
      JoinIsConcat(statements);
      forall i | 0 <= i < |chunks| ensures Ends(Plain, chunks[i]) && Strip(chunks[i]) == statements[i] {
        PaddedStrips(statements[i]);
        assert i > 0 ==> chunks[i] == padded[i - 1];
      }
      assert chunks[1..] == padded;
      assert JoinLines(statements) == Concat(chunks) + "";
      LayoutSplits(JoinLines(statements), statements, chunks, "");
    }
  }

  lemma JoinNone(statements: seq<string>)
    requires statements == []
    ensures JoinLines(statements) == ""
  {
  }

  lemma {:induction false} EndsSkipsBlanks(pad: string, s: string)
    requires AllBlank(pad)
    ensures Ends(Plain, pad + s) <==> Ends(Plain, s)
  {
    Visible();
    hide IsBlank;
    if pad == "" {
      assert pad + s == s;
    } else {
      assert (pad + s)[0] == pad[0] && (pad + s)[1..] == pad[1..] + s;
      EndsSkipsBlanks(pad[1..], s);
    }
  }

  /** What the splitter returns are statements. */
  lemma SplitsIntoStatements(source: string, statements: seq<string>, i: nat)
    requires Split(source) == Some(statements) && i < |statements|
    ensures IsStatement(statements[i])
  {
    hide Strip, Ends, Cut, IsStatement;
    var chunks, tail := SplitIsLayout(source, statements);
    StrippedEnds(chunks[i]);
  }

  lemma StrippedEnds(chunk: string)
    requires Ends(Plain, chunk)
    ensures IsStatement(Strip(chunk))
  {
    Visible();
    hide IsBlank, Ends;
    var l := StripLeft(chunk);
    EndsLast(Plain, chunk);
    assert chunk == chunk[..|chunk| - |l|] + l;
    EndsSkipsBlanks(chunk[..|chunk| - |l|], l);
    EndsLast(Plain, l);
    StripIsTrimmed(chunk);
  }

  /** Joining what was split and splitting again changes nothing, whatever the source. */
  lemma SplitIsStable(source: string)
    requires Split(source).Some?
    ensures Split(JoinLines(Split(source).value)) == Split(source)
  {
    var statements := Split(source).value;
    forall i | 0 <= i < |statements| ensures IsStatement(statements[i]) { SplitsIntoStatements(source, statements, i); }
    JoinedSplits(statements);
  }

  function ModeAfter(m: Mode, s: string): Mode
    decreases |s|
  {
    if s == "" then m else ModeAfter(Next(m, s[0]), s[1..])
  }

  /** Where the text after the last unquoted semicolon starts. */
  function TailStart(m: Mode, s: string): (n: nat)
    ensures n <= |s|
    decreases |s|
  {
    if s == "" then 0
    else
      var rest := TailStart(Next(m, s[0]), s[1..]);
      if rest > 0 || (m == Plain && s[0] == ';') then rest + 1 else 0
  }

  lemma {:induction false} CutRejectsIff(m: Mode, buffer: string, s: string)
    ensures Cut(m, buffer, s) == None <==>
              ModeAfter(m, s) != Plain || Strip(if TailStart(m, s) == 0 then buffer + s else s[TailStart(m, s)..]) != ""
    decreases |s|
  {
    hide Strip;
    if s == "" {
      assert buffer + s == buffer;
    } else if m == Plain && s[0] == ';' {
      CutRejectsIff(Plain, "", s[1..]);
      assert "" + s[1..] == s[1..];
      assert s[TailStart(m, s)..] == s[1..][TailStart(m, s) - 1..];
    } else {
      CutRejectsIff(Next(m, s[0]), buffer + [s[0]], s[1..]);
      assert buffer + [s[0]] + s[1..] == buffer + s;
      assert TailStart(m, s) > 0 ==> s[TailStart(m, s)..] == s[1..][TailStart(m, s) - 1..];
    }
  }

  /** A source is rejected exactly if a string is left open or something visible follows its last semicolon. */
  lemma SplitRejectsIff(source: string)
    ensures Split(source) == None <==> ModeAfter(Plain, source) != Plain || !AllBlank(source[TailStart(Plain, source)..])
  {
    hide Strip, IsBlank;
    CutRejectsIff(Plain, "", source);
    var n := TailStart(Plain, source);
    assert n == 0 ==> "" + source == source[n..];
    BlankStrips(source[n..]);
  }

  // ---- statements as a grammar -------------------------------------------------------------------

  /** A character of a quoted string: one that stands for itself, or any one after a backslash. */
  datatype Unit = Itself(c: char) | After(c: char)

  /** A piece of a statement: a character outside of strings, or a quoted string. */
  datatype Piece = Code(c: char) | Literal(units: seq<Unit>)

  predicate GoodUnit(u: Unit) {
    u.Itself? ==> u.c != '"' && u.c != '\\'
  }

  predicate GoodPiece(p: Piece) {
    match p
    case Code(c) => c != '"' && c != ';'
    case Literal(units) => forall i :: 0 <= i < |units| ==> GoodUnit(units[i])
  }

  predicate GoodPieces(ps: seq<Piece>) {
    forall i :: 0 <= i < |ps| ==> GoodPiece(ps[i])
  }

  function UnitsText(units: seq<Unit>): string {
    if units == [] then "" else (if units[0].Itself? then [units[0].c] else ['\\', units[0].c]) + UnitsText(units[1..])
  }

  function PiecesText(ps: seq<Piece>): string {
    if ps == [] then ""
    else (match ps[0] case Code(c) => [c] case Literal(units) => ['"'] + UnitsText(units) + ['"']) + PiecesText(ps[1..])
  }

  ghost predicate Spelled(s: string) {
    exists ps :: GoodPieces(ps) && s == PiecesText(ps) + ";"
  }

  lemma {:induction false} LiteralCloses(units: seq<Unit>, rest: string)
    requires forall i :: 0 <= i < |units| ==> GoodUnit(units[i])
    ensures Ends(Quoted, UnitsText(units) + ['"'] + rest) <==> Ends(Plain, rest)
  {
    var s := UnitsText(units) + ['"'] + rest;
    if units == [] {
      assert s == ['"'] + rest && s[1..] == rest;
    } else {
      var more := UnitsText(units[1..]) + ['"'] + rest;
      LiteralCloses(units[1..], rest);
      assert GoodUnit(units[0]);
      if units[0].Itself? {
        assert s == [units[0].c] + more && s[1..] == more;
      } else {
        assert s == ['\\'] + ([units[0].c] + more) && s[1..] == [units[0].c] + more && s[1..][1..] == more;
      }
    }
  }

  lemma {:induction false} PiecesEnd(ps: seq<Piece>)
    requires GoodPieces(ps)
    ensures Ends(Plain, PiecesText(ps) + ";")
  {
    var s := PiecesText(ps) + ";";
    if ps == [] {
      assert s == ";";
    } else {
      assert GoodPiece(ps[0]);
      PiecesEnd(ps[1..]);
      var more := PiecesText(ps[1..]) + ";";
      if ps[0].Code? {
        assert s == [ps[0].c] + more && s[1..] == more;
      } else {
        LiteralCloses(ps[0].units, more);
        assert s == ['"'] + (UnitsText(ps[0].units) + ['"'] + more);
        assert s[1..] == UnitsText(ps[0].units) + ['"'] + more;
      }
    }
  }

  lemma {:induction false} ReadLiteral(s: string) returns (units: seq<Unit>, rest: string)
    requires Ends(Quoted, s)
    ensures (forall i :: 0 <= i < |units| ==> GoodUnit(units[i])) && s == UnitsText(units) + ['"'] + rest && Ends(Plain, rest)
    decreases |s|
  {
    if s[0] == '"' {
      units, rest := [], s[1..];
      assert s == ['"'] + rest;
    } else if s[0] == '\\' {
      var t := s[1..];
      var more;
      more, rest := ReadLiteral(t[1..]);
      units := [After(t[0])] + more;
      assert s == ['\\', t[0]] + t[1..] && units[1..] == more;
    } else {
      var more;
      more, rest := ReadLiteral(s[1..]);
      units := [Itself(s[0])] + more;
      assert s == [s[0]] + s[1..] && units[1..] == more;
    }
  }

  lemma {:induction false} ReadPieces(s: string) returns (ps: seq<Piece>)
    requires Ends(Plain, s)
    ensures GoodPieces(ps) && s == PiecesText(ps) + ";"
    decreases |s|
  {
    if s[0] == ';' {
      ps := [];
      assert s == ";";
    } else if s[0] == '"' {
      var units, rest := ReadLiteral(s[1..]);
      assert s == ['"'] + s[1..];
      var more := ReadPieces(rest);
      ps := [Literal(units)] + more;
      assert ps[1..] == more;
    } else {
      var more := ReadPieces(s[1..]);
      ps := [Code(s[0])] + more;
      assert s == [s[0]] + s[1..] && ps[1..] == more;
    }
  }

  /**
   What the splitter takes for a statement: a text without white space at its ends that consists of
   characters other than quotes and semicolons and of quoted strings, in which a backslash takes the
   next character with it, and then a semicolon.
   */
  lemma StatementIff(s: string)
    ensures IsStatement(s) <==> Trimmed(s) && Spelled(s)
  {
    hide Trimmed;
    if Ends(Plain, s) { var ps := ReadPieces(s); }
    if Spelled(s) {
      var ps :| GoodPieces(ps) && s == PiecesText(ps) + ";";
      PiecesEnd(ps);
    }
  }
}
