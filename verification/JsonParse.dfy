/** Parsing JSON texts as `json.loads` does, the partner of how the daemon writes them. */
module JsonParse {

  import opened Results
  import opened JsonText
  import opened JsonStrings

  // ---- the parser ------------------------------------------------------------------------

  /** The text after any JSON white space. */
  function Ws(t: string): (r: string)
    ensures |r| <= |t|
  {
    if t != "" && t[0] in {' ', '\t', '\n', '\r'} then Ws(t[1..]) else t
  }

  /** Where the quote stands that ends a string, from inside it. */
  function CloseQuote(t: string): (r: Option<nat>)
    ensures r.Some? ==> r.value < |t|
    decreases |t|
  {
    if t == "" then None
    else if t[0] == '"' then Some(0)
    else
      var n := if t[0] == '\\' then 2 else 1;
      if |t| < n then None
      else match CloseQuote(t[n..])
           case None => None
           case Some(k) => Some(n + k)
  }

  /** A string, from after its opening quote: its characters and the text behind it. */
  function ParseChars(t: string): (r: Option<(seq<Code>, string)>)
    ensures r.Some? ==> |r.value.1| < |t|
  {
    match CloseQuote(t)
    case None => None
    case Some(k) =>
      match Unescape(t[..k])
      case None => None
      case Some(cs) => Some((cs, t[k + 1..]))
  }

  /** The length of the run of number characters at the start of a text. */
  function NumberRun(t: string): (n: nat)
    ensures n <= |t|
  {
    if t != "" && TokenChar(t[0]) then 1 + NumberRun(t[1..]) else 0
  }

  /** The fixed tokens, and the value that each stands for. */
  function Token(t: string): Option<(Json, nat)> {
    if "null" <= t then Some((Null, 4))
    else if "true" <= t then Some((Bool(true), 4))
    else if "false" <= t then Some((Bool(false), 5))
    else if "NaN" <= t then Some((Number("NaN"), 3))
    else if "Infinity" <= t then Some((Number("Infinity"), 8))
    else if "-Infinity" <= t then Some((Number("-Infinity"), 9))
    else None
  }

  /** The value at the start of a text, and the text behind it. */
  function ParseValue(t: string): (r: Option<(Json, string)>)
    ensures r.Some? ==> |r.value.1| < |t|
    decreases |t|, 0
  {
    if t == "" then None
    else if t[0] == '"' then
      (match ParseChars(t[1..])
       case None => None
       case Some((cs, rest)) => Some((Str(cs), rest)))
    else if t[0] == '{' then
      var u := Ws(t[1..]);
      if u != "" && u[0] == '}' then Some((Obj([]), u[1..]))
      else match ParseMembers(u)
           case None => None
           case Some((ms, rest)) => Some((Obj(ms), rest))
    else if t[0] == '[' then
      var u := Ws(t[1..]);
      if u != "" && u[0] == ']' then Some((Arr([]), u[1..]))
      else match ParseItems(u)
           case None => None
           case Some((xs, rest)) => Some((Arr(xs), rest))
    else ParseScalar(t)
  }

  function ParseScalar(t: string): (r: Option<(Json, string)>)
    ensures r.Some? ==> |r.value.1| < |t|
  {
    if Token(t).Some? then Some((Token(t).value.0, t[Token(t).value.1..]))
    else if StartsNumber(t) then
      assert NumberRun(t) > 0;
      Some((Number(t[..NumberRun(t)]), t[NumberRun(t)..]))
    else None
  }

  /** The items of an array, from the first to behind the closing bracket. */
  function ParseItems(t: string): (r: Option<(seq<Json>, string)>)
    ensures r.Some? ==> |r.value.1| < |t|
    decreases |t|, 1
  {
    match ParseValue(t)
    case None => None
    case Some((x, rest)) =>
      var u := Ws(rest);
      if u == "" then None
      else if u[0] == ']' then Some(([x], u[1..]))
      else if u[0] != ',' then None
      else match ParseItems(Ws(u[1..]))
           case None => None
           case Some((xs, behind)) => Some(([x] + xs, behind))
  }

  function ParseMember(t: string): (r: Option<(Member, string)>)
    ensures r.Some? ==> |r.value.1| < |t|
    decreases |t|, 1
  {
    if t == "" || t[0] != '"' then None
    else match ParseChars(t[1..])
         case None => None
         case Some((key, rest)) =>
           var u := Ws(rest);
           if u == "" || u[0] != ':' then None
           else match ParseValue(Ws(u[1..]))
                case None => None
                case Some((x, behind)) => Some((Member(key, x), behind))
  }

  /** The members of an object, from the first key to behind the closing brace. */
  function ParseMembers(t: string): (r: Option<(seq<Member>, string)>)
    ensures r.Some? ==> |r.value.1| < |t|
    decreases |t|, 2
  {
    match ParseMember(t)
    case None => None
    case Some((m, rest)) =>
      var u := Ws(rest);
      if u == "" then None
      else if u[0] == '}' then Some(([m], u[1..]))
      else if u[0] != ',' then None
      else match ParseMembers(Ws(u[1..]))
           case None => None
           case Some((ms, behind)) => Some(([m] + ms, behind))
  }

  /** `json.loads`; None where it raises. */
  function Parse(t: string): Option<Json> {
    match ParseValue(Ws(t))
    case None => None
    case Some((v, rest)) => if Ws(rest) == "" then Some(v) else None
  }

  // ---- what comes back ---------------------------------------------------------------------

  /** The value that is read back: the same, with surrogate pairs in strings merged. */
  function Read(v: Json): Json
    decreases v, 0
  {
    match v
    case Str(cs) => Str(Merged(cs))
    case Arr(items) => Arr(ReadItems(items))
    case Obj(members) => Obj(ReadMembers(members))
    case _ => v
  }

  function ReadItems(xs: seq<Json>): (r: seq<Json>)
    ensures |r| == |xs|
    decreases xs, 0
  {
    if xs == [] then [] else [Read(xs[0])] + ReadItems(xs[1..])
  }

  function ReadMember(m: Member): Member
    decreases m, 1
  {
    Member(Merged(m.key), Read(m.value))
  }

  function ReadMembers(ms: seq<Member>): (r: seq<Member>)
    ensures |r| == |ms|
    decreases ms, 0
  {
    if ms == [] then [] else [ReadMember(ms[0])] + ReadMembers(ms[1..])
  }

  // ---- round trip --------------------------------------------------------------------------

  lemma {:induction false} CloseQuoteBody(t: string, rest: string)
    requires Body(t)
    ensures CloseQuote(t + ['"'] + rest) == Some(|t|)
    decreases |t|
  {
    var s := t + ['"'] + rest;
    if t != "" {
      var n := if t[0] == '\\' then 2 else 1;
      assert s[n..] == t[n..] + ['"'] + rest;
      CloseQuoteBody(t[n..], rest);
    }
  }

  lemma CharsRead(cs: seq<Code>, rest: string)
    ensures ParseChars(Escaped(cs) + ['"'] + rest) == Some((Merged(cs), rest))
  {
    hide CloseQuote, Unescape, Escaped, Merged;
    EscapedIsBody(cs);
    CloseQuoteBody(Escaped(cs), rest);
    UnescapeIsMerged(cs);
    var s, k := Escaped(cs) + ['"'] + rest, |Escaped(cs)|;
    assert s[..k] == Escaped(cs) && s[k + 1..] == rest;
  }

  /** What may follow a value without being taken for more of it. */
  predicate Stops(rest: string) {
    rest == "" || !TokenChar(rest[0])
  }

  lemma {:induction false} NumberRunExact(t: string, rest: string)
    requires (forall i :: 0 <= i < |t| ==> TokenChar(t[i])) && Stops(rest)
    ensures NumberRun(t + rest) == |t|
  {
    if t == "" {
      assert t + rest == rest;
    } else {
      assert (t + rest)[1..] == t[1..] + rest;
      NumberRunExact(t[1..], rest);
    }
  }

  lemma TokenOf(t: string, rest: string)
    requires t in {"null", "true", "false", "NaN", "Infinity", "-Infinity"}
    ensures t <= t + rest && (t + rest)[|t|..] == rest && (t + rest)[0] == t[0] && (t + rest)[1] == t[1]
  {
  }

  lemma NumberIsNoToken(t: string, rest: string)
    requires StartsNumber(t)
    ensures Token(t + rest) == None && StartsNumber(t + rest)
  {
    var s := t + rest;
    assert s[0] == t[0] && (|t| >= 2 ==> s[1] == t[1]);
    assert "-Infinity"[0] == '-' && "-Infinity"[1] == 'I';
  }

  lemma ScalarReads(v: Json, rest: string)
    requires WellFormed(v) && !v.Str? && !v.Arr? && !v.Obj? && Stops(rest)
    ensures ParseScalar(Serialize(v) + rest) == Some((v, rest))
    ensures Serialize(v) != "" && Serialize(v)[0] !in {'"', '{', '['}
  {
    hide NumberRun;
    var t := Serialize(v);
    match v
    case Number(text) =>
      if text in {"NaN", "Infinity", "-Infinity"} {
        TokenOf(text, rest);
      } else {
        NumberIsNoToken(text, rest);
        NumberRunExact(text, rest);
        assert (text + rest)[..|text|] == text && (text + rest)[|text|..] == rest;
      }
    case _ => TokenOf(t, rest);
  }

  lemma WsStays(t: string)
    requires t == "" || t[0] !in {' ', '\t', '\n', '\r'}
    ensures Ws(t) == t
  {
  }

  predicate Visible(c: char) {
    c !in {' ', '\t', '\n', '\r', ',', ']', '}'}
  }

  lemma Starts(v: Json)
    requires WellFormed(v)
    ensures Serialize(v) != "" && Visible(Serialize(v)[0])
  {
  }

  lemma ItemsStart(xs: seq<Json>, rest: string)
    requires xs != [] && WellFormed(xs[0])
    ensures ItemsText(xs) != "" && Visible((ItemsText(xs) + rest)[0]) && Ws(ItemsText(xs) + rest) == ItemsText(xs) + rest
  {
    hide Serialize;
    Starts(xs[0]);
    assert (ItemsText(xs) + rest)[0] == Serialize(xs[0])[0];
    WsStays(ItemsText(xs) + rest);
  }

  lemma MembersStart(ms: seq<Member>, rest: string)
    requires ms != []
    ensures MembersText(ms) != "" && (MembersText(ms) + rest)[0] == '"' && Ws(MembersText(ms) + rest) == MembersText(ms) + rest
  {
    hide Serialize;
    assert MemberText(ms[0])[0] == '"';
    assert (MembersText(ms) + rest)[0] == '"';
    WsStays(MembersText(ms) + rest);
  }

  /** Every written value reads back, whatever stands behind it. */
  lemma {:induction false} ValueReads(v: Json, rest: string)
    requires WellFormed(v) && Stops(rest)
    ensures ParseValue(Serialize(v) + rest) == Some((Read(v), rest))
    decreases v, 0
  {
    hide ParseItems, ParseMembers, ParseScalar, ParseChars, ItemsText, MembersText, Escaped, Merged;
    var s := Serialize(v) + rest;
    match v
    case Str(cs) =>
      assert s[1..] == Escaped(cs) + ['"'] + rest;
      CharsRead(cs, rest);
    case Arr(items) =>
      assert s[1..] == ItemsText(items) + ([']'] + rest);
      if items == [] {
        assert ItemsText(items) == "" by { NothingText(); }
        assert s[1..] == [']'] + rest && ([']'] + rest)[1..] == rest;
        WsStays([']'] + rest);
      } else {
        ItemsStart(items, [']'] + rest);
        ItemsRead(items, rest);
      }
    case Obj(members) =>
      assert s[1..] == MembersText(members) + (['}'] + rest);
      if members == [] {
        assert MembersText(members) == "" by { NothingText(); }
        assert s[1..] == ['}'] + rest && (['}'] + rest)[1..] == rest;
        WsStays(['}'] + rest);
      } else {
        MembersStart(members, ['}'] + rest);
        MembersRead(members, rest);
      }
    case _ =>
      ScalarReads(v, rest);
      assert s[0] == Serialize(v)[0];
  }

  lemma NothingText()
    ensures ItemsText([]) == "" && MembersText([]) == ""
  {
  }

  lemma {:induction false} ItemsRead(xs: seq<Json>, rest: string)
    requires xs != [] && forall i :: 0 <= i < |xs| ==> WellFormed(xs[i])
    ensures ParseItems(ItemsText(xs) + ([']'] + rest)) == Some((ReadItems(xs), rest))
    decreases xs, 0
  {
    hide ParseValue, Serialize, Read, WellFormed;
    var x, s := xs[0], ItemsText(xs) + ([']'] + rest);
    if |xs| == 1 {
      ValueReads(x, [']'] + rest);
      WsStays([']'] + rest);
      assert ([']'] + rest)[1..] == rest && ReadItems(xs) == [Read(x)];
    } else {
      var more := ItemsText(xs[1..]) + ([']'] + rest);
      var behind := [','] + more;
      assert s == Serialize(x) + behind && behind[1..] == more;
      ValueReads(x, behind);
      WsStays(behind);
      assert WellFormed(xs[1..][0]);
      ItemsStart(xs[1..], [']'] + rest);
      ItemsRead(xs[1..], rest);
    }
  }

  lemma {:induction false} MemberReads(m: Member, rest: string)
    requires WellFormed(m.value) && Stops(rest)
    ensures ParseMember(MemberText(m) + rest) == Some((ReadMember(m), rest))
    decreases m, 1
  {
    hide ParseValue, ParseChars, Serialize, Read, WellFormed, Escaped, Merged;
    var value := Serialize(m.value) + rest;
    var behind := [':'] + value;
    var s := MemberText(m) + rest;
    assert s == ['"'] + (Escaped(m.key) + ['"'] + behind);
    assert s[1..] == Escaped(m.key) + ['"'] + behind;
    CharsRead(m.key, behind);
    WsStays(behind);
    assert behind[1..] == value;
    Starts(m.value);
    assert value[0] == Serialize(m.value)[0];
    WsStays(value);
    ValueReads(m.value, rest);
  }

  lemma {:induction false} MembersRead(ms: seq<Member>, rest: string)
    requires ms != [] && forall i :: 0 <= i < |ms| ==> WellFormed(ms[i].value)
    ensures ParseMembers(MembersText(ms) + (['}'] + rest)) == Some((ReadMembers(ms), rest))
    decreases ms, 0
  {
    hide ParseMember, MemberText, ReadMember, WellFormed;
    var m, s := ms[0], MembersText(ms) + (['}'] + rest);
    if |ms| == 1 {
      MemberReads(m, ['}'] + rest);
      WsStays(['}'] + rest);
      assert (['}'] + rest)[1..] == rest && ReadMembers(ms) == [ReadMember(m)];
    } else {
      var more := MembersText(ms[1..]) + (['}'] + rest);
      var behind := [','] + more;
      assert s == MemberText(m) + behind && behind[1..] == more;
      MemberReads(m, behind);
      WsStays(behind);
      MembersStart(ms[1..], ['}'] + rest);
      MembersRead(ms[1..], rest);
    }
  }

  /** Parsing what was written gives the value back, its strings read as JSON reads them. */
  lemma ParseOfSerialize(v: Json)
    requires WellFormed(v)
    ensures Parse(Serialize(v)) == Some(Read(v))
  {
    hide ParseValue, Serialize, Read, WellFormed;
    Starts(v);
    WsStays(Serialize(v));
    ValueReads(v, "");
    assert Serialize(v) + "" == Serialize(v);
    WsStays("");
  }

  // ---- when the very value comes back --------------------------------------------------------

  /** No string in the value has a lone high surrogate before a low one. */
  predicate Unpaired(v: Json)
    decreases v
  {
    match v
    case Str(cs) => !Paired(cs)
    case Arr(items) => forall i :: 0 <= i < |items| ==> Unpaired(items[i])
    case Obj(members) => forall i :: 0 <= i < |members| ==> !Paired(members[i].key) && Unpaired(members[i].value)
    case _ => true
  }

  lemma {:induction false} ReadSameIff(v: Json)
    ensures Read(v) == v <==> Unpaired(v)
    decreases v, 0
  {
    hide Merged, Paired;
    match v
    case Str(cs) => MergedSameIff(cs);
    case Arr(items) => ItemsSameIff(items);
    case Obj(members) => MembersSameIff(members);
    case _ =>
  }

  lemma {:induction false} ItemsSameIff(xs: seq<Json>)
    ensures ReadItems(xs) == xs <==> forall i :: 0 <= i < |xs| ==> Unpaired(xs[i])
    decreases xs, 0
  {
    hide Read, Unpaired;
    if xs != [] {
      ReadSameIff(xs[0]);
      ItemsSameIff(xs[1..]);
      assert xs == [xs[0]] + xs[1..];
      assert ReadItems(xs)[0] == Read(xs[0]) && ReadItems(xs)[1..] == ReadItems(xs[1..]);
    }
  }

  lemma {:induction false} MembersSameIff(ms: seq<Member>)
    ensures ReadMembers(ms) == ms <==> forall i :: 0 <= i < |ms| ==> !Paired(ms[i].key) && Unpaired(ms[i].value)
    decreases ms, 0
  {
    hide Read, Unpaired, Merged, Paired;
    if ms != [] {
      ReadSameIff(ms[0].value);
      MergedSameIff(ms[0].key);
      MembersSameIff(ms[1..]);
      assert ms == [ms[0]] + ms[1..];
      assert ReadMembers(ms)[0] == ReadMember(ms[0]) && ReadMembers(ms)[1..] == ReadMembers(ms[1..]);
    }
  }

  /** Parsing what was written gives back the very value exactly if its strings have no such pair. */
  lemma RoundTripIff(v: Json)
    requires WellFormed(v)
    ensures Parse(Serialize(v)) == Some(v) <==> Unpaired(v)
  {
    hide Parse, Serialize, Read, Unpaired, WellFormed;
    ParseOfSerialize(v);
    ReadSameIff(v);
  }

  // ---- texts cut short -------------------------------------------------------------------------

  lemma {:induction false} CloseGrows(t: string, more: string)
    requires CloseQuote(t).Some?
    ensures CloseQuote(t + more) == CloseQuote(t)
    decreases |t|
  {
    if t[0] != '"' {
      var n := if t[0] == '\\' then 2 else 1;
      assert (t + more)[n..] == t[n..] + more;
      CloseGrows(t[n..], more);
    }
  }

  lemma CharsGrow(t: string, more: string)
    requires ParseChars(t).Some?
    ensures ParseChars(t + more) == Some((ParseChars(t).value.0, ParseChars(t).value.1 + more))
  {
    hide CloseQuote, Unescape;
    CloseGrows(t, more);
    var k := CloseQuote(t).value;
    assert (t + more)[..k] == t[..k] && (t + more)[k + 1..] == t[k + 1..] + more;
  }

  lemma {:induction false} WsGrows(t: string, more: string)
    requires Ws(t) != ""
    ensures Ws(t + more) == Ws(t) + more
  {
    if t[0] in {' ', '\t', '\n', '\r'} {
      assert (t + more)[1..] == t[1..] + more;
      WsGrows(t[1..], more);
    }
  }

  lemma {:induction false} NumberRunGrows(t: string, more: string)
    requires NumberRun(t) < |t|
    ensures NumberRun(t + more) == NumberRun(t)
  {
    if TokenChar(t[0]) {
      assert (t + more)[1..] == t[1..] + more;
      NumberRunGrows(t[1..], more);
    }
  }

  lemma TokenGrows(t: string, more: string)
    requires Token(t).Some?
    ensures Token(t + more) == Token(t) && Token(t).value.1 <= |t|
  {
    var s := t + more;
    assert s[0] == t[0];
    assert "null"[0] == 'n' && "true"[0] == 't' && "false"[0] == 'f' && "NaN"[0] == 'N' && "Infinity"[0] == 'I' && "-Infinity"[0] == '-';
    assert "null" <= t ==> "null" <= s;
    assert "true" <= t ==> "true" <= s;
    assert "false" <= t ==> "false" <= s;
    assert "NaN" <= t ==> "NaN" <= s;
    assert "Infinity" <= t ==> "Infinity" <= s;
    assert "-Infinity" <= t ==> "-Infinity" <= s;
  }

  lemma ScalarGrows(t: string, more: string)
    requires ParseScalar(t).Some? && ParseScalar(t).value.1 != ""
    ensures ParseScalar(t + more) == Some((ParseScalar(t).value.0, ParseScalar(t).value.1 + more))
  {
    hide NumberRun, Token;
    if Token(t).Some? {
      TokenGrows(t, more);
      var n := Token(t).value.1;
      assert (t + more)[n..] == t[n..] + more;
    } else {
      NumberIsNoToken(t, more);
      NumberRunGrows(t, more);
      var n := NumberRun(t);
      assert (t + more)[..n] == t[..n] && (t + more)[n..] == t[n..] + more;
    }
  }

  /** Values that show their own end. */
  predicate Delimited(t: string) {
    t != "" && t[0] in {'"', '{', '['}
  }

  /** A value that is found, with something behind it or its own end, is found in every longer text. */
  lemma {:induction false} ValueGrows(t: string, more: string)
    requires ParseValue(t).Some? && (ParseValue(t).value.1 != "" || Delimited(t))
    ensures ParseValue(t + more) == Some((ParseValue(t).value.0, ParseValue(t).value.1 + more))
    decreases |t|, 0
  {
    hide ParseItems, ParseMembers, ParseScalar, ParseChars, Ws;
    var s := t + more;
    assert s[0] == t[0] && s[1..] == t[1..] + more;
    if t[0] == '"' {
      CharsGrow(t[1..], more);
    } else if t[0] == '{' {
      var u := Ws(t[1..]);
      if u == "" { MembersOfNothing(); }
      WsGrows(t[1..], more);
      assert (u + more)[0] == u[0] && (u + more)[1..] == u[1..] + more;
      if u[0] != '}' { MembersGrow(u, more); }
    } else if t[0] == '[' {
      var u := Ws(t[1..]);
      if u == "" { ItemsOfNothing(); }
      WsGrows(t[1..], more);
      assert (u + more)[0] == u[0] && (u + more)[1..] == u[1..] + more;
      if u[0] != ']' { ItemsGrow(u, more); }
    } else {
      ScalarGrows(t, more);
    }
  }

  lemma MembersOfNothing()
    ensures ParseMembers("") == None
  {
  }

  lemma ItemsOfNothing()
    ensures ParseItems("") == None
  {
  }

  lemma {:induction false} ItemsGrow(t: string, more: string)
    requires ParseItems(t).Some?
    ensures ParseItems(t + more) == Some((ParseItems(t).value.0, ParseItems(t).value.1 + more))
    decreases |t|, 1
  {
    hide ParseValue, Ws;
    var rest := ParseValue(t).value.1;
    var u := Ws(rest);
    assert rest != "" by { WsOfNothing(); }
    ValueGrows(t, more);
    WsGrows(rest, more);
    assert (u + more)[0] == u[0] && (u + more)[1..] == u[1..] + more;
    if u[0] == ',' {
      if Ws(u[1..]) == "" { ItemsOfNothing(); }
      WsGrows(u[1..], more);
      ItemsGrow(Ws(u[1..]), more);
    }
  }

  lemma WsOfNothing()
    ensures Ws("") == ""
  {
  }

  lemma {:induction false} MemberGrows(t: string, more: string)
    requires ParseMember(t).Some? && ParseMember(t).value.1 != ""
    ensures ParseMember(t + more) == Some((ParseMember(t).value.0, ParseMember(t).value.1 + more))
    decreases |t|, 1
  {
    hide ParseValue, ParseChars, Ws;
    assert (t + more)[0] == t[0] && (t + more)[1..] == t[1..] + more;
    CharsGrow(t[1..], more);
    var rest := ParseChars(t[1..]).value.1;
    var u := Ws(rest);
    WsGrows(rest, more);
    assert (u + more)[0] == u[0] && (u + more)[1..] == u[1..] + more;
    if Ws(u[1..]) == "" { NoValueOfNothing(); }
    WsGrows(u[1..], more);
    ValueGrows(Ws(u[1..]), more);
  }

  lemma NoValueOfNothing()
    ensures ParseValue("") == None
  {
  }

  lemma {:induction false} MembersGrow(t: string, more: string)
    requires ParseMembers(t).Some?
    ensures ParseMembers(t + more) == Some((ParseMembers(t).value.0, ParseMembers(t).value.1 + more))
    decreases |t|, 2
  {
    hide ParseMember, Ws;
    var rest := ParseMember(t).value.1;
    var u := Ws(rest);
    assert rest != "" by { WsOfNothing(); }
    MemberGrows(t, more);
    WsGrows(rest, more);
    assert (u + more)[0] == u[0] && (u + more)[1..] == u[1..] + more;
    if u[0] == ',' {
      if Ws(u[1..]) == "" { MembersOfNothing(); }
      WsGrows(u[1..], more);
      MembersGrow(Ws(u[1..]), more);
    }
  }

  /** A written value that shows its own end does not parse when it is cut short. */
  lemma TruncatedNotParsed(v: Json, t: string)
    requires WellFormed(v) && (v.Str? || v.Arr? || v.Obj?) && t < Serialize(v)
    ensures Parse(t) == None
  {
    hide ParseValue, Read, WellFormed, Ws;
    var s := Serialize(v);
    if t == "" {
      WsOfNothing();
      NoValueOfNothing();
    } else {
      Starts(v);
      assert t[0] == s[0] && Delimited(t);
      WsStays(t);
      ValueReads(v, "");
      assert s + "" == s;
      var more := s[|t|..];
      assert t + more == s && more != "";
      if ParseValue(t).Some? { ValueGrows(t, more); }
    }
  }

  /** What does not begin with a brace never parses to an object. */
  lemma ObjectsBegin(t: string)
    requires Ws(t) == t && (t == "" || t[0] != '{')
    ensures Parse(t).None? || !Parse(t).value.Obj?
  {
    hide ParseItems, ParseMembers, ParseChars;
  }
}
