/**
 Every interleaving of receipt emitters and state loads over any number of chain files: how the
 chains are linked, and what the session cache of one hook process then answers.
 */
module ReceiptRuns {

  import opened Results
  import opened ReceiptChain
  import opened SessionCache

  /** Who holds a trace's lock, and how far that holder has come. */
  datatype Holder = Holder(worker: nat, looked: Option<Option<Digest>>, loaded: Option<Passport>)

  datatype Trace = Trace(content: string, holder: Option<Holder>)

  /** All trace files, and the cache of the one process that is observed. */
  datatype World = World(traces: map<string, Trace>, cache: Cache)

  /** The signing key, and the workers that share the observed process. */
  datatype Setting = Setting(key: Signer, ours: set<nat>)

  datatype Event =
    | Acquire(path: string, worker: nat)
    | LoadState(path: string, worker: nat, passport: Passport)
    | LookUp(path: string, worker: nat)
    | Append(path: string, worker: nat, draft: Claims)
    | Release(path: string, worker: nat)

  const Start := World(map[], Cache(map[], []))

  /** A file that does not exist reads as an empty one. */
  function At(w: World, path: string): Trace {
    if path in w.traces then w.traces[path] else Trace("", None)
  }

  function Store(w: World, path: string, t: Trace): World {
    w.(traces := w.traces[path := t])
  }

  /** Only the holder of a trace's lock acts on it; an event that is not enabled changes nothing. */
  predicate Enabled(w: World, e: Event) {
    var t := At(w, e.path);
    match e
    case Acquire(_, _) => t.holder.None?
    case Append(_, worker, _) => t.holder.Some? && t.holder.value.worker == worker && t.holder.value.looked.Some?
    case _ => t.holder.Some? && t.holder.value.worker == e.worker
  }

  /** The receipt that is signed: the draft with the parent that was looked up. */
  function Signed(t: Trace, draft: Claims): Claims
    requires t.holder.Some? && t.holder.value.looked.Some?
  {
    draft.(parent := t.holder.value.looked.value)
  }

  function Step(s: Setting, w: World, e: Event): World {
    if !Enabled(w, e) then w
    else
      var t := At(w, e.path);
      match e
      case Acquire(path, worker) => Store(w, path, t.(holder := Some(Holder(worker, None, None))))
      case LoadState(path, worker, passport) =>
        if worker !in s.ours then w
        else
          var l := Load(s.key, w.cache, path, t.content, passport);
          // A load that raises leaves the locked region.
          Store(w, path, t.(holder := if l.count.Some? then Some(t.holder.value.(loaded := Some(passport))) else None)).(cache := l.cache)
      case LookUp(path, worker) =>
        Store(w, path, t.(holder := Some(t.holder.value.(looked := Some(PreviousHash(t.content))))))
      case Append(path, worker, draft) =>
        var token := s.key.sign(Signed(t, draft));
        Store(w, path, Trace(t.content + token + "\n", Some(t.holder.value.(looked := None))))
          .(cache := if worker in s.ours then Advance(w.cache, path, token, Signed(t, draft)) else w.cache)
      case Release(path, worker) => Store(w, path, t.(holder := None))
  }

  function Run(s: Setting, w: World, es: seq<Event>): World
    decreases |es|
  {
    if es == [] then w else Run(s, Step(s, w, es[0]), es[1..])
  }

  // ---- the chains -------------------------------------------------------------------------

  /** A file made of signed tokens on lines, each naming as its parent what the lookup found before it. */
  predicate Built(key: Signer, content: string) {
    && content == FileOf(Lines(content)) && AllTokens(Lines(content))
    && forall i :: 0 <= i < |Lines(content)| ==> Placed(key, Lines(content), i)
  }

  predicate Placed(key: Signer, tokens: seq<string>, i: nat)
    requires i < |tokens|
  {
    key.open(tokens[i]).Some? && key.open(tokens[i]).value.parent == PreviousHash(FileOf(tokens[..i]))
  }

  /** What a holder looked up is still what the file says. */
  predicate TraceInv(key: Signer, t: Trace) {
    && Built(key, t.content)
    && (t.holder.Some? && t.holder.value.looked.Some? ==> t.holder.value.looked.value == PreviousHash(t.content))
  }

  predicate TracesInv(key: Signer, w: World) {
    forall path :: path in w.traces ==> TraceInv(key, w.traces[path])
  }

  lemma AppendBuilt(key: Signer, content: string, c: Claims)
    requires Sound(key) && Built(key, content) && c.parent == PreviousHash(content)
    ensures Built(key, content + key.sign(c) + "\n")
    ensures Lines(content + key.sign(c) + "\n") == Lines(content) + [key.sign(c)]
  {
    hide Lines, PreviousHash, TokenText;
    var before, token := Lines(content), key.sign(c);
    var after := before + [token];
    assert TokenText(token);
    assert after[..|before|] == before;
    assert FileOf(after) == content + token + "\n";
    LinesOfFile(after);
    forall i | 0 <= i < |after| ensures Placed(key, after, i) {
      if i < |before| {
        assert Placed(key, before, i) && after[..i] == before[..i];
      } else {
        assert after[..i] == before;
      }
    }
  }

  lemma EmptyBuilt(key: Signer)
    ensures Built(key, "")
  {
    assert AllTokens([]);
    LinesOfFile([]);
  }

  lemma StepTraces(s: Setting, w: World, e: Event)
    requires Sound(s.key) && TracesInv(s.key, w)
    ensures TracesInv(s.key, Step(s, w, e))
  {
    hide Built, PreviousHash, Load, Advance, Sound;
    EmptyBuilt(s.key);
    var t := At(w, e.path);
    assert TraceInv(s.key, t);
    if e.Append? && Enabled(w, e) { AppendBuilt(s.key, t.content, Signed(t, e.draft)); }
  }

  lemma {:induction false} RunTraces(s: Setting, w: World, es: seq<Event>)
    requires Sound(s.key) && TracesInv(s.key, w)
    ensures TracesInv(s.key, Run(s, w, es))
    decreases |es|
  {
    hide TracesInv, Step, Sound;
    if es != [] {
      StepTraces(s, w, es[0]);
      RunTraces(s, Step(s, w, es[0]), es[1..]);
    }
  }

  predicate Fits(token: string) {
    |token| + 1 <= TAIL_BYTES
  }

  lemma LinksIff(key: Signer, content: string, i: nat)
    requires Built(key, content) && i < |Lines(content)|
    ensures Links(key, Lines(content), i) <==> i == 0 || Fits(Lines(content)[i - 1])
  {
    hide Lines, PreviousHash, TokenText, FileOf;
    var tokens := Lines(content);
    assert Placed(key, tokens, i);
    if i == 0 {
      assert tokens[..i] == [];
      PreviousOfEmpty();
      assert FileOf([]) == "" by { FileOfNone(); }
    } else {
      PreviousIsLastIff(tokens[..i]);
      assert tokens[..i][|tokens[..i]| - 1] == tokens[i - 1];
    }
  }

  lemma FileOfNone()
    ensures FileOf([]) == ""
  {
  }

  /**
   Whatever the interleaving, the chain in every file verifies exactly if each token but the last
   fits, with its newline, in the tail that the next emitter reads.
   */
  lemma ChainLinkedIff(s: Setting, es: seq<Event>, path: string)
    requires Sound(s.key)
    ensures var tokens := Lines(At(Run(s, Start, es), path).content);
            Verifies(s.key, tokens) <==> forall i :: 0 <= i < |tokens| - 1 ==> Fits(tokens[i])
  {
    hide Lines, Built, Run, Fits, Links, Sound;
    RunTraces(s, Start, es);
    EmptyBuilt(s.key);
    var content := At(Run(s, Start, es), path).content;
    var tokens := Lines(content);
    forall i | 0 <= i < |tokens| ensures Links(s.key, tokens, i) <==> i == 0 || Fits(tokens[i - 1]) {
      LinksIff(s.key, content, i);
    }
    if Verifies(s.key, tokens) {
      forall i | 0 <= i < |tokens| - 1 ensures Fits(tokens[i]) { assert Links(s.key, tokens, i + 1); }
    }
  }

  // ---- the cache --------------------------------------------------------------------------

  /** The receipts of a file, each opened. */
  function Receipts(key: Signer, tokens: seq<string>): (r: seq<Claims>)
    requires AllOpen(key, tokens)
  {
    seq(|tokens|, i requires 0 <= i < |tokens| => key.open(tokens[i]).value)
  }

  predicate AllOpen(key: Signer, tokens: seq<string>) {
    forall i :: 0 <= i < |tokens| ==> key.open(tokens[i]).Some?
  }

  /** A text that appends of signed tokens build, in whatever order they were signed. */
  predicate Lined(key: Signer, content: string) {
    content == FileOf(Lines(content)) && AllTokens(Lines(content)) && AllOpen(key, Lines(content))
  }

  function RecountText(key: Signer, content: string, grant: string): Count
    requires Lined(key, content)
  {
    Recount(Receipts(key, Lines(content)), grant)
  }

  lemma BuiltIsLined(key: Signer, content: string)
    requires Built(key, content)
    ensures Lined(key, content)
  {
    hide Lines, FileOf, PreviousHash;
    forall i | 0 <= i < |Lines(content)| ensures key.open(Lines(content)[i]).Some? { assert Placed(key, Lines(content), i); }
  }

  /** One more line is one more receipt to count. */
  lemma RecountAppend(key: Signer, content: string, c: Claims, grant: string)
    requires Sound(key) && Lined(key, content)
    ensures Lined(key, content + key.sign(c) + "\n")
    ensures RecountText(key, content + key.sign(c) + "\n", grant)
            == if Counted(c, grant) then Add(RecountText(key, content, grant), c) else RecountText(key, content, grant)
  {
    hide Lines, TokenText, Counted;
    var before, token := Lines(content), key.sign(c);
    var after := before + [token];
    assert TokenText(token);
    assert after[..|before|] == before;
    assert FileOf(after) == content + token + "\n";
    LinesOfFile(after);
    assert Receipts(key, after) == Receipts(key, before) + [c];
    assert (Receipts(key, before) + [c])[..|before|] == Receipts(key, before);
  }

  /** What an entry's counts are of: its own hashed text, for its own grant. */
  ghost predicate EntryInv(key: Signer, e: Entry, exact: bool) {
    && Lined(key, e.hashed) && e.size == |e.hashed|
    && AtLeast(e.count, RecountText(key, e.hashed, e.passport.jti))
    && (exact ==> e.count == RecountText(key, e.hashed, e.passport.jti))
  }

  /** Between a load and the release of the lock, the trace's entry is the one that was loaded, if it is still there. */
  predicate LoadedInv(w: World, path: string) {
    path in w.traces && w.traces[path].holder.Some? && w.traces[path].holder.value.loaded.Some? && path in w.cache.entries ==>
      w.cache.entries[path].passport == w.traces[path].holder.value.loaded.value
  }

  ghost predicate CacheInv(key: Signer, w: World, exact: bool) {
    && Bounded(w.cache)
    && (forall path :: path in w.cache.entries ==> EntryInv(key, w.cache.entries[path], exact))
    && (forall path :: path in w.traces ==> LoadedInv(w, path))
  }

  /** A step that permits a call in our process receipts it for the grant whose state it loaded under the same lock. */
  predicate Disciplined(s: Setting, w: World, e: Event) {
    e.Append? && e.worker in s.ours && Enabled(w, e) && Permits(e.draft) ==>
      var h := At(w, e.path).holder.value;
      h.loaded.Some? && h.loaded.value.jti == e.draft.grantId
  }

  predicate DisciplinedRun(s: Setting, w: World, es: seq<Event>)
    decreases |es|
  {
    es == [] || (Disciplined(s, w, es[0]) && DisciplinedRun(s, Step(s, w, es[0]), es[1..]))
  }

  /** The state that a worker has loaded for a trace since it last took or gave up the trace's lock, as the events show it. */
  function LastLoad(es: seq<Event>, path: string, worker: nat): Option<Passport> {
    if es == [] then None
    else
      var init, last := es[..|es| - 1], es[|es| - 1];
      if last.path != path || last.worker != worker then LastLoad(init, path, worker)
      else match last
           case LoadState(_, _, passport) => Some(passport)
           case Acquire(_, _) => None
           case Release(_, _) => None
           case _ => LastLoad(init, path, worker)
  }

  /** The order the hook handlers follow: a permitted call is receipted for the grant whose state its worker loaded last. */
  predicate Scripted(s: Setting, es: seq<Event>) {
    forall i :: 0 <= i < |es| ==> ScriptedAt(s, es, i)
  }

  predicate ScriptedAt(s: Setting, es: seq<Event>, i: nat)
    requires i < |es|
  {
    var e := es[i];
    e.Append? && e.worker in s.ours && Permits(e.draft) ==>
      var loaded := LastLoad(es[..i], e.path, e.worker);
      loaded.Some? && loaded.value.jti == e.draft.grantId
  }

  /** The lock holder of a trace has in hand what the events say it loaded. */
  ghost predicate InHand(s: Setting, es: seq<Event>, w: World) {
    forall path :: At(w, path).holder.Some? ==> HolderInHand(s, es, path, At(w, path).holder.value)
  }

  predicate HolderInHand(s: Setting, es: seq<Event>, path: string, h: Holder) {
    h.worker in s.ours && LastLoad(es, path, h.worker).Some? ==> h.loaded == LastLoad(es, path, h.worker)
  }

  lemma StepInHand(s: Setting, es: seq<Event>, w: World, e: Event)
    requires InHand(s, es, w)
    ensures InHand(s, es + [e], Step(s, w, e))
  {
    hide Load, Advance, PreviousHash, Signed;
    assert (es + [e])[..|es|] == es;
    var v := Step(s, w, e);
    forall path | At(v, path).holder.Some?
      ensures HolderInHand(s, es + [e], path, At(v, path).holder.value)
    {
      if At(w, path).holder.Some? { assert HolderInHand(s, es, path, At(w, path).holder.value); }
    }
  }

  lemma {:induction false} ScriptedRest(s: Setting, es: seq<Event>, i: nat, w: World)
    requires Scripted(s, es) && i <= |es| && InHand(s, es[..i], w)
    ensures DisciplinedRun(s, w, es[i..])
    decreases |es| - i
  {
    hide Step, LastLoad, Permits;
    if i < |es| {
      var e := es[i];
      assert ScriptedAt(s, es, i);
      assert At(w, e.path).holder.Some? ==> HolderInHand(s, es[..i], e.path, At(w, e.path).holder.value);
      StepInHand(s, es[..i], w, e);
      assert es[..i + 1] == es[..i] + [e];
      ScriptedRest(s, es, i + 1, Step(s, w, e));
      assert es[i..][0] == e && es[i..][1..] == es[i + 1..];
    }
  }

  /** Whatever the interleaving, handlers that follow their script keep the discipline. */
  lemma ScriptedIsDisciplined(s: Setting, es: seq<Event>)
    requires Scripted(s, es)
    ensures DisciplinedRun(s, Start, es)
  {
    hide DisciplinedRun, Scripted;
    assert es[..0] == [] && es[0..] == es;
    ScriptedRest(s, es, 0, Start);
  }

  lemma AdvancedEntry(key: Signer, e: Entry, c: Claims, exact: bool)
    requires Sound(key) && EntryInv(key, e, exact) && (exact && Permits(c) ==> c.grantId == e.passport.jti)
    ensures EntryInv(key, AdvancedTo(e, key.sign(c), c), exact)
  {
    hide Lined, RecountText, Permits, AtLeast, Sound;
    RecountAppend(key, e.hashed, c, e.passport.jti);
    AddMonotone(e.count, RecountText(key, e.hashed, e.passport.jti), c);
  }

  lemma SameCount(n: Count)
    ensures AtLeast(n, n)
  {
  }

  lemma FreshEntry(key: Signer, content: string, passport: Passport, exact: bool)
    requires Built(key, content) && FullLoad(key, content, passport).Some?
    ensures EntryInv(key, Entry(passport, content, |content|, FullLoad(key, content, passport).value), exact)
  {
    hide Lines, Built, AtLeast;
    BuiltIsLined(key, content);
    var tokens := Lines(content);
    assert Opened(key, tokens) == Receipts(key, tokens);
    SameCount(FullLoad(key, content, passport).value);
  }

  lemma LoadedEntry(key: Signer, c: Cache, path: string, content: string, passport: Passport, exact: bool)
    requires Built(key, content) && Bounded(c) && (path in c.entries ==> EntryInv(key, c.entries[path], exact))
    requires Load(key, c, path, content, passport).count.Some?
    ensures var l := Load(key, c, path, content, passport);
            path in l.cache.entries && EntryInv(key, l.cache.entries[path], exact) && l.cache.entries[path].passport == passport
  {
    hide Built, EntryInv, FullLoad, WithinLimits, Trim, Dropped, Distinct;
    LoadBounded(key, c, path, content, passport);
    if !Hit(c, path, content, passport) {
      FreshEntry(key, content, passport, exact);
      PutTrimmed(c, path, Entry(passport, content, |content|, FullLoad(key, content, passport).value));
    }
  }

  lemma StepCacheLoad(s: Setting, w: World, e: Event, exact: bool)
    requires e.LoadState? && Enabled(w, e) && e.worker in s.ours
    requires Sound(s.key) && TracesInv(s.key, w) && CacheInv(s.key, w, exact)
    ensures CacheInv(s.key, Step(s, w, e), exact)
  {
    hide Built, EntryInv, Load, Bounded, PreviousHash, Sound;
    EmptyBuilt(s.key);
    var t, v := At(w, e.path), Step(s, w, e);
    assert TraceInv(s.key, t);
    var l := Load(s.key, w.cache, e.path, t.content, e.passport);
    LoadBounded(s.key, w.cache, e.path, t.content, e.passport);
    if l.count.Some? { LoadedEntry(s.key, w.cache, e.path, t.content, e.passport, exact); }
    forall path | path in v.traces ensures LoadedInv(v, path) {
      if path != e.path { assert LoadedInv(w, path); }
    }
  }

  lemma StepCacheAppend(s: Setting, w: World, e: Event, exact: bool)
    requires e.Append? && Enabled(w, e) && e.worker in s.ours
    requires Sound(s.key) && CacheInv(s.key, w, exact) && (exact ==> Disciplined(s, w, e))
    ensures CacheInv(s.key, Step(s, w, e), exact)
  {
    hide EntryInv, Bounded, Permits, Put, Sound;
    var t, v := At(w, e.path), Step(s, w, e);
    var c := Signed(t, e.draft);
    PermitsIgnoresParent(e.draft, c);
    AdvanceBounded(w.cache, e.path, s.key.sign(c), c);
    if e.path in w.cache.entries {
      assert LoadedInv(w, e.path);
      AdvancedEntry(s.key, w.cache.entries[e.path], c, exact);
      PutStores(w.cache, e.path, AdvancedTo(w.cache.entries[e.path], s.key.sign(c), c));
    }
    forall path | path in v.traces ensures LoadedInv(v, path) {
      if path != e.path { assert LoadedInv(w, path); }
    }
  }

  lemma PutStores(c: Cache, path: string, e: Entry)
    ensures path in Put(c, path, e).entries && Put(c, path, e).entries[path] == e
  {
  }

  lemma PermitsIgnoresParent(draft: Claims, c: Claims)
    requires c == draft.(parent := c.parent)
    ensures Permits(c) <==> Permits(draft)
  {
  }

  lemma StepCache(s: Setting, w: World, e: Event, exact: bool)
    requires Sound(s.key) && TracesInv(s.key, w) && CacheInv(s.key, w, exact) && (exact ==> Disciplined(s, w, e))
    ensures CacheInv(s.key, Step(s, w, e), exact)
  {
    if Enabled(w, e) && e.LoadState? && e.worker in s.ours {
      StepCacheLoad(s, w, e, exact);
    } else if Enabled(w, e) && e.Append? && e.worker in s.ours {
      StepCacheAppend(s, w, e, exact);
    } else {
      hide Built, EntryInv, Bounded, PreviousHash, Load, Advance, Disciplined, Sound, TraceInv;
      var v := Step(s, w, e);
      assert v.cache == w.cache;
      forall path | path in v.traces ensures LoadedInv(v, path) {
        if path in w.traces { assert LoadedInv(w, path); }
      }
    }
  }

  lemma {:induction false} RunCache(s: Setting, w: World, es: seq<Event>, exact: bool)
    requires Sound(s.key) && TracesInv(s.key, w) && CacheInv(s.key, w, exact) && (exact ==> DisciplinedRun(s, w, es))
    ensures CacheInv(s.key, Run(s, w, es), exact)
    decreases |es|
  {
    hide Step, TracesInv, CacheInv, Disciplined, Sound;
    if es != [] {
      StepTraces(s, w, es[0]);
      StepCache(s, w, es[0], exact);
      RunCache(s, Step(s, w, es[0]), es[1..], exact);
    }
  }

  lemma StartInv(s: Setting, exact: bool)
    ensures TracesInv(s.key, Start) && CacheInv(s.key, Start, exact)
  {
  }

  lemma HitCount(s: Setting, es: seq<Event>, path: string, passport: Passport, exact: bool)
    requires Sound(s.key) && (exact ==> DisciplinedRun(s, Start, es))
    requires Hit(Run(s, Start, es).cache, path, At(Run(s, Start, es), path).content, passport)
    ensures var w := Run(s, Start, es); var content := At(w, path).content;
            && Built(s.key, content) && Lined(s.key, content)
            && AtLeast(w.cache.entries[path].count, RecountText(s.key, content, passport.jti))
            && (exact ==> w.cache.entries[path].count == RecountText(s.key, content, passport.jti))
  {
    hide Run, Built, Lined, RecountText, AtLeast, Bounded, DisciplinedRun, Sound;
    StartInv(s, exact);
    RunTraces(s, Start, es);
    RunCache(s, Start, es, exact);
    EmptyBuilt(s.key);
    var w := Run(s, Start, es);
    assert TraceInv(s.key, At(w, path)) && EntryInv(s.key, w.cache.entries[path], exact);
    BuiltIsLined(s.key, At(w, path).content);
  }

  /**
   Cache coherence: over every interleaving of loads, of appends by our own workers, each
   following its handler's script, and of appends by other processes, a hit answers the counts
   that a recount of the whole file gives.
   */
  lemma HitIsRecount(s: Setting, es: seq<Event>, path: string, passport: Passport)
    requires Sound(s.key) && Scripted(s, es)
    requires Hit(Run(s, Start, es).cache, path, At(Run(s, Start, es), path).content, passport)
    ensures var w := Run(s, Start, es); var content := At(w, path).content;
            Lined(s.key, content) && w.cache.entries[path].count == RecountText(s.key, content, passport.jti)
  {
    hide *;
    ScriptedIsDisciplined(s, es);
    HitCount(s, es, path, passport, true);
  }

  /** So a hit answers the number of compliant pre receipts of the grant in the file, in total and for each class. */
  lemma HitCountsPermitted(s: Setting, es: seq<Event>, path: string, passport: Passport, cls: string)
    requires Sound(s.key) && Scripted(s, es)
    requires Hit(Run(s, Start, es).cache, path, At(Run(s, Start, es), path).content, passport)
    ensures var w := Run(s, Start, es); var content := At(w, path).content;
            && Lined(s.key, content)
            && var claims := Receipts(s.key, Lines(content)); var places := PermittedAt(claims, passport.jti);
               var n := w.cache.entries[path].count;
               && n.total == |places|
               && (cls in n.byClass <==> OfClass(claims, places, cls) != {})
               && (cls in n.byClass ==> n.byClass[cls] == |OfClass(claims, places, cls)|)
  {
    hide Run, Scripted, Sound, Lines, PermittedAt, OfClass, Recount, Receipts;
    HitIsRecount(s, es, path, passport);
    var content := At(Run(s, Start, es), path).content;
    RecountMeaning(Receipts(s.key, Lines(content)), passport.jti, cls);
  }

  // ---- exactly when a hit is a recount ----------------------------------------------------------

  /** The receipts that our workers have appended to a trace's cache entry since a load made it. */
  function Since(s: Setting, es: seq<Event>, path: string): seq<Claims> {
    if es == [] then []
    else
      var init, last := es[..|es| - 1], es[|es| - 1];
      var w, before := Run(s, Start, init), Since(s, init, path);
      if !Enabled(w, last) || last.path != path || last.worker !in s.ours then before
      else match last
           case LoadState(_, _, passport) => if Remakes(s, w, path, passport) then [] else before
           case Append(_, _, draft) => if path in w.cache.entries then before + [Signed(At(w, path), draft)] else before
           case _ => before
  }

  /** A load that misses and succeeds makes the entry anew. */
  predicate Remakes(s: Setting, w: World, path: string, passport: Passport) {
    var content := At(w, path).content;
    !Hit(w.cache, path, content, passport) && Load(s.key, w.cache, path, content, passport).count.Some?
  }

  lemma {:induction false} RunMore(s: Setting, w: World, es: seq<Event>, e: Event)
    ensures Run(s, w, es + [e]) == Step(s, Run(s, w, es), e)
    decreases |es|
  {
    hide Step;
    if es == [] {
      assert es + [e] == [e] && [e][1..] == [];
    } else {
      assert (es + [e])[1..] == es[1..] + [e];
      RunMore(s, Step(s, w, es[0]), es[1..], e);
    }
  }

  /** An entry as a load makes it. */
  function Made(key: Signer, passport: Passport, content: string): Entry
    requires Lined(key, content)
  {
    Entry(passport, content, |content|, RecountText(key, content, passport.jti))
  }

  function AdvancedBy(key: Signer, e: Entry, cs: seq<Claims>): Entry {
    if cs == [] then e
    else
      var c := cs[|cs| - 1];
      AdvancedTo(AdvancedBy(key, e, cs[..|cs| - 1]), key.sign(c), c)
  }

  /** The permitted receipts of other grants. */
  function Foreign(cs: seq<Claims>, grant: string): nat {
    if cs == [] then 0
    else
      var c := cs[|cs| - 1];
      Foreign(cs[..|cs| - 1], grant) + if Permits(c) && c.grantId != grant then 1 else 0
  }

  /** The cached total is the recounted one and the permitted receipts of other grants, one for each. */
  lemma {:induction false} AdvancedCount(key: Signer, passport: Passport, content: string, cs: seq<Claims>)
    requires Sound(key) && Lined(key, content)
    ensures var e := AdvancedBy(key, Made(key, passport, content), cs);
            && e.passport == passport && e.size == |e.hashed| && Lined(key, e.hashed)
            && e.count.total == RecountText(key, e.hashed, passport.jti).total + Foreign(cs, passport.jti)
            && (Foreign(cs, passport.jti) == 0 ==> e.count == RecountText(key, e.hashed, passport.jti))
    decreases |cs|
  {
    hide Lined, RecountText, Permits, Sound;
    if cs != [] {
      var init, c := cs[..|cs| - 1], cs[|cs| - 1];
      AdvancedCount(key, passport, content, init);
      RecountAppend(key, AdvancedBy(key, Made(key, passport, content), init).hashed, c, passport.jti);
    }
  }

  /** Those of one side-effect class. */
  function ForeignOf(cs: seq<Claims>, grant: string, cls: string): nat {
    if cs == [] then 0
    else
      var c := cs[|cs| - 1];
      ForeignOf(cs[..|cs| - 1], grant, cls) + if Permits(c) && c.grantId != grant && c.sideEffect == cls then 1 else 0
  }

  /** Class by class, the cached count is the recounted one and the permitted receipts of other grants. */
  lemma {:induction false} AdvancedClass(key: Signer, passport: Passport, content: string, cs: seq<Claims>, cls: string)
    requires Sound(key) && Lined(key, content)
    ensures var e := AdvancedBy(key, Made(key, passport, content), cs);
            && Lined(key, e.hashed)
            && Spent(e.count.byClass, cls) == Spent(RecountText(key, e.hashed, passport.jti).byClass, cls) + ForeignOf(cs, passport.jti, cls)
    decreases |cs|
  {
    hide Lined, RecountText, Permits, Sound;
    if cs != [] {
      var init, c := cs[..|cs| - 1], cs[|cs| - 1];
      AdvancedClass(key, passport, content, init, cls);
      RecountAppend(key, AdvancedBy(key, Made(key, passport, content), init).hashed, c, passport.jti);
    }
  }

  lemma {:induction false} ForeignNoneIff(cs: seq<Claims>, grant: string)
    ensures Foreign(cs, grant) == 0 <==> forall i :: 0 <= i < |cs| && Permits(cs[i]) ==> cs[i].grantId == grant
  {
    hide Permits;
    if cs != [] {
      ForeignNoneIff(cs[..|cs| - 1], grant);
      assert cs == cs[..|cs| - 1] + [cs[|cs| - 1]];
    }
  }

  /** An entry that a load made and these receipts advanced. */
  ghost predicate From(key: Signer, e: Entry, cs: seq<Claims>) {
    exists content :: Lined(key, content) && e == AdvancedBy(key, Made(key, e.passport, content), cs)
  }

  lemma RemadeFrom(s: Setting, w: World, path: string, passport: Passport)
    requires TracesInv(s.key, w) && Bounded(w.cache) && Remakes(s, w, path, passport)
    ensures var l := Load(s.key, w.cache, path, At(w, path).content, passport);
            path in l.cache.entries && From(s.key, l.cache.entries[path], [])
  {
    hide Built, Lined, RecountText, FullLoad, WithinLimits, Trim, Dropped, Distinct, PreviousHash;
    EmptyBuilt(s.key);
    var content := At(w, path).content;
    assert TraceInv(s.key, At(w, path));
    BuiltIsLined(s.key, content);
    var e := Entry(passport, content, |content|, FullLoad(s.key, content, passport).value);
    FreshEntry(s.key, content, passport, true);
    PutTrimmed(w.cache, path, e);
    assert e == Made(s.key, passport, content) == AdvancedBy(s.key, Made(s.key, passport, content), []);
  }

  lemma AdvancedFrom(key: Signer, e: Entry, cs: seq<Claims>, c: Claims)
    requires From(key, e, cs)
    ensures From(key, AdvancedTo(e, key.sign(c), c), cs + [c])
  {
    hide Lined, RecountText, Permits;
    var content :| Lined(key, content) && e == AdvancedBy(key, Made(key, e.passport, content), cs);
    assert (cs + [c])[..|cs|] == cs;
    assert AdvancedTo(e, key.sign(c), c) == AdvancedBy(key, Made(key, e.passport, content), cs + [c]);
  }

  /** One step keeps every entry's origin. */
  lemma StepFrom(s: Setting, w: World, e: Event, path: string, before: seq<Claims>, after: seq<Claims>)
    requires Sound(s.key) && TracesInv(s.key, w) && Bounded(w.cache)
    requires path in w.cache.entries ==> From(s.key, w.cache.entries[path], before)
    requires after == if !Enabled(w, e) || e.path != path || e.worker !in s.ours then before
                      else if e.LoadState? then (if Remakes(s, w, path, e.passport) then [] else before)
                      else if e.Append? && path in w.cache.entries then before + [Signed(At(w, path), e.draft)]
                      else before
    ensures path in Step(s, w, e).cache.entries ==> From(s.key, Step(s, w, e).cache.entries[path], after)
  {
    hide From, Bounded, TracesInv, Sound, FullLoad, WithinLimits, Trim, Dropped, PreviousHash, Permits;
    if Enabled(w, e) && e.worker in s.ours {
      var t := At(w, e.path);
      if e.LoadState? {
        LoadBounded(s.key, w.cache, e.path, t.content, e.passport);
        if e.path == path && Remakes(s, w, path, e.passport) { RemadeFrom(s, w, path, e.passport); }
      } else if e.Append? {
        var c := Signed(t, e.draft);
        AdvanceBounded(w.cache, e.path, s.key.sign(c), c);
        if e.path == path && path in w.cache.entries {
          AdvancedFrom(s.key, w.cache.entries[path], before, c);
          PutStores(w.cache, path, AdvancedTo(w.cache.entries[path], s.key.sign(c), c));
        }
      }
    }
  }

  lemma {:induction false} EntriesFrom(s: Setting, es: seq<Event>, path: string)
    requires Sound(s.key)
    ensures path in Run(s, Start, es).cache.entries ==> From(s.key, Run(s, Start, es).cache.entries[path], Since(s, es, path))
    decreases |es|
  {
    hide From, Step, Sound, Remakes, Signed, Enabled, TracesInv, Run, CacheInv;
    if es == [] {
      RunNothing(s);
    } else {
      var init, last := es[..|es| - 1], es[|es| - 1];
      assert es == init + [last];
      EntriesFrom(s, init, path);
      RunMore(s, Start, init, last);
      StartInv(s, false);
      RunTraces(s, Start, init);
      RunCache(s, Start, init, false);
      assert Bounded(Run(s, Start, init).cache) by { InvBounds(s, Run(s, Start, init)); }
      StepFrom(s, Run(s, Start, init), last, path, Since(s, init, path), Since(s, es, path));
    }
  }

  lemma RunNothing(s: Setting)
    ensures Run(s, Start, []) == Start
  {
  }

  lemma InvBounds(s: Setting, w: World)
    requires CacheInv(s.key, w, false)
    ensures Bounded(w.cache)
  {
  }

  /**
   Over every interleaving, and whatever the handlers do, a hit answers the counts of a full recount
   exactly if no permitted receipt of another grant was appended to its entry since a load made it.
   */
  lemma HitIsRecountIff(s: Setting, es: seq<Event>, path: string, passport: Passport)
    requires Sound(s.key)
    requires Hit(Run(s, Start, es).cache, path, At(Run(s, Start, es), path).content, passport)
    ensures Lined(s.key, At(Run(s, Start, es), path).content)
    ensures var w := Run(s, Start, es); var content, cs := At(w, path).content, Since(s, es, path);
            w.cache.entries[path].count == RecountText(s.key, content, passport.jti) <==>
              forall i :: 0 <= i < |cs| && Permits(cs[i]) ==> cs[i].grantId == passport.jti
  {
    hide Run, Since, Lined, RecountText, AdvancedBy, Permits, Sound;
    EntriesFrom(s, es, path);
    var e, cs := Run(s, Start, es).cache.entries[path], Since(s, es, path);
    var content :| Lined(s.key, content) && e == AdvancedBy(s.key, Made(s.key, e.passport, content), cs);
    AdvancedCount(s.key, e.passport, content, cs);
    ForeignNoneIff(cs, passport.jti);
  }

  /** Without that script, a hit still never answers fewer calls than a recount. */
  lemma HitNeverUnder(s: Setting, es: seq<Event>, path: string, passport: Passport)
    requires Sound(s.key)
    requires Hit(Run(s, Start, es).cache, path, At(Run(s, Start, es), path).content, passport)
    ensures var w := Run(s, Start, es); var content := At(w, path).content;
            Lined(s.key, content) && AtLeast(w.cache.entries[path].count, RecountText(s.key, content, passport.jti))
  {
    hide *;
    HitCount(s, es, path, passport, false);
  }

  /**
   The cache is invisible, loading with it and without it answer the same, exactly if the load does
   not hit or every token but the last fits the tail: a hit does not look at the links.
   */
  lemma LoadIsFullLoadIff(s: Setting, es: seq<Event>, path: string, passport: Passport)
    requires Sound(s.key) && Scripted(s, es)
    ensures var w := Run(s, Start, es); var content := At(w, path).content; var tokens := Lines(content);
            Load(s.key, w.cache, path, content, passport).count == FullLoad(s.key, content, passport) <==>
              (!(WithinLimits(content) && Hit(w.cache, path, content, passport)) || forall i :: 0 <= i < |tokens| - 1 ==> Fits(tokens[i]))
  {
    hide Run, Lines, Scripted, Recount, Links, Fits, Sound, Trim, Put, Touch;
    var w := Run(s, Start, es);
    var content := At(w, path).content;
    if WithinLimits(content) && Hit(w.cache, path, content, passport) {
      HitIsRecount(s, es, path, passport);
      ChainLinkedIff(s, es, path);
      if Verifies(s.key, Lines(content)) { assert Opened(s.key, Lines(content)) == Receipts(s.key, Lines(content)); }
    }
  }

  /** Without the cache a load answers exactly if the file has at most 16 MiB and 8192 receipts and every token but the last fits the tail. */
  lemma FullLoadAnswersIff(s: Setting, es: seq<Event>, path: string, passport: Passport)
    requires Sound(s.key)
    ensures var content := At(Run(s, Start, es), path).content; var tokens := Lines(content);
            FullLoad(s.key, content, passport).Some? <==>
              |content| <= 16_777_216 && |tokens| <= 8192 && forall i :: 0 <= i < |tokens| - 1 ==> |tokens[i]| + 1 <= 16_384
  {
    hide Run, Lines, Recount, Links, Sound, Opened;
    ChainLinkedIff(s, es, path);
    var tokens := Lines(At(Run(s, Start, es), path).content);
    assert forall i :: 0 <= i < |tokens| - 1 ==> (Fits(tokens[i]) <==> |tokens[i]| + 1 <= 16_384);
  }

  lemma AppendKeepsHit(s: Setting, w: World, path: string, worker: nat, passport: Passport, draft: Claims, looked: Option<Digest>)
    requires worker in s.ours && At(w, path).holder == Some(Holder(worker, Some(looked), Some(passport)))
    requires Hit(w.cache, path, At(w, path).content, passport)
    ensures var v := Step(s, w, Append(path, worker, draft));
            && At(v, path) == Trace(At(w, path).content + s.key.sign(draft.(parent := looked)) + "\n", Some(Holder(worker, None, Some(passport))))
            && Hit(v.cache, path, At(v, path).content, passport)
  {
    hide Dropped, Permits, Add;
  }

  lemma LookUpKeepsHit(s: Setting, w: World, path: string, worker: nat, passport: Passport)
    requires At(w, path).holder == Some(Holder(worker, None, Some(passport)))
    ensures var v := Step(s, w, LookUp(path, worker)); var content := At(w, path).content;
            At(v, path) == Trace(content, Some(Holder(worker, Some(PreviousHash(content)), Some(passport)))) && v.cache == w.cache
  {
    hide PreviousHash;
  }

  /** A load of an empty file, and two receipts after it. */
  function TwoAppends(path: string, worker: nat, passport: Passport, first: Claims, second: Claims): seq<Event> {
    [Acquire(path, worker), LoadState(path, worker, passport), LookUp(path, worker), Append(path, worker, first)]
    + [LookUp(path, worker)] + [Append(path, worker, second)]
  }

  lemma TwoAppendsHit(s: Setting, path: string, worker: nat, passport: Passport, first: Claims, second: Claims)
    requires Sound(s.key) && worker in s.ours
    ensures var w := Run(s, Start, TwoAppends(path, worker, passport, first, second));
            var t1 := s.key.sign(first.(parent := None));
            var t2 := s.key.sign(second.(parent := PreviousHash(t1 + "\n")));
            At(w, path).content == FileOf([t1, t2]) && Lines(At(w, path).content) == [t1, t2] && Hit(w.cache, path, At(w, path).content, passport)
  {
    hide Run, Step, Hit, PreviousHash, Lines, TokenText;
    var e0, e1, e2, e3 := Acquire(path, worker), LoadState(path, worker, passport), LookUp(path, worker), Append(path, worker, first);
    RunFour(s, Start, e0, e1, e2, e3);
    RunMore(s, Start, [e0, e1, e2, e3], e2);
    RunMore(s, Start, [e0, e1, e2, e3] + [e2], Append(path, worker, second));
    LoadsNothing(s, path, worker, passport);
    var w3 := Step(s, Step(s, Step(s, Start, e0), e1), e2);
    AppendKeepsHit(s, w3, path, worker, passport, first, None);
    var w4 := Step(s, w3, e3);
    LookUpKeepsHit(s, w4, path, worker, passport);
    var w5 := Step(s, w4, e2);
    AppendKeepsHit(s, w5, path, worker, passport, second, PreviousHash(At(w4, path).content));
    var t1 := s.key.sign(first.(parent := None));
    var t2 := s.key.sign(second.(parent := PreviousHash(t1 + "\n")));
    assert At(w4, path).content == t1 + "\n";
    TwoOnFile(t1, t2);
    LinesOfFile([t1, t2]);
  }

  lemma TwoOnFile(t1: string, t2: string)
    ensures FileOf([t1, t2]) == t1 + "\n" + t2 + "\n"
  {
    assert [t1, t2][..1] == [t1] && [t1][..0] == [];
    assert FileOf([t1]) == "" + t1 + "\n" == t1 + "\n";
  }

  /** A first token that does not fit, and another after it: the next load answers from the cache what a full load refuses. */
  lemma UnlinkedChainStillHits(s: Setting, path: string, worker: nat, passport: Passport, first: Claims, second: Claims)
    requires Sound(s.key) && worker in s.ours
    requires var t1 := s.key.sign(first.(parent := None));
             !Fits(t1) && |t1| + |s.key.sign(second.(parent := PreviousHash(t1 + "\n")))| + 2 <= MAX_BYTES
    ensures var w := Run(s, Start, TwoAppends(path, worker, passport, first, second)); var content := At(w, path).content;
            Load(s.key, w.cache, path, content, passport).count.Some? && FullLoad(s.key, content, passport).None?
  {
    hide Run, Lines, Fits, Links, PreviousHash, TwoAppends, Sound, Touch, Opened, Recount;
    TwoAppendsHit(s, path, worker, passport, first, second);
    var es := TwoAppends(path, worker, passport, first, second);
    var content := At(Run(s, Start, es), path).content;
    var tokens := Lines(content);
    TwoOnFile(tokens[0], tokens[1]);
    ChainLinkedIff(s, es, path);
    assert !Fits(tokens[0]);
  }

  /** The script is needed: one permitted call receipted for another grant is counted by a hit and not by a recount. */
  lemma UndisciplinedOvercounts(s: Setting, path: string, worker: nat, passport: Passport, draft: Claims)
    requires Sound(s.key) && worker in s.ours && Permits(draft) && draft.grantId != passport.jti
    ensures var es := [Acquire(path, worker), LoadState(path, worker, passport), LookUp(path, worker), Append(path, worker, draft)];
            var w := Run(s, Start, es); var content := At(w, path).content;
            && Hit(w.cache, path, content, passport) && w.cache.entries[path].count.total == 1
            && Lined(s.key, content) && RecountText(s.key, content, passport.jti).total == 0
  {
    var e0, e1, e2, e3 := Acquire(path, worker), LoadState(path, worker, passport), LookUp(path, worker), Append(path, worker, draft);
    var w3 := Step(s, Step(s, Step(s, Start, e0), e1), e2);
    assert Run(s, Start, [e0, e1, e2, e3]) == Step(s, w3, e3) by { RunFour(s, Start, e0, e1, e2, e3); }
    hide Run;
    LoadsNothing(s, path, worker, passport);
    AppendsOne(s, w3, path, worker, passport, draft);
  }

  lemma RunFour(s: Setting, w: World, e0: Event, e1: Event, e2: Event, e3: Event)
    ensures Run(s, w, [e0, e1, e2, e3]) == Step(s, Step(s, Step(s, Step(s, w, e0), e1), e2), e3)
  {
    hide Step;
    assert [e0, e1, e2, e3][1..] == [e1, e2, e3] && [e1, e2, e3][1..] == [e2, e3] && [e2, e3][1..] == [e3];
    var w2 := Step(s, Step(s, w, e0), e1);
    assert Run(s, w2, [e2, e3]) == Run(s, Step(s, w2, e2), [e3]) == Step(s, Step(s, w2, e2), e3);
    assert Run(s, w, [e0, e1, e2, e3]) == Run(s, Step(s, w, e0), [e1, e2, e3]) == Run(s, w2, [e2, e3]);
  }

  lemma NothingLoads(key: Signer, path: string, passport: Passport)
    ensures var l := Load(key, Cache(map[], []), path, "", passport);
            && l.count == Some(Count(0, map[]))
            && Hit(l.cache, path, "", passport) && l.cache.entries[path].count == Count(0, map[])
  {
    hide Lines, Trim, Dropped;
    LinesOfFile([]);
    FileOfNone();
    assert Opened(key, []) == [];
    assert FullLoad(key, "", passport) == Some(Count(0, map[]));
    LoadBounded(key, Cache(map[], []), path, "", passport);
  }

  lemma LoadsNothing(s: Setting, path: string, worker: nat, passport: Passport)
    requires worker in s.ours
    ensures var w := Step(s, Step(s, Step(s, Start, Acquire(path, worker)), LoadState(path, worker, passport)), LookUp(path, worker));
            && At(w, path) == Trace("", Some(Holder(worker, Some(None), Some(passport))))
            && Hit(w.cache, path, "", passport) && w.cache.entries[path].count == Count(0, map[])
  {
    hide Load, PreviousHash, Hit;
    NothingLoads(s.key, path, passport);
    PreviousOfEmpty();
    var w1 := Step(s, Start, Acquire(path, worker));
    assert At(w1, path) == Trace("", Some(Holder(worker, None, None))) && w1.cache == Cache(map[], []);
    var w2 := Step(s, w1, LoadState(path, worker, passport));
    assert At(w2, path) == Trace("", Some(Holder(worker, None, Some(passport))));
  }

  lemma AppendsOne(s: Setting, w: World, path: string, worker: nat, passport: Passport, draft: Claims)
    requires Sound(s.key) && worker in s.ours && Permits(draft) && draft.grantId != passport.jti
    requires At(w, path) == Trace("", Some(Holder(worker, Some(None), Some(passport))))
    requires Hit(w.cache, path, "", passport) && w.cache.entries[path].count == Count(0, map[])
    ensures var v := Step(s, w, Append(path, worker, draft)); var content := At(v, path).content;
            && Hit(v.cache, path, content, passport) && v.cache.entries[path].count.total == 1
            && Lined(s.key, content) && RecountText(s.key, content, passport.jti).total == 0
  {
    hide Lines, Sound, Permits, Dropped;
    var c := Signed(At(w, path), draft);
    PermitsIgnoresParent(draft, c);
    LinesOfFile([]);
    FileOfNone();
    assert Lined(s.key, "") && Receipts(s.key, []) == [];
    RecountAppend(s.key, "", c, passport.jti);
  }
}
