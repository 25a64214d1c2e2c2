/** The certificate cache that a hash polling file watcher reloads, with writes to the file falling
    between any two of its steps. */
module ReloadCache {
  import opened Options
  import opened Text

  /** Between the constructor's load and the first hash; waiting for the next check; told to reload;
      having read the file but not yet replaced the cached certificate. */
  datatype Phase = Loaded | Idle | Reloading | Storing(read: nat)

  /** `history` holds every content of the file, the current one last. The cache holds the content
      at index `cached`, and the watcher stores the hash of the content at index `hashed`. */
  datatype State = State(history: seq<string>, cached: nat, hashed: nat, phase: Phase)

  datatype Event =
    | Write(content: string)   // by whoever rotates the certificate
    | StartHash                // Start computes the first hash
    | Check                    // a tick hashes the file and compares
    | CheckUnreadable          // a tick cannot hash the file
    | Read                     // the reload reads the file
    | ReadFails                // the reload cannot read or parse it
    | Store                    // the reload replaces the cached certificate

  predicate WellFormed(s: State) {
    && s.cached < |s.history| && s.hashed < |s.history|
    && (s.phase.Storing? ==> s.cached <= s.phase.read < |s.history|)
  }

  function Last(s: State): nat
    requires WellFormed(s)
  {
    |s.history| - 1
  }

  function File(s: State): string
    requires WellFormed(s)
  {
    s.history[Last(s)]
  }

  function CachedContent(s: State): string
    requires WellFormed(s)
  {
    s.history[s.cached]
  }

  predicate Enabled(s: State, e: Event) {
    match e
    case Write(_) => true
    case StartHash => s.phase.Loaded?
    case Check => s.phase.Idle?
    case CheckUnreadable => s.phase.Idle?
    case Read => s.phase.Reloading?
    case ReadFails => s.phase.Reloading?
    case Store => s.phase.Storing?
  }

  /** The stored hash is replaced before the reload is attempted, whether or not it succeeds. */
  function Step(hash: string -> string, s: State, e: Event): (s': State)
    requires WellFormed(s) && Enabled(s, e)
    ensures WellFormed(s')
  {
    match e
    case Write(content) => s.(history := s.history + [content])
    case StartHash => s.(hashed := Last(s), phase := Idle)
    case Check =>
      if hash(File(s)) != hash(s.history[s.hashed]) then s.(hashed := Last(s), phase := Reloading)
      else s.(hashed := Last(s))
    case CheckUnreadable => s
    case Read => s.(phase := Storing(Last(s)))
    case ReadFails => s.(phase := Idle)
    case Store => s.(cached := s.phase.read, phase := Idle)
  }

  predicate Run(hash: string -> string, s: State, es: seq<Event>)
    requires WellFormed(s)
    decreases |es|
  {
    es == [] || (Enabled(s, es[0]) && Run(hash, Step(hash, s, es[0]), es[1..]))
  }

  function End(hash: string -> string, s: State, es: seq<Event>): (s': State)
    requires WellFormed(s) && Run(hash, s, es)
    ensures WellFormed(s')
    decreases |es|
  {
    if es == [] then s else End(hash, Step(hash, s, es[0]), es[1..])
  }

  /** Right after the constructor loaded the certificate. */
  function Constructed(content: string): (s: State)
    ensures WellFormed(s)
  {
    State([content], 0, 0, Loaded)
  }

  // ---------- the cache never goes back ----------

  /** In every run, whatever is written and whatever fails, the cached version never goes back and is
      always a content the file had. */
  lemma {:induction false} CacheNeverGoesBack(hash: string -> string, s: State, es: seq<Event>)
    requires WellFormed(s) && Run(hash, s, es)
    ensures var end := End(hash, s, es); s.cached <= end.cached <= Last(end) && s.history <= end.history
    decreases |es|
  {
    if es != [] {
      CacheNeverGoesBack(hash, Step(hash, s, es[0]), es[1..]);
    }
  }

  // ---------- when the cache equals the file ----------

  predicate CollisionFree(hash: string -> string, history: seq<string>) {
    forall i, j :: 0 <= i < |history| && 0 <= j < |history| && hash(history[i]) == hash(history[j]) ==>
      history[i] == history[j]
  }

  /** No reload failed and nothing was written before the first hash. */
  predicate Undisturbed(hash: string -> string, s: State, es: seq<Event>)
    requires WellFormed(s) && Run(hash, s, es)
    decreases |es|
  {
    es == [] || (&& !es[0].ReadFails? && !(es[0].Write? && s.phase.Loaded?)
                 && Undisturbed(hash, Step(hash, s, es[0]), es[1..]))
  }

  /** The cache is as new as the last hash, or a reload is on its way that will make it so. */
  predicate CaughtUp(s: State)
    requires WellFormed(s)
  {
    match s.phase
    case Loaded => s.cached == Last(s)
    case Idle => s.cached >= s.hashed
    case Reloading => true
    case Storing(read) => read >= s.hashed
  }

  lemma StepKeepsCaughtUp(hash: string -> string, s: State, e: Event)
    requires WellFormed(s) && Enabled(s, e) && CaughtUp(s) && !e.ReadFails? && !(e.Write? && s.phase.Loaded?)
    requires NoRepeats(s.history) && CollisionFree(hash, s.history)
    ensures CaughtUp(Step(hash, s, e))
  {
    if e.Check? && hash(File(s)) == hash(s.history[s.hashed]) {
      assert s.history[Last(s)] == s.history[s.hashed];
    }
  }

  lemma {:induction false} RunKeepsCaughtUp(hash: string -> string, s: State, es: seq<Event>)
    requires WellFormed(s) && Run(hash, s, es) && Undisturbed(hash, s, es) && CaughtUp(s)
    requires NoRepeats(End(hash, s, es).history) && CollisionFree(hash, End(hash, s, es).history)
    ensures CaughtUp(End(hash, s, es))
    decreases |es|
  {
    if es != [] {
      CacheNeverGoesBack(hash, s, es);
      PrefixStaysClean(hash, s.history, End(hash, s, es).history);
      StepKeepsCaughtUp(hash, s, es[0]);
      RunKeepsCaughtUp(hash, Step(hash, s, es[0]), es[1..]);
    }
  }

  lemma PrefixStaysClean(hash: string -> string, a: seq<string>, b: seq<string>)
    requires a <= b && NoRepeats(b) && CollisionFree(hash, b)
    ensures NoRepeats(a) && CollisionFree(hash, a)
  {
    assert forall i :: 0 <= i < |a| ==> a[i] == b[i];
  }

  /** After any completed check with no write since its hash the cache holds what the file holds, even
      when writes fell between the hash and the reload, provided every write is new content, hashes
      do not collide, no reload failed and nothing was written before the first hash. */
  lemma CacheEqualsFile(hash: string -> string, content: string, es: seq<Event>)
    requires Run(hash, Constructed(content), es) && Undisturbed(hash, Constructed(content), es)
    requires var end := End(hash, Constructed(content), es);
             NoRepeats(end.history) && CollisionFree(hash, end.history) && end.phase.Idle? && end.hashed == Last(end)
    ensures var end := End(hash, Constructed(content), es); CachedContent(end) == File(end)
  {
    RunKeepsCaughtUp(hash, Constructed(content), es);
  }

  // ---------- each condition is needed ----------

  /** A check completed, nothing was written since its hash, and the cache is still out of date. */
  predicate Stale(s: State)
    requires WellFormed(s)
  {
    s.phase.Idle? && s.hashed == Last(s) && CachedContent(s) != File(s)
  }

  /** Staleness is not healed by time: any number of further checks leaves the cache as it is. */
  lemma {:induction false} StaleStays(hash: string -> string, s: State, checks: nat)
    requires WellFormed(s) && Stale(s)
    ensures Run(hash, s, seq(checks, _ => Check)) && End(hash, s, seq(checks, _ => Check)) == s
    decreases checks
  {
    if checks > 0 {
      assert Step(hash, s, Check) == s;
      assert seq(checks, _ => Check)[1..] == seq(checks - 1, _ => Check);
      StaleStays(hash, s, checks - 1);
    }
  }

  /** A write between the load and the first hash goes unnoticed. */
  lemma EarlyWriteGoesUnnoticed(hash: string -> string, a: string, b: string)
    requires a != b
    ensures Stale(Step(hash, Step(hash, Constructed(a), Write(b)), StartHash))
  {
    assert Step(hash, Step(hash, Constructed(a), Write(b)), StartHash) == State([a, b], 0, 1, Idle);
  }

  /** The state in which a changed file was hashed and the reload is due. */
  function Noticed(hash: string -> string, a: string, b: string): (s: State)
    requires hash(a) != hash(b)
    ensures WellFormed(s) && s == State([a, b], 0, 1, Reloading)
  {
    assert Step(hash, Step(hash, Constructed(a), StartHash), Write(b)) == State([a, b], 0, 0, Idle);
    Step(hash, Step(hash, Step(hash, Constructed(a), StartHash), Write(b)), Check)
  }

  /** A failed reload is not repeated until the file changes again. */
  lemma FailedReloadIsNotRepeated(hash: string -> string, a: string, b: string)
    requires hash(a) != hash(b)
    ensures Stale(Step(hash, Noticed(hash, a, b), ReadFails))
  {
    assert Step(hash, Noticed(hash, a, b), ReadFails) == State([a, b], 0, 1, Idle);
  }

  /** Content that returns between the hash and the reload, and then changes back, is missed. */
  lemma ReturningContentIsMissed(hash: string -> string, a: string, b: string)
    requires hash(a) != hash(b)
    ensures var cachedA := Step(hash, Step(hash, Step(hash, Noticed(hash, a, b), Write(a)), Read), Store);
            Stale(Step(hash, Step(hash, cachedA, Write(b)), Check))
  {
    var cachedA := Step(hash, Step(hash, Step(hash, Noticed(hash, a, b), Write(a)), Read), Store);
    assert cachedA == State([a, b, a], 2, 1, Idle);
    assert Step(hash, cachedA, Write(b)) == State([a, b, a, b], 2, 1, Idle);
  }

  /** A colliding hash hides a change. */
  lemma CollisionHidesChange(hash: string -> string, a: string, b: string)
    requires a != b && hash(a) == hash(b)
    ensures Stale(Step(hash, Step(hash, Step(hash, Constructed(a), StartHash), Write(b)), Check))
  {
    assert Step(hash, Step(hash, Constructed(a), StartHash), Write(b)) == State([a, b], 0, 0, Idle);
  }

  // ---------- exactly when the cache is left stale ----------

  /** Read off the events alone: whether the last write came before the first hash, and whether a
      reload read the file, or failed to, after the last write. */
  predicate LastWriteEarly(es: seq<Event>) {
    es != [] && var n := |es| - 1;
    if es[n].Write? then StartHash !in es else LastWriteEarly(es[..n])
  }

  predicate ReadSinceWrite(es: seq<Event>) {
    es != [] && var n := |es| - 1;
    es[n].Read? || (!es[n].Write? && ReadSinceWrite(es[..n]))
  }

  predicate FailedSinceWrite(es: seq<Event>) {
    es != [] && var n := |es| - 1;
    es[n].ReadFails? || (!es[n].Write? && FailedSinceWrite(es[..n]))
  }

  /** What the events so far say about the state. */
  predicate Tracks(s: State, done: seq<Event>)
    requires WellFormed(s)
  {
    && (s.phase.Loaded? <==> StartHash !in done)
    && (s.phase.Storing? ==> s.hashed <= s.phase.read)
    && if |s.history| == 1 then
         // nothing was written
         && !ReadSinceWrite(done) && !FailedSinceWrite(done) && !LastWriteEarly(done)
         && (s.phase.Loaded? || s.phase.Idle?)
       else if ReadSinceWrite(done) then
         s.cached == Last(s) || s.phase == Storing(Last(s))
       else
         && s.cached < Last(s) && (s.phase.Storing? ==> s.phase.read < Last(s))
         && (s.phase.Loaded? ==> LastWriteEarly(done))
         && (s.phase.Idle? && s.hashed == Last(s) ==> LastWriteEarly(done) || FailedSinceWrite(done))
  }

  lemma EventsSnoc(done: seq<Event>, e: Event)
    ensures StartHash in done + [e] <==> StartHash in done || e == StartHash
    ensures LastWriteEarly(done + [e]) <==> if e.Write? then StartHash !in done else LastWriteEarly(done)
    ensures ReadSinceWrite(done + [e]) <==> e.Read? || (!e.Write? && ReadSinceWrite(done))
    ensures FailedSinceWrite(done + [e]) <==> e.ReadFails? || (!e.Write? && FailedSinceWrite(done))
  {
    assert (done + [e])[..|done|] == done;
  }

  lemma StepTracks(hash: string -> string, s: State, e: Event, done: seq<Event>)
    requires WellFormed(s) && Enabled(s, e) && Tracks(s, done)
    requires NoRepeats(s.history) && CollisionFree(hash, s.history)
    ensures Tracks(Step(hash, s, e), done + [e])
  {
    EventsSnoc(done, e);
    if e.Check? && hash(File(s)) == hash(s.history[s.hashed]) {
      assert s.history[Last(s)] == s.history[s.hashed];
    }
  }

  lemma {:induction false} RunTracks(hash: string -> string, s: State, es: seq<Event>, done: seq<Event>)
    requires WellFormed(s) && Run(hash, s, es) && Tracks(s, done)
    requires NoRepeats(End(hash, s, es).history) && CollisionFree(hash, End(hash, s, es).history)
    ensures Tracks(End(hash, s, es), done + es)
    decreases |es|
  {
    if es == [] {
      assert done + es == done;
    } else {
      CacheNeverGoesBack(hash, s, es);
      PrefixStaysClean(hash, s.history, End(hash, s, es).history);
      StepTracks(hash, s, es[0], done);
      RunTracks(hash, Step(hash, s, es[0]), es[1..], done + [es[0]]);
      assert done + [es[0]] + es[1..] == done + es;
    }
  }

  /** When every write is new content and hashes do not collide, a completed check with no write since
      its hash leaves the cache stale if and only if nothing was read after the last write, and that
      write fell before the first hash or a reload after it failed. Earlier failures do not matter. */
  lemma StaleExactlyWhen(hash: string -> string, content: string, es: seq<Event>)
    requires Run(hash, Constructed(content), es)
    requires var end := End(hash, Constructed(content), es);
             NoRepeats(end.history) && CollisionFree(hash, end.history) && end.phase.Idle? && end.hashed == Last(end)
    ensures Stale(End(hash, Constructed(content), es)) <==>
            !ReadSinceWrite(es) && (LastWriteEarly(es) || FailedSinceWrite(es))
  {
    RunTracks(hash, Constructed(content), es, []);
    assert [] + es == es;
    CacheNeverGoesBack(hash, Constructed(content), es);
  }

  // ---------- the two objects ----------

  /** The watcher's stored hash and the reader's cached certificate. */
  class CertificateCache {
    var fileHash: string
    var cert: string

    ghost predicate Represents(hash: string -> string, s: State)
      reads this
    {
      WellFormed(s) && cert == CachedContent(s) && (!s.phase.Loaded? ==> fileHash == hash(s.history[s.hashed]))
    }

    method Start(hash: string -> string, file: string, ghost s: State)
      requires Represents(hash, s) && s.phase.Loaded? && file == File(s)
      modifies this`fileHash
      ensures Represents(hash, Step(hash, s, StartHash))
    {
      fileHash := hash(file);
    }

    /** The part of a check up to the callback; `None` is a file that cannot be hashed. */
    method CheckAndSignal(hash: string -> string, file: Option<string>, ghost s: State) returns (signal: bool)
      requires Represents(hash, s) && s.phase.Idle? && (file.Some? ==> file.value == File(s))
      modifies this`fileHash
      ensures var s' := Step(hash, s, if file.Some? then Check else CheckUnreadable);
              Represents(hash, s') && (signal <==> s'.phase.Reloading?)
    {
      if file.None? { return false; }
      var newHash := hash(file.value);
      if newHash != fileHash {
        fileHash := newHash;
        return true;
      }
      return false;
    }

    /** The reload after its read; `None` is a file that cannot be read or parsed. */
    method Reload(hash: string -> string, read: Option<string>, ghost s: State) returns (ok: bool)
      requires Represents(hash, s) && (read.None? ==> s.phase.Reloading?)
      requires read.Some? ==> s.phase.Storing? && read.value == s.history[s.phase.read]
      modifies this`cert
      ensures ok <==> read.Some?
      ensures Represents(hash, Step(hash, s, if ok then Store else ReadFails))
    {
      if read.None? { return false; }
      cert := read.value;
      return true;
    }
  }
}
