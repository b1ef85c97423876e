// BackupKV of states/kv/kv.go: a paged scan that writes one frame per entry under the prefix,
// and when it ends.
module EtcdBackup {
  import opened Prelude
  import opened KeyOrder
  import opened MetaStore
  import opened PrefixWalk
  import opened Framing
  import opened Loops

  function EntryFrames(codec: Codec<KV>, kvs: seq<KV>): Bytes {
    if kvs == [] then []
    else EntryFrames(codec, kvs[..|kvs| - 1]) + Frame(codec.encode(kvs[|kvs| - 1]))
  }

  lemma {:induction false} EntryFramesAppend(codec: Codec<KV>, a: seq<KV>, b: seq<KV>)
    ensures EntryFrames(codec, a + b) == EntryFrames(codec, a) + EntryFrames(codec, b)
  {
    if b == [] {
      assert a + b == a;
      Regroup(EntryFrames(codec, a), [], []);
    } else {
      var front, last := b[..|b| - 1], b[|b| - 1];
      assert (a + b)[..|a + b| - 1] == a + front;
      EntryFramesAppend(codec, a, front);
      Regroup(EntryFrames(codec, a), EntryFrames(codec, front), Frame(codec.encode(last)));
    }
  }

  /** A backup request at one revision: the store, the prefix, the page size, the codec, and cnt, the
      number of entries counted under the prefix beforehand. */
  datatype Job = Job(store: seq<KV>, prefix: Key, batchSize: nat, codec: Codec<KV>, cnt: nat)

  /** The loop's variables: the page key, entries written, and bytes written. */
  datatype Progress = Progress(currentKey: Key, i: nat, out: Bytes)

  /** How the loop can end: the bytes with their stopper, or the progress line's division by a zero count. */
  datatype Ending = Done(out: Bytes) | DividedByZero

  type Outcome = Stepped<Progress, Ending>

  function Begin(job: Job): Progress {
    Progress(job.prefix, 0, [])
  }

  /** The progress after the entries written from one page. */
  function Wrote(codec: Codec<KV>, p: Progress, valid: seq<KV>): Progress {
    Progress(if valid == [] then p.currentKey else valid[|valid| - 1].key + [0],
             p.i + |valid|,
             p.out + EntryFrames(codec, valid))
  }

  /** One page. Entries outside the prefix are skipped and do not move the page key. */
  function BackupPage(job: Job, p: Progress): Outcome {
    var page := Get(job.store, NotBefore(p.currentKey), job.batchSize);
    if page.count == 0 then Stop(Done(p.out + Frame([])))
    else if job.cnt == 0 then Stop(DividedByZero)
    else Next(Wrote(job.codec, p, Filter(page.kvs, Under(job.prefix))))
  }

  function Pager(job: Job): Progress -> Outcome {
    (p: Progress) => BackupPage(job, p)
  }

  /** The backup cut off after a number of pages. */
  function BackupFor(job: Job, pages: nat): Outcome {
    Loop(Pager(job), Begin(job), pages)
  }

  /** Writes the page's entries under the prefix and moves the page key past the last of them. */
  method WritePage(job: Job, kvs: seq<KV>, was: Progress) returns (p: Progress)
    ensures p == Wrote(job.codec, was, Filter(kvs, Under(job.prefix)))
  {
    p := was;
    ghost var written := [];
    Regroup(was.out, [], []);
    for k := 0 to |kvs|
      invariant written == Filter(kvs[..k], Under(job.prefix))
      invariant p == Wrote(job.codec, was, written)
    {
      FilterOneMore(kvs, k, Under(job.prefix));
      if HasPrefix(kvs[k].key, job.prefix) {
        WriteOneMore(job.codec, was, written, kvs[k]);
        written := written + [kvs[k]];
        p := Progress(kvs[k].key + [0], p.i + 1, p.out + Frame(job.codec.encode(kvs[k])));
      }
    }
    assert kvs[..|kvs|] == kvs;
  }

  method DoPage(job: Job, p: Progress) returns (o: Outcome)
    ensures o == BackupPage(job, p)
  {
    var page := Get(job.store, NotBefore(p.currentKey), job.batchSize);
    if page.count == 0 {
      return Stop(Done(p.out + Frame([])));
    }
    var next := WritePage(job, page.kvs, p);
    if job.cnt == 0 {
      return Stop(DividedByZero);
    }
    return Next(next);
  }

  /** The states visited one page after another. */
  ghost predicate Trace(job: Job, states: seq<Progress>) {
    && |states| > 0 && states[0] == Begin(job)
    && (forall k | 0 <= k < |states| - 1 :: Goes(job, states[k], states[k + 1]))
  }

  ghost predicate Goes(job: Job, p: Progress, q: Progress) {
    BackupPage(job, p) == Next(q)
  }

  /** The loop, cut off after a number of pages because it may not end by itself. */
  method BackupKV(job: Job, pages: nat) returns (o: Outcome)
    ensures o == BackupFor(job, pages)
  {
    var p, n := Begin(job), 0;
    ghost var states := [p];
    while n < pages
      invariant n <= pages && |states| == n + 1 && states[n] == p
      invariant Trace(job, states)
    {
      o := DoPage(job, p);
      if o.Stop? {
        TraceStops(job, states, pages, o);
        return;
      }
      p, n := o.state, n + 1;
      states := states + [p];
    }
    TraceRuns(job, states);
    return Next(p);
  }

  lemma TraceRuns(job: Job, states: seq<Progress>)
    requires Trace(job, states)
    ensures BackupFor(job, |states| - 1) == Next(states[|states| - 1])
  {
    forall k | 0 <= k < |states| - 1
      ensures Pager(job)(states[k]) == Next(states[k + 1])
    {
      assert Goes(job, states[k], states[k + 1]);
    }
    LoopAlong(Pager(job), states, |states| - 1);
  }

  lemma TraceStops(job: Job, states: seq<Progress>, pages: nat, o: Outcome)
    requires Trace(job, states) && |states| <= pages
    requires o.Stop? && BackupPage(job, states[|states| - 1]) == o
    ensures BackupFor(job, pages) == o
  {
    forall k | 0 <= k < |states| - 1
      ensures Pager(job)(states[k]) == Next(states[k + 1])
    {
      assert Goes(job, states[k], states[k + 1]);
    }
    LoopAlong(Pager(job), states, pages);
  }

  lemma FilterOneMore(s: seq<KV>, k: nat, p: KV -> bool)
    requires k < |s|
    ensures Filter(s[..k + 1], p) == Filter(s[..k], p) + if p(s[k]) then [s[k]] else []
  {
    assert s[..k + 1] == s[..k] + [s[k]];
    FilterAppend(s[..k], [s[k]], p);
    assert [s[k]][1..] == [];
  }

  lemma WriteOneMore(codec: Codec<KV>, was: Progress, written: seq<KV>, e: KV)
    ensures var p := Wrote(codec, was, written);
      Wrote(codec, was, written + [e]) == Progress(e.key + [0], p.i + 1, p.out + Frame(codec.encode(e)))
  {
  }

  // ---------- when the backup ends ----------

  /** Every stored key from the prefix on has the prefix: nothing sorts after the prefix range. */
  predicate NothingAfter(job: Job) {
    forall e | e in job.store && AtMost(job.prefix, e.key) :: HasPrefix(e.key, job.prefix)
  }

  lemma PrefixedBeforeLater(prefix: Key, k: Key, later: Key)
    requires HasPrefix(k, prefix) && AtMost(prefix, later) && !HasPrefix(later, prefix)
    ensures AtMost(k + [0], later)
  {
    PrefixIsRange(k, prefix);
    PrefixIsRange(later, prefix);
    LessAtMost(k, GetPrefixRangeEnd(prefix).value, later);
    NextKey(k, later);
  }

  /** The page key has not passed k. */
  function AtOrBefore(k: Key): Progress -> bool {
    (p: Progress) => AtMost(p.currentKey, k)
  }

  /** An entry that sorts after the prefix range. */
  predicate IsAfter(job: Job, later: KV) {
    later in job.store && AtMost(job.prefix, later.key) && !HasPrefix(later.key, job.prefix)
  }

  lemma SomeAfter(job: Job) returns (later: KV)
    requires !NothingAfter(job)
    ensures IsAfter(job, later)
  {
    later :| later in job.store && AtMost(job.prefix, later.key) && !HasPrefix(later.key, job.prefix);
  }

  lemma WroteStaysBefore(job: Job, p: Progress, valid: seq<KV>, later: KV)
    requires IsAfter(job, later) && AtMost(p.currentKey, later.key)
    requires forall e | e in valid :: HasPrefix(e.key, job.prefix)
    ensures AtMost(Wrote(job.codec, p, valid).currentKey, later.key)
  {
    if valid != [] {
      assert valid[|valid| - 1] in valid;
      PrefixedBeforeLater(job.prefix, valid[|valid| - 1].key, later.key);
    }
  }

  /** The page key never passes such an entry, so no page finds nothing: with a zero count the progress
      line divides by zero, otherwise the loop goes on. */
  lemma PageKeyStaysBefore(job: Job, p: Progress, later: KV)
    requires IsAfter(job, later) && AtMost(p.currentKey, later.key)
    ensures job.cnt == 0 ==> BackupPage(job, p) == Stop(DividedByZero)
    ensures job.cnt > 0 ==> BackupPage(job, p).Next? && AtMost(BackupPage(job, p).state.currentKey, later.key)
  {
    assert later in Filter(job.store, NotBefore(p.currentKey));
    var valid := Filter(Get(job.store, NotBefore(p.currentKey), job.batchSize).kvs, Under(job.prefix));
    WroteStaysBefore(job, p, valid, later);
  }

  /** With a key after the prefix range and entries to count, the loop never ends: after any number of
      pages it is still going. */
  lemma GoesOnForever(job: Job, pages: nat, later: KV)
    requires IsAfter(job, later) && job.cnt > 0
    ensures BackupFor(job, pages).Next?
  {
    var safe, unwanted := AtOrBefore(later.key), (r: Ending) => true;
    forall q | safe(q)
      ensures if Pager(job)(q).Stop? then !unwanted(Pager(job)(q).result) else safe(Pager(job)(q).state)
    {
      PageKeyStaysBefore(job, q, later);
    }
    LoopNever(Pager(job), safe, unwanted, Begin(job), pages);
  }

  /** With a key after the prefix range and nothing to count, the first page crashes. */
  lemma FirstPageCrashes(job: Job, pages: nat, later: KV)
    requires IsAfter(job, later) && job.cnt == 0 && pages > 0
    ensures BackupFor(job, pages) == Stop(DividedByZero)
  {
    PageKeyStaysBefore(job, Begin(job), later);
  }

  lemma NeverDividesByPositive(job: Job, pages: nat)
    requires job.cnt > 0
    ensures !Crashes(job, pages)
  {
    LoopNever(Pager(job), (p: Progress) => true, (r: Ending) => r == DividedByZero, Begin(job), pages);
  }

  function InStore(job: Job): seq<KV> {
    Filter(job.store, Under(job.prefix))
  }

  /** The loop with nothing after the range: v entries written, the rest still from the page key on. */
  ghost predicate WrittenTo(job: Job, p: Progress, v: nat) {
    && v <= |InStore(job)|
    && Filter(job.store, NotBefore(p.currentKey)) == InStore(job)[v..]
    && p.i == v
    && p.out == EntryFrames(job.codec, InStore(job)[..v])
  }

  lemma BeginWritten(job: Job)
    requires NothingAfter(job)
    ensures WrittenTo(job, Begin(job), 0)
  {
    forall e | e in job.store
      ensures NotBefore(job.prefix)(e) == Under(job.prefix)(e)
    {
      PrefixIsRange(e.key, job.prefix);
    }
    FilterSame(job.store, NotBefore(job.prefix), Under(job.prefix));
    assert InStore(job)[..0] == [] && InStore(job)[0..] == InStore(job);
  }

  lemma AllPrefixed(job: Job, kvs: seq<KV>, v: nat, n: nat)
    requires v + n <= |InStore(job)| && kvs == InStore(job)[v..v + n]
    ensures Filter(kvs, Under(job.prefix)) == kvs
  {
    forall e | e in kvs
      ensures Under(job.prefix)(e)
    {
      assert e in InStore(job);
    }
    FilterAll(kvs, Under(job.prefix));
  }

  /** Restarting just after the n-th entry from the page key. */
  lemma {:induction false} RestartAfter(s: seq<KV>, key: Key, n: nat)
    requires Sorted(s) && 0 < n <= |Filter(s, NotBefore(key))|
    ensures Filter(s, NotBefore(Filter(s, NotBefore(key))[n - 1].key + [0])) == Filter(s, NotBefore(key))[n..]
  {
    var q := (e: KV) => true;
    FilterSame(s, NotBefore(key), From(key, q));
    NextPage(s, key, q, n);
    var next := Filter(s, NotBefore(key))[n - 1].key + [0];
    FilterSame(s, NotBefore(next), From(next, q));
  }

  /** With everything written, the next page is empty and the stopper follows. */
  lemma LastPage(job: Job, p: Progress)
    requires WrittenTo(job, p, |InStore(job)|)
    ensures BackupPage(job, p) == Stop(Done(EntryFrames(job.codec, InStore(job)) + Frame([])))
  {
    assert InStore(job)[..|InStore(job)|] == InStore(job);
  }

  lemma PageContents(job: Job, p: Progress, v: nat)
    requires WrittenTo(job, p, v) && v < |InStore(job)|
    ensures var page := Get(job.store, NotBefore(p.currentKey), job.batchSize);
      && 0 < |page.kvs| <= |InStore(job)| - v
      && page.count > 0
      && page.kvs == InStore(job)[v..v + |page.kvs|]
  {
  }

  lemma Slices<T>(all: seq<T>, v: nat, n: nat)
    requires 0 < n && v + n <= |all|
    ensures all[v..][n - 1] == all[v..v + n][n - 1] && all[v..][n..] == all[v + n..]
    ensures all[..v + n] == all[..v] + all[v..v + n]
  {
  }

  lemma WroteMore(job: Job, p: Progress, v: nat, kvs: seq<KV>)
    requires Sorted(job.store) && WrittenTo(job, p, v) && 0 < |kvs| <= |InStore(job)| - v
    requires kvs == InStore(job)[v..v + |kvs|]
    ensures WrittenTo(job, Wrote(job.codec, p, kvs), v + |kvs|)
  {
    var all, n := InStore(job), |kvs|;
    Slices(all, v, n);
    RestartAfter(job.store, p.currentKey, n);
    EntryFramesAppend(job.codec, all[..v], kvs);
  }

  lemma PageWrites(job: Job, p: Progress, kvs: seq<KV>)
    requires var page := Get(job.store, NotBefore(p.currentKey), job.batchSize); page.count > 0 && page.kvs == kvs
    requires job.cnt > 0 && Filter(kvs, Under(job.prefix)) == kvs
    ensures BackupPage(job, p) == Next(Wrote(job.codec, p, kvs))
  {
  }

  /** Otherwise one page writes at least one more entry. */
  lemma PageAdvances(job: Job, p: Progress, v: nat) returns (w: nat)
    requires Sorted(job.store) && WrittenTo(job, p, v) && v < |InStore(job)| == job.cnt
    ensures v < w && BackupPage(job, p).Next? && WrittenTo(job, BackupPage(job, p).state, w)
  {
    var kvs := Get(job.store, NotBefore(p.currentKey), job.batchSize).kvs;
    w := v + |kvs|;
    PageContents(job, p, v);
    AllPrefixed(job, kvs, v, |kvs|);
    WroteMore(job, p, v, kvs);
    PageWrites(job, p, kvs);
  }

  ghost function Writing(job: Job): (Progress, nat) -> bool {
    (p: Progress, v: nat) => WrittenTo(job, p, v)
  }

  /** The finished backup: every entry under the prefix once, in key order, and the stopper. */
  function FullBackup(job: Job): Bytes {
    EntryFrames(job.codec, InStore(job)) + Frame([])
  }

  lemma PagesAdvance(job: Job)
    requires Sorted(job.store) && job.cnt == |InStore(job)|
    ensures Advances(Pager(job), Writing(job), |InStore(job)|, Done(FullBackup(job)))
  {
    var inv, total := Writing(job), |InStore(job)|;
    forall p: Progress, v: nat | inv(p, v)
      ensures v <= total
    {
      assert WrittenTo(job, p, v);
    }
    forall p: Progress, v: nat | inv(p, v) && v < total
      ensures Pager(job)(p).Next? && GetsCloser(inv, Pager(job)(p).state, v)
    {
      var w := PageAdvances(job, p, v);
      assert inv(Pager(job)(p).state, w);
    }
    forall p: Progress | inv(p, total)
      ensures Pager(job)(p) == Stop(Done(FullBackup(job)))
    {
      LastPage(job, p);
    }
  }

  lemma WrittenSoFar(job: Job, p: Progress, w: nat)
    requires WrittenTo(job, p, w)
    ensures p.i <= |InStore(job)| && p.out == EntryFrames(job.codec, InStore(job)[..p.i])
  {
  }

  /** Cut off anywhere, the count is not overrun and what is written is the first i entries. */
  lemma ProgressIsBounded(job: Job, pages: nat)
    requires Sorted(job.store) && NothingAfter(job) && job.cnt == |InStore(job)|
    ensures match BackupFor(job, pages)
      case Stop(r) => r == Done(FullBackup(job))
      case Next(p) => p.i <= job.cnt && p.out == EntryFrames(job.codec, InStore(job)[..p.i])
  {
    BeginWritten(job);
    PagesAdvance(job);
    var o := BackupFor(job, pages);
    LoopStaysWithin(Pager(job), Writing(job), |InStore(job)|, Done(FullBackup(job)), Begin(job), 0, pages);
    if o.Next? {
      var w: nat :| Writing(job)(o.state, w);
      WrittenSoFar(job, o.state, w);
    }
  }

  predicate Crashes(job: Job, pages: nat) {
    BackupFor(job, pages) == Stop(DividedByZero)
  }

  predicate Ends(job: Job, pages: nat) {
    BackupFor(job, pages).Stop? && BackupFor(job, pages).result.Done?
  }

  /** At a fixed revision the backup ends, having written every entry under the prefix once and in
      key order, exactly when no stored key sorts after the prefix range. */
  lemma BackupEndsIffNothingAfter(job: Job)
    requires Sorted(job.store) && job.cnt == |InStore(job)|
    ensures (exists pages: nat :: Ends(job, pages)) <==> NothingAfter(job)
    ensures NothingAfter(job) ==> BackupFor(job, |InStore(job)| + 1) == Stop(Done(FullBackup(job)))
  {
    if NothingAfter(job) {
      BeginWritten(job);
      PagesAdvance(job);
      LoopStops(Pager(job), Writing(job), |InStore(job)|, Done(FullBackup(job)), Begin(job), 0, |InStore(job)| + 1);
      assert Ends(job, |InStore(job)| + 1);
    } else {
      var later := SomeAfter(job);
      forall pages: nat
        ensures !Ends(job, pages)
      {
        if job.cnt > 0 {
          GoesOnForever(job, pages, later);
        } else if pages > 0 {
          FirstPageCrashes(job, pages, later);
        }
      }
    }
  }

  /** It divides by zero exactly when nothing is under the prefix and some key sorts after its range. */
  lemma BackupCrashesIffNothingToCount(job: Job)
    requires Sorted(job.store) && job.cnt == |InStore(job)|
    ensures (exists pages: nat :: Crashes(job, pages)) <==> job.cnt == 0 && !NothingAfter(job)
  {
    if job.cnt > 0 {
      forall pages: nat ensures !Crashes(job, pages) {
        NeverDividesByPositive(job, pages);
      }
    } else if NothingAfter(job) {
      forall pages: nat ensures !Crashes(job, pages) {
        ProgressIsBounded(job, pages);
      }
    } else {
      var later := SomeAfter(job);
      FirstPageCrashes(job, 1, later);
      assert Crashes(job, 1);
    }
  }

  /** And it goes on forever exactly when there is something under the prefix and some key after its range. */
  lemma BackupGoesOnIff(job: Job)
    requires Sorted(job.store) && job.cnt == |InStore(job)|
    ensures (forall pages: nat :: BackupFor(job, pages).Next?) <==> job.cnt > 0 && !NothingAfter(job)
  {
    BackupEndsIffNothingAfter(job);
    BackupCrashesIffNothingToCount(job);
    if !NothingAfter(job) && job.cnt > 0 {
      var later := SomeAfter(job);
      forall pages: nat ensures BackupFor(job, pages).Next? {
        GoesOnForever(job, pages, later);
      }
    } else if NothingAfter(job) {
      assert BackupFor(job, |InStore(job)| + 1).Stop?;
    } else {
      var pages: nat :| Crashes(job, pages);
      assert BackupFor(job, pages).Stop?;
    }
  }

  /** The repository's own backup test is such a case: "r1/testr1", itself stored, with "r1/testr2" after it. */
  lemma OwnTestNeverEnds(job: Job, pages: nat)
    requires Sorted(job.store) && job.cnt == |InStore(job)|
    requires job.prefix == [114, 49, 47, 116, 101, 115, 116, 114, 49]
    requires exists e :: e in job.store && e.key == job.prefix
    requires exists e :: e in job.store && e.key == [114, 49, 47, 116, 101, 115, 116, 114, 50]
    ensures BackupFor(job, pages).Next?
  {
    var first :| first in job.store && first.key == job.prefix;
    assert first in InStore(job);
    var e :| e in job.store && e.key == [114, 49, 47, 116, 101, 115, 116, 114, 50];
    assert e.key[8] != job.prefix[8];
    AfterByLastByte(job.prefix, e.key);
    GoesOnForever(job, pages, e);
  }

  /** Two keys of equal length that first differ in their last byte. */
  lemma {:induction false} AfterByLastByte(p: Key, k: Key)
    requires |p| == |k| > 0 && p[..|p| - 1] == k[..|k| - 1] && p[|p| - 1] < k[|k| - 1]
    ensures AtMost(p, k)
  {
    if |p| > 1 {
      assert p[0] == p[..|p| - 1][0] == k[0];
      assert p[1..][..|p| - 2] == p[..|p| - 1][1..];
      assert k[1..][..|k| - 2] == k[..|k| - 1][1..];
      AfterByLastByte(p[1..], k[1..]);
    }
  }
}
