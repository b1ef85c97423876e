// The metrics part of a backup: backupMetrics of states/etcd_backup.go and restoreMetrics of
// states/etcd_restore.go.
module MetricsBackup {
  import opened Prelude
  import opened KeyOrder
  import opened Framing

  /** One session with its metrics and default metrics; either body may be empty. */
  datatype Sample<S> = Sample(session: S, metrics: Bytes, defaults: Bytes)

  function SampleFrames<S>(codec: Codec<S>, x: Sample<S>): Bytes {
    Frame(codec.encode(x.session)) + Frame(x.metrics) + Frame(x.defaults)
  }

  function MetricsFrames<S>(codec: Codec<S>, xs: seq<Sample<S>>): Bytes {
    if xs == [] then []
    else MetricsFrames(codec, xs[..|xs| - 1]) + SampleFrames(codec, xs[|xs| - 1])
  }

  /** The fetched sessions, in order; those whose fetch failed are left out. */
  function Fetched<S>(sessions: seq<Option<Sample<S>>>): seq<Sample<S>> {
    if sessions == [] then []
    else
      var last := sessions[|sessions| - 1];
      Fetched(sessions[..|sessions| - 1]) + if last.Some? then [last.value] else []
  }

  lemma {:induction false} FetchedInOrder<S>(a: seq<Option<Sample<S>>>, b: seq<Option<Sample<S>>>, x: Sample<S>)
    ensures Fetched(a + b) == Fetched(a) + Fetched(b)
    ensures Fetched([Some(x)]) == [x] && Fetched<S>([None]) == []
  {
    var some, none: seq<Option<Sample<S>>> := [Some(x)], [None];
    assert some[..0] == [] && none[..0] == [] && Fetched<S>([]) == [];
    if b == [] {
      assert a + b == a;
    } else {
      var front := b[..|b| - 1];
      assert (a + b)[..|a + b| - 1] == a + front;
      FetchedInOrder(a, front, x);
      Regroup(Fetched(a), Fetched(front), if b[|b| - 1].Some? then [b[|b| - 1].value] else []);
    }
  }

  lemma FetchedOneMore<S>(codec: Codec<S>, sessions: seq<Option<Sample<S>>>, i: nat)
    requires i < |sessions| && sessions[i].Some?
    ensures MetricsFrames(codec, Fetched(sessions[..i + 1])) ==
            MetricsFrames(codec, Fetched(sessions[..i])) + SampleFrames(codec, sessions[i].value)
  {
    var before := Fetched(sessions[..i]);
    assert sessions[..i + 1][..i] == sessions[..i];
    assert Fetched(sessions[..i + 1]) == before + [sessions[i].value];
    assert (before + [sessions[i].value])[..|before|] == before;
  }

  method BackupMetrics<S>(w: Writer, codec: Codec<S>, header: Bytes, sessions: seq<Option<Sample<S>>>)
    modifies w
    ensures w.out == old(w.out) + Frame(header) + MetricsFrames(codec, Fetched(sessions)) + Frame([])
  {
    w.WriteBackupBytes(header);
    ghost var start := w.out;
    assert start == start + MetricsFrames(codec, Fetched(sessions[..0]));
    for i := 0 to |sessions|
      invariant w.out == start + MetricsFrames(codec, Fetched(sessions[..i]))
    {
      assert sessions[..i + 1][..i] == sessions[..i];
      if sessions[i].Some? {
        var x := sessions[i].value;
        FetchedOneMore(codec, sessions, i);
        RegroupFive(start, MetricsFrames(codec, Fetched(sessions[..i])), Frame(codec.encode(x.session)),
                    Frame(x.metrics), Frame(x.defaults));
        w.WriteBackupBytes(codec.encode(x.session));
        w.WriteBackupBytes(x.metrics);
        w.WriteBackupBytes(x.defaults);
      } else {
        assert Fetched(sessions[..i + 1]) == Fetched(sessions[..i]);
      }
    }
    assert sessions[..|sessions|] == sessions;
    w.WriteBackupBytes([]);
  }

  datatype Verdict = Finished | BadSession | ReadFailed(error: ReadError)

  datatype Restored<S> = Restored(verdict: Verdict, handled: seq<Sample<S>>, rest: Bytes)

  /** One round: three frames, the first of which may be the stopper or the end of the file. */
  datatype Round<S> = Handle(sample: Sample<S>, rest: Bytes) | Stop(verdict: Verdict, rest: Bytes)

  function ReadRound<S>(codec: Codec<S>, s: Bytes): (r: Round<S>)
    ensures r.Handle? ==> |r.rest| < |s|
  {
    var a := ReadFrameOf(s);
    if a.0.Failed? then Stop(if a.0.error == Eof then Finished else ReadFailed(a.0.error), a.1)
    else if a.0.data == [] then Stop(Finished, a.1)
    else
      var session := codec.decode(a.0.data);
      if session.None? then Stop(BadSession, a.1)
      else
        var m := ReadFrameOf(a.1);
        if m.0.Failed? then Stop(ReadFailed(m.0.error), m.1)
        else
          var d := ReadFrameOf(m.1);
          if d.0.Failed? then Stop(ReadFailed(d.0.error), d.1)
          else Handle(Sample(session.value, m.0.data, d.0.data), d.1)
  }

  /** What restoreMetrics hands to its handler, and where it leaves the stream. */
  function RestoreFrom<S>(codec: Codec<S>, s: Bytes): Restored<S>
    decreases |s|
  {
    match ReadRound(codec, s)
    case Stop(verdict, rest) => Restored(verdict, [], rest)
    case Handle(sample, rest) =>
      var later := RestoreFrom(codec, rest);
      Restored(later.verdict, [sample] + later.handled, later.rest)
  }

  method ReadSample<S>(rd: Reader, codec: Codec<S>) returns (verdict: Option<Verdict>, sample: Option<Sample<S>>)
    modifies rd
    ensures match ReadRound(codec, old(rd.rest))
      case Stop(v, rest) => verdict == Some(v) && sample == None && rd.rest == rest
      case Handle(x, rest) => verdict == None && sample == Some(x) && rd.rest == rest
  {
    sample := None;
    var session := rd.ReadBackupBytes();
    if session.Failed? {
      return Some(if session.error == Eof then Finished else ReadFailed(session.error)), None;
    }
    if session.data == [] {
      return Some(Finished), None;
    }
    var decoded := codec.decode(session.data);
    if decoded.None? {
      return Some(BadSession), None;
    }
    var metrics := rd.ReadBackupBytes();
    if metrics.Failed? {
      return Some(ReadFailed(metrics.error)), None;
    }
    var defaults := rd.ReadBackupBytes();
    if defaults.Failed? {
      return Some(ReadFailed(defaults.error)), None;
    }
    return None, Some(Sample(decoded.value, metrics.data, defaults.data));
  }

  /** handled so far, followed by what the rest of the stream yields, is the whole. */
  ghost predicate Handled<S>(whole: Restored<S>, handled: seq<Sample<S>>, later: Restored<S>) {
    && whole.verdict == later.verdict && whole.rest == later.rest
    && whole.handled == handled + later.handled
  }

  lemma HandledOneMore<S>(whole: Restored<S>, handled: seq<Sample<S>>, x: Sample<S>, later: Restored<S>)
    requires Handled(whole, handled, Restored(later.verdict, [x] + later.handled, later.rest))
    ensures Handled(whole, handled + [x], later)
  {
  }

  method RestoreMetrics<S(!new)>(rd: Reader, codec: Codec<S>) returns (verdict: Verdict, handled: seq<Sample<S>>)
    modifies rd
    ensures Restored(verdict, handled, rd.rest) == RestoreFrom(codec, old(rd.rest))
    ensures ReadAsCut(codec, old(rd.rest), verdict, handled)
  {
    CutsRead(codec, rd.rest);
    handled := [];
    ghost var whole := RestoreFrom(codec, rd.rest);
    while true
      invariant Handled(whole, handled, RestoreFrom(codec, rd.rest))
      decreases |rd.rest|
    {
      ghost var s := rd.rest;
      var stopped, sample := ReadSample(rd, codec);
      if stopped.Some? {
        Regroup(handled, [], []);
        return stopped.value, handled;
      }
      assert RestoreFrom(codec, s).handled == [sample.value] + RestoreFrom(codec, rd.rest).handled;
      HandledOneMore(whole, handled, sample.value, RestoreFrom(codec, rd.rest));
      handled := handled + [sample.value];
    }
  }

  ghost predicate Fits<S>(xs: seq<Sample<S>>) {
    forall x | x in xs :: |x.metrics| < TWO_64 && |x.defaults| < TWO_64
  }

  function Sessions<S>(xs: seq<Sample<S>>): (r: seq<S>)
    ensures |r| == |xs| && forall i | 0 <= i < |xs| :: r[i] == xs[i].session
  {
    seq(|xs|, i requires 0 <= i < |xs| => xs[i].session)
  }

  lemma RoundReadsBack<S>(codec: Codec<S>, x: Sample<S>, tail: Bytes)
    requires codec.ReadsBack(x.session) && |x.metrics| < TWO_64 && |x.defaults| < TWO_64
    ensures ReadRound(codec, Frame(codec.encode(x.session)) + Frame(x.metrics) + Frame(x.defaults) + tail) == Handle(x, tail)
  {
    var name := codec.encode(x.session);
    assert SampleFrames(codec, x) + tail == Frame(name) + (Frame(x.metrics) + (Frame(x.defaults) + tail));
    FrameRoundTrip(name, Frame(x.metrics) + (Frame(x.defaults) + tail));
    FrameRoundTrip(x.metrics, Frame(x.defaults) + tail);
    FrameRoundTrip(x.defaults, tail);
  }

  /** A session that does not decode stops the restore, its metrics unread. */
  lemma BadSessionStops<S>(codec: Codec<S>, data: Bytes, tail: Bytes)
    requires 0 < |data| < TWO_64 && codec.decode(data).None?
    ensures RestoreFrom(codec, Frame(data) + tail) == Restored(BadSession, [], tail)
  {
    FrameRoundTrip(data, tail);
  }

  lemma {:induction false} FramesByHead<S>(codec: Codec<S>, x: Sample<S>, xs: seq<Sample<S>>)
    ensures MetricsFrames(codec, [x] + xs) == SampleFrames(codec, x) + MetricsFrames(codec, xs)
  {
    if xs == [] {
      assert [x] + xs == [x] && [x][..0] == [];
      assert MetricsFrames(codec, [x][..0]) == [];
    } else {
      assert ([x] + xs)[..|xs|] == [x] + xs[..|xs| - 1];
      FramesByHead(codec, x, xs[..|xs| - 1]);
    }
  }

  /** Round trip: parsing the frames of any samples and the stopper gives back exactly those samples,
      even with empty bodies, and leaves every following byte unread. */
  lemma {:induction false} MetricsRoundTrip<S>(codec: Codec<S>, xs: seq<Sample<S>>, tail: Bytes)
    requires codec.FaithfulOn(Sessions(xs)) && Fits(xs)
    ensures RestoreFrom(codec, MetricsFrames(codec, xs) + Frame([]) + tail) == Restored(Finished, xs, tail)
  {
    if xs == [] {
      FrameRoundTrip([], tail);
      Regroup(MetricsFrames(codec, xs), Frame([]), tail);
    } else {
      var rest := MetricsFrames(codec, xs[1..]) + Frame([]) + tail;
      assert xs == [xs[0]] + xs[1..];
      FramesByHead(codec, xs[0], xs[1..]);
      RegroupFour(SampleFrames(codec, xs[0]), MetricsFrames(codec, xs[1..]), Frame([]), tail);
      assert Sessions(xs)[0] in Sessions(xs);
      OneHandled(codec, xs[0], rest);
      assert Sessions(xs[1..]) == Sessions(xs)[1..];
      MetricsRoundTrip(codec, xs[1..], tail);
    }
  }

  // ---------- a stream cut short ----------

  /** The bytes behind the part header: the samples' frames and the stopper. */
  function SamplesOf<S>(codec: Codec<S>, xs: seq<Sample<S>>): Bytes {
    MetricsFrames(codec, xs) + Frame([])
  }

  /** Cut after n bytes, the stream holds k whole samples. */
  ghost predicate CutAt<S>(codec: Codec<S>, xs: seq<Sample<S>>, n: nat, k: nat) {
    && k <= |xs| && |MetricsFrames(codec, xs[..k])| <= n <= |SamplesOf(codec, xs)|
    && (k < |xs| ==> n < |MetricsFrames(codec, xs[..k + 1])|)
  }

  /** Where a cut inside a sample, m bytes into it, is taken for the end of the file in the middle of it:
      at the ends of its frames, and right behind the length of its second or third one. */
  predicate AtFrameEnd<S>(codec: Codec<S>, x: Sample<S>, m: nat) {
    var second := 8 + |codec.encode(x.session)|;
    var third := second + 8 + |x.metrics|;
    m in [second, second + 8, third, third + 8]
  }

  ghost predicate CutVerdict<S>(codec: Codec<S>, xs: seq<Sample<S>>, k: nat, m: nat, verdict: Verdict)
    requires k <= |xs|
  {
    && (verdict == Finished <==> m == 0 || m == 8)
    && (verdict == ReadFailed(Eof) <==> m != 0 && m != 8 && k < |xs| && AtFrameEnd(codec, xs[k], m))
    && verdict != BadSession
  }

  lemma CutInSession<S>(codec: Codec<S>, x: Sample<S>, m: nat)
    requires codec.ReadsBack(x.session) && m < 8 + |codec.encode(x.session)|
    ensures ReadRound(codec, Frame(codec.encode(x.session))[..m]) ==
            Stop(if m == 0 || m == 8 then Finished else ReadFailed(UnexpectedEof), [])
  {
    CutFrame(codec.encode(x.session), m);
  }

  lemma CutInMetrics<S>(codec: Codec<S>, x: Sample<S>, i: nat)
    requires codec.ReadsBack(x.session) && |x.metrics| < TWO_64 && i < 8 + |x.metrics|
    ensures ReadRound(codec, Frame(codec.encode(x.session)) + Frame(x.metrics)[..i]) ==
            Stop(ReadFailed(if i == 0 || i == 8 then Eof else UnexpectedEof), [])
  {
    FrameRoundTrip(codec.encode(x.session), Frame(x.metrics)[..i]);
    CutFrame(x.metrics, i);
  }

  lemma CutInDefaults<S>(codec: Codec<S>, x: Sample<S>, i: nat)
    requires codec.ReadsBack(x.session) && |x.metrics| < TWO_64 && |x.defaults| < TWO_64 && i < 8 + |x.defaults|
    ensures ReadRound(codec, Frame(codec.encode(x.session)) + (Frame(x.metrics) + Frame(x.defaults)[..i])) ==
            Stop(ReadFailed(if i == 0 || i == 8 then Eof else UnexpectedEof), [])
  {
    FrameRoundTrip(codec.encode(x.session), Frame(x.metrics) + Frame(x.defaults)[..i]);
    FrameRoundTrip(x.metrics, Frame(x.defaults)[..i]);
    CutFrame(x.defaults, i);
  }

  lemma CutThree(a: Bytes, b: Bytes, c: Bytes, m: nat)
    requires m <= |a| + |b| + |c|
    ensures (a + b + c)[..m] ==
            if m < |a| then a[..m]
            else if m - |a| < |b| then a + b[..m - |a|]
            else a + (b + c[..m - |a| - |b|])
  {
  }

  /** One sample cut short. */
  lemma CutRound<S>(codec: Codec<S>, x: Sample<S>, m: nat)
    requires codec.ReadsBack(x.session) && |x.metrics| < TWO_64 && |x.defaults| < TWO_64
    requires m < |SampleFrames(codec, x)|
    ensures var r := ReadRound(codec, SampleFrames(codec, x)[..m]);
      r.Stop? && r.rest == [] && CutVerdict(codec, [x], 0, m, r.verdict)
  {
    var name := codec.encode(x.session);
    FrameLength(name);
    FrameLength(x.metrics);
    FrameLength(x.defaults);
    CutThree(Frame(name), Frame(x.metrics), Frame(x.defaults), m);
    var second := 8 + |name|;
    var third := second + 8 + |x.metrics|;
    if m < second {
      CutInSession(codec, x, m);
    } else if m < third {
      CutInMetrics(codec, x, m - second);
    } else {
      CutInDefaults(codec, x, m - third);
    }
  }

  /** The first k samples handed on, nothing left, and the verdict for a cut off bytes behind them. */
  ghost predicate UpTo<S>(codec: Codec<S>, xs: seq<Sample<S>>, k: nat, off: int, r: Restored<S>) {
    k <= |xs| && off >= 0 && r.handled == xs[..k] && r.rest == [] && CutVerdict(codec, xs, k, off, r.verdict)
  }

  ghost predicate ReadsUpToCut<S>(codec: Codec<S>, xs: seq<Sample<S>>, n: nat, k: nat)
    requires k <= |xs| && n <= |SamplesOf(codec, xs)|
  {
    UpTo(codec, xs, k, n - |MetricsFrames(codec, xs[..k])|, RestoreFrom(codec, SamplesOf(codec, xs)[..n]))
  }

  lemma SamplesByHead<S>(codec: Codec<S>, x: Sample<S>, xs: seq<Sample<S>>)
    ensures SamplesOf(codec, [x] + xs) == SampleFrames(codec, x) + SamplesOf(codec, xs)
  {
    FramesByHead(codec, x, xs);
    Regroup(SampleFrames(codec, x), MetricsFrames(codec, xs), Frame([]));
  }

  lemma Behind<S>(codec: Codec<S>, x: Sample<S>, xs: seq<Sample<S>>, k: nat)
    requires 0 < k <= |xs| + 1
    ensures ([x] + xs)[..k] == [x] + xs[..k - 1]
    ensures |MetricsFrames(codec, ([x] + xs)[..k])| == |SampleFrames(codec, x)| + |MetricsFrames(codec, xs[..k - 1])|
  {
    assert ([x] + xs)[..k] == [x] + xs[..k - 1];
    FramesByHead(codec, x, xs[..k - 1]);
  }

  lemma CutBehind<S>(codec: Codec<S>, x: Sample<S>, xs: seq<Sample<S>>, n: nat, k: nat)
    requires CutAt(codec, [x] + xs, n, k) && n >= |SampleFrames(codec, x)|
    ensures k > 0 && CutAt(codec, xs, n - |SampleFrames(codec, x)|, k - 1)
    ensures |MetricsFrames(codec, ([x] + xs)[..k])| == |SampleFrames(codec, x)| + |MetricsFrames(codec, xs[..k - 1])|
  {
    var all := [x] + xs;
    SamplesByHead(codec, x, xs);
    Behind(codec, x, xs, 1);
    assert xs[..0] == [];
    Behind(codec, x, xs, k);
    if k < |all| {
      Behind(codec, x, xs, k + 1);
    }
  }

  lemma FirstIsLonger<S>(codec: Codec<S>, x: Sample<S>, xs: seq<Sample<S>>, k: nat)
    requires k <= |xs| + 1
    ensures if k == 0 then MetricsFrames(codec, ([x] + xs)[..k]) == []
            else |MetricsFrames(codec, ([x] + xs)[..k])| >= |SampleFrames(codec, x)|
  {
    if k > 0 {
      assert ([x] + xs)[..k] == [x] + xs[..k - 1];
      FramesByHead(codec, x, xs[..k - 1]);
    }
  }

  lemma CutTwo(a: Bytes, b: Bytes, m: nat)
    requires m <= |a| + |b|
    ensures (a + b)[..m] == if m <= |a| then a[..m] else a + b[..m - |a|]
    ensures m == |a| ==> (a + b)[..m] == a + []
  {
  }

  lemma CutInFirst<S>(codec: Codec<S>, x: Sample<S>, xs: seq<Sample<S>>, n: nat, k: nat)
    requires codec.ReadsBack(x.session) && |x.metrics| < TWO_64 && |x.defaults| < TWO_64
    requires CutAt(codec, [x] + xs, n, k) && n < |SampleFrames(codec, x)|
    ensures ReadsUpToCut(codec, [x] + xs, n, k)
  {
    FirstIsLonger(codec, x, xs, k);
    CutRound(codec, x, n);
    CutBytesFirst(codec, x, xs, n);
    FirstVerdict(codec, x, xs, n, ReadRound(codec, SampleFrames(codec, x)[..n]).verdict);
    assert ([x] + xs)[..0] == [];
  }

  lemma CutBytesFirst<S>(codec: Codec<S>, x: Sample<S>, xs: seq<Sample<S>>, n: nat)
    requires n < |SampleFrames(codec, x)|
    ensures n <= |SamplesOf(codec, [x] + xs)| && SamplesOf(codec, [x] + xs)[..n] == SampleFrames(codec, x)[..n]
  {
    SamplesByHead(codec, x, xs);
    CutTwo(SampleFrames(codec, x), SamplesOf(codec, xs), n);
  }

  lemma FirstVerdict<S>(codec: Codec<S>, x: Sample<S>, xs: seq<Sample<S>>, off: nat, verdict: Verdict)
    ensures CutVerdict(codec, [x] + xs, 0, off, verdict) <==> CutVerdict(codec, [x], 0, off, verdict)
  {
    assert ([x] + xs)[0] == x;
  }

  lemma CutLater<S>(codec: Codec<S>, x: Sample<S>, xs: seq<Sample<S>>, n: nat, k: nat, m: nat)
    requires codec.ReadsBack(x.session) && |x.metrics| < TWO_64 && |x.defaults| < TWO_64
    requires 0 < k <= |xs| + 1 && m <= |SamplesOf(codec, xs)| && ReadsUpToCut(codec, xs, m, k - 1)
    requires n == |SampleFrames(codec, x)| + m <= |SamplesOf(codec, [x] + xs)|
    ensures ReadsUpToCut(codec, [x] + xs, n, k)
  {
    var later := RestoreFrom(codec, SamplesOf(codec, xs)[..m]);
    CutReads(codec, x, xs, n, m);
    Behind(codec, x, xs, k);
    var off := m - |MetricsFrames(codec, xs[..k - 1])|;
    UpToByHead(codec, x, xs, k, off, later);
    var all := [x] + xs;
    assert off == n - |MetricsFrames(codec, all[..k])|;
    assert UpTo(codec, all, k, off, RestoreFrom(codec, SamplesOf(codec, all)[..n]));
  }

  lemma UpToByHead<S>(codec: Codec<S>, x: Sample<S>, xs: seq<Sample<S>>, k: nat, off: int, r: Restored<S>)
    requires 0 < k && UpTo(codec, xs, k - 1, off, r)
    ensures UpTo(codec, [x] + xs, k, off, Restored(r.verdict, [x] + r.handled, r.rest))
  {
    SameVerdict(codec, x, xs, k, off, r.verdict);
    assert ([x] + xs)[..k] == [x] + xs[..k - 1];
  }

  lemma CutReads<S>(codec: Codec<S>, x: Sample<S>, xs: seq<Sample<S>>, n: nat, m: nat)
    requires codec.ReadsBack(x.session) && |x.metrics| < TWO_64 && |x.defaults| < TWO_64
    requires n == |SampleFrames(codec, x)| + m && m <= |SamplesOf(codec, xs)|
    ensures n <= |SamplesOf(codec, [x] + xs)|
    ensures var later := RestoreFrom(codec, SamplesOf(codec, xs)[..m]);
      RestoreFrom(codec, SamplesOf(codec, [x] + xs)[..n]) == Restored(later.verdict, [x] + later.handled, later.rest)
  {
    CutBytes(codec, x, xs, n, m);
    OneHandled(codec, x, SamplesOf(codec, xs)[..m]);
  }

  lemma CutBytes<S>(codec: Codec<S>, x: Sample<S>, xs: seq<Sample<S>>, n: nat, m: nat)
    requires n == |SampleFrames(codec, x)| + m && m <= |SamplesOf(codec, xs)|
    ensures n <= |SamplesOf(codec, [x] + xs)|
    ensures SamplesOf(codec, [x] + xs)[..n] == SampleFrames(codec, x) + SamplesOf(codec, xs)[..m]
  {
    SamplesByHead(codec, x, xs);
    CutTwo(SampleFrames(codec, x), SamplesOf(codec, xs), n);
    Regroup(SampleFrames(codec, x), [], []);
  }

  lemma SameVerdict<S>(codec: Codec<S>, x: Sample<S>, xs: seq<Sample<S>>, k: nat, off: nat, verdict: Verdict)
    requires 0 < k <= |xs| + 1
    ensures CutVerdict(codec, [x] + xs, k, off, verdict) <==> CutVerdict(codec, xs, k - 1, off, verdict)
  {
    assert k <= |xs| ==> ([x] + xs)[k] == xs[k - 1];
  }

  lemma OneHandled<S>(codec: Codec<S>, x: Sample<S>, rest: Bytes)
    requires codec.ReadsBack(x.session) && |x.metrics| < TWO_64 && |x.defaults| < TWO_64
    ensures var later := RestoreFrom(codec, rest);
      RestoreFrom(codec, SampleFrames(codec, x) + rest) == Restored(later.verdict, [x] + later.handled, later.rest)
  {
    RoundReadsBack(codec, x, rest);
  }

  lemma CutEmpty<S>(codec: Codec<S>, n: nat)
    requires CutAt(codec, [], n, 0)
    ensures ReadsUpToCut(codec, [], n, 0)
  {
    FrameLength([]);
    Regroup([], Frame([]), []);
    var s := SamplesOf(codec, []);
    assert s == Frame([]) && |s| == 8;
    if n < 8 {
      CutFrame([], n);
    } else {
      assert s[..n] == Frame([]) + [];
      FrameRoundTrip([], []);
    }
  }

  /** A stream cut anywhere: the samples whole before the cut are handed on, and the restore counts as
      finished if the cut falls between two samples, after the stopper, or just behind a session's
      length; otherwise it fails, with the end of the file at a frame's end and short elsewhere. */
  lemma {:induction false} CutMetrics<S>(codec: Codec<S>, xs: seq<Sample<S>>, n: nat, k: nat)
    requires codec.FaithfulOn(Sessions(xs)) && Fits(xs) && CutAt(codec, xs, n, k)
    ensures ReadsUpToCut(codec, xs, n, k)
    decreases |xs|, 1
  {
    if xs == [] {
      CutEmpty(codec, n);
    } else {
      assert xs == [xs[0]] + xs[1..];
      CutNonempty(codec, xs[0], xs[1..], n, k);
    }
  }

  lemma GoodByHead<S>(codec: Codec<S>, x: Sample<S>, xs: seq<Sample<S>>)
    requires codec.FaithfulOn(Sessions([x] + xs)) && Fits([x] + xs)
    ensures codec.ReadsBack(x.session) && |x.metrics| < TWO_64 && |x.defaults| < TWO_64
    ensures codec.FaithfulOn(Sessions(xs)) && Fits(xs)
  {
    var all := [x] + xs;
    assert x in all && Sessions(all)[0] in Sessions(all);
    assert Sessions(all)[1..] == Sessions(xs);
    assert forall y | y in xs :: y in all;
  }

  lemma {:induction false} CutNonempty<S>(codec: Codec<S>, x: Sample<S>, later: seq<Sample<S>>, n: nat, k: nat)
    requires codec.FaithfulOn(Sessions([x] + later)) && Fits([x] + later) && CutAt(codec, [x] + later, n, k)
    ensures ReadsUpToCut(codec, [x] + later, n, k)
    decreases |later| + 1, 0
  {
    GoodByHead(codec, x, later);
    var f := |SampleFrames(codec, x)|;
    if n < f {
      CutInFirst(codec, x, later, n, k);
    } else {
      CutBehind(codec, x, later, n, k);
      var m := n - f;
      CutMetrics(codec, later, m, k - 1);
      CutLater(codec, x, later, n, k, m);
    }
  }

  /** However s comes about by cutting a written stream, this is what the cut leaves. */
  ghost predicate ReadAsCut<S(!new)>(codec: Codec<S>, s: Bytes, verdict: Verdict, handled: seq<Sample<S>>) {
    forall xs: seq<Sample<S>>, n: nat, k: nat
      | codec.FaithfulOn(Sessions(xs)) && Fits(xs) && CutAt(codec, xs, n, k) && s == SamplesOf(codec, xs)[..n] ::
      handled == xs[..k] && CutVerdict(codec, xs, k, n - |MetricsFrames(codec, xs[..k])|, verdict)
  }

  lemma CutsRead<S(!new)>(codec: Codec<S>, s: Bytes)
    ensures ReadAsCut(codec, s, RestoreFrom(codec, s).verdict, RestoreFrom(codec, s).handled)
  {
    forall xs: seq<Sample<S>>, n: nat, k: nat
      | codec.FaithfulOn(Sessions(xs)) && Fits(xs) && CutAt(codec, xs, n, k) {
      CutMetrics(codec, xs, n, k);
    }
  }

  const MARKER: Byte := 1

  /** A session name as its bytes behind a marker byte, so that even an empty name encodes to something. */
  function NameCodec(): Codec<Bytes> {
    Codec((name: Bytes) => [MARKER] + name, (bs: Bytes) => if bs == [] then None else Some(bs[1..]))
  }

  /** The round trip is not vacuous: sessions named by byte strings, any number of them, read back. */
  lemma NamedSessionsRoundTrip(xs: seq<Sample<Bytes>>, tail: Bytes)
    requires Fits(xs) && forall x | x in xs :: |x.session| < TWO_64 - 1
    ensures NameCodec().FaithfulOn(Sessions(xs))
    ensures RestoreFrom(NameCodec(), MetricsFrames(NameCodec(), xs) + Frame([]) + tail) == Restored(Finished, xs, tail)
  {
    forall name | name in Sessions(xs)
      ensures NameCodec().ReadsBack(name)
    {
      assert ([MARKER] + name)[1..] == name;
    }
    MetricsRoundTrip(NameCodec(), xs, tail);
  }
}
