/** The fixed-window rate limiter: an in-memory map with lazy eviction behind a shared counter. */
module RateLimit {
  import opened Results

  /** Requests one key has made in one minute. */
  datatype Bucket = Bucket(window: nat, count: nat)

  const EVICTION_THRESHOLD := 512

  /** The minute a time in seconds falls into. */
  function WindowOf(now: nat): nat {
    now / 60
  }

  /** The time lies in the w-th minute, from second 60 * w up to the next multiple of 60. */
  predicate InMinute(t: nat, w: nat) {
    60 * w <= t < 60 * w + 60
  }

  lemma WindowExactlyWhen(t: nat, w: nat)
    ensures WindowOf(t) == w <==> InMinute(t, w)
  {
  }

  function Max(a: int, b: int): int {
    if a >= b then a else b
  }

  function Min(a: int, b: int): int {
    if a <= b then a else b
  }

  // ---- The map, as functions ----

  /** Once the map is large, buckets of earlier minutes are dropped. */
  function Cleaned(local: map<string, Bucket>, w: nat): map<string, Bucket> {
    if |local| < EVICTION_THRESHOLD then local
    else map k | k in local && local[k].window >= w :: local[k]
  }

  /** The bucket of `key` after one more call in minute `w`; a bucket of another minute starts over. */
  function Bumped(local: map<string, Bucket>, key: string, w: nat): Bucket {
    if key in local && local[key].window == w then Bucket(w, local[key].count + 1) else Bucket(w, 1)
  }

  function Incremented(local: map<string, Bucket>, key: string, w: nat): map<string, Bucket> {
    var cleaned := Cleaned(local, w);
    cleaned[key := Bumped(cleaned, key, w)]
  }

  // ---- The full log of calls ----

  datatype Call = Call(key: string, window: nat)

  /** How many calls of the log were made by `key` in minute `w`. */
  function Count(log: seq<Call>, key: string, w: nat): nat {
    if log == [] then 0
    else Count(log[..|log| - 1], key, w) + if log[|log| - 1] == Call(key, w) then 1 else 0
  }

  lemma CountAppend(log: seq<Call>, c: Call, key: string, w: nat)
    ensures Count(log + [c], key, w) == Count(log, key, w) + if c == Call(key, w) then 1 else 0
  {
    assert (log + [c])[..|log|] == log;
  }

  lemma {:induction false} CountedIsInLog(log: seq<Call>, key: string, w: nat)
    ensures Count(log, key, w) > 0 <==> Call(key, w) in log
  {
    if log != [] {
      var n := |log| - 1;
      CountedIsInLog(log[..n], key, w);
      assert log == log[..n] + [log[n]];
    }
  }

  /** The map after all calls of the log, from an empty one. */
  function Replay(cs: seq<Call>): map<string, Bucket> {
    if cs == [] then map[]
    else
      var c := cs[|cs| - 1];
      Incremented(Replay(cs[..|cs| - 1]), c.key, c.window)
  }

  lemma ReplayAppend(cs: seq<Call>, c: Call)
    ensures Replay(cs + [c]) == Incremented(Replay(cs), c.key, c.window)
  {
    assert (cs + [c])[..|cs|] == cs;
  }

  /** What the map holds for `key` in minute `w`. */
  function Held(cs: seq<Call>, key: string, w: nat): nat {
    var m := Replay(cs);
    if key in m && m[key].window == w then m[key].count else 0
  }

  lemma OneMore(m: nat, k: nat)
    ensures m * (k + 1) == m * k + m && m * k >= 0
  {
  }

  // ---- When a number is right ----

  /**
   The j-th call makes the map forget what `key` did in minute `w`: it is a call of that key in
   another minute, or one in a later minute that finds the map large and so evicts.
   */
  predicate Disturbs(cs: seq<Call>, j: nat, key: string, w: nat)
    requires j < |cs|
  {
    if cs[j].key == key then cs[j].window != w
    else cs[j].window > w && |Replay(cs[..j])| >= 512
  }

  /** Nothing made the map forget the key after its first call in the minute. */
  ghost predicate Undisturbed(cs: seq<Call>, key: string, w: nat) {
    forall j :: 0 <= j < |cs| && Disturbs(cs, j, key, w) ==> Call(key, w) !in cs[..j]
  }

  lemma DisturbsAppend(cs: seq<Call>, c: Call, j: nat, key: string, w: nat)
    requires j < |cs|
    ensures Disturbs(cs + [c], j, key, w) == Disturbs(cs, j, key, w) && (cs + [c])[..j] == cs[..j]
  {
    assert (cs + [c])[..j] == cs[..j];
  }

  lemma UndisturbedAppend(cs: seq<Call>, c: Call, key: string, w: nat)
    ensures Undisturbed(cs + [c], key, w)
       <==> Undisturbed(cs, key, w) && (Disturbs(cs + [c], |cs|, key, w) ==> Call(key, w) !in cs)
  {
    hide Disturbs;
    assert (cs + [c])[..|cs|] == cs;
    forall j | 0 <= j < |cs|
      ensures Disturbs(cs + [c], j, key, w) == Disturbs(cs, j, key, w) && (cs + [c])[..j] == cs[..j]
    {
      DisturbsAppend(cs, c, j, key, w);
    }
  }

  lemma HeldAppend(cs: seq<Call>, c: Call, key: string, w: nat)
    ensures Held(cs + [c], key, w)
         == if c == Call(key, w) then Held(cs, key, w) + 1
            else if Disturbs(cs + [c], |cs|, key, w) then 0
            else Held(cs, key, w)
  {
    hide Replay;
    ReplayAppend(cs, c);
    assert (cs + [c])[..|cs|] == cs;
  }

  /** The map never holds more than the log says, and holds it all exactly when nothing was forgotten. */
  lemma {:induction false} HeldIsCountExactlyWhen(cs: seq<Call>, key: string, w: nat)
    ensures Held(cs, key, w) <= Count(cs, key, w)
    ensures Held(cs, key, w) == Count(cs, key, w) <==> Undisturbed(cs, key, w)
  {
    hide Held, Disturbs, Undisturbed;
    if cs == [] {
      EmptyLog(key, w);
    } else {
      var n := |cs| - 1;
      var before, c := cs[..n], cs[n];
      assert cs == before + [c];
      HeldIsCountExactlyWhen(before, key, w);
      HeldAppend(before, c, key, w);
      UndisturbedAppend(before, c, key, w);
      CountedIsInLog(before, key, w);
      if c == Call(key, w) {
        OwnCallDisturbsNothing(cs, n, key, w);
      }
    }
  }

  lemma OwnCallDisturbsNothing(cs: seq<Call>, j: nat, key: string, w: nat)
    requires j < |cs| && cs[j] == Call(key, w)
    ensures !Disturbs(cs, j, key, w)
  {
  }

  lemma EmptyLog(key: string, w: nat)
    ensures Held([], key, w) == 0 == Count([], key, w) && Starts([], key, w) == 0
    ensures Undisturbed([], key, w) && CountedRight([], key, w)
  {
  }

  /**
   Under any clock, the number a call gets is at most the number of calls of its key in its
   minute, itself included; and it is that number exactly when nothing had made the map forget
   the key after its first call in the minute.
   */
  lemma NumberIsCountExactlyWhen(cs: seq<Call>, key: string, w: nat)
    ensures var after := Incremented(Replay(cs), key, w);
            var calls := Count(cs + [Call(key, w)], key, w);
            && after == Replay(cs + [Call(key, w)])
            && key in after && 1 <= after[key].count <= calls
            && (after[key].count == calls <==> Undisturbed(cs, key, w))
            && after[key].count == Held(cs, key, w) + 1
  {
    hide Replay, Count, Undisturbed;
    ReplayAppend(cs, Call(key, w));
    CountAppend(cs, Call(key, w), key, w);
    HeldIsCountExactlyWhen(cs, key, w);
  }

  /** Every call of `key` in minute `w` got its right number. */
  ghost predicate CountedRight(cs: seq<Call>, key: string, w: nat) {
    forall j :: 0 <= j < |cs| && cs[j] == Call(key, w) ==> Undisturbed(cs[..j], key, w)
  }

  lemma CountedRightAppend(cs: seq<Call>, c: Call, key: string, w: nat)
    ensures CountedRight(cs + [c], key, w)
       <==> CountedRight(cs, key, w) && (c == Call(key, w) ==> Undisturbed(cs, key, w))
  {
    hide Undisturbed;
    assert (cs + [c])[..|cs|] == cs && (cs + [c])[|cs|] == c;
    forall j | 0 <= j < |cs| ensures (cs + [c])[..j] == cs[..j] && (cs + [c])[j] == cs[j] {
    }
  }

  lemma {:induction false} UndisturbedCountsRight(cs: seq<Call>, key: string, w: nat)
    requires Undisturbed(cs, key, w)
    ensures CountedRight(cs, key, w)
  {
    hide Undisturbed, CountedRight, Disturbs;
    if cs == [] {
      EmptyLog(key, w);
    } else {
      var n := |cs| - 1;
      assert cs == cs[..n] + [cs[n]];
      UndisturbedAppend(cs[..n], cs[n], key, w);
      CountedRightAppend(cs[..n], cs[n], key, w);
      UndisturbedCountsRight(cs[..n], key, w);
    }
  }

  /** The clock never goes back to an earlier minute. */
  predicate Forward(cs: seq<Call>) {
    forall i, j :: 0 <= i < j < |cs| ==> cs[i].window <= cs[j].window
  }

  /** Evicting is unobservable under a clock that goes forward: every number is right. */
  lemma ForwardCountsRight(cs: seq<Call>, key: string, w: nat)
    requires Forward(cs)
    ensures CountedRight(cs, key, w)
  {
    hide Replay;
    forall n | 0 <= n < |cs| && cs[n] == Call(key, w) ensures Undisturbed(cs[..n], key, w) {
      var before := cs[..n];
      forall j | 0 <= j < |before| && Disturbs(before, j, key, w) ensures Call(key, w) !in before[..j] {
        assert cs[j].window <= cs[n].window;
        assert forall i :: 0 <= i < j ==> cs[i].window <= cs[j].window && before[..j][i] == cs[i];
      }
    }
  }

  /** A clock that steps back makes the map forget calls of the minute it returns to. */
  lemma SteppedClockForgets(key: string, w: nat)
    requires w >= 1
    ensures var cs := [Call(key, w), Call(key, w - 1), Call(key, w)];
            !CountedRight(cs, key, w) && Replay(cs)[key].count == 1 && Count(cs, key, w) == 2
  {
    hide Replay, Count, Held, Undisturbed, CountedRight;
    var a, b := Call(key, w), Call(key, w - 1);
    EmptyLog(key, w);
    assert [] + [a] == [a] && [a] + [b] == [a, b] && [a, b] + [a] == [a, b, a];
    CountAppend([], a, key, w);
    CountAppend([a], b, key, w);
    CountAppend([a, b], a, key, w);
    HeldAppend([], a, key, w);
    HeldAppend([a], b, key, w);
    NumberIsCountExactlyWhen([a, b], key, w);
    CountedRightAppend([a, b], a, key, w);
  }

  // ---- How large the map grows ----

  /** The keys called in minute `w` or later. */
  function KeysFrom(cs: seq<Call>, w: nat): set<string> {
    set c | c in cs && c.window >= w :: c.key
  }

  /** Each bucket is of a minute its key made a call in. */
  lemma {:induction false} BucketsAreOfCalls(cs: seq<Call>, key: string)
    requires key in Replay(cs)
    ensures Call(key, Replay(cs)[key].window) in cs
  {
    var n := |cs| - 1;
    assert cs == cs[..n] + [cs[n]];
    if key != cs[n].key {
      BucketsAreOfCalls(cs[..n], key);
    }
  }

  lemma {:induction false} SubsetIsSmaller<T>(a: set<T>, b: set<T>)
    requires a <= b
    ensures |a| <= |b|
  {
    if a != {} {
      var x :| x in a;
      SubsetIsSmaller(a - {x}, b - {x});
    }
  }

  /**
   Under any clock, the map never holds more than the threshold or, if those are more, the keys
   called in the minute of the latest call or later ones. Under a forward clock no later ones exist.
   */
  lemma ReplayBounded(cs: seq<Call>, c: Call)
    ensures |Replay(cs + [c])| <= Max(512, |KeysFrom(cs + [c], c.window)|)
  {
    hide Replay, Bumped;
    ReplayAppend(cs, c);
    var before, after := Replay(cs), Replay(cs + [c]);
    assert |after.Keys| == |after| && |before.Keys| == |before|;
    if |before| < EVICTION_THRESHOLD {
      assert after.Keys == before.Keys + {c.key};
    } else {
      forall k | k in after.Keys ensures k in KeysFrom(cs + [c], c.window) {
        if k == c.key {
          assert (cs + [c])[|cs|] == c;
        } else {
          BucketsAreOfCalls(cs, k);
          assert Call(k, before[k].window) in cs + [c];
        }
      }
      SubsetIsSmaller(after.Keys, KeysFrom(cs + [c], c.window));
    }
  }

  // ---- The shared counter, as functions of its log ----

  /** Seconds after its latest increment at which the shared counter drops a key. */
  const EXPIRY := 120

  /** One increment of the shared counter, by whichever process: `at` is the counter's own clock. */
  datatype Hit = Hit(key: string, window: nat, at: nat)

  /** The times at which `key` was counted for minute `w`, in order. */
  function TimesOf(hits: seq<Hit>, key: string, w: nat): seq<nat> {
    if hits == [] then []
    else
      var earlier, h := TimesOf(hits[..|hits| - 1], key, w), hits[|hits| - 1];
      if h.key == key && h.window == w then earlier + [h.at] else earlier
  }

  lemma TimesAppend(hits: seq<Hit>, h: Hit, key: string, w: nat)
    ensures TimesOf(hits + [h], key, w)
         == TimesOf(hits, key, w) + if h.key == key && h.window == w then [h.at] else []
  {
    assert (hits + [h])[..|hits|] == hits;
  }

  /** The increment at `now` finds the counter still there. */
  predicate Survives(ts: seq<nat>, now: nat) {
    ts != [] && now < ts[|ts| - 1] + EXPIRY
  }

  /** The number the latest increment got: one more than the one before, or one if that had expired. */
  function Number(ts: seq<nat>): nat {
    if ts == [] then 0
    else
      var n := |ts| - 1;
      if Survives(ts[..n], ts[n]) then Number(ts[..n]) + 1 else 1
  }

  /** No two consecutive increments are so far apart that the counter expires in between. */
  predicate Close(ts: seq<nat>) {
    forall i :: 0 < i < |ts| ==> ts[i] < ts[i - 1] + 120
  }

  /** How often the counter starts from one. */
  function SharedStarts(ts: seq<nat>): nat {
    if ts == [] then 0
    else
      var n := |ts| - 1;
      SharedStarts(ts[..n]) + if Survives(ts[..n], ts[n]) then 0 else 1
  }

  /** How many increments get a number within the limit. */
  function Passing(ts: seq<nat>, limit: int): nat {
    if ts == [] then 0
    else Passing(ts[..|ts| - 1], limit) + if Number(ts) <= limit then 1 else 0
  }

  lemma CloseAppend(ts: seq<nat>, n: nat)
    requires n + 1 == |ts|
    ensures Close(ts) <==> Close(ts[..n]) && (n == 0 || Survives(ts[..n], ts[n]))
  {
    if Close(ts[..n]) && (n == 0 || Survives(ts[..n], ts[n])) {
      forall i | 0 < i < |ts| ensures ts[i] < ts[i - 1] + 120 {
        assert i < n ==> ts[..n][i] < ts[..n][i - 1] + 120;
      }
    }
  }

  /** A number is never above the number of increments, and is that number exactly while none expired. */
  lemma {:induction false} NumberIsLengthExactlyWhen(ts: seq<nat>)
    ensures Number(ts) <= |ts|
    ensures Number(ts) == |ts| <==> Close(ts)
  {
    hide Close;
    if ts == [] {
      NoTimesAreClose();
    } else {
      var n := |ts| - 1;
      CloseAppend(ts, n);
      NumberIsLengthExactlyWhen(ts[..n]);
      if n == 0 {
        NoTimesAreClose();
      }
    }
  }

  lemma NoTimesAreClose()
    ensures Close([])
  {
  }

  /** The shared counter starts from one at most once exactly when it never expires between increments. */
  lemma {:induction false} SharedStartsOnceExactlyWhenClose(ts: seq<nat>)
    ensures SharedStarts(ts) <= 1 <==> Close(ts)
    ensures SharedStarts(ts) > 0 <==> ts != []
  {
    hide Close, Survives;
    if ts == [] {
      NoTimesAreClose();
    } else {
      var n := |ts| - 1;
      CloseAppend(ts, n);
      SharedStartsOnceExactlyWhenClose(ts[..n]);
      if n == 0 {
        NoTimesAreClose();
        assert !Survives(ts[..n], ts[n]) by {
          NothingSurvives(ts[n]);
        }
      }
    }
  }

  lemma NothingSurvives(now: nat)
    ensures !Survives([], now)
  {
  }

  /** Each start costs at most `limit` passing increments, of which the current one has used `Number`. */
  lemma {:induction false} PassingPerStart(ts: seq<nat>, limit: int)
    ensures var m := Max(limit, 0);
            Passing(ts, limit) + (if ts == [] then 0 else m - Min(Number(ts), m)) <= m * SharedStarts(ts)
  {
    hide Survives;
    if ts != [] {
      var n := |ts| - 1;
      PassingPerStart(ts[..n], limit);
      OneMore(Max(limit, 0), SharedStarts(ts[..n]));
      if n == 0 {
        NothingSurvives(ts[n]);
      }
    }
  }

  /** Whoever makes them, at least the first `limit` increments of a key and minute pass. */
  lemma {:induction false} PassingAtLeast(ts: seq<nat>, limit: int)
    ensures Min(|ts|, Max(limit, 0)) <= Passing(ts, limit) <= |ts|
  {
    hide Survives;
    if ts != [] {
      PassingAtLeast(ts[..|ts| - 1], limit);
      NumberIsLengthExactlyWhen(ts);
    }
  }

  lemma {:induction false} PassingWhileClose(ts: seq<nat>, limit: int)
    requires limit <= 0 || |ts| <= limit || Close(ts)
    ensures Passing(ts, limit) == Min(|ts|, Max(limit, 0))
  {
    hide Survives, Close;
    PassingAtLeast(ts, limit);
    if ts != [] {
      var n := |ts| - 1;
      CloseAppend(ts, n);
      PassingWhileClose(ts[..n], limit);
      NumberIsLengthExactlyWhen(ts);
      assert Number(ts) >= 1;
    }
  }

  lemma {:induction false} PassingAfterExpiry(ts: seq<nat>, limit: int)
    requires 1 <= limit < |ts| && !Close(ts)
    ensures Passing(ts, limit) > limit
  {
    hide Close;
    var n := |ts| - 1;
    CloseAppend(ts, n);
    PassingAtLeast(ts[..n], limit);
    NumberIsLengthExactlyWhen(ts[..n]);
    if !Close(ts[..n]) && n > limit {
      PassingAfterExpiry(ts[..n], limit);
    }
  }

  /**
   Of all increments of a key and minute, whichever processes make them, exactly the first `limit`
   pass if and only if there are no more than that, or the limit admits none, or no two
   consecutive ones are two minutes apart on the counter's clock.
   */
  lemma SharedAdmitsExactlyWhen(ts: seq<nat>, limit: int)
    ensures Passing(ts, limit) == Min(|ts|, Max(limit, 0)) <==> limit <= 0 || |ts| <= limit || Close(ts)
  {
    hide Passing, Close;
    if limit <= 0 || |ts| <= limit || Close(ts) {
      PassingWhileClose(ts, limit);
    } else {
      PassingAfterExpiry(ts, limit);
    }
  }

  /** The process that made a hit read a wall clock at most 30 seconds away from the counter's. */
  predicate InStep(h: Hit) {
    60 * h.window - 30 <= h.at < 60 * h.window + 90
  }

  /** While the processes' clocks keep in step with the counter's, it never expires within a minute. */
  lemma {:induction false} ClocksInStepStayClose(hits: seq<Hit>, key: string, w: nat)
    requires forall i :: 0 <= i < |hits| ==> InStep(hits[i])
    ensures Close(TimesOf(hits, key, w))
    ensures forall i :: 0 <= i < |TimesOf(hits, key, w)| ==> InStep(Hit(key, w, TimesOf(hits, key, w)[i]))
  {
    if hits != [] {
      ClocksInStepStayClose(hits[..|hits| - 1], key, w);
      assert InStep(hits[|hits| - 1]);
    }
  }

  /** Two requests three minutes apart pass a limit of one, if the wall clock was set back in between. */
  lemma ExpiredCounterStartsOver()
    ensures !Close([0, 180]) && SharedStarts([0, 180]) == 2 && Passing([0, 180], 1) == 2
  {
    var ts := [0, 180];
    assert ts[..1] == [0] && [0][..0] == [];
    assert ts[1] >= ts[0] + EXPIRY;
  }

  // ---- Decisions of the middleware ----

  datatype Counter = Shared | Local

  /**
   One request: the counter that numbered it, its place among that counter's increments, the wall
   clock it read, the number it got, and whether it passed.
   */
  datatype Decision =
    Decision(counter: Counter, place: nat, key: string, time: nat, count: int, admitted: bool)

  predicate Same(d: Decision, b: Counter, key: string, w: nat) {
    d.counter == b && d.key == key && InMinute(d.time, w)
  }

  function Tally(ds: seq<Decision>, b: Counter, key: string, w: nat): nat {
    if ds == [] then 0
    else Tally(ds[..|ds| - 1], b, key, w) + if Same(ds[|ds| - 1], b, key, w) then 1 else 0
  }

  function Admitted(ds: seq<Decision>, b: Counter, key: string, w: nat): nat {
    if ds == [] then 0
    else
      var d := ds[|ds| - 1];
      Admitted(ds[..|ds| - 1], b, key, w) + if Same(d, b, key, w) && d.admitted then 1 else 0
  }

  /** Admitted requests of a key in the 60 seconds from `start`, whichever counter they used. */
  function AdmittedFrom(ds: seq<Decision>, bs: set<Counter>, key: string, start: nat): nat {
    if ds == [] then 0
    else
      var d := ds[|ds| - 1];
      AdmittedFrom(ds[..|ds| - 1], bs, key, start)
      + if d.counter in bs && d.key == key && start <= d.time < start + 60 && d.admitted then 1 else 0
  }

  /** The calls counted in memory, in order. */
  function LocalCalls(ds: seq<Decision>): seq<Call> {
    if ds == [] then []
    else
      var earlier, d := LocalCalls(ds[..|ds| - 1]), ds[|ds| - 1];
      if d.counter == Local then earlier + [Call(d.key, WindowOf(d.time))] else earlier
  }

  /** The place after that of the latest decision of the shared counter. */
  function NextPlace(ds: seq<Decision>): nat {
    if ds == [] then 0
    else if ds[|ds| - 1].counter == Shared then ds[|ds| - 1].place + 1
    else NextPlace(ds[..|ds| - 1])
  }

  /**
   A decision compares a number with the limit: that of an increment of the shared counter no
   earlier decision has used, or the next one the in-memory map gives. Increments without a
   decision are those of other processes, and those whose answer was lost.
   */
  predicate FollowsRules(earlier: seq<Decision>, d: Decision, hits: seq<Hit>, limit: int) {
    && d.admitted == (d.count <= limit)
    && match d.counter
       case Shared =>
         && NextPlace(earlier) <= d.place < |hits|
         && hits[d.place].key == d.key && hits[d.place].window == WindowOf(d.time)
         && d.count == Number(TimesOf(hits[..d.place + 1], d.key, WindowOf(d.time)))
       case Local =>
         && d.place == |LocalCalls(earlier)|
         && d.count == Held(LocalCalls(earlier), d.key, WindowOf(d.time)) + 1
  }

  predicate Regular(ds: seq<Decision>, hits: seq<Hit>, limit: int) {
    ds == []
    || (Regular(ds[..|ds| - 1], hits, limit) && FollowsRules(ds[..|ds| - 1], ds[|ds| - 1], hits, limit))
  }

  /** The local decisions of a key and minute are the calls of that key in that minute. */
  lemma {:induction false} TallyIsCount(ds: seq<Decision>, key: string, w: nat)
    ensures Tally(ds, Local, key, w) == Count(LocalCalls(ds), key, w)
  {
    hide Count;
    if ds == [] {
      EmptyLog(key, w);
    } else {
      var n := |ds| - 1;
      TallyIsCount(ds[..n], key, w);
      CountAppend(LocalCalls(ds[..n]), Call(ds[n].key, WindowOf(ds[n].time)), key, w);
    }
  }

  lemma SameIsCall(d: Decision, key: string, w: nat)
    ensures Same(d, Local, key, w) <==> d.counter == Local && Call(d.key, WindowOf(d.time)) == Call(key, w)
  {
    WindowExactlyWhen(d.time, w);
  }

  // ---- What the in-memory counter admits ----

  /** Under any clock, at least the first `limit` requests of a key and minute pass. */
  lemma {:induction false} LocalAdmitsAtLeast(ds: seq<Decision>, hits: seq<Hit>, limit: int, key: string, w: nat)
    requires Regular(ds, hits, limit)
    ensures Min(Tally(ds, Local, key, w), Max(limit, 0)) <= Admitted(ds, Local, key, w) <= Tally(ds, Local, key, w)
  {
    hide Held, Number, TimesOf, NextPlace, LocalCalls;
    if ds != [] {
      var n := |ds| - 1;
      LocalAdmitsAtLeast(ds[..n], hits, limit, key, w);
      TallyIsCount(ds[..n], key, w);
      HeldIsCountExactlyWhen(LocalCalls(ds[..n]), key, w);
    }
  }

  /** If the map has forgotten the key and holds calls of it again, an earlier number was wrong already. */
  lemma {:induction false} HeldAgain(cs: seq<Call>, key: string, w: nat)
    requires !Undisturbed(cs, key, w) && Held(cs, key, w) >= 1
    ensures !CountedRight(cs, key, w)
  {
    hide Held, Disturbs, Undisturbed, CountedRight;
    if cs == [] {
      EmptyLog(key, w);
    } else {
      var n := |cs| - 1;
      var before, c := cs[..n], cs[n];
      assert cs == before + [c];
      HeldAppend(before, c, key, w);
      UndisturbedAppend(before, c, key, w);
      CountedRightAppend(before, c, key, w);
      if c == Call(key, w) {
        OwnCallDisturbsNothing(cs, n, key, w);
      } else if !Disturbs(cs, n, key, w) {
        HeldAgain(before, key, w);
      }
    }
  }

  /** While every number is right, no request above the limit passes. */
  lemma {:induction false} RightNumbersAdmitExactly(ds: seq<Decision>, hits: seq<Hit>, limit: int, key: string, w: nat)
    requires Regular(ds, hits, limit) && CountedRight(LocalCalls(ds), key, w)
    ensures Admitted(ds, Local, key, w) <= Max(limit, 0)
    ensures Admitted(ds, Local, key, w) == Min(Tally(ds, Local, key, w), Max(limit, 0))
  {
    hide Held, Number, TimesOf, NextPlace, Undisturbed, CountedRight;
    if ds != [] {
      var n := |ds| - 1;
      var before := LocalCalls(ds[..n]);
      CountedRightAppend(before, Call(ds[n].key, WindowOf(ds[n].time)), key, w);
      RightNumbersAdmitExactly(ds[..n], hits, limit, key, w);
      TallyIsCount(ds[..n], key, w);
      HeldIsCountExactlyWhen(before, key, w);
    }
  }

  /** Once a number was wrong, a busy key has passed more often than the limit. */
  lemma {:induction false} WrongNumbersAdmitMore(ds: seq<Decision>, hits: seq<Hit>, limit: int, key: string, w: nat)
    requires Regular(ds, hits, limit) && !CountedRight(LocalCalls(ds), key, w)
    requires 1 <= limit < Tally(ds, Local, key, w)
    ensures Admitted(ds, Local, key, w) > limit
  {
    hide Held, Number, TimesOf, NextPlace, Undisturbed, CountedRight, Same, WindowOf, Count;
    var n := |ds| - 1;
    SameIsCall(ds[n], key, w);
    var before := LocalCalls(ds[..n]);
    CountedRightAppend(before, Call(ds[n].key, WindowOf(ds[n].time)), key, w);
    if !Same(ds[n], Local, key, w) {
      WrongNumbersAdmitMore(ds[..n], hits, limit, key, w);
    } else {
      TallyIsCount(ds[..n], key, w);
      HeldIsCountExactlyWhen(before, key, w);
      LocalAdmitsAtLeast(ds[..n], hits, limit, key, w);
      if Undisturbed(before, key, w) {
        UndisturbedCountsRight(before, key, w);
      }
      if Tally(ds[..n], Local, key, w) > limit && !CountedRight(before, key, w) {
        WrongNumbersAdmitMore(ds[..n], hits, limit, key, w);
      } else if Held(before, key, w) >= 1 {
        WrongSoFar(before, key, w);
      }
    }
  }

  lemma WrongSoFar(cs: seq<Call>, key: string, w: nat)
    requires Held(cs, key, w) >= 1
    ensures !Undisturbed(cs, key, w) ==> !CountedRight(cs, key, w)
  {
    if !Undisturbed(cs, key, w) {
      HeldAgain(cs, key, w);
    }
  }

  /**
   Exactly the first `limit` requests of a key and minute pass, under any clock, if and only if
   there were no more requests than that, or the limit admits none, or every number was right.
   */
  lemma LocalAdmitsExactlyWhen(ds: seq<Decision>, hits: seq<Hit>, limit: int, key: string, w: nat)
    requires Regular(ds, hits, limit)
    ensures Admitted(ds, Local, key, w) == Min(Tally(ds, Local, key, w), Max(limit, 0))
       <==> limit <= 0 || Tally(ds, Local, key, w) <= limit || CountedRight(LocalCalls(ds), key, w)
  {
    hide Regular, Held, CountedRight, Tally, Admitted;
    LocalAdmitsAtLeast(ds, hits, limit, key, w);
    if CountedRight(LocalCalls(ds), key, w) {
      RightNumbersAdmitExactly(ds, hits, limit, key, w);
    } else if 1 <= limit < Tally(ds, Local, key, w) {
      WrongNumbersAdmitMore(ds, hits, limit, key, w);
    } else if limit <= 0 {
      NothingAdmitted(ds, hits, limit, key, w);
    }
  }

  /** The clock, as the requests counted in memory read it, never goes back. */
  predicate LocalTimesAscend(ds: seq<Decision>) {
    forall i, j :: 0 <= i < j < |ds| && ds[i].counter == Local && ds[j].counter == Local ==> ds[i].time <= ds[j].time
  }

  lemma {:induction false} AscendingIsForward(ds: seq<Decision>, now: nat)
    requires LocalTimesAscend(ds)
    requires forall i :: 0 <= i < |ds| && ds[i].counter == Local ==> ds[i].time <= now
    ensures Forward(LocalCalls(ds))
    ensures forall c :: c in LocalCalls(ds) ==> c.window <= WindowOf(now)
  {
    if ds != [] {
      var n := |ds| - 1;
      var d, earlier := ds[n], LocalCalls(ds[..n]);
      if d.counter == Local {
        AscendingIsForward(ds[..n], d.time);
        assert forall i :: 0 <= i < |earlier| ==> earlier[i] in earlier;
        assert WindowOf(d.time) <= WindowOf(now);
      } else {
        AscendingIsForward(ds[..n], now);
      }
    }
  }

  /**
   Under a clock that does not go back, of the requests of a key from second 60 * k up to the next
   multiple of 60 that were counted in memory, exactly the first `limit` pass.
   */
  lemma ForwardAdmitsExactly(ds: seq<Decision>, hits: seq<Hit>, limit: int, key: string, k: nat)
    requires Regular(ds, hits, limit) && LocalTimesAscend(ds)
    ensures Admitted(ds, Local, key, k) == Min(Tally(ds, Local, key, k), Max(limit, 0))
  {
    hide Regular, Admitted, Tally, LocalCalls, CountedRight, Forward, LocalTimesAscend;
    var now := Latest(ds);
    AscendingIsForward(ds, now);
    ForwardCountsRight(LocalCalls(ds), key, k);
    LocalAdmitsExactlyWhen(ds, hits, limit, key, k);
  }

  /** A time no decision is later than. */
  lemma {:induction false} Latest(ds: seq<Decision>) returns (now: nat)
    ensures forall i :: 0 <= i < |ds| ==> ds[i].time <= now
  {
    now := 0;
    if ds != [] {
      now := Latest(ds[..|ds| - 1]);
      now := Max(now, ds[|ds| - 1].time);
    }
  }

  lemma {:induction false} NothingAdmitted(ds: seq<Decision>, hits: seq<Hit>, limit: int, key: string, w: nat)
    requires Regular(ds, hits, limit) && limit <= 0
    ensures Admitted(ds, Local, key, w) == 0
  {
    hide Held, Number, TimesOf, NextPlace, LocalCalls;
    if ds != [] {
      NothingAdmitted(ds[..|ds| - 1], hits, limit, key, w);
    }
  }

  /** How often the in-memory counter starts `key` over from one in minute `w`. */
  function Starts(cs: seq<Call>, key: string, w: nat): nat {
    if cs == [] then 0
    else
      var before := cs[..|cs| - 1];
      Starts(before, key, w) + if cs[|cs| - 1] == Call(key, w) && Held(before, key, w) == 0 then 1 else 0
  }

  lemma StartsAppend(cs: seq<Call>, c: Call, key: string, w: nat)
    ensures Starts(cs + [c], key, w)
         == Starts(cs, key, w) + if c == Call(key, w) && Held(cs, key, w) == 0 then 1 else 0
  {
    assert (cs + [c])[..|cs|] == cs;
  }

  /** It starts over at most once exactly when every number is right. */
  lemma {:induction false} StartsOnceExactlyWhenRight(cs: seq<Call>, key: string, w: nat)
    ensures Starts(cs, key, w) <= 1 <==> CountedRight(cs, key, w)
    ensures Count(cs, key, w) > 0 <==> Starts(cs, key, w) > 0
  {
    hide Held, Disturbs, Undisturbed, CountedRight, Count, Starts;
    if cs == [] {
      EmptyLog(key, w);
    } else {
      var n := |cs| - 1;
      var before, c := cs[..n], cs[n];
      assert cs == before + [c];
      StartsOnceExactlyWhenRight(before, key, w);
      StartsAppend(before, c, key, w);
      CountAppend(before, c, key, w);
      CountedRightAppend(before, c, key, w);
      HeldIsCountExactlyWhen(before, key, w);
      if Held(before, key, w) >= 1 {
        WrongSoFar(before, key, w);
      }
    }
  }

  /** Each start over costs at most `limit` admitted requests, of which the current one has given out `Held`. */
  lemma {:induction false} LocalAdmitsPerStart(ds: seq<Decision>, hits: seq<Hit>, limit: int, key: string, w: nat)
    requires Regular(ds, hits, limit)
    ensures var m, cs := Max(limit, 0), LocalCalls(ds);
            var held := Held(cs, key, w);
            Admitted(ds, Local, key, w) + (if held == 0 then 0 else m - Min(held, m)) <= m * Starts(cs, key, w)
  {
    hide Held, Starts, Number, TimesOf, NextPlace, Disturbs;
    if ds == [] {
      EmptyLog(key, w);
    } else {
      var n := |ds| - 1;
      var before, c := LocalCalls(ds[..n]), Call(ds[n].key, WindowOf(ds[n].time));
      LocalAdmitsPerStart(ds[..n], hits, limit, key, w);
      if ds[n].counter == Local {
        HeldAppend(before, c, key, w);
        StartsAppend(before, c, key, w);
        OneMore(Max(limit, 0), Starts(before, key, w));
      }
    }
  }

  // ---- What the shared counter admits ----

  /** A longer log has at least as many passing increments. */
  lemma {:induction false} PassingGrows(hits: seq<Hit>, a: nat, b: nat, key: string, w: nat, limit: int)
    requires a <= b <= |hits|
    ensures Passing(TimesOf(hits[..a], key, w), limit) <= Passing(TimesOf(hits[..b], key, w), limit)
  {
    hide TimesOf, Number;
    if a < b {
      PassingGrows(hits, a, b - 1, key, w, limit);
      assert hits[..b] == hits[..b - 1] + [hits[b - 1]];
      PassesOneMore(hits[..b - 1], hits[b - 1], key, w, limit);
    }
  }

  lemma PassesOneMore(hits: seq<Hit>, h: Hit, key: string, w: nat, limit: int)
    ensures var before, after := TimesOf(hits, key, w), TimesOf(hits + [h], key, w);
            Passing(after, limit)
            == Passing(before, limit)
               + if h.key == key && h.window == w && Number(after) <= limit then 1 else 0
  {
    hide TimesOf, Number;
    TimesAppend(hits, h, key, w);
    var before := TimesOf(hits, key, w);
    assert (before + [h.at])[..|before|] == before && before + [] == before;
  }

  /** The admitted requests are among the passing increments. */
  lemma {:induction false} AdmittedArePassing(ds: seq<Decision>, hits: seq<Hit>, limit: int, key: string, w: nat)
    requires Regular(ds, hits, limit)
    ensures NextPlace(ds) <= |hits|
    ensures Admitted(ds, Shared, key, w) <= Passing(TimesOf(hits[..NextPlace(ds)], key, w), limit)
  {
    hide Held, LocalCalls, TimesOf, Number, Passing;
    if ds != [] {
      var n := |ds| - 1;
      AdmittedArePassing(ds[..n], hits, limit, key, w);
      if ds[n].counter == Shared {
        var p := ds[n].place;
        PassingGrows(hits, NextPlace(ds[..n]), p, key, w, limit);
        assert hits[..p + 1] == hits[..p] + [hits[p]];
        PassesOneMore(hits[..p], hits[p], key, w, limit);
      }
    }
  }

  /** The shared counter admits at most `limit` requests of a key and minute each time it starts from one. */
  lemma SharedAdmitsPerStart(ds: seq<Decision>, hits: seq<Hit>, limit: int, key: string, w: nat)
    requires Regular(ds, hits, limit)
    ensures var m, ts := Max(limit, 0), TimesOf(hits, key, w);
            && Admitted(ds, Shared, key, w) <= m * SharedStarts(ts)
            && (Close(ts) ==> Admitted(ds, Shared, key, w) <= m)
  {
    hide Regular, Admitted, TimesOf, SharedStarts, Passing, Close;
    var ts := TimesOf(hits, key, w);
    AdmittedArePassing(ds, hits, limit, key, w);
    assert hits[..|hits|] == hits;
    PassingGrows(hits, NextPlace(ds), |hits|, key, w, limit);
    PassingPerStart(ts, limit);
    if Close(ts) {
      PassingWhileClose(ts, limit);
    }
  }

  /**
   However requests fall back between the counters and however the clocks move, one minute admits
   at most the limit once for each time either counter starts from one: at most twice the limit
   while the in-memory numbers are right and the shared counter does not expire in between.
   */
  lemma FallbackAdmitsAtMost(ds: seq<Decision>, hits: seq<Hit>, limit: int, key: string, w: nat)
    requires Regular(ds, hits, limit)
    ensures var m, ts, cs := Max(limit, 0), TimesOf(hits, key, w), LocalCalls(ds);
            var shared, local := Admitted(ds, Shared, key, w), Admitted(ds, Local, key, w);
            && shared <= m * SharedStarts(ts)
            && local <= m * Starts(cs, key, w)
            && (Close(ts) ==> shared <= m)
            && (CountedRight(cs, key, w) ==> local <= m)
            && (Close(ts) && CountedRight(cs, key, w) ==> shared + local <= 2 * m)
  {
    hide Regular, Starts, Held, Admitted, LocalCalls, CountedRight, Close, SharedStarts, TimesOf;
    SharedAdmitsPerStart(ds, hits, limit, key, w);
    LocalAdmitsPerStart(ds, hits, limit, key, w);
    if CountedRight(LocalCalls(ds), key, w) {
      RightNumbersAdmitExactly(ds, hits, limit, key, w);
    }
  }

  /** A span of 60 seconds meets two minutes at most. */
  lemma {:induction false} SpanMeetsTwoMinutes(ds: seq<Decision>, key: string, start: nat)
    ensures var w := WindowOf(start);
            && AdmittedFrom(ds, {Local}, key, start) <= Admitted(ds, Local, key, w) + Admitted(ds, Local, key, w + 1)
            && AdmittedFrom(ds, {Local, Shared}, key, start)
               <= Admitted(ds, Local, key, w) + Admitted(ds, Local, key, w + 1)
                  + Admitted(ds, Shared, key, w) + Admitted(ds, Shared, key, w + 1)
  {
    if ds != [] {
      var d := ds[|ds| - 1];
      SpanMeetsTwoMinutes(ds[..|ds| - 1], key, start);
      if start <= d.time < start + 60 {
        assert WindowOf(d.time) == WindowOf(start) || WindowOf(d.time) == WindowOf(start) + 1;
      }
    }
  }

  /**
   Any 60 seconds admit at most the limit for each start from one in their two minutes: twice the
   limit from memory and four times across fallbacks, while the numbers are right and the shared
   counter does not expire in between.
   */
  lemma SpanAdmitsAtMost(ds: seq<Decision>, hits: seq<Hit>, limit: int, key: string, start: nat)
    requires Regular(ds, hits, limit)
    ensures var m, cs, w := Max(limit, 0), LocalCalls(ds), WindowOf(start);
            var ts, ts' := TimesOf(hits, key, w), TimesOf(hits, key, w + 1);
            var local := AdmittedFrom(ds, {Local}, key, start);
            var all := AdmittedFrom(ds, {Local, Shared}, key, start);
            var right := CountedRight(cs, key, w) && CountedRight(cs, key, w + 1);
            && local <= m * Starts(cs, key, w) + m * Starts(cs, key, w + 1)
            && all <= m * Starts(cs, key, w) + m * Starts(cs, key, w + 1)
                      + m * SharedStarts(ts) + m * SharedStarts(ts')
            && (right ==> local <= 2 * m)
            && (right && Close(ts) && Close(ts') ==> all <= 4 * m)
  {
    hide Regular, Starts, Held, Admitted, LocalCalls, CountedRight, AdmittedFrom, Close, SharedStarts, TimesOf;
    var w := WindowOf(start);
    SpanMeetsTwoMinutes(ds, key, start);
    FallbackAdmitsAtMost(ds, hits, limit, key, w);
    FallbackAdmitsAtMost(ds, hits, limit, key, w + 1);
  }

  // ---- The limiter ----

  /** How the shared counter answers: counted and told, counted but the answer lost, or not at all. */
  datatype Reply = Answered | AnswerLost | Unreachable

  /** A stored counter and the time at which it is dropped. */
  datatype Entry = Entry(value: nat, expires: nat)

  /** The shared counters, one per key and minute; an increment and its expiry are one step. */
  class SharedCounter {
    var counters: map<(nat, string), Entry>

    ghost var hits: seq<Hit>    // every increment made, by whichever process

    constructor ()
      ensures Valid() && hits == []
    {
      counters := map[];
      hits := [];
      NothingCounted();
    }

    /** A key is stored exactly if it was ever counted, with its latest number and its expiry. */
    ghost predicate Valid()
      reads this
    {
      AllFit(counters, hits)
    }

    /** Count a key for a minute at `now`, the counter's own clock, dropping an expired key first. */
    method Increment(key: string, w: nat, now: nat, reply: Reply) returns (count: Option<int>)
      requires Valid()
      modifies this
      ensures Valid()
      ensures hits == if reply == Unreachable then old(hits) else old(hits) + [Hit(key, w, now)]
      ensures count == if reply == Answered then Some(Number(TimesOf(hits, key, w)) as int) else None
    {
      hide Number, TimesOf, AllFit;
      if reply == Unreachable {
        return None;
      }
      IncrementFits(counters, hits, w, key, now);
      ghost var stored := counters;
      if (w, key) in counters && now >= counters[(w, key)].expires {
        counters := counters - {(w, key)};
      }
      var value := if (w, key) in counters then counters[(w, key)].value else 0;
      counters := counters[(w, key) := Entry(value + 1, now + EXPIRY)];
      assert counters == stored[(w, key) := Entry(value + 1, now + EXPIRY)];
      hits := hits + [Hit(key, w, now)];
      count := if reply == Answered then Some(counters[(w, key)].value) else None;
    }
  }

  /** What is stored for one key and minute says what its increments were. */
  ghost predicate EntryFits(counters: map<(nat, string), Entry>, hits: seq<Hit>, w: nat, key: string) {
    var ts := TimesOf(hits, key, w);
    && ((w, key) in counters <==> ts != [])
    && (ts != [] ==> counters[(w, key)] == Entry(Number(ts), ts[|ts| - 1] + EXPIRY))
  }

  ghost predicate AllFit(counters: map<(nat, string), Entry>, hits: seq<Hit>) {
    forall w: nat, key: string :: EntryFits(counters, hits, w, key)
  }

  /** The value an increment finds, after dropping an expired key. */
  function Found(counters: map<(nat, string), Entry>, w: nat, key: string, now: nat): nat {
    if (w, key) in counters && now < counters[(w, key)].expires then counters[(w, key)].value else 0
  }

  lemma IncrementFits(counters: map<(nat, string), Entry>, hits: seq<Hit>, w: nat, key: string, now: nat)
    requires AllFit(counters, hits)
    ensures var value := Found(counters, w, key, now);
            var hits' := hits + [Hit(key, w, now)];
            && value + 1 == Number(TimesOf(hits', key, w))
            && AllFit(counters[(w, key) := Entry(value + 1, now + EXPIRY)], hits')
  {
    hide TimesOf;
    var h := Hit(key, w, now);
    var ts := TimesOf(hits, key, w);
    assert EntryFits(counters, hits, w, key);
    TimesAppend(hits, h, key, w);
    assert (ts + [now])[..|ts|] == ts;
    var hits' := hits + [h];
    var counters' := counters[(w, key) := Entry(Found(counters, w, key, now) + 1, now + EXPIRY)];
    forall v: nat, k: string ensures EntryFits(counters', hits', v, k) {
      assert EntryFits(counters, hits, v, k);
      TimesAppend(hits, h, k, v);
      assert TimesOf(hits, k, v) + [] == TimesOf(hits, k, v);
    }
  }

  lemma NothingCounted()
    ensures AllFit(map[], [])
  {
  }

  lemma RegularAppend(ds: seq<Decision>, d: Decision, hits: seq<Hit>, limit: int)
    requires Regular(ds, hits, limit) && FollowsRules(ds, d, hits, limit)
    ensures Regular(ds + [d], hits, limit)
  {
    assert (ds + [d])[..|ds|] == ds;
  }

  lemma LocalCallsAppend(ds: seq<Decision>, d: Decision)
    ensures LocalCalls(ds + [d])
         == LocalCalls(ds) + if d.counter == Local then [Call(d.key, WindowOf(d.time))] else []
  {
    assert (ds + [d])[..|ds|] == ds;
  }

  /** Decisions stay in order while the shared counter is incremented further, by anybody. */
  lemma {:induction false} RegularExtends(ds: seq<Decision>, hits: seq<Hit>, hits': seq<Hit>, limit: int)
    requires Regular(ds, hits, limit) && hits <= hits'
    ensures Regular(ds, hits', limit)
    ensures NextPlace(ds) <= |hits|
  {
    hide Held, LocalCalls, TimesOf, Number;
    if ds != [] {
      var n := |ds| - 1;
      RegularExtends(ds[..n], hits, hits', limit);
      if ds[n].counter == Shared {
        assert hits'[..ds[n].place + 1] == hits[..ds[n].place + 1];
      }
    }
  }

  class Limiter {
    const limit: int
    const shared: SharedCounter?
    var local: map<string, Bucket>

    ghost var log: seq<Call>          // every call counted in memory
    ghost var decisions: seq<Decision>

    constructor (shared: SharedCounter?, limit: int)
      requires shared != null ==> shared.Valid()
      ensures Valid() && this.limit == limit && this.shared == shared
      ensures log == [] && decisions == []
    {
      this.shared := shared;
      this.limit := limit;
      local := map[];
      log, decisions := [], [];
    }

    ghost function Hits(): seq<Hit>
      reads this, shared
    {
      if shared != null then shared.hits else []
    }

    ghost predicate Valid()
      reads this, shared
    {
      && local == Replay(log) && log == LocalCalls(decisions)
      && Regular(decisions, Hits(), limit)
      && (shared != null ==> shared.Valid())
    }

    /** Another process that counts in the shared counter leaves this one's decisions in order. */
    method CountElsewhere(key: string, w: nat, now: nat)
      requires Valid() && shared != null
      modifies shared
      ensures Valid() && shared.hits == old(shared.hits) + [Hit(key, w, now)]
    {
      hide Regular, Replay, LocalCalls, Number, TimesOf, AllFit;
      RegularExtends(decisions, Hits(), Hits() + [Hit(key, w, now)], limit);
      var count := shared.Increment(key, w, now, Answered);
    }

    /** Delete, key by key, the buckets of earlier minutes. */
    method CleanupLocal(w: nat)
      modifies this`local
      ensures local == Cleaned(old(local), w)
    {
      if |local| < EVICTION_THRESHOLD {
        return;
      }
      var rest := local.Keys;
      while rest != {}
        invariant rest <= local.Keys
        invariant local.Keys <= old(local).Keys
        invariant forall k :: k in local ==> local[k] == old(local)[k]
        invariant forall k :: k in old(local) && (k in rest || old(local)[k].window >= w) ==> k in local
        invariant forall k :: k in local && k !in rest ==> local[k].window >= w
        decreases rest
      {
        var k :| k in rest;
        rest := rest - {k};
        if local[k].window < w {
          local := local - {k};
        }
      }
    }

    /**
     One call counted in memory, under any clock: the number is that of the full log exactly when
     nothing had made the map forget the key, and never above it.
     */
    method IncrementLocal(key: string, now: nat) returns (count: nat)
      requires local == Replay(log)
      modifies this`local, this`log
      ensures local == Replay(log)
      ensures forall w: nat :: InMinute(now, w) ==>
                && log == old(log) + [Call(key, w)]
                && count == old(Held(log, key, w)) + 1
                && 1 <= count <= Count(log, key, w)
                && (count == Count(log, key, w) <==> Undisturbed(old(log), key, w))
                && |local| <= Max(512, |KeysFrom(log, w)|)
    {
      hide Replay, Count, Max, KeysFrom, Undisturbed, Held;
      var w := WindowOf(now);
      forall v: nat ensures InMinute(now, v) <==> v == w {
        WindowExactlyWhen(now, v);
      }
      NumberIsCountExactlyWhen(log, key, w);
      ReplayBounded(log, Call(key, w));
      CleanupLocal(w);
      var value := if key in local then local[key] else Bucket(0, 0);
      if key !in local || value.window != w {
        value := Bucket(w, 0);
      }
      value := Bucket(value.window, value.count + 1);
      local := local[key := value];
      log := log + [Call(key, w)];
      count := value.count;
    }

    /**
     Decide one request: count it in the shared counter, or in memory when that gives no answer,
     and admit it while its number is within the limit. The process reads its wall clock for each
     counter; `serverNow` is the shared counter's own.
     */
    method Admit(key: string, sharedNow: nat, serverNow: nat, reply: Reply, localNow: nat) returns (admitted: bool)
      requires Valid()
      modifies this`local, this`log, this`decisions, shared
      ensures Valid()
      ensures |decisions| == |old(decisions)| + 1 && decisions[..|old(decisions)|] == old(decisions)
      ensures var d := decisions[|old(decisions)|];
              && d.key == key && d.admitted == admitted
              && (d.counter == Shared <==> shared != null && reply == Answered)
              && d.time == (if d.counter == Shared then sharedNow else localNow)
              && d.place == (if d.counter == Shared then |old(Hits())| else |old(log)|)
      ensures forall w: nat :: InMinute(sharedNow, w) ==>
                Hits() == old(Hits()) + if shared == null || reply == Unreachable then [] else [Hit(key, w, serverNow)]
      ensures admitted <==> decisions[|old(decisions)|].count <= limit
    {
      hide Replay, Regular, FollowsRules, LocalCalls, Held, Count, Undisturbed, KeysFrom, Number, TimesOf, AllFit,
           NextPlace;
      forall w: nat ensures InMinute(sharedNow, w) <==> w == WindowOf(sharedNow) {
        WindowExactlyWhen(sharedNow, w);
      }
      WindowExactlyWhen(localNow, WindowOf(localNow));
      var answer: Option<int> := None;
      ghost var before, earlier := decisions, Hits();
      if shared != null {
        answer := shared.Increment(key, WindowOf(sharedNow), serverNow, reply);
      }
      RegularExtends(before, earlier, Hits(), limit);
      var count: int;
      if answer.Some? {
        count := answer.value;
        SharedDecision(before, earlier, key, sharedNow, serverNow, limit);
        decisions := decisions + [Decision(Shared, |earlier|, key, sharedNow, count, count <= limit)];
      } else {
        ghost var place := |log|;
        count := IncrementLocal(key, localNow);
        LocalDecision(before, Hits(), key, localNow, count, limit);
        decisions := decisions + [Decision(Local, place, key, localNow, count, count <= limit)];
      }
      LocalCallsAppend(before, decisions[|before|]);
      admitted := count <= limit;
    }
  }

  lemma SharedDecision(ds: seq<Decision>, hits: seq<Hit>, key: string, now: nat, at: nat, limit: int)
    requires Regular(ds, hits, limit)
    ensures var hits' := hits + [Hit(key, WindowOf(now), at)];
            var count := Number(TimesOf(hits', key, WindowOf(now)));
            Regular(ds + [Decision(Shared, |hits|, key, now, count, count <= limit)], hits', limit)
  {
    hide Regular, Held, LocalCalls, Number, TimesOf, NextPlace;
    var hits' := hits + [Hit(key, WindowOf(now), at)];
    var count := Number(TimesOf(hits', key, WindowOf(now)));
    RegularExtends(ds, hits, hits', limit);
    assert hits'[..|hits| + 1] == hits';
    RegularAppend(ds, Decision(Shared, |hits|, key, now, count, count <= limit), hits', limit);
  }

  lemma LocalDecision(ds: seq<Decision>, hits: seq<Hit>, key: string, now: nat, count: int, limit: int)
    requires Regular(ds, hits, limit) && count == Held(LocalCalls(ds), key, WindowOf(now)) + 1
    ensures Regular(ds + [Decision(Local, |LocalCalls(ds)|, key, now, count, count <= limit)], hits, limit)
  {
    hide Regular, Held, LocalCalls;
    RegularAppend(ds, Decision(Local, |LocalCalls(ds)|, key, now, count, count <= limit), hits, limit);
  }
}
