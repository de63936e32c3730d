/** The work partition and the download workers of `main`: the follower list is cut
    into chunks of `len / threads` followers, worker `tsk` (for `tsk < threads`) takes
    chunk `tsk` and, in order, tries to download the avatar of every follower of its
    chunk whose avatar is not the default one. The download itself (HTTP, a random file
    name, the file write) is an oracle `download` giving the file name or an error. */
module Dispatch {
  import opened Wrappers
  import opened ScDefs

  /** Why the partition panics. */
  datatype Panic =
    | DivideByZero    // `len / threads` with no threads configured
    | ZeroChunkSize   // `chunks(0)`: fewer followers than threads

  /** `slice::chunks(k)`: consecutive pieces of `k` elements, the last one holding what
      is left; no piece at all for an empty slice. */
  function Chunks<T>(s: seq<T>, k: nat): seq<seq<T>>
    requires k > 0
    decreases |s|
  {
    if |s| == 0 then []
    else if |s| <= k then [s]
    else [s[..k]] + Chunks(s[k..], k)
  }

  /** The pieces put back together, in order. */
  function Flatten<T>(cs: seq<seq<T>>): seq<T>
  {
    if |cs| == 0 then [] else cs[0] + Flatten(cs[1..])
  }

  /** Flattening commutes with concatenating the pieces. */
  lemma {:induction false} FlattenAppend<T>(a: seq<seq<T>>, b: seq<seq<T>>)
    ensures Flatten(a + b) == Flatten(a) + Flatten(b)
    decreases |a|
  {
    if |a| == 0 {
      assert a + b == b;
    } else {
      assert (a + b)[0] == a[0] && (a + b)[1..] == a[1..] + b;
      FlattenAppend(a[1..], b);
    }
  }

  /** The contract of `chunks`: the pieces put back together give the slice; every piece
      but the last holds exactly `k` elements and the last between 1 and `k`; there are
      no pieces exactly when the slice is empty. */
  lemma {:induction false} ChunksCover<T>(s: seq<T>, k: nat)
    requires k > 0
    ensures var cs := Chunks(s, k);
            && Flatten(cs) == s
            && (|cs| == 0 <==> |s| == 0)
            && (forall i :: 0 <= i < |cs| - 1 ==> |cs[i]| == k)
            && (|cs| > 0 ==> 0 < |cs[|cs| - 1]| <= k)
    decreases |s|
  {
    var cs := Chunks(s, k);
    if |s| == 0 {
    } else if |s| <= k {
      assert Flatten(cs) == s + Flatten(cs[1..]);
      assert s + [] == s;
    } else {
      var rest := Chunks(s[k..], k);
      ChunksCover(s[k..], k);
      assert cs[0] == s[..k] && cs[1..] == rest;
      assert s == s[..k] + s[k..];
      forall i | 0 < i < |cs| - 1
        ensures |cs[i]| == k
      {
        assert cs[i] == rest[i - 1];
      }
    }
  }

  /** `m * k`, written out as `m` additions so that the chunk lemmas stay linear. */
  function Times(m: nat, k: nat): nat
  {
    if m == 0 then 0 else Times(m - 1, k) + k
  }

  lemma {:induction false} TimesIsProduct(m: nat, k: nat)
    ensures Times(m, k) == m * k
  {
    if m > 0 {
      TimesIsProduct(m - 1, k);
      PredecessorTimes(m, k);
    }
  }

  /** The first `m` chunks, when `m * k` elements are there to fill them, are full: put
      together they are the first `m * k` elements; there are no more chunks exactly when
      nothing is left over, and one more, holding the rest, when at most `k` are. */
  lemma {:induction false} ChunksTake<T>(s: seq<T>, k: nat, m: nat)
    requires k > 0 && Times(m, k) <= |s|
    ensures var cs := Chunks(s, k);
            var cut := Times(m, k);
            && m <= |cs|
            && (forall i :: 0 <= i < m ==> |cs[i]| == k)
            && Flatten(cs[..m]) == s[..cut]
            && (|cs| == m <==> cut == |s|)
            && (cut < |s| <= cut + k ==> |cs| == m + 1 && cs[m] == s[cut..])
    decreases m
  {
    var cs := Chunks(s, k);
    if m == 0 {
      assert cs[..0] == [];
      assert s[0..] == s;
    } else {
      var before := Times(m - 1, k);
      if |s| <= k {
        assert m == 1;
        assert cs[..1] == [s] && Flatten([s]) == s + Flatten([s][1..]);
        assert s + [] == s[..k];
      } else {
        var rest := Chunks(s[k..], k);
        ChunksTake(s[k..], k, m - 1);
        assert cs == [s[..k]] + rest;
        assert cs[..m] == [s[..k]] + rest[..m - 1];
        assert Flatten(cs[..m]) == s[..k] + Flatten(rest[..m - 1]);
        assert s[..k] + s[k..][..before] == s[..before + k];
        assert s[k..][before..] == s[before + k..];
        forall i | 0 < i < m
          ensures |cs[i]| == k
        {
          assert cs[i] == rest[i - 1];
        }
      }
    }
  }

  /** Integer division as `len / threads` computes it on unsigned operands: the quotient
      times the divisor does not exceed the dividend, the rest is the remainder, and the
      quotient is zero exactly when the dividend is below the divisor. */
  lemma DivisionBounds(n: nat, d: nat)
    requires d > 0
    ensures d * (n / d) + n % d == n && 0 <= n % d < d
    ensures d * (n / d) <= n
    ensures n / d == 0 <==> n < d
    ensures (d - 1) * (n / d) + n / d == d * (n / d)
    ensures n / d + n % d <= n
  {
    var q, r := n / d, n % d;
    assert d * q + r == n;
    PredecessorTimes(d, q);
    if q > 0 {
      PredecessorTimes(q, d);
    }
  }

  /** `(a - 1) * b + b == a * b`, with `(a - 1) * b` not negative. */
  lemma PredecessorTimes(a: nat, b: nat)
    requires a > 0
    ensures (a - 1) * b + b == a * b && 0 <= (a - 1) * b
    ensures b * (a - 1) + b == b * a
  {
  }

  /** The partition as `main` computes it: `chunks(len / threads)`. Dividing by zero
      threads panics, and so does a chunk size of zero (fewer followers than threads).
      Otherwise there are at least `threads` chunks, so every worker's index is in range. */
  function Tasks<T>(s: seq<T>, threads: nat): (r: Result<seq<seq<T>>, Panic>)
    ensures r == Err(DivideByZero) <==> threads == 0
    ensures r == Err(ZeroChunkSize) <==> 0 < threads && |s| < threads
    ensures r.Ok? ==> threads <= |r.value|
  {
    if threads == 0 then Err(DivideByZero)
    else if |s| / threads == 0 then
      DivisionBounds(|s|, threads);
      Err(ZeroChunkSize)
    else
      DivisionBounds(|s|, threads);
      TimesIsProduct(threads, |s| / threads);
      ChunksTake(s, |s| / threads, threads);
      Ok(Chunks(s, |s| / threads))
  }

  /** What the workers of `main` are handed: the first `threads * (len / threads)`
      followers, in order, one full chunk each. The `len % threads` followers after them
      are in no worker's chunk, and there is no such remainder chunk exactly when
      `threads` divides the length. */
  lemma TasksAssignPrefix<T>(s: seq<T>, threads: nat)
    requires Tasks(s, threads).Ok?
    ensures var tasks := Tasks(s, threads).value;
            var k := |s| / threads;
            && (forall t :: 0 <= t < threads ==> |tasks[t]| == k)
            && Flatten(tasks[..threads]) == s[..threads * k]
            && |s| - threads * k == |s| % threads
            && (|tasks| == threads <==> |s| % threads == 0)
  {
    DivisionBounds(|s|, threads);
    TimesIsProduct(threads, |s| / threads);
    ChunksTake(s, |s| / threads, threads);
  }

  /** Ten followers over three threads: chunks of three, and the tenth follower is in no
      worker's chunk. */
  lemma TasksDropTenthFollower<T>(s: seq<T>)
    requires |s| == 10
    ensures Tasks(s, 3).Ok?
    ensures var tasks := Tasks(s, 3).value;
            |tasks| == 4 && Flatten(tasks[..3]) == s[..9] && tasks[3] == [s[9]]
  {
    assert Times(3, 3) == 9;
    ChunksTake(s, 3, 3);
    assert s[9..] == [s[9]];
  }

  /** The partition that hands every follower to a worker: exactly `threads` contiguous slices, the first
      `threads - 1` of `len / threads` followers and the last one absorbing the remainder,
      rejecting the same configurations the source panics on. */
  function BalancedTasks<T>(s: seq<T>, threads: nat): Result<seq<seq<T>>, Panic>
  {
    if threads == 0 then Err(DivideByZero)
    else if |s| / threads == 0 then Err(ZeroChunkSize)
    else
      var k := |s| / threads;
      var cut := |s| - k - |s| % threads;
      DivisionBounds(|s|, threads);
      Ok(Chunks(s[..cut], k) + [s[cut..]])
  }

  /** `m` full chunks of `k` followed by everything left: `m + 1` slices which, put
      together, give back the sequence. */
  lemma FullChunksThenRest<T>(s: seq<T>, k: nat, m: nat, cut: nat)
    requires k > 0 && cut == Times(m, k) <= |s|
    ensures var r := Chunks(s[..cut], k) + [s[cut..]];
            && |r| == m + 1
            && Flatten(r) == s
            && (forall t :: 0 <= t < m ==> |r[t]| == k)
            && r[m] == s[cut..]
  {
    var head := Chunks(s[..cut], k);
    ChunksTake(s[..cut], k, m);
    assert head[..m] == head;
    assert s[..cut][..cut] == s[..cut];
    FlattenAppend(head, [s[cut..]]);
    assert Flatten([s[cut..]]) == s[cut..] + Flatten([s[cut..]][1..]);
    assert s[..cut] + (s[cut..] + []) == s;
    var r := head + [s[cut..]];
    forall t | 0 <= t < m
      ensures |r[t]| == k
    {
      assert r[t] == head[t];
    }
  }

  /** `d - 1` slices of `k` and a last one of `k + rem` cover a sequence of that length. */
  lemma SlicesOf<T>(s: seq<T>, d: nat, k: nat, rem: nat)
    requires d > 0 && k > 0 && Times(d - 1, k) + k + rem == |s|
    ensures var cut := |s| - k - rem;
            var r := Chunks(s[..cut], k) + [s[cut..]];
            && |r| == d
            && Flatten(r) == s
            && (forall t :: 0 <= t < d - 1 ==> |r[t]| == k)
            && |r[d - 1]| == k + rem
  {
    FullChunksThenRest(s, k, d - 1, |s| - k - rem);
  }

  /** The balanced partition rejects no threads and fewer followers than threads; otherwise
      it has exactly `threads` slices which, put together, give back every follower in
      order; all but the last hold `len / threads` followers and the last one also the
      `len % threads` left over. */
  lemma BalancedTasksCover<T>(s: seq<T>, threads: nat)
    ensures var r := BalancedTasks(s, threads);
            && (r == Err(DivideByZero) <==> threads == 0)
            && (r == Err(ZeroChunkSize) <==> 0 < threads && |s| < threads)
            && (r.Ok? ==>
                  && |r.value| == threads
                  && Flatten(r.value) == s
                  && (forall t :: 0 <= t < threads - 1 ==> |r.value[t]| == |s| / threads)
                  && |r.value[threads - 1]| == |s| / threads + |s| % threads)
  {
    if threads > 0 {
      DivisionBounds(|s|, threads);
      var k := |s| / threads;
      var rem := |s| % threads;
      if k > 0 {
        TimesIsProduct(threads - 1, k);
        SlicesOf(s, threads, k, rem);
      }
    }
  }

  /** Ten followers over three threads: slices of three, three and four, covering all ten. */
  lemma BalancedTenOverThree<T>(s: seq<T>)
    requires |s| == 10
    ensures BalancedTasks(s, 3).Ok?
    ensures var tasks := BalancedTasks(s, 3).value;
            |tasks| == 3 && |tasks[0]| == 3 && |tasks[1]| == 3 && |tasks[2]| == 4 && Flatten(tasks) == s
  {
    BalancedTasksCover(s, 3);
  }

  /** The followers a worker tries: those of its chunk whose avatar is not the default
      one, in order. */
  function NonDefault(fs: seq<Follower>): seq<Follower>
  {
    if |fs| == 0 then []
    else NonDefault(fs[..|fs| - 1]) + (if HaveDefaultAvatar(fs[|fs| - 1]) then [] else [fs[|fs| - 1]])
  }

  /** A follower is tried exactly when it is in the chunk and its avatar is not the
      default one. */
  lemma {:induction false} NonDefaultMembers(fs: seq<Follower>, f: Follower)
    ensures f in NonDefault(fs) <==> f in fs && !HaveDefaultAvatar(f)
    decreases |fs|
  {
    if |fs| > 0 {
      var init := fs[..|fs| - 1];
      NonDefaultMembers(init, f);
      assert fs == init + [fs[|fs| - 1]];
    }
  }

  /** Trying two pieces one after the other tries the followers of their concatenation,
      in the same order. */
  lemma {:induction false} NonDefaultAppend(a: seq<Follower>, b: seq<Follower>)
    ensures NonDefault(a + b) == NonDefault(a) + NonDefault(b)
    decreases |b|
  {
    if |b| == 0 {
      assert a + b == a;
    } else {
      var init := b[..|b| - 1];
      NonDefaultAppend(a, init);
      assert (a + b)[..|a + b| - 1] == a + init;
    }
  }

  /** One line of a worker's log: the avatar of `username` was saved as `filename`, or
      could not be downloaded for the reason `error`. */
  datatype Report =
    | Downloaded(task: nat, username: string, filename: string)
    | DownloadFailed(task: nat, username: string, error: string)

  function ReportOf(tsk: nat, f: Follower, download: Follower -> Result<string, string>): Report
  {
    match download(f)
    case Ok(filename) => Downloaded(tsk, f.username, filename)
    case Err(err) => DownloadFailed(tsk, f.username, err)
  }

  /** The log of worker `tsk` trying the followers `fs` one after the other. */
  function Reports(tsk: nat, fs: seq<Follower>, download: Follower -> Result<string, string>): seq<Report>
  {
    if |fs| == 0 then [] else Reports(tsk, fs[..|fs| - 1], download) + [ReportOf(tsk, fs[|fs| - 1], download)]
  }

  /** A log has one line per follower tried, in the order tried, naming that follower
      and carrying the outcome of its download. */
  lemma {:induction false} ReportsShape(tsk: nat, fs: seq<Follower>, download: Follower -> Result<string, string>)
    ensures var log := Reports(tsk, fs, download);
            && |log| == |fs|
            && forall i :: 0 <= i < |fs| ==>
                 && log[i].task == tsk
                 && log[i].username == fs[i].username
                 && (log[i].Downloaded? <==> download(fs[i]).Ok?)
                 && (log[i].Downloaded? ==> log[i].filename == download(fs[i]).value)
                 && (log[i].DownloadFailed? ==> log[i].error == download(fs[i]).error)
    decreases |fs|
  {
    if |fs| > 0 {
      var init := fs[..|fs| - 1];
      ReportsShape(tsk, init, download);
      forall i | 0 <= i < |init|
        ensures init[i] == fs[i]
      {
      }
    }
  }

  /** The body of one worker thread: for each follower of its chunk, in order, skip it
      when its avatar is the default one, otherwise download its avatar and log the
      outcome. A failed download is logged and the worker goes on. */
  method Worker(tsk: nat, ts: seq<Follower>, download: Follower -> Result<string, string>)
    returns (log: seq<Report>)
    ensures log == Reports(tsk, NonDefault(ts), download)
  {
    log := [];
    for i := 0 to |ts|
      invariant log == Reports(tsk, NonDefault(ts[..i]), download)
    {
      var follower := ts[i];
      assert ts[..i + 1][..i] == ts[..i];
      if HaveDefaultAvatar(follower) {
        assert NonDefault(ts[..i + 1]) == NonDefault(ts[..i]) + [];
        assert NonDefault(ts[..i]) + [] == NonDefault(ts[..i]);
        continue;
      }
      ghost var tried := NonDefault(ts[..i]);
      assert NonDefault(ts[..i + 1]) == tried + [follower];
      assert (tried + [follower])[..|tried|] == tried;
      match download(follower)
      case Ok(filename) =>
        log := log + [Downloaded(tsk, follower.username, filename)];
      case Err(err) =>
        log := log + [DownloadFailed(tsk, follower.username, err)];
    }
    assert ts[..|ts|] == ts;
  }

  /** The logs of workers `0 .. n - 1`, worker `t` running on `tasks[t]`. */
  function AllLogs(tasks: seq<seq<Follower>>, n: nat, download: Follower -> Result<string, string>): seq<seq<Report>>
    requires n <= |tasks|
  {
    if n == 0 then [] else AllLogs(tasks, n - 1, download) + [Reports(n - 1, NonDefault(tasks[n - 1]), download)]
  }

  /** The followers workers `0 .. n - 1` try, worker after worker. */
  function Attempted(tasks: seq<seq<Follower>>, n: nat): seq<Follower>
    requires n <= |tasks|
  {
    if n == 0 then [] else Attempted(tasks, n - 1) + NonDefault(tasks[n - 1])
  }

  /** The workers of `main`, one per index `tsk < threads`, each handed `tasks[tsk]`
      (the threads run side by side; here each one's log is kept apart). */
  method DispatchWorkers(tasks: seq<seq<Follower>>, threads: nat, download: Follower -> Result<string, string>)
    returns (logs: seq<seq<Report>>)
    requires threads <= |tasks|
    ensures logs == AllLogs(tasks, threads, download)
    ensures LoggedNames(logs) == Names(Attempted(tasks, threads))
  {
    logs := [];
    for tsk := 0 to threads
      invariant logs == AllLogs(tasks, tsk, download)
    {
      var ts := tasks[tsk];
      var log := Worker(tsk, ts, download);
      logs := logs + [log];
    }
    LogsNameAttempted(tasks, threads, download);
  }

  /** The usernames of a list of followers, in order. */
  function Names(fs: seq<Follower>): seq<string>
  {
    if |fs| == 0 then [] else Names(fs[..|fs| - 1]) + [fs[|fs| - 1].username]
  }

  /** The usernames a log names, line by line. */
  function ReportNames(log: seq<Report>): seq<string>
  {
    if |log| == 0 then [] else ReportNames(log[..|log| - 1]) + [log[|log| - 1].username]
  }

  /** The usernames the logs name, worker after worker. */
  function LoggedNames(logs: seq<seq<Report>>): seq<string>
  {
    if |logs| == 0 then [] else LoggedNames(logs[..|logs| - 1]) + ReportNames(logs[|logs| - 1])
  }

  lemma {:induction false} NamesAppend(a: seq<Follower>, b: seq<Follower>)
    ensures Names(a + b) == Names(a) + Names(b)
    decreases |b|
  {
    if |b| == 0 {
      assert a + b == a;
    } else {
      NamesAppend(a, b[..|b| - 1]);
      assert (a + b)[..|a + b| - 1] == a + b[..|b| - 1];
    }
  }

  /** A worker's log names the followers it tried, in the order it tried them. */
  lemma {:induction false} ReportsName(tsk: nat, fs: seq<Follower>, download: Follower -> Result<string, string>)
    ensures ReportNames(Reports(tsk, fs, download)) == Names(fs)
    decreases |fs|
  {
    if |fs| > 0 {
      var init := Reports(tsk, fs[..|fs| - 1], download);
      ReportsName(tsk, fs[..|fs| - 1], download);
      var log := init + [ReportOf(tsk, fs[|fs| - 1], download)];
      assert log[..|log| - 1] == init;
    }
  }

  lemma LoggedNamesSnoc(logs: seq<seq<Report>>, log: seq<Report>)
    ensures LoggedNames(logs + [log]) == LoggedNames(logs) + ReportNames(log)
  {
    assert (logs + [log])[..|logs + [log]| - 1] == logs;
  }

  /** The logs of workers `0 .. n - 1` name exactly the followers they attempted, worker
      after worker and in order within each worker. */
  lemma {:induction false} LogsNameAttempted(tasks: seq<seq<Follower>>, n: nat, download: Follower -> Result<string, string>)
    requires n <= |tasks|
    ensures LoggedNames(AllLogs(tasks, n, download)) == Names(Attempted(tasks, n))
    decreases n
  {
    if n > 0 {
      LogsNameAttempted(tasks, n - 1, download);
      var before := AllLogs(tasks, n - 1, download);
      var tried := NonDefault(tasks[n - 1]);
      var last := Reports(n - 1, tried, download);
      calc {
        LoggedNames(AllLogs(tasks, n, download));
        LoggedNames(before + [last]);
        { LoggedNamesSnoc(before, last); }
        LoggedNames(before) + ReportNames(last);
        { ReportsName(n - 1, tried, download); }
        Names(Attempted(tasks, n - 1)) + Names(tried);
        { NamesAppend(Attempted(tasks, n - 1), tried); }
        Names(Attempted(tasks, n - 1) + tried);
        Names(Attempted(tasks, n));
      }
    }
  }

  /** Worker `t` logs exactly the followers of its own chunk it tries. */
  lemma {:induction false} AllLogsShape(tasks: seq<seq<Follower>>, n: nat, download: Follower -> Result<string, string>)
    requires n <= |tasks|
    ensures var logs := AllLogs(tasks, n, download);
            |logs| == n && forall t :: 0 <= t < n ==> logs[t] == Reports(t, NonDefault(tasks[t]), download)
    decreases n
  {
    if n > 0 {
      AllLogsShape(tasks, n - 1, download);
    }
  }

  /** Together the workers try the non-default followers of the chunks they are handed,
      chunk after chunk. */
  lemma {:induction false} AttemptedIsNonDefault(tasks: seq<seq<Follower>>, n: nat)
    requires n <= |tasks|
    ensures Attempted(tasks, n) == NonDefault(Flatten(tasks[..n]))
    decreases n
  {
    if n == 0 {
      assert tasks[..0] == [];
    } else {
      AttemptedIsNonDefault(tasks, n - 1);
      assert tasks[..n] == tasks[..n - 1] + [tasks[n - 1]];
      FlattenAppend(tasks[..n - 1], [tasks[n - 1]]);
      assert Flatten([tasks[n - 1]]) == tasks[n - 1] + Flatten([tasks[n - 1]][1..]);
      assert tasks[n - 1] + [] == tasks[n - 1];
      NonDefaultAppend(Flatten(tasks[..n - 1]), tasks[n - 1]);
    }
  }

  /** With the partition of `main`, the followers tried are the non-default ones among
      the first `threads * (len / threads)`: a non-default follower further down the list
      is never tried. */
  lemma MainTriesPrefixOnly(followers: seq<Follower>, threads: nat)
    requires Tasks(followers, threads).Ok?
    ensures var k := |followers| / threads;
            Attempted(Tasks(followers, threads).value, threads) == NonDefault(followers[..threads * k])
  {
    TasksAssignPrefix(followers, threads);
    AttemptedIsNonDefault(Tasks(followers, threads).value, threads);
  }

  /** With the balanced partition, every follower whose avatar is not the default one is
      tried, exactly once and in list order. */
  lemma BalancedTriesAll(followers: seq<Follower>, threads: nat)
    requires BalancedTasks(followers, threads).Ok?
    ensures var tasks := BalancedTasks(followers, threads).value;
            |tasks| == threads && Attempted(tasks, |tasks|) == NonDefault(followers)
  {
    var tasks := BalancedTasks(followers, threads).value;
    BalancedTasksCover(followers, threads);
    assert tasks[..threads] == tasks;
    AttemptedIsNonDefault(tasks, threads);
  }
}
