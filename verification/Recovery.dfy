/** One shard over its whole life: inserts, snapshots, crashes and restarts. */
module Recovery {
  import opened Bytes
  import opened Options
  import opened WalSpec

  /** How often the shard manager's logs checkpoint. */
  const EVERY: nat := 1000

  /**
   * A shard: the vectors of its index in id order, its log, and the vectors of its last snapshot.
   * `repeated` is history: how many log entries are already in that snapshot and have not been
   * replayed on top of it yet.
   */
  datatype Shard = Shard(vectors: seq<Vector>, wal: LogState, snapshot: Option<seq<Vector>>, repeated: nat)

  /**
   * What can happen to a shard. `CrashInInsert` is a crash after the entry reached the log and
   * before the index had it; `returned` says whether the log's append had finished. `CrashInSnapshot`
   * is a crash after both files were written and before the log was truncated. A restart follows.
   */
  datatype Event = Insert(e: Entry) | Snapshot | Restart | CrashInInsert(e: Entry, returned: bool) | CrashInSnapshot

  const NEW: Shard := Shard([], LogState([], 0, 0), None, 0)

  function Payloads(log: seq<Entry>): (r: seq<Vector>)
    ensures |r| == |log| && forall k :: 0 <= k < |log| ==> r[k] == log[k].payload
  {
    seq(|log|, k requires 0 <= k < |log| => log[k].payload)
  }

  /** Opening the log `w` and loading: without a snapshot the log is not replayed either. */
  function Recovered(s: Shard, w: LogState): Shard {
    match s.snapshot
    case None => Shard([], w, None, 0)
    case Some(saved) => Shard(saved + Payloads(w.log), w, s.snapshot, 0)
  }

  /** A snapshot before it truncates the log. */
  function FilesWritten(s: Shard): Shard { Shard(s.vectors, s.wal, Some(s.vectors), |s.wal.log|) }

  function Step(s: Shard, ev: Event): Shard {
    match ev
    case Insert(e) => s.(vectors := s.vectors + [e.payload], wal := Appended(s.wal, EVERY, e))
    case Snapshot =>
      var w := Truncated(s.wal, |s.wal.log|);
      Shard(s.vectors, w, Some(s.vectors), |w.log|)
    case Restart => Recovered(s, Reopened(s.wal))
    case CrashInSnapshot => Recovered(FilesWritten(s), Reopened(s.wal))
    case CrashInInsert(e, returned) =>
      Recovered(s, Reopened(if returned then Appended(s.wal, EVERY, e) else LogState(s.wal.log + [e], s.wal.checkpoint, s.wal.since)))
  }

  function Run(evs: seq<Event>): Shard {
    if evs == [] then NEW else Step(Run(evs[..|evs| - 1]), evs[|evs| - 1])
  }

  function Inserts(es: seq<Entry>): (r: seq<Event>)
    ensures |r| == |es| && forall k :: 0 <= k < |es| ==> r[k] == Insert(es[k])
  {
    seq(|es|, k requires 0 <= k < |es| => Insert(es[k]))
  }

  // ---- the invariant of every run --------------------------------------------------

  ghost predicate Sound(s: Shard) {
    && s.wal.checkpoint <= |s.wal.log| && s.repeated <= |s.wal.log|
    && match s.snapshot
       case None => s.repeated == 0 && exists lost :: LiveSuffix(s, lost)
       case Some(saved) => s.vectors == saved + Payloads(s.wal.log[s.repeated..])
  }

  /** Without a snapshot the index holds the log but for its first `lost` entries. */
  ghost predicate LiveSuffix(s: Shard, lost: nat) {
    lost <= |s.wal.log| && s.vectors == Payloads(s.wal.log[lost..])
  }

  lemma StepSound(s: Shard, ev: Event)
    requires Sound(s)
    ensures Sound(Step(s, ev))
  {
    var s' := Step(s, ev);
    match ev {
      case Insert(e) =>
        var log' := s.wal.log + [e];
        if s.snapshot.None? {
          var lost: nat :| LiveSuffix(s, lost);
          assert log'[lost..] == s.wal.log[lost..] + [e];
          assert Payloads(log'[lost..]) == Payloads(s.wal.log[lost..]) + [e.payload];
          assert LiveSuffix(s', lost);
        } else {
          assert log'[s.repeated..] == s.wal.log[s.repeated..] + [e];
          assert Payloads(log'[s.repeated..]) == Payloads(s.wal.log[s.repeated..]) + [e.payload];
        }
      case Snapshot =>
        assert s'.wal.log[s'.repeated..] == [];
        assert s'.vectors == s'.vectors + Payloads([]);
      case Restart => RecoveredSound(s, s'.wal);
      case CrashInSnapshot => RecoveredSound(FilesWritten(s), s'.wal);
      case CrashInInsert(e, returned) => RecoveredSound(s, s'.wal);
    }
  }

  lemma RecoveredSound(s: Shard, w: LogState)
    requires w.checkpoint <= |w.log|
    ensures Sound(Recovered(s, w))
  {
    assert w.log[0..] == w.log && w.log[|w.log|..] == [];
    if s.snapshot.None? { assert LiveSuffix(Recovered(s, w), |w.log|); }
  }

  lemma {:induction false} RunSound(evs: seq<Event>)
    ensures Sound(Run(evs))
  {
    if evs == [] {
      assert LiveSuffix(NEW, 0);
    } else {
      RunSound(evs[..|evs| - 1]);
      StepSound(Run(evs[..|evs| - 1]), evs[|evs| - 1]);
    }
  }

  // ---- what a restart recovers --------------------------------------------------------

  /**
   * Whether a restart now would bring back exactly the live vectors: the last snapshot exists and
   * either emptied the log or has been loaded since; or there is nothing to lose.
   */
  predicate RestartIsClean(s: Shard) {
    if s.snapshot.None? then s.vectors == [] else s.repeated == 0
  }

  /**
   * After any run, a restart recovers the vectors, and so every node id, if and only if the last
   * snapshot dropped the log or has been loaded since; without a snapshot, if and only if there are no vectors.
   */
  lemma RecoveryExact(evs: seq<Event>)
    ensures Step(Run(evs), Restart).vectors == Run(evs).vectors <==>
      if Run(evs).snapshot.None? then Run(evs).vectors == [] else !Undropped(evs)
    ensures Step(Run(evs), Restart).vectors == Run(evs).vectors <==> RestartIsClean(Run(evs))
  {
    hide Undropped;
    RunSound(evs);
    CounterIsGuard(evs);
    var s := Run(evs);
    if s.snapshot.Some? {
      assert s.wal.log[0..] == s.wal.log;
      assert |Payloads(s.wal.log[s.repeated..])| == |s.wal.log| - s.repeated;
    }
  }

  /** The guard of `truncate` in a snapshot: it drops the whole log, or there was none. */
  predicate Drops(w: LogState) { w.log == [] || |w.log| > w.checkpoint }

  /** A snapshot makes the next restart unclean exactly when the log was checkpointed at its very end. */
  lemma SnapshotCleanExactly(evs: seq<Event>)
    ensures RestartIsClean(Step(Run(evs), Snapshot)) <==> Drops(Run(evs).wal)
  {
    RunSound(evs);
  }

  /**
   * The same from the caller's side: a restart after a snapshot and any further inserts recovers
   * every vector at its id exactly when the snapshot met an empty log or entries past the checkpoint.
   */
  lemma SnapshotThenRestart(evs: seq<Event>, es: seq<Entry>)
    ensures var a := evs + [Snapshot] + Inserts(es);
      Run(a + [Restart]).vectors == Run(a).vectors <==> Drops(Run(evs).wal)
  {
    var a := evs + [Snapshot] + Inserts(es);
    assert (evs + [Snapshot])[..|evs|] == evs && (a + [Restart])[..|a|] == a;
    InsertsLeave(evs + [Snapshot], es);
    RecoveryExact(a);
    SnapshotCleanExactly(evs);
  }

  /** The same when the restart follows a crash in an insert: its entry, once in the log, comes back as well. */
  lemma SnapshotThenCrash(evs: seq<Event>, es: seq<Entry>, e: Entry, returned: bool)
    ensures var a := evs + [Snapshot] + Inserts(es);
      Run(a + [CrashInInsert(e, returned)]).vectors == Run(a).vectors + [e.payload] <==> Drops(Run(evs).wal)
  {
    var a := evs + [Snapshot] + Inserts(es);
    assert (evs + [Snapshot])[..|evs|] == evs && (a + [Restart])[..|a|] == a && (a + [CrashInInsert(e, returned)])[..|a|] == a;
    InsertsLeave(evs + [Snapshot], es);
    RunSound(a);
    CrashIsRestart(Run(a), e, returned);
    SnapshotThenRestart(evs, es);
  }

  lemma {:induction false} InsertsLeave(evs: seq<Event>, es: seq<Entry>)
    ensures Run(evs + Inserts(es)).snapshot == Run(evs).snapshot
    ensures Run(evs + Inserts(es)).repeated == Run(evs).repeated
  {
    if es == [] {
      assert evs + Inserts(es) == evs;
    } else {
      var a, before := evs + Inserts(es), es[..|es| - 1];
      InsertsLeave(evs, before);
      assert a[..|a| - 1] == evs + Inserts(before);
    }
  }

  /** What an unclean restart does: the entries the snapshot already held are inserted a second time. */
  lemma UncleanRestartRepeats(evs: seq<Event>)
    requires Run(evs).snapshot.Some?
    ensures var s := Run(evs); var saved := s.snapshot.value;
      && s.repeated <= |s.wal.log|
      && s.vectors == saved + Payloads(s.wal.log[s.repeated..])
      && Step(s, Restart).vectors == saved + Payloads(s.wal.log[..s.repeated]) + Payloads(s.wal.log[s.repeated..])
  {
    hide Payloads, Run;
    RunSound(evs);
    var s := Run(evs);
    var again, rest := s.wal.log[..s.repeated], s.wal.log[s.repeated..];
    assert s.wal.log == again + rest;
    PayloadsConcat(again, rest);
    Associates(s.snapshot.value, Payloads(again), Payloads(rest));
  }

  lemma Associates(a: seq<Vector>, b: seq<Vector>, c: seq<Vector>)
    ensures a + (b + c) == a + b + c
  {
  }

  lemma PayloadsConcat(a: seq<Entry>, b: seq<Entry>)
    ensures Payloads(a + b) == Payloads(a) + Payloads(b)
  {
  }

  /** A restart loses no vector if and only if a snapshot exists, or there is nothing to lose. */
  lemma RestartLosesNothing(evs: seq<Event>)
    ensures var s := Run(evs);
      multiset(s.vectors) <= multiset(Step(s, Restart).vectors) <==> s.snapshot.Some? || s.vectors == []
  {
    RunSound(evs);
    var s := Run(evs);
    if s.snapshot.Some? {
      RestartAdds(s);
    } else if s.vectors != [] {
      assert s.vectors[0] in multiset(s.vectors);
    }
  }

  /** The first restart makes the shard stable: further restarts change nothing. */
  lemma RestartIdempotent(evs: seq<Event>)
    ensures Run(evs + [Restart, Restart]) == Run(evs + [Restart])
  {
    var once, twice := evs + [Restart], evs + [Restart, Restart];
    assert once[..|once| - 1] == evs && twice[..|twice| - 1] == once;
  }

  // ---- against the history of inserts ----------------------------------------------------

  /** The vectors that reached the log, in order: every acknowledged insert and those a crash interrupted after that. */
  function Durable(evs: seq<Event>): seq<Vector> {
    if evs == [] then [] else DurableAfter(Durable(evs[..|evs| - 1]), evs[|evs| - 1])
  }

  /** A restart that loads an earlier snapshot. */
  predicate Restarts(ev: Event) { ev.Restart? || ev.CrashInInsert? }

  /** Whether the event writes or loads the snapshot files. */
  predicate Touches(ev: Event) { !ev.Insert? }

  /** No restart at this event repeats an entry. */
  predicate Cleanly(s: Shard, ev: Event) {
    (Restarts(ev) ==> RestartIsClean(s)) && (ev.CrashInSnapshot? ==> s.wal.log == [])
  }

  /** Every restart of the run happens once a snapshot exists or while nothing has been logged. */
  predicate SnapshotFirst(evs: seq<Event>) {
    evs == [] ||
    (SnapshotFirst(evs[..|evs| - 1]) &&
      var s := Run(evs[..|evs| - 1]);
      (evs[|evs| - 1].Restart? ==> s.snapshot.Some? || s.wal.log == []) && (evs[|evs| - 1].CrashInInsert? ==> s.snapshot.Some?))
  }

  /** Every restart of the run was clean. */
  predicate AllClean(evs: seq<Event>) {
    evs == [] ||
    (AllClean(evs[..|evs| - 1]) && Cleanly(Run(evs[..|evs| - 1]), evs[|evs| - 1]))
  }

  /** The durable inserts `d` against the shard `s` of a run; `clean` tells whether all its restarts were. */
  ghost predicate Keeps(d: seq<Vector>, s: Shard, clean: bool) {
    && (if clean then s.vectors == d else |s.vectors| > |d|)
    && (s.snapshot.None? ==> clean && s.vectors == Payloads(s.wal.log))
    && multiset(d) <= multiset(s.vectors)
  }

  lemma InsertKeepsHistory(d: seq<Vector>, s: Shard, clean: bool, e: Entry)
    requires Keeps(d, s, clean)
    ensures Keeps(d + [e.payload], Step(s, Insert(e)), clean)
  {
    hide Payloads;
    PayloadsConcat(s.wal.log, [e]);
    assert Payloads([e]) == [e.payload];
  }

  lemma RestartKeepsHistory(d: seq<Vector>, s: Shard, clean: bool)
    requires Keeps(d, s, clean) && Sound(s) && (s.snapshot.None? ==> s.wal.log == [])
    ensures Keeps(d, Step(s, Restart), clean && RestartIsClean(s))
  {
    hide Payloads;
    if s.snapshot.Some? {
      RestartAdds(s);
    } else {
      assert Payloads([]) == [];
    }
  }

  lemma RestartAdds(s: Shard)
    requires Sound(s) && s.snapshot.Some?
    ensures |Step(s, Restart).vectors| == |s.vectors| + s.repeated
    ensures s.repeated == 0 ==> Step(s, Restart).vectors == s.vectors
    ensures multiset(s.vectors) <= multiset(Step(s, Restart).vectors)
  {
    hide Payloads;
    var log := s.wal.log;
    assert log == log[..s.repeated] + log[s.repeated..] && (s.repeated == 0 ==> log[0..] == log);
    PayloadsConcat(log[..s.repeated], log[s.repeated..]);
  }

  lemma CrashIsRestart(s: Shard, e: Entry, returned: bool)
    requires Sound(s) && s.snapshot.Some?
    ensures var s', t := Step(s, CrashInInsert(e, returned)), Step(s, Restart);
      s'.vectors == t.vectors + [e.payload] && s'.snapshot == t.snapshot
  {
    hide Payloads;
    PayloadsConcat(s.wal.log, [e]);
    assert Payloads([e]) == [e.payload];
  }

  /** A crash between the files and the truncation: everything in the log comes back a second time. */
  lemma CrashInSnapshotRepeats(d: seq<Vector>, s: Shard, clean: bool)
    requires Keeps(d, s, clean)
    ensures Step(s, CrashInSnapshot).vectors == s.vectors + Payloads(s.wal.log)
    ensures Keeps(d, Step(s, CrashInSnapshot), clean && s.wal.log == [])
  {
  }

  function DurableAfter(d: seq<Vector>, ev: Event): seq<Vector> {
    if ev.Insert? || ev.CrashInInsert? then d + [ev.e.payload] else d
  }

  lemma EventKeepsHistory(d: seq<Vector>, s: Shard, clean: bool, ev: Event)
    requires Keeps(d, s, clean) && Sound(s)
    requires (ev.Restart? ==> s.snapshot.Some? || s.wal.log == []) && (ev.CrashInInsert? ==> s.snapshot.Some?)
    ensures Keeps(DurableAfter(d, ev), Step(s, ev), clean && Cleanly(s, ev))
  {
    hide Keeps, Sound, Payloads;
    match ev {
      case Insert(e) => InsertKeepsHistory(d, s, clean, e);
      case Snapshot => SnapshotKeepsHistory(d, s, clean);
      case Restart => RestartKeepsHistory(d, s, clean);
      case CrashInSnapshot => CrashInSnapshotRepeats(d, s, clean);
      case CrashInInsert(e, returned) => CrashKeepsHistory(d, s, clean, e, returned);
    }
  }

  lemma SnapshotKeepsHistory(d: seq<Vector>, s: Shard, clean: bool)
    requires Keeps(d, s, clean)
    ensures Keeps(d, Step(s, Snapshot), clean)
  {
  }

  lemma CrashKeepsHistory(d: seq<Vector>, s: Shard, clean: bool, e: Entry, returned: bool)
    requires Keeps(d, s, clean) && Sound(s) && s.snapshot.Some?
    ensures Keeps(d + [e.payload], Step(s, CrashInInsert(e, returned)), clean && RestartIsClean(s))
  {
    hide Step;
    RestartKeepsHistory(d, s, clean);
    CrashIsRestart(s, e, returned);
    StaysSaved(s);
  }

  lemma StaysSaved(s: Shard)
    requires s.snapshot.Some?
    ensures Step(s, Restart).snapshot.Some?
  {
  }

  lemma {:induction false} Kept(evs: seq<Event>)
    requires SnapshotFirst(evs)
    ensures Keeps(Durable(evs), Run(evs), AllClean(evs))
  {
    hide Payloads, Sound, Step, Keeps, Cleanly;
    if evs != [] {
      var before, ev := evs[..|evs| - 1], evs[|evs| - 1];
      Kept(before);
      RunSound(before);
      EventKeepsHistory(Durable(before), Run(before), AllClean(before), ev);
    } else {
      NoHistory();
    }
  }

  lemma NoHistory()
    ensures Keeps([], NEW, true)
  {
  }

  /** The restart `j` is the first one after the snapshot `i`, and no other snapshot lies between. */
  predicate Loads(evs: seq<Event>, i: nat, j: nat) {
    && i < j < |evs| && evs[i].Snapshot? && Restarts(evs[j])
    && forall k :: i < k < j ==> !Touches(evs[k])
  }

  /** Every snapshot that a restart was the first to load had dropped the log. */
  ghost predicate SnapshotsDropped(evs: seq<Event>) {
    && (forall i: nat, j: nat :: Loads(evs, i, j) ==> Drops(Run(evs[..i]).wal))
    && (forall j: nat :: j < |evs| && evs[j].CrashInSnapshot? ==> Run(evs[..j]).wal.log == [])
  }

  /** The snapshot `i` is the last event that touched the files, and it did not drop the log. */
  ghost predicate UndroppedAt(evs: seq<Event>, i: nat) {
    && i < |evs| && evs[i].Snapshot? && (forall k :: i < k < |evs| ==> !Touches(evs[k]))
    && !Drops(Run(evs[..i]).wal)
  }

  /** Whether the next restart would be the first to load a snapshot that did not drop the log. */
  ghost predicate Undropped(evs: seq<Event>) { exists i: nat :: UndroppedAt(evs, i) }

  lemma UndroppedStep(before: seq<Event>, ev: Event)
    ensures Undropped(before + [ev]) <==>
      (if ev.Snapshot? then !Drops(Run(before).wal) else ev.Insert? && Undropped(before))
  {
    hide Run, Drops;
    var evs, n := before + [ev], |before|;
    assert evs[..n] == before;
    forall i: nat ensures UndroppedAt(evs, i) <==>
      if i == n then ev.Snapshot? && !Drops(Run(before).wal) else ev.Insert? && UndroppedAt(before, i)
    {
      if i < n { assert evs[..i] == before[..i] && evs[n] == ev; }
    }
    if Undropped(before) && ev.Insert? {
      var i: nat :| UndroppedAt(before, i);
      assert UndroppedAt(evs, i);
    }
    assert UndroppedAt(evs, n) <==> ev.Snapshot? && !Drops(Run(before).wal);
  }

  /** So the history counter is not needed: the guard at the last snapshot decides. */
  lemma {:induction false} CounterIsGuard(evs: seq<Event>)
    ensures Run(evs).repeated > 0 <==> Undropped(evs)
  {
    if evs != [] {
      var before, ev := evs[..|evs| - 1], evs[|evs| - 1];
      hide Undropped;
      assert evs == before + [ev];
      CounterIsGuard(before);
      RunSound(before);
      UndroppedStep(before, ev);
    }
  }

  lemma LoadedLast(before: seq<Event>, ev: Event, i: nat)
    requires i < |before|
    ensures Loads(before + [ev], i, |before|) && !Drops(Run(before[..i]).wal) <==> Restarts(ev) && UndroppedAt(before, i)
  {
    hide Run, Drops;
    var evs, n := before + [ev], |before|;
    assert evs[n] == ev && forall k :: 0 <= k < n ==> evs[k] == before[k];
  }

  /** The restart at the end of `evs` is the first to load an undropped snapshot exactly if there is one. */
  lemma DroppedStep(before: seq<Event>, ev: Event)
    ensures SnapshotsDropped(before + [ev]) <==>
      SnapshotsDropped(before) && (Restarts(ev) ==> !Undropped(before)) && (ev.CrashInSnapshot? ==> Run(before).wal.log == [])
  {
    hide Run, Drops;
    var evs, n := before + [ev], |before|;
    assert evs[..n] == before && evs[n] == ev;
    assert forall k :: 0 <= k < n ==> evs[k] == before[k];
    forall i: nat, j: nat | j < n ensures Loads(evs, i, j) <==> Loads(before, i, j) {
      if i < j { assert evs[i] == before[i] && evs[j] == before[j]; }
    }
    forall i: nat | i < n
      ensures evs[..i] == before[..i]
      ensures Loads(evs, i, n) && !Drops(Run(before[..i]).wal) <==> Restarts(ev) && UndroppedAt(before, i)
    {
      LoadedLast(before, ev, i);
    }
    if Restarts(ev) && Undropped(before) {
      var i: nat :| UndroppedAt(before, i);
      assert Loads(evs, i, n);
    }
    if SnapshotsDropped(evs) {
      forall i: nat, j: nat | Loads(before, i, j) ensures Drops(Run(before[..i]).wal) {
        assert Loads(evs, i, j);
      }
      forall j: nat | j < n && before[j].CrashInSnapshot? ensures Run(before[..j]).wal.log == [] {
        assert evs[j].CrashInSnapshot?;
      }
    }
    if SnapshotsDropped(before) && (Restarts(ev) ==> !Undropped(before)) && (ev.CrashInSnapshot? ==> Run(before).wal.log == []) {
      forall i: nat, j: nat | Loads(evs, i, j) ensures Drops(Run(evs[..i]).wal) {
        assert j == n || Loads(before, i, j);
      }
      forall j: nat | j < |evs| && evs[j].CrashInSnapshot? ensures Run(evs[..j]).wal.log == [] {
        if j < n { assert before[j].CrashInSnapshot?; }
      }
    }
  }

  lemma {:induction false} CleanIsDropped(evs: seq<Event>)
    requires SnapshotFirst(evs)
    ensures AllClean(evs) <==> SnapshotsDropped(evs)
  {
    if evs != [] {
      hide Run, SnapshotsDropped, Undropped;
      var before, ev := evs[..|evs| - 1], evs[|evs| - 1];
      assert evs == before + [ev];
      CleanIsDropped(before);
      CounterIsGuard(before);
      DroppedStep(before, ev);
      if Restarts(ev) { RestartCleanly(evs); }
    }
  }

  lemma RestartCleanly(evs: seq<Event>)
    requires evs != [] && SnapshotFirst(evs) && Restarts(evs[|evs| - 1])
    ensures var s := Run(evs[..|evs| - 1]); RestartIsClean(s) <==> s.repeated == 0
  {
    Kept(evs[..|evs| - 1]);
    RunSound(evs[..|evs| - 1]);
  }

  /**
   * Over any run that snapshots before it restarts, crashes included: no durable insert is ever
   * missing, and the index holds exactly the durable inserts in order, so ids are stable, if and only
   * if every snapshot that a restart loaded had met an empty log or entries past the checkpoint, and
   * no crash fell between the files and the truncation of a snapshot unless the log was empty.
   */
  lemma HistoryKept(evs: seq<Event>)
    requires SnapshotFirst(evs)
    ensures multiset(Durable(evs)) <= multiset(Run(evs).vectors)
    ensures Run(evs).vectors == Durable(evs) <==> SnapshotsDropped(evs)
  {
    Kept(evs);
    CleanIsDropped(evs);
  }

  // ---- where it goes wrong ------------------------------------------------------------------

  /** Restarting before the first snapshot: the entry is in the log but the index is empty. */
  lemma LostWithoutSnapshot(e: Entry)
    ensures var evs := [Insert(e), Restart];
      Run(evs).vectors == [] && Run(evs).wal.log == [e] && !SnapshotFirst(evs)
  {
    var evs := [Insert(e), Restart];
    assert evs[..1] == [Insert(e)] && evs[..1][..0] == [];
    assert Run([Insert(e)]) == Step(NEW, Insert(e));
    assert Run(evs) == Step(Run([Insert(e)]), Restart);
  }

  /** A shard that has only ever seen the inserts `es`: the checkpoint sits at the last multiple of 1000. */
  function OnlyInserts(es: seq<Entry>): Shard {
    Shard(Payloads(es), LogState(es, |es| - |es| % EVERY, |es| % EVERY), None, 0)
  }

  lemma OneInsertMore(es: seq<Entry>, e: Entry)
    ensures Step(OnlyInserts(es), Insert(e)) == OnlyInserts(es + [e])
  {
    hide Payloads;
    assert Payloads([e]) == [e.payload];
    PayloadsConcat(es, [e]);
  }

  /** That is what a run of inserts leads to. */
  lemma {:induction false} AfterInserts(es: seq<Entry>)
    ensures Run(Inserts(es)) == OnlyInserts(es)
    ensures var s := Run(Inserts(es)); s.wal.log == es && s.wal.checkpoint == |es| - |es| % 1000 && s.vectors == Payloads(es)
  {
    hide Payloads, Step;
    if es == [] {
      assert Payloads([]) == [];
    } else {
      var before, last := es[..|es| - 1], es[|es| - 1];
      AfterInserts(before);
      OneInsertMore(before, last);
      assert Inserts(es)[..|es| - 1] == Inserts(before) && es == before + [last];
    }
  }

  /** Insert, snapshot, restart on a new shard: every vector comes back twice exactly when 1000 divides their number. */
  lemma FirstSnapshotDoubles(es: seq<Entry>)
    requires es != []
    ensures Run(Inserts(es) + [Snapshot, Restart]).vectors ==
      if |es| % 1000 == 0 then Payloads(es) + Payloads(es) else Payloads(es)
  {
    AfterInserts(es);
    var i, a, b := Inserts(es), Inserts(es) + [Snapshot], Inserts(es) + [Snapshot, Restart];
    assert a[..|a| - 1] == i && b[..|b| - 1] == a;
    assert Run(a) == Step(Run(i), Snapshot) && Run(b) == Step(Run(a), Restart);
    assert es[|es|..] == [] && Payloads(es) + Payloads([]) == Payloads(es);
  }
}
