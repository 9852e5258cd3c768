// Snapshots, replay and restart after a crash.
module StoreRestart {
  import opened Bytes
  import opened History
  import opened Recovery
  import opened LogState
  import opened LogSteps
  import opened LogCrash
  import opened LogReads
  import opened Snapshots
  import opened StoreState
  import opened Folds
  import opened StoreProofs

  // ----- Taking a snapshot -----

  function SnapshotSteps(json: Json, w: World, sync: FlushIO, file: SnapshotIO): (ws: seq<World>)
    requires w.log.segs != []
  {
    [w, w.(log := Flush(w.log, sync).log), TakeSnapshot(json, w, sync, file).world]
  }

  // The length field of the snapshot file can hold the body.
  predicate SnapshotFits(json: Json, w: World) {
    |json.renderBody(Body(w.applied, w.kv))| < 0x1_0000_0000
  }

  // The gaps of x, which came from w by taking a snapshot. A new file has what
  // memory has; gaps that make no difference to it are none.
  ghost function GapsTaken(json: Json, h: seq<seq<byte>>, gs: Gaps, w: World, x: World): Gaps
    requires w.applied <= |h|
  {
    if x.snap == w.snap then gs else gs.(lost := if w.kv == Fold(json, h, w.applied) then {} else gs.mem)
  }

  // Old file or new file, at every moment: the write is atomic, and what the
  // new file says is what memory says, confirmed by the log.
  lemma SnapshotKeeps(json: Json, w: World, h: seq<seq<byte>>, gs: Gaps, sync: FlushIO, file: SnapshotIO, kept: nat)
    requires Lawful(json) && Sound(json, w, h, gs) && w.log.segs != [] && RollbackWorks(sync)
    requires SnapshotFits(json, w)
    ensures w.applied <= |h|
    ensures var r := TakeSnapshot(json, w, sync, file);
            && Moment(json, w, h, GapsTaken(json, h, gs, w, r.world), kept, r.world)
            && r.world.log.nextSeq == w.log.nextSeq
            && r.world.kv == w.kv && r.world.applied == w.applied
            && (r.world.snap == w.snap || ReadBack(json, r.world) == Some(Body(w.applied, w.kv)))
            && (r.reply.Done? <==> Flush(w.log, sync).ok && WritingOk(SnapshotBytes(json, w), file))
            && (r.reply.Done? ==>
                 r.reply == StoreState.Done([w.applied]) && ReadBack(json, r.world) == Some(Body(w.applied, w.kv)))
    ensures forall x :: x in SnapshotSteps(json, w, sync, file) ==>
              Moment(json, w, h, GapsTaken(json, h, gs, w, x), kept, x)
  {
    hide Inv, FoldWithout, Covers, ReadSnapshot, SnapshotFrame;
    FlushSound(json, w, h, gs, sync);
    assert Moment(json, w, h, gs, kept, w.(log := Flush(w.log, sync).log));
    SelfMoment(json, w, h, gs, kept);
    FoldCanonical(json, h, gs.mem, w.applied);
    SnapshotRoundTrip(json, Body(w.applied, w.kv));
  }

  // ----- Loading it -----

  // What the snapshot file says, if it can be used.
  function ReadBack(json: Json, w: World): Option<Body> {
    if w.snap.Some? && ReadSnapshot(json, w.snap.value).Loaded?
    then Some(ReadSnapshot(json, w.snap.value).body) else None
  }

  // The last sequence the snapshot file stands for.
  function Based(json: Json, w: World): nat {
    match ReadBack(json, w)
    case None => 0
    case Some(body) => body.applied
  }

  // The gaps of a memory that starts from the snapshot file.
  function GapsLoaded(json: Json, w: World, gs: Gaps): Gaps {
    gs.(mem := if ReadBack(json, w).Some? then gs.lost else {})
  }

  // Whatever the file holds, what is loaded is a state the log confirmed.
  lemma LoadIsLive(json: Json, w: World, h: seq<seq<byte>>, gs: Gaps)
    requires Sound(json, w, h, gs)
    ensures var l := LoadSnapshot(json, Blank(w));
            && Sound(json, l, h, GapsLoaded(json, w, gs))
            && Sound(json, Blank(w), h, gs.(mem := {}))
            && l.log == w.log && l.snap == w.snap && l.applied == Based(json, w)
  {
    hide Inv, ReadSnapshot;
  }

  // ----- Replaying the log -----

  function ReplaySteps(json: Json, w: World, s: nat): seq<World>
    decreases w.log.durable + 1 - s
  {
    if s > w.log.durable then [w]
    else if s !in w.log.index then ReplaySteps(json, w, s + 1)
    else
      match ReadIndexed(w.log, s)
      case ReadFailed(e) => [w]
      case Payload(p) =>
        var a := Apply(json, w, s, p);
        [w] + (if a.reply.Failed? then [a.world] else ReplaySteps(json, a.world, s + 1))
  }

  // What a memory with gaps `mem` has passed over when a replay took it from a to
  // b: what lies between and is not in the index, because it was cleaned away.
  function Skipped(index: map<nat, Location>, mem: set<nat>, a: nat, b: nat): set<nat> {
    mem + set t | a < t < b && t !in index
  }

  // x, on the way of a replay from w.
  ghost predicate Replaying(json: Json, w: World, h: seq<seq<byte>>, gs: Gaps, x: World) {
    && Sound(json, x, h, gs.(mem := Skipped(w.log.index, gs.mem, w.applied, x.applied)))
    && x.log == w.log && x.snap == w.snap && w.applied <= x.applied
  }

  // Replay applies, in order, every indexed command that memory does not have,
  // and skips the rest: whatever the log still has, from any sound memory.
  lemma {:induction false} ReplayKeeps(json: Json, w: World, h: seq<seq<byte>>, gs: Gaps, s: nat)
    requires Sound(json, w, h, gs) && 1 <= s
    requires forall t :: w.applied < t < s ==> t !in w.log.index
    ensures var r := ReplayFrom(json, w, s);
            && r.reply == Done([]) && Replaying(json, w, h, gs, r.world)
            && (r.world.applied == w.applied || r.world.applied in w.log.index)
            && Exhausted(r.world)
    ensures forall x :: x in ReplaySteps(json, w, s) ==> Replaying(json, w, h, gs, x)
    decreases w.log.durable + 1 - s
  {
    hide Inv, Apply, ReadIndexed, Sound, Skipped;
    SoundInv(json, w, h, gs);
    SkippedNothing(w.log.index, gs.mem, w.applied);
    if s <= w.log.durable {
      if s !in w.log.index {
        ReplayKeeps(json, w, h, gs, s + 1);
      } else {
        var g := h[..w.log.nextSeq - 1];
        DurableOnFile(w.log, g);
        IndexReadsBack(w.log, g, s);
        assert g[s - 1] == h[s - 1];
        if s <= w.applied {
          ApplySkips(json, w, h, gs, s);
          ReplayKeeps(json, w, h, gs, s + 1);
        } else {
          ApplyNext(json, w, h, gs, s);
          var next := Apply(json, w, s, h[s - 1]).world;
          var gn := gs.(mem := Passed(gs.mem, w.applied, s));
          ReplayKeeps(json, next, h, gn, s + 1);
          ReplayOn(json, w, h, gs, s, next, ReplayFrom(json, next, s + 1).world);
          forall x | x in ReplaySteps(json, next, s + 1)
            ensures Replaying(json, w, h, gs, x)
          {
            ReplayOn(json, w, h, gs, s, next, x);
          }
        }
      }
    }
  }

  // Every durable command the log still has is applied.
  ghost predicate Exhausted(w: World) {
    forall t :: w.applied < t <= w.log.durable ==> t !in w.log.index
  }

  lemma SkippedNothing(index: map<nat, Location>, mem: set<nat>, a: nat)
    ensures Skipped(index, mem, a, a) == mem
  {
  }

  lemma ReplayOn(json: Json, w: World, h: seq<seq<byte>>, gs: Gaps, s: nat, next: World, x: World)
    requires w.applied < s && s in w.log.index && forall t :: w.applied < t < s ==> t !in w.log.index
    requires next.log == w.log && next.snap == w.snap && next.applied == s
    requires Replaying(json, next, h, gs.(mem := Passed(gs.mem, w.applied, s)), x)
    ensures Replaying(json, w, h, gs, x)
  {
    hide Sound;
    assert Skipped(w.log.index, Passed(gs.mem, w.applied, s), s, x.applied)
        == Skipped(w.log.index, gs.mem, w.applied, x.applied);
  }

  lemma ApplySkips(json: Json, w: World, h: seq<seq<byte>>, gs: Gaps, s: nat)
    requires Sound(json, w, h, gs) && 1 <= s <= w.applied
    ensures s <= |h| && Apply(json, w, s, h[s - 1]) == Result(w, Done([]))
  {
    hide Inv, FoldWithout, ReadSnapshot;
    assert DecodeCommand(json, h[s - 1]).Some?;
  }

  // The gaps of x, which came from w by loading the snapshot and replaying.
  function GapsReplayed(json: Json, w: World, gs: Gaps, x: World): Gaps {
    gs.(mem := Skipped(w.log.index, GapsLoaded(json, w, gs).mem, Based(json, w), x.applied))
  }

  // A Reload that succeeds rebuilds memory from the snapshot and every command
  // the log still has, and a second replay from any point on changes nothing.
  // Where the log has everything the snapshot does not have, that is the fold of
  // all assigned commands but those the snapshot passed over.
  lemma ReloadRebuilds(json: Json, w: World, h: seq<seq<byte>>, gs: Gaps, io: ReloadIO)
    requires Sound(json, w, h, gs) && w.log.segs != []
    requires !io.readErr && RollbackWorks(io.flush) && Flush(w.log, io.flush).ok
    ensures w.log.nextSeq - 1 <= |h|
    ensures var r := Reload(json, w, io);
            && r.reply == Done([])
            && r.world.log == Flush(w.log, io.flush).log && r.world.snap == w.snap
            && r.world.log.nextSeq == w.log.nextSeq == r.world.log.durable + 1
            && Based(json, w) <= r.world.applied
            && Exhausted(r.world) && (r.world.applied == Based(json, w) || r.world.applied in w.log.index)
            && Sound(json, r.world, h, GapsReplayed(json, w, gs, r.world))
            && (forall s :: s >= 1 ==> ReplayFrom(json, r.world, s) == Result(r.world, Done([])))
            && (Covers(w.log, Based(json, w) + 1) ==>
                 && r.world.applied == w.log.nextSeq - 1
                 && r.world.kv == FoldWithout(json, h, GapsLoaded(json, w, gs).mem, w.log.nextSeq - 1))
  {
    hide Inv, FoldWithout, Flush, ReadSnapshot, ReadIndexed, Sound, Skipped;
    LoadIsLive(json, w, h, gs);
    var gl := GapsLoaded(json, w, gs);
    var l := LoadSnapshot(json, Blank(w));
    FlushSound(json, l, h, gl, io.flush);
    assert Moment(json, l, h, gl, 0, l.(log := Flush(w.log, io.flush).log));
    var f := l.(log := Flush(w.log, io.flush).log);
    ReplayKeeps(json, f, h, gl, 1);
    SoundInv(json, w, h, gs);
    var r := Reload(json, w, io).world;
    assert GapsReplayed(json, w, gs, r) == gl.(mem := Skipped(f.log.index, gl.mem, f.applied, r.applied));
    forall s | s >= 1
      ensures ReplayFrom(json, r, s) == Result(r, Done([]))
    {
      ReplayAgain(json, r, h, GapsReplayed(json, w, gs, r), s);
    }
    SoundLive(json, f, h, gl);
    SoundLive(json, r, h, GapsReplayed(json, w, gs, r));
    if Covers(w.log, Based(json, w) + 1) {
      CoveredSkips(w.log, gl.mem, Based(json, w), r.applied);
      assert r.applied < r.log.durable ==> r.log.durable in w.log.index && r.log.durable !in r.log.index;
    }
  }

  // A log that has everything from a + 1 on leaves no gap behind a.
  lemma CoveredSkips(v: Log, mem: set<nat>, a: nat, b: nat)
    requires Covers(v, a + 1) && b <= v.nextSeq
    ensures Skipped(v.index, mem, a, b) == mem
    ensures forall t :: a < t < v.nextSeq ==> t in v.index
  {
  }

  lemma SoundLive(json: Json, w: World, h: seq<seq<byte>>, gs: Gaps)
    requires Sound(json, w, h, gs)
    ensures w.applied <= w.log.durable && w.applied <= |h| && w.kv == FoldWithout(json, h, gs.mem, w.applied)
    ensures forall s :: s in gs.mem ==> 1 <= s <= w.applied
  {
    hide Inv, FoldWithout, ReadSnapshot;
  }

  lemma {:induction false} ReplayAgain(json: Json, w: World, h: seq<seq<byte>>, gs: Gaps, s: nat)
    requires Sound(json, w, h, gs) && Exhausted(w) && s >= 1
    ensures ReplayFrom(json, w, s) == Result(w, Done([]))
    decreases w.log.durable + 1 - s
  {
    hide Inv, Apply, ReadIndexed, Sound;
    SoundInv(json, w, h, gs);
    var g := h[..w.log.nextSeq - 1];
    if s <= w.log.durable {
      ReplayAgain(json, w, h, gs, s + 1);
      if s in w.log.index {
        DurableOnFile(w.log, g);
        IndexReadsBack(w.log, g, s);
        ApplySkips(json, w, h, gs, s);
      }
    }
  }

  // ----- Restart after a crash -----

  lemma ReopenedSound(json: Json, w: World, h: seq<seq<byte>>, gs: Gaps, k: nat) returns (n: nat)
    requires Sound(json, w, h, gs) && Survives(w.log, k)
    ensures w.log.segs != [] && w.log.segs[0].start >= 1 && AfterCrash(w.log, k).Opened?
    ensures w.log.durable <= n <= w.log.nextSeq - 1 && n <= |h|
    ensures var v := Reopened(w.log.opts, AfterCrash(w.log, k));
            && v.segs != [] && v.nextSeq == n + 1 && v.durable == n && v.pending == [] && v.unsyncedHigh == 0
            && v.opts == w.log.opts && v.segs[0].start == w.log.segs[0].start
            && w.log.segs[0].start <= n + 1 && (forall s :: s in v.index <==> w.log.segs[0].start <= s <= n)
            && Settled(json, World(v, map[], 0, w.snap), h[..n], gs.(mem := {}))
  {
    hide Inv, ReadSnapshot, Sound, Reopened, AfterCrash, Settled;
    SoundInv(json, w, h, gs);
    n := ReopenedLog(w.log, h, k);
    IndexExact(Reopened(w.log.opts, AfterCrash(w.log, k)), h[..n]);
    BlankSound(json, w, h, gs, Reopened(w.log.opts, AfterCrash(w.log, k)), n);
  }

  lemma ReopenedLog(u: Log, h: seq<seq<byte>>, k: nat) returns (n: nat)
    requires InvAt(u, h) && Survives(u, k)
    ensures u.segs[0].start >= 1 && AfterCrash(u, k).Opened?
    ensures u.durable <= n <= u.nextSeq - 1 && n <= |h|
    ensures var v := Reopened(u.opts, AfterCrash(u, k));
            && v.segs != [] && v.nextSeq == n + 1 && v.durable == n && v.pending == [] && v.unsyncedHigh == 0
            && v.opts == u.opts && v.segs[0].start == u.segs[0].start && Indexed(v, v.segs[0].start)
            && Inv(v, h[..n])
  {
    hide *;
    AssignedInv(u, h);
    var g := h[..u.nextSeq - 1];
    ReopenedKeeps(u, g, k);
    n := Lost(u, g, k) - 1;
    PrefixOfPrefix(h, u.nextSeq - 1, n);
  }

  lemma IndexExact(v: Log, h: seq<seq<byte>>)
    requires Inv(v, h) && v.segs != [] && Indexed(v, v.segs[0].start)
    ensures v.segs[0].start <= v.nextSeq
    ensures forall s :: s in v.index <==> v.segs[0].start <= s < v.nextSeq
  {
    hide LogBytes, Tiling, Place, Bounded, Watermarks;
    LayoutSegs(v, h);
  }

  lemma AssignedInv(u: Log, h: seq<seq<byte>>)
    requires InvAt(u, h)
    ensures 1 <= u.nextSeq <= |h| + 1 && Inv(u, h[..u.nextSeq - 1]) && u.opts.maxRecord >= 1
  {
  }

  lemma PrefixOfPrefix(h: seq<seq<byte>>, a: nat, n: nat)
    requires n <= a <= |h|
    ensures h[..a][..n] == h[..n]
  {
  }

  lemma BlankSound(json: Json, w: World, h: seq<seq<byte>>, gs: Gaps, v: Log, n: nat)
    requires Sound(json, w, h, gs) && w.log.durable <= n <= |h|
    requires Inv(v, h[..n]) && v.nextSeq == n + 1
    requires w.log.durable <= v.durable
    ensures Settled(json, World(v, map[], 0, w.snap), h[..n], gs.(mem := {}))
  {
    hide Inv, ReadSnapshot;
    assert h[..n] == h[..n][..v.nextSeq - 1];
    if w.snap.Some? && ReadSnapshot(json, w.snap.value).Loaded? {
      var a := ReadSnapshot(json, w.snap.value).body.applied;
      assert h[..n][..a] == h[..a];
      FoldAgree(json, h, h[..n], gs.lost, a);
    }
  }

  // What a restart from w leaves out: what the snapshot passed over, and what was
  // removed from the log and is not in the snapshot.
  function LeftOut(json: Json, w: World, gs: Gaps): set<nat>
    requires w.log.segs != []
  {
    Passed(GapsLoaded(json, w, gs).mem, Based(json, w), w.log.segs[0].start)
  }

  // One crash. Whatever moment it hits, whatever unconfirmed bytes survive and
  // whatever was removed from the log, opening the log succeeds and the new store
  // is the fold of the first n issued commands less exactly LeftOut, for some n
  // between the last confirmed and the last assigned sequence.
  lemma RestartRebuilds(json: Json, w: World, h: seq<seq<byte>>, gs: Gaps, k: nat, io: ReloadIO) returns (n: nat)
    requires Sound(json, w, h, gs) && Survives(w.log, k) && !io.readErr
    ensures w.log.segs != [] && w.log.segs[0].start >= 1 && AfterCrash(w.log, k).Opened?
    ensures Reopened(w.log.opts, AfterCrash(w.log, k)).segs != []
    ensures w.log.durable <= n <= w.log.nextSeq - 1 && n <= |h|
    ensures var v := Reopened(w.log.opts, AfterCrash(w.log, k));
            var r := New(json, v, w.snap, io);
            var gr := GapsReplayed(json, w.(log := v), gs, r.world);
            && r.reply == StoreState.Done([])
            && r.world.kv == FoldWithout(json, h, LeftOut(json, w, gs), n)
            && r.world.log == v && r.world.snap == w.snap && v.opts == w.log.opts
            && Covers(v, w.log.segs[0].start) && Based(json, w) <= n
            && n == v.durable == v.nextSeq - 1
            && r.world.applied == (if w.log.segs[0].start <= n then n else Based(json, w))
            && Settled(json, r.world, h[..n], gr)
            && Passed(gr.mem, r.world.applied, n + 1) == LeftOut(json, w, gs)
  {
    hide Inv, ReadSnapshot, AfterCrash, FoldWithout, Survives, Reload, Reopened, Sound;
    n := ReopenedSound(json, w, h, gs, k);
    var v := Reopened(w.log.opts, AfterCrash(w.log, k));
    var b := World(v, map[], 0, w.snap);
    var quiet := ReloadIO(false, FlushIO(0, false, false, false));
    assert Flush(v, io.flush) == FlushResult(v, true) == Flush(v, quiet.flush);
    SameReload(json, b, io, quiet);
    ReloadRebuilds(json, b, h[..n], gs.(mem := {}), quiet);
    var x := Reload(json, b, quiet).world;
    var gr := GapsReplayed(json, b, gs.(mem := {}), x);
    assert h[..n][..n] == h[..n];
    SoundLive(json, x, h[..n], gr);
    RestartGaps(json, w, b, gs, x, n);
    FoldPassed(json, h[..n], gr.mem, x.applied, n + 1);
    FoldAgree(json, h, h[..n], LeftOut(json, w, gs), n);
  }

  // The reopened log is indexed from its first retained record to its last.
  lemma RestartGaps(json: Json, w: World, b: World, gs: Gaps, x: World, n: nat)
    requires w.log.segs != [] && b.snap == w.snap
    requires forall s :: s in b.log.index <==> w.log.segs[0].start <= s <= n
    requires w.log.segs[0].start <= n + 1 && Based(json, w) <= x.applied <= n
    requires x.log == b.log && b.log.durable == n && Exhausted(x)
    requires x.applied == Based(json, w) || x.applied in b.log.index
    ensures GapsReplayed(json, b, gs.(mem := {}), x) == GapsReplayed(json, w.(log := b.log), gs, x)
    ensures Passed(GapsReplayed(json, b, gs, x).mem, x.applied, n + 1) == LeftOut(json, w, gs)
    ensures x.applied == if w.log.segs[0].start <= n then n else Based(json, w)
  {
    hide ReadSnapshot;
    assert w.log.segs[0].start <= n ==> n in b.log.index;
  }

  lemma SameReload(json: Json, b: World, io: ReloadIO, quiet: ReloadIO)
    requires b.log.segs != [] && Flush(b.log, io.flush) == Flush(b.log, quiet.flush) && io.readErr == quiet.readErr
    ensures Reload(json, b, io) == Reload(json, b, quiet)
  {
    hide Flush, ReplayFrom, LoadSnapshot;
  }

  // A snapshot file that was damaged, cut short or lost: the restart falls back to
  // the replay of what the log still has. With no segment removed that is the full
  // replay, and it is the store the good file would have given, unless the good
  // file passed over commands that matter.
  lemma DamagedSnapshotFallsBack(json: Json, w: World, h: seq<seq<byte>>, gs: Gaps, k: nat, io: ReloadIO,
                                 bad: Option<seq<byte>>) returns (n: nat)
    requires Sound(json, w, h, gs) && Survives(w.log, k) && !io.readErr
    requires bad.None? || ReadSnapshot(json, bad.value).Invalid?
    ensures w.log.segs != [] && w.log.segs[0].start >= 1 && AfterCrash(w.log, k).Opened? && n <= |h|
    ensures Reopened(w.log.opts, AfterCrash(w.log, k)).segs != []
    ensures var v := Reopened(w.log.opts, AfterCrash(w.log, k));
            var good, fallback := New(json, v, w.snap, io), New(json, v, bad, io);
            && good.reply == fallback.reply == StoreState.Done([])
            && fallback.world.kv == FoldWithout(json, h, Between(0, w.log.segs[0].start), n)
            && (w.log.segs[0].start == 1 ==>
                 && fallback.world.kv == Fold(json, h, n) && fallback.world.applied == n
                 && (fallback.world == good.world.(snap := bad) <==> Harmless(json, h, GapsLoaded(json, w, gs).mem, n)))
  {
    hide Inv, ReadSnapshot, AfterCrash, FoldWithout, Survives, New, Reopened, Harmless;
    n := RestartRebuilds(json, w, h, gs, k, io);
    BadSnapshotSound(json, w, h, gs, bad);
    var m := RestartRebuilds(json, w.(snap := bad), h, gs, k, io);
    assert {} + Between(0, w.log.segs[0].start) == Between(0, w.log.segs[0].start);
    HarmlessIff(json, h, GapsLoaded(json, w, gs).mem, n);
    if w.log.segs[0].start == 1 {
      assert LeftOut(json, w, gs) == GapsLoaded(json, w, gs).mem;
      assert Between(0, 1) == {};
    }
  }

  // Cut short anywhere, or changed in any one byte.
  ghost predicate Spoiled(data: seq<byte>, bad: seq<byte>) {
    || (|bad| < |data| && bad == data[..|bad|])
    || (|bad| == |data| && exists p :: 0 <= p < |data| && bad[p] != data[p] && bad == data[p := bad[p]])
  }

  lemma SpoiledInvalid(json: Json, data: seq<byte>, bad: seq<byte>)
    requires ReadSnapshot(json, data).Loaded? && Spoiled(data, bad)
    ensures ReadSnapshot(json, bad).Invalid?
  {
    hide ReadFrame;
    if |bad| < |data| {
      TruncatedSnapshotRejected(data, |bad|);
    } else {
      var p :| 0 <= p < |data| && bad[p] != data[p] && bad == data[p := bad[p]];
      assert data[..p] == bad[..p] && data[p + 1..] == bad[p + 1..];
      assert data[p..p + 1][0] != bad[p..p + 1][0];
      DamagedSnapshotRejected(data, bad, p, 1);
    }
  }

  // So for every strict prefix and every single-byte change of a good file.
  lemma EverySpoiledSnapshotFallsBack(json: Json, w: World, h: seq<seq<byte>>, gs: Gaps, k: nat, io: ReloadIO,
                                      bad: seq<byte>) returns (n: nat)
    requires Sound(json, w, h, gs) && Survives(w.log, k) && !io.readErr
    requires w.snap.Some? && ReadSnapshot(json, w.snap.value).Loaded? && Spoiled(w.snap.value, bad)
    ensures w.log.segs != [] && w.log.segs[0].start >= 1 && AfterCrash(w.log, k).Opened? && n <= |h|
    ensures Reopened(w.log.opts, AfterCrash(w.log, k)).segs != []
    ensures var v := Reopened(w.log.opts, AfterCrash(w.log, k));
            var good, fallback := New(json, v, w.snap, io), New(json, v, Some(bad), io);
            && good.reply == fallback.reply == StoreState.Done([])
            && fallback.world.kv == FoldWithout(json, h, Between(0, w.log.segs[0].start), n)
            && (w.log.segs[0].start == 1 ==>
                 && fallback.world.kv == Fold(json, h, n)
                 && (fallback.world == good.world.(snap := Some(bad)) <==> Harmless(json, h, gs.lost, n)))
  {
    hide Inv, ReadSnapshot, AfterCrash, FoldWithout, Survives, New, Reopened, Harmless, Sound, Spoiled;
    SpoiledInvalid(json, w.snap.value, bad);
    n := DamagedSnapshotFallsBack(json, w, h, gs, k, io, Some(bad));
  }

  lemma BadSnapshotSound(json: Json, w: World, h: seq<seq<byte>>, gs: Gaps, bad: Option<seq<byte>>)
    requires Sound(json, w, h, gs)
    requires bad.None? || ReadSnapshot(json, bad.value).Invalid?
    ensures Sound(json, w.(snap := bad), h, gs)
  {
    hide Inv, ReadSnapshot, FoldWithout;
  }

  lemma {:induction false} ReplayLog(json: Json, w: World, s: nat)
    ensures ReplayFrom(json, w, s).world.log == w.log
    decreases w.log.durable + 1 - s
  {
    hide ReadIndexed;
    if s <= w.log.durable {
      if s !in w.log.index {
        ReplayLog(json, w, s + 1);
      } else {
        match ReadIndexed(w.log, s)
        case ReadFailed(_) =>
        case Payload(p) => ReplayLog(json, Apply(json, w, s, p).world, s + 1);
      }
    }
  }
}
