// Whole runs of the system: any sequence of events, with failures, crashes and
// restarts anywhere.
module Runs {
  import opened Bytes
  import opened Recovery
  import opened LogState
  import opened LogCrash
  import opened LogSteps
  import opened LogOnward
  import opened LogBackground
  import opened Snapshots
  import opened StoreState
  import opened Folds
  import opened StoreProofs
  import opened StoreRestart
  import opened LiveReplay
  import opened Events

  // ----- Moves -----

  // An event that completes, or one that a crash interrupts at its i-th moment
  // with k bytes of the last segment surviving, followed by a restart. Attempts to
  // open the log that come to nothing, by a crash or a failed repair, leave the
  // last file with one of the lengths in `lefts`; the one that succeeds is last.
  datatype Move =
    | Complete(e: Event)
    | CrashDuring(e: Event, i: nat, k: nat, lefts: seq<nat>, reopen: ReloadIO)

  // What the attempt that succeeds finds.
  function Found(v: Log, k: nat, lefts: seq<nat>): Recovered
    requires Survives(v, k) && v.segs[0].start >= 1
  {
    Recover(AfterAttempts(CrashFiles(v, k), v.opts.maxRecord, lefts), v.opts.maxRecord)
  }

  // It is what the first attempt would have found.
  lemma FoundIs(v: Log, k: nat, lefts: seq<nat>)
    requires Survives(v, k) && v.segs[0].start >= 1 && AfterCrash(v, k).Opened?
    ensures Found(v, k, lefts).Opened?
    ensures Reopened(v.opts, Found(v, k, lefts)) == Reopened(v.opts, AfterCrash(v, k))
  {
    hide Recover, IndexOf;
    var files := CrashFiles(v, k);
    AttemptsAreHarmless(files, v.opts.maxRecord, lefts);
  }

  ghost predicate Possible(json: Json, w: World, m: Move) {
    && Enabled(json, w, m.e)
    && (m.CrashDuring? ==>
         && !m.reopen.readErr
         && m.i < |Moments(json, w, m.e)|
         && var x := Moments(json, w, m.e)[m.i];
            && Survives(x.log, m.k)
            && x.log.segs[0].start >= 1 && Found(x.log, m.k, m.lefts).Opened?
            && Reopened(x.log.opts, Found(x.log, m.k, m.lefts)).segs != [])
  }

  // The moment a crash hits.
  ghost function Crashed(json: Json, w: World, m: Move): World
    requires Possible(json, w, m) && m.CrashDuring?
  {
    Moments(json, w, m.e)[m.i]
  }

  // The world after a move.
  ghost function Moved(json: Json, w: World, m: Move): World
    requires Possible(json, w, m)
  {
    match m
    case Complete(e) => After(json, w, e).world
    case CrashDuring(e, i, k, lefts, io) =>
      var x := Moments(json, w, e)[i];
      New(json, Reopened(x.log.opts, Found(x.log, k, lefts)), x.snap, io).world
  }

  // The history after a move: what the log has assigned, or what survived.
  ghost function Extended(json: Json, w: World, h: seq<seq<byte>>, m: Move): seq<seq<byte>>
    requires Possible(json, w, m)
  {
    var g := h + Issued(json, m.e);
    var n := Moved(json, w, m).log.nextSeq - 1;
    if 0 <= n <= |g| then g[..n] else g
  }

  // A call that reported sequences as done.
  ghost predicate Succeeds(json: Json, w: World, m: Move) {
    && Usable(w) && Supplied(m.e) && m.Complete?
    && After(json, w, m.e).reply.Done? && After(json, w, m.e).reply.seqs != []
  }

  // Highest sequence ever reported to a caller as done.
  ghost function Acknowledged(json: Json, w: World, acked: nat, m: Move): nat
    requires Possible(json, w, m)
  {
    if Succeeds(json, w, m) then Moved(json, w, m).applied else acked
  }

  // Every sequence reported to a caller as done.
  ghost function Told(json: Json, w: World, told: set<nat>, m: Move): set<nat>
    requires Possible(json, w, m)
  {
    if Succeeds(json, w, m) then told + (set s | s in After(json, w, m.e).reply.seqs) else told
  }

  // The gaps at the moment a crash hits.
  ghost function GapsCrashed(json: Json, w: World, h: seq<seq<byte>>, gs: Gaps, m: Move): Gaps
    requires Possible(json, w, m) && m.CrashDuring? && w.applied <= |h|
  {
    GapsAt(json, h, gs, w, m.e, Crashed(json, w, m))
  }

  // The gaps after a move.
  ghost function GapsMoved(json: Json, w: World, h: seq<seq<byte>>, gs: Gaps, m: Move): Gaps
    requires Possible(json, w, m) && w.applied <= |h|
  {
    var x := Moved(json, w, m);
    match m
    case Complete(e) => GapsAt(json, h, gs, w, e, x)
    case CrashDuring(e, i, k, lefts, io) =>
      GapsReplayed(json, Crashed(json, w, m).(log := x.log), GapsCrashed(json, w, h, gs, m), x)
  }

  // A crash can always be survived: the side conditions of CrashDuring beyond
  // the choice of i, k and lefts are facts.
  lemma CrashIsPossible(json: Json, w: World, h: seq<seq<byte>>, gs: Gaps, m: Move)
    requires Lawful(json) && Rest(json, w, h, gs) && Enabled(json, w, m.e)
    requires m.CrashDuring? && m.i < |Moments(json, w, m.e)| && Survives(Moments(json, w, m.e)[m.i].log, m.k)
    requires !m.reopen.readErr
    ensures Possible(json, w, m)
  {
    hide Lawful, Inv, Sound, ReadSnapshot, FoldWithout, Moments, Allowed, Survives, GapsAt, Found, AfterCrash,
         Reopened, OnwardFrom;
    RestSeqs(json, w, h, gs);
    var x := Moments(json, w, m.e)[m.i];
    var kept := SomeKept(m.e);
    EventMoments(json, w, h, gs, m.e, kept, x);
    var n := RestartRebuilds(json, x, h + Issued(json, m.e), GapsAt(json, h, gs, w, m.e, x), m.k, m.reopen);
    FoundIs(x.log, m.k, m.lefts);
  }

  // One move, complete or crashed: the store is at rest again, and everything
  // acknowledged is still in its history.
  lemma MoveKeeps(json: Json, w: World, h: seq<seq<byte>>, gs: Gaps, acked: nat, m: Move)
    requires Lawful(json) && Rest(json, w, h, gs) && Possible(json, w, m)
    requires acked <= w.log.durable
    ensures w.applied <= |h|
    ensures var x := Moved(json, w, m);
            var g := Extended(json, w, h, m);
            && Rest(json, x, g, GapsMoved(json, w, h, gs, m))
            && g <= h + Issued(json, m.e)
            && w.log.durable <= x.log.durable
            && acked <= Acknowledged(json, w, acked, m) <= x.log.durable <= |g|
            && acked <= |h| && g[..acked] == h[..acked]
  {
    hide Lawful, Inv, Sound, ReadSnapshot, FoldWithout, Moments, Allowed, After, Issued, New, GapsAt, OnwardFrom,
         Found, Reopened, GapsReplayed;
    RestSeqs(json, w, h, gs);
    match m {
      case Complete(e) =>
        var kept := SomeKept(e);
        EventRests(json, w, h, gs, e, kept);
        var x := After(json, w, e).world;
        RestSeqs(json, x, (h + Issued(json, e))[..x.log.nextSeq - 1], GapsAt(json, h, gs, w, e, x));
        RepliesOnly(json, w, e);
      case CrashDuring(e, i, k, lefts, io) => CrashRests(json, w, h, gs, m);
    }
    var g := h + Issued(json, m.e);
    assert Extended(json, w, h, m)[..acked] == g[..acked] == h[..acked];
  }

  lemma CrashIs(json: Json, w: World, h: seq<seq<byte>>, gs: Gaps, m: Move)
    requires Possible(json, w, m) && m.CrashDuring? && w.applied <= |h|
    ensures Enabled(json, w, m.e) && !m.reopen.readErr
    ensures var y := Crashed(json, w, m);
            && y in Moments(json, w, m.e)
            && Survives(y.log, m.k) && y.log.segs[0].start >= 1
            && Found(y.log, m.k, m.lefts).Opened? && Reopened(y.log.opts, Found(y.log, m.k, m.lefts)).segs != []
            && Moved(json, w, m) == New(json, Reopened(y.log.opts, Found(y.log, m.k, m.lefts)), y.snap, m.reopen).world
            && GapsCrashed(json, w, h, gs, m) == GapsAt(json, h, gs, w, m.e, y)
            && GapsMoved(json, w, h, gs, m)
               == GapsReplayed(json, y.(log := Moved(json, w, m).log), GapsCrashed(json, w, h, gs, m),
                               Moved(json, w, m))
  {
    hide Moments, Enabled, Found, Reopened, Survives, New, GapsAt, GapsReplayed;
  }

  // A crash and the restart after it: the fold of a prefix of what was issued,
  // less what the snapshot passed over and what was removed from the log above it.
  lemma CrashRests(json: Json, w: World, h: seq<seq<byte>>, gs: Gaps, m: Move)
    requires Lawful(json) && Rest(json, w, h, gs) && Possible(json, w, m) && m.CrashDuring?
    ensures w.applied <= |h| && Crashed(json, w, m).log.segs != []
    ensures var x := Moved(json, w, m);
            var issued := h + Issued(json, m.e);
            var n := x.log.nextSeq - 1;
            var left := LeftOut(json, Crashed(json, w, m), GapsCrashed(json, w, h, gs, m));
            && w.log.durable <= x.log.durable == n <= |issued|
            && Rest(json, x, issued[..n], GapsMoved(json, w, h, gs, m))
            && x.kv == FoldWithout(json, issued, left, n)
            && Passed(GapsMoved(json, w, h, gs, m).mem, x.applied, n + 1) == left
            && x.applied == (if Crashed(json, w, m).log.segs[0].start <= n then n else Based(json, Crashed(json, w, m)))
            && x.snap == Crashed(json, w, m).snap && Covers(x.log, Crashed(json, w, m).log.segs[0].start)
            && Based(json, Crashed(json, w, m)) <= n
  {
    hide Lawful, Inv, Sound, ReadSnapshot, FoldWithout, Moments, Allowed, Issued, New, Survives, AfterCrash, GapsAt,
         OnwardFrom, Found, Reopened, Covers, GapsReplayed, LeftOut, Based, Possible, Moved, Crashed, GapsCrashed,
         GapsMoved, Passed;
    RestSeqs(json, w, h, gs);
    CrashIs(json, w, h, gs, m);
    var y := Crashed(json, w, m);
    var issued := h + Issued(json, m.e);
    var gy := GapsCrashed(json, w, h, gs, m);
    var kept := SomeKept(m.e);
    EventMoments(json, w, h, gs, m.e, kept, y);
    var n := RestartRebuilds(json, y, issued, gy, m.k, m.reopen);
    FoundIs(y.log, m.k, m.lefts);
    OptionsKept(json, y, issued, gy);
  }

  // ----- Runs -----

  // A world, the history it stands for, the highest sequence and all sequences
  // callers were told are done, and what memory and snapshot have passed over.
  datatype Config = Config(w: World, h: seq<seq<byte>>, acked: nat, told: set<nat>, gs: Gaps)

  ghost predicate Good(json: Json, c: Config) {
    && Rest(json, c.w, c.h, c.gs) && c.acked <= c.w.log.durable
    && (forall s :: s in c.told ==> 1 <= s <= c.acked) && (c.acked > 0 ==> c.acked in c.told)
    && (forall s :: s in c.gs.lost ==> 1 <= s <= c.w.log.durable)
  }

  ghost predicate Step(json: Json, c: Config, m: Move, d: Config) {
    && Possible(json, c.w, m) && c.w.applied <= |c.h|
    && d == Config(Moved(json, c.w, m), Extended(json, c.w, c.h, m), Acknowledged(json, c.w, c.acked, m),
                   Told(json, c.w, c.told, m), GapsMoved(json, c.w, c.h, c.gs, m))
  }

  ghost predicate IsRun(json: Json, cs: seq<Config>, ms: seq<Move>) {
    && |cs| == |ms| + 1
    && forall i, j :: 0 <= i < |ms| && j == i + 1 ==> Step(json, cs[i], ms[i], cs[j])
  }

  // A run of a store over a new directory.
  ghost predicate IsRunFrom(json: Json, opts: Options, cs: seq<Config>, ms: seq<Move>) {
    && Lawful(json) && opts.Valid() && IsRun(json, cs, ms)
    && cs[0] == Config(Fresh(opts), [], 0, {}, NONE)
  }

  lemma FreshIsGood(json: Json, opts: Options)
    requires opts.Valid()
    ensures Good(json, Config(Fresh(opts), [], 0, {}, NONE))
  {
    hide Settled, Fresh;
    FreshSettled(json, opts);
  }

  lemma StepKeeps(json: Json, c: Config, m: Move, d: Config)
    requires Lawful(json) && Good(json, c) && Step(json, c, m, d)
    ensures Good(json, d)
  {
    hide Lawful, Rest, Possible, Moved, Extended, Succeeds, GapsMoved;
    MoveKeeps(json, c.w, c.h, c.gs, c.acked, m);
    RestLive(json, c.w, c.h, c.gs);
    RestSeqs(json, c.w, c.h, c.gs);
    LostWasPassed(json, c.w, c.h, c.gs, m);
    if Succeeds(json, c.w, m) {
      ReportedRange(json, c.w, c.h, c.gs, c.acked, m);
    }
  }

  lemma LostWasPassed(json: Json, w: World, h: seq<seq<byte>>, gs: Gaps, m: Move)
    requires Possible(json, w, m) && w.applied <= |h|
    ensures var lost := GapsMoved(json, w, h, gs, m).lost; lost == gs.lost || lost == gs.mem || lost == {}
  {
    hide After, Moments, Fold, Possible, New, Reopened, Found, Skipped, Based;
  }

  // The sequences a call reports are new, and the last of them is the highest.
  lemma ReportedRange(json: Json, w: World, h: seq<seq<byte>>, gs: Gaps, acked: nat, m: Move)
    requires Lawful(json) && Rest(json, w, h, gs) && Possible(json, w, m)
    requires Succeeds(json, w, m) && acked <= w.log.durable
    ensures forall s :: s in After(json, w, m.e).reply.seqs ==> w.log.nextSeq <= s <= Acknowledged(json, w, acked, m)
    ensures Acknowledged(json, w, acked, m) in After(json, w, m.e).reply.seqs
    ensures m.Complete? && (m.e.Mutation? || m.e.Batch?)
    ensures Moved(json, w, m).applied == Moved(json, w, m).log.durable
  {
    hide Lawful, Rest, Enabled, After, OnwardFrom;
    PossibleEnabled(json, w, m);
    var kept := SomeKept(m.e);
    EventRests(json, w, h, gs, m.e, kept);
    RepliesOnly(json, w, m.e);
    RestSeqs(json, w, h, gs);
    var seqs := After(json, w, m.e).reply.seqs;
    assert seqs[|seqs| - 1] == Acknowledged(json, w, acked, m);
  }

  lemma PossibleEnabled(json: Json, w: World, m: Move)
    requires Possible(json, w, m)
    ensures Enabled(json, w, m.e)
  {
  }

  lemma {:induction false} RunIsGood(json: Json, opts: Options, cs: seq<Config>, ms: seq<Move>, i: nat)
    requires IsRunFrom(json, opts, cs, ms) && i < |cs|
    ensures Good(json, cs[i])
  {
    hide Lawful, Good, Step;
    if i == 0 {
      FreshIsGood(json, opts);
    } else {
      RunIsGood(json, opts, cs, ms, i - 1);
      StepKeeps(json, cs[i - 1], ms[i - 1], cs[i]);
    }
  }

  // ----- What holds at every point of every run -----

  // What was acknowledged at one point of a run is part of the history, at the
  // same place, at every later point, whatever crashes lie between.
  lemma {:induction false} AcknowledgedIsForever(json: Json, opts: Options, cs: seq<Config>, ms: seq<Move>, i: nat,
                                                 j: nat)
    requires IsRunFrom(json, opts, cs, ms) && i <= j < |cs|
    ensures cs[i].acked <= cs[j].acked <= |cs[j].h| && cs[i].acked <= |cs[i].h| && cs[i].told <= cs[j].told
    ensures cs[j].h[..cs[i].acked] == cs[i].h[..cs[i].acked]
    decreases j - i
  {
    hide Lawful, Rest, Possible, Moved, Extended, Acknowledged, Succeeds, GapsMoved, After;
    RunIsGood(json, opts, cs, ms, j);
    RestSeqs(json, cs[j].w, cs[j].h, cs[j].gs);
    if i < j {
      AcknowledgedIsForever(json, opts, cs, ms, i, j - 1);
      RunIsGood(json, opts, cs, ms, j - 1);
      assert Step(json, cs[j - 1], ms[j - 1], cs[j]);
      var a, b := cs[j - 1], cs[j];
      MoveKeeps(json, a.w, a.h, a.gs, a.acked, ms[j - 1]);
      var n := cs[i].acked;
      assert b.h[..n] == b.h[..a.acked][..n] == a.h[..a.acked][..n] == a.h[..n];
    }
  }

  // Live memory, at any point of any run and after any stretch of successful and
  // failed writes, is the fold of exactly the commands it applied, and it equals
  // the replay of the whole log if and only if those it does not have are
  // harmless.
  lemma MemoryInRuns(json: Json, opts: Options, cs: seq<Config>, ms: seq<Move>, i: nat)
    requires IsRunFrom(json, opts, cs, ms) && i < |cs|
    ensures var c := cs[i];
            && c.w.applied <= c.w.log.durable <= |c.h|
            && c.w.kv == FoldWithout(json, c.h, c.gs.mem, c.w.applied)
            && (c.w.kv == Fold(json, c.h, |c.h|) <==> Harmless(json, c.h, Missing(c.w, c.h, c.gs), |c.h|))
  {
    hide Lawful, Settled, FoldWithout, Harmless, Step;
    RunIsGood(json, opts, cs, ms, i);
    RestSeqs(json, cs[i].w, cs[i].h, cs[i].gs);
    LiveFacts(json, cs[i].w, cs[i].h, cs[i].gs);
    LiveEqualsReplayIff(json, cs[i].w, cs[i].h, cs[i].gs);
  }

  // ----- The end-to-end theorem -----

  // Start from an empty directory, do anything for any length of time, with any
  // failures, clean the log and damage the snapshot at any time, crash at any
  // moment of any operation with any surviving suffix, fail to reopen any number
  // of times, restart, and so on. Right after each restart the store is the fold of
  // the first n commands issued so far, in order, less exactly those that the
  // snapshot it started from had passed over and those that were removed from the
  // log and are not in that snapshot; n is at least the highest sequence that was
  // ever acknowledged. It is the plain fold of all n if and only if those left out
  // are harmless.
  lemma CrashConsistency(json: Json, opts: Options, cs: seq<Config>, ms: seq<Move>, i: nat)
    requires IsRunFrom(json, opts, cs, ms) && i < |ms| && ms[i].CrashDuring?
    ensures Step(json, cs[i], ms[i], cs[i + 1]) && Crashed(json, cs[i].w, ms[i]).log.segs != []
    ensures var c, d := cs[i], cs[i + 1];
            var issued := c.h + Issued(json, ms[i].e);
            var n := |d.h|;
            var left := LeftOut(json, Crashed(json, c.w, ms[i]), GapsCrashed(json, c.w, c.h, c.gs, ms[i]));
            && c.acked <= n <= |issued|
            && d.h == issued[..n] && d.w.log.nextSeq == n + 1
            && d.w.kv == FoldWithout(json, issued, left, n)
            && (d.w.kv == Fold(json, issued, n) <==> Harmless(json, issued, left, n))
  {
    hide Lawful, Rest, Possible, Moved, Extended, Acknowledged, Fresh, FoldWithout, Issued, Harmless, GapsMoved,
         LeftOut, Crashed, GapsCrashed, Told, Covers, Based;
    RunIsGood(json, opts, cs, ms, i);
    RunIsGood(json, opts, cs, ms, i + 1);
    var c, d := cs[i], cs[i + 1];
    assert Step(json, c, ms[i], d);
    MoveKeeps(json, c.w, c.h, c.gs, c.acked, ms[i]);
    CrashRests(json, c.w, c.h, c.gs, ms[i]);
    RestSeqs(json, d.w, d.h, d.gs);
    HarmlessIff(json, c.h + Issued(json, ms[i].e),
                LeftOut(json, Crashed(json, c.w, ms[i]), GapsCrashed(json, c.w, c.h, c.gs, ms[i])), |d.h|);
  }

  lemma RestLive(json: Json, w: World, h: seq<seq<byte>>, gs: Gaps)
    requires Rest(json, w, h, gs)
    ensures w.applied <= |h| && w.kv == FoldWithout(json, h, gs.mem, w.applied)
    ensures forall s :: s in gs.mem ==> 1 <= s <= w.applied < w.log.nextSeq
  {
    hide Settled, FoldWithout;
    LiveFacts(json, w, h, gs);
  }

  // ----- Careful runs -----

  // The log has every record that is not in the snapshot.
  ghost predicate Retained(json: Json, w: World) {
    Covers(w.log, Based(json, w) + 1)
  }

  // What keeps it so: the log is cleaned, at rest or inside a batch, only below
  // the snapshot; a snapshot is taken only of a memory that the log completes; and
  // a snapshot is damaged only while the log has everything.
  ghost predicate CarefulEvent(json: Json, w: World, e: Event) {
    && Within(e, Based(json, w) + 1)
    && (e.Snapshotting? ==> Covers(w.log, w.applied + 1))
    && (e.Damaging? ==> Covers(w.log, 1))
  }

  ghost predicate Careful(json: Json, cs: seq<Config>, ms: seq<Move>, i: nat)
    requires |cs| == |ms| + 1 && i <= |ms|
  {
    forall j :: 0 <= j < i ==> CarefulEvent(json, cs[j].w, ms[j].e)
  }

  lemma StillRetained(json: Json, w: World, e: Event, kept: nat, x: World)
    requires Retained(json, w) && CarefulEvent(json, w, e) && SnapshotAt(json, w, e, x)
    requires kept == (if e.Snapshotting? || e.Damaging? then 0 else Based(json, w) + 1)
    requires OnwardFrom(w.log, x.log, kept)
    ensures Retained(json, x)
  {
    hide Covers, ReadSnapshot;
  }

  lemma MoveRetains(json: Json, w: World, h: seq<seq<byte>>, gs: Gaps, m: Move)
    requires Lawful(json) && Rest(json, w, h, gs) && Possible(json, w, m)
    requires Retained(json, w) && CarefulEvent(json, w, m.e)
    ensures Retained(json, Moved(json, w, m)) && w.applied <= |h|
    ensures m.CrashDuring? ==>
              && Retained(json, Crashed(json, w, m))
              && Moved(json, w, m).applied == Moved(json, w, m).log.nextSeq - 1
              && GapsMoved(json, w, h, gs, m).mem <= gs.lost + gs.mem
  {
    hide Lawful, Rest, Possible, OnwardFrom, CarefulEvent, Retained, SnapshotAt, Moved, GapsMoved, LeftOut,
         GapsCrashed, Crashed, Covers, Based, Passed, Moments, GapsReplayed;
    PossibleEnabled(json, w, m);
    var kept := if m.e.Snapshotting? || m.e.Damaging? then 0 else Based(json, w) + 1;
    assert Within(m.e, kept) by { CarefulWithin(json, w, m.e); }
    if m.Complete? {
      EventRests(json, w, h, gs, m.e, kept);
      CompleteIs(json, w, m);
      StillRetained(json, w, m.e, kept, Moved(json, w, m));
    } else {
      var y := Crashed(json, w, m);
      RestSeqs(json, w, h, gs);
      CrashIs(json, w, h, gs, m);
      EventMoments(json, w, h, gs, m.e, kept, y);
      StillRetained(json, w, m.e, kept, y);
      CrashRests(json, w, h, gs, m);
      CompleteRestart(json, y, Moved(json, w, m), GapsCrashed(json, w, h, gs, m), GapsMoved(json, w, h, gs, m).mem);
      LostWasPassed(json, w, h, gs, m);
      SameLost(json, w, h, gs, m);
    }
  }

  lemma SameLost(json: Json, w: World, h: seq<seq<byte>>, gs: Gaps, m: Move)
    requires Possible(json, w, m) && m.CrashDuring? && w.applied <= |h|
    ensures GapsCrashed(json, w, h, gs, m).lost == GapsMoved(json, w, h, gs, m).lost
  {
    hide Possible, Moved, GapsCrashed, Crashed, Skipped, Based;
  }

  // The log a crash leaves is complete from its first segment on.
  lemma CompleteRestart(json: Json, y: World, x: World, gy: Gaps, mem: set<nat>)
    requires Retained(json, y) && y.log.segs != [] && x.snap == y.snap && Covers(x.log, y.log.segs[0].start)
    requires Based(json, y) < x.log.nextSeq
    requires x.applied == (if y.log.segs[0].start < x.log.nextSeq then x.log.nextSeq - 1 else Based(json, y))
    requires Passed(mem, x.applied, x.log.nextSeq) == LeftOut(json, y, gy)
    ensures Retained(json, x) && x.applied == x.log.nextSeq - 1 && mem <= gy.lost
  {
    hide ReadSnapshot;
    PassedNone(mem, x.applied);
  }

  lemma CarefulWithin(json: Json, w: World, e: Event)
    requires CarefulEvent(json, w, e)
    ensures Within(e, Based(json, w) + 1)
    ensures e.Snapshotting? || e.Damaging? ==> Within(e, 0)
  {
    hide Based;
  }

  lemma CompleteIs(json: Json, w: World, m: Move)
    requires Possible(json, w, m) && m.Complete?
    ensures Moved(json, w, m) == After(json, w, m.e).world
  {
  }

  lemma FreshRetained(json: Json, opts: Options)
    requires opts.Valid()
    ensures Retained(json, Fresh(opts))
  {
    NewLog(opts);
  }

  // In a careful run the log and the snapshot together always have everything.
  lemma {:induction false} CarefulIsRetained(json: Json, opts: Options, cs: seq<Config>, ms: seq<Move>, i: nat)
    requires IsRunFrom(json, opts, cs, ms) && i < |cs| && Careful(json, cs, ms, i)
    ensures Retained(json, cs[i].w)
  {
    hide Lawful, Step, Rest, Retained, CarefulEvent, Fresh;
    if i == 0 {
      FreshRetained(json, opts);
    } else {
      CarefulIsRetained(json, opts, cs, ms, i - 1);
      RunIsGood(json, opts, cs, ms, i - 1);
      StepRetains(json, cs[i - 1], ms[i - 1], cs[i]);
    }
  }

  lemma StepRetains(json: Json, c: Config, m: Move, d: Config)
    requires Lawful(json) && Good(json, c) && Step(json, c, m, d)
    requires Retained(json, c.w) && CarefulEvent(json, c.w, m.e)
    ensures Retained(json, d.w)
    ensures m.CrashDuring? ==>
              && Retained(json, Crashed(json, c.w, m))
              && d.w.applied == d.w.log.nextSeq - 1 && d.gs.mem <= c.gs.lost + c.gs.mem
  {
    hide Lawful, Rest, Retained, CarefulEvent, Possible, Moved, GapsMoved, Extended, Succeeds, Crashed;
    MoveRetains(json, c.w, c.h, c.gs, m);
  }

  // ----- Faithful snapshots -----

  // Every snapshot was taken of a memory that was the fold of what it had
  // applied.
  ghost predicate FaithfulSnapshots(json: Json, cs: seq<Config>, ms: seq<Move>, i: nat)
    requires |cs| == |ms| + 1 && i <= |ms|
  {
    forall j :: 0 <= j < i && ms[j].e.Snapshotting? ==>
      cs[j].w.applied <= |cs[j].h| && cs[j].w.kv == Fold(json, cs[j].h, cs[j].w.applied)
  }

  lemma {:induction false} NothingLost(json: Json, opts: Options, cs: seq<Config>, ms: seq<Move>, i: nat)
    requires IsRunFrom(json, opts, cs, ms) && i < |cs| && FaithfulSnapshots(json, cs, ms, i)
    ensures cs[i].gs.lost == {}
  {
    hide Lawful, Possible, Moved, Extended, Acknowledged, Told, FoldWithout, Fold, After, Moments, Skipped, Based;
    if i > 0 {
      NothingLost(json, opts, cs, ms, i - 1);
      assert Step(json, cs[i - 1], ms[i - 1], cs[i]);
    }
  }

  // With faithful snapshots and careful cleaning every restart gives exactly the
  // fold of the first n commands issued, n at least the highest sequence ever
  // acknowledged, whatever failed and whatever was written after it.
  lemma PrefixConsistency(json: Json, opts: Options, cs: seq<Config>, ms: seq<Move>, i: nat)
    requires IsRunFrom(json, opts, cs, ms) && i < |ms| && ms[i].CrashDuring?
    requires FaithfulSnapshots(json, cs, ms, i + 1) && Careful(json, cs, ms, i + 1)
    ensures var issued := cs[i].h + Issued(json, ms[i].e);
            var n := cs[i + 1].w.applied;
            && cs[i].acked <= n <= |issued|
            && cs[i + 1].w.kv == Fold(json, issued, n)
  {
    hide Lawful, Possible, Moved, Extended, Acknowledged, Told, FoldWithout, After, Moments, Issued, GapsAt, Rest,
         FaithfulSnapshots, Retained, CarefulEvent, Crashed, GapsMoved, LeftOut, GapsCrashed;
    var c, d, m := cs[i], cs[i + 1], ms[i];
    CrashConsistency(json, opts, cs, ms, i);
    CarefulIsRetained(json, opts, cs, ms, i);
    RunIsGood(json, opts, cs, ms, i);
    RunIsGood(json, opts, cs, ms, i + 1);
    StepRetains(json, c, m, d);
    RestSeqs(json, d.w, d.h, d.gs);
    NothingLost(json, opts, cs, ms, i + 1);
    NothingLeftOut(json, c, m, d);
  }

  lemma NothingLeftOut(json: Json, c: Config, m: Move, d: Config)
    requires Step(json, c, m, d) && m.CrashDuring? && d.gs.lost == {} && Retained(json, Crashed(json, c.w, m))
    ensures Crashed(json, c.w, m).log.segs != []
    ensures LeftOut(json, Crashed(json, c.w, m), GapsCrashed(json, c.w, c.h, c.gs, m)) == {}
  {
    hide Possible, Moved, Extended, Acknowledged, Told, Crashed, GapsCrashed, ReadBack, Skipped;
  }

  // ----- Writers that wait -----

  // Every write was issued with the last sequence applied, as a caller can check
  // with LastSeq() and AppliedSeq(), or reach with Reload.
  predicate InStep(cs: seq<Config>, ms: seq<Move>, i: nat)
    requires |cs| == |ms| + 1 && i <= |ms|
  {
    forall j :: 0 <= j < i && (ms[j].e.Mutation? || ms[j].e.Batch?) ==> cs[j].w.applied == cs[j].w.log.nextSeq - 1
  }

  lemma {:induction false} NothingPassedOver(json: Json, opts: Options, cs: seq<Config>, ms: seq<Move>, i: nat)
    requires IsRunFrom(json, opts, cs, ms) && i < |cs| && InStep(cs, ms, i) && Careful(json, cs, ms, i)
    ensures cs[i].gs == NONE
  {
    hide Lawful, Step, Retained, CarefulEvent, Good;
    if i > 0 {
      NothingPassedOver(json, opts, cs, ms, i - 1);
      RunIsGood(json, opts, cs, ms, i - 1);
      RunIsGood(json, opts, cs, ms, i);
      CarefulIsRetained(json, opts, cs, ms, i - 1);
      var c, m, d := cs[i - 1], ms[i - 1], cs[i];
      assert Step(json, c, m, d);
      StepRetains(json, c, m, d);
      if m.Complete? {
        InStepMove(json, c, m, d);
      } else {
        LostStep(json, c, m, d);
      }
    }
  }

  lemma LostStep(json: Json, c: Config, m: Move, d: Config)
    requires Step(json, c, m, d)
    ensures d.gs.lost == c.gs.lost || d.gs.lost == c.gs.mem || d.gs.lost == {}
  {
    hide Possible, Moved, Extended, Acknowledged, Told, GapsMoved;
    LostWasPassed(json, c.w, c.h, c.gs, m);
  }

  lemma InStepMove(json: Json, c: Config, m: Move, d: Config)
    requires Good(json, d) && Step(json, c, m, d) && m.Complete? && c.gs == NONE && Retained(json, c.w)
    requires (m.e.Mutation? || m.e.Batch?) ==> c.w.applied == c.w.log.nextSeq - 1
    ensures d.gs == NONE
  {
    hide Possible, Extended, Acknowledged, Told, Rest, Fold, Based, Covers, Mutate, SetBatch, TakeSnapshot, Reload,
         Flush, InBackground;
    PassedNone({}, c.w.applied);
    RestSeqs(json, d.w, d.h, d.gs);
    PossibleEnabled(json, c.w, m);
    if m.e.Reloading? {
      ReloadLog(json, c.w, m.e.io);
      CoveredSkips(c.w.log, {}, Based(json, c.w), d.w.applied);
    }
  }

  // Then live memory is the fold of what was applied at every point, and so
  // every snapshot is faithful.
  lemma InStepIsFaithful(json: Json, opts: Options, cs: seq<Config>, ms: seq<Move>, i: nat)
    requires IsRunFrom(json, opts, cs, ms) && i < |cs| && InStep(cs, ms, i) && Careful(json, cs, ms, i)
    ensures cs[i].w.applied <= |cs[i].h| && cs[i].w.kv == Fold(json, cs[i].h, cs[i].w.applied)
    ensures FaithfulSnapshots(json, cs, ms, i)
  {
    hide Lawful, FoldWithout, Step, Settled, Harmless, CarefulEvent;
    MemoryInRuns(json, opts, cs, ms, i);
    NothingPassedOver(json, opts, cs, ms, i);
    forall j | 0 <= j < i
      ensures cs[j].w.applied <= |cs[j].h| && cs[j].w.kv == Fold(json, cs[j].h, cs[j].w.applied)
    {
      MemoryInRuns(json, opts, cs, ms, j);
      NothingPassedOver(json, opts, cs, ms, j);
    }
  }

  // ----- Acknowledged commands -----

  // A write that succeeds passes over what was assigned before and never applied.
  lemma WriteStep(json: Json, c: Config, m: Move, d: Config)
    requires Lawful(json) && Good(json, c) && Step(json, c, m, d) && Succeeds(json, c.w, m)
    ensures d.gs == c.gs.(mem := Passed(c.gs.mem, c.w.applied, c.w.log.nextSeq))
    ensures c.w.applied <= c.w.log.durable < c.w.log.nextSeq <= d.acked == d.w.applied == d.w.log.durable
    ensures c.told <= d.told && forall s :: s in d.told ==> s in c.told || c.w.log.nextSeq <= s
  {
    hide Lawful, Rest, Possible, Extended, After, OnwardFrom, Passed;
    ReportedRange(json, c.w, c.h, c.gs, c.acked, m);
    RestSeqs(json, c.w, c.h, c.gs);
    PossibleEnabled(json, c.w, m);
    CompleteIs(json, c.w, m);
  }

  lemma PassedStep(json: Json, c: Config, m: Move, d: Config)
    requires Lawful(json) && Good(json, c) && Step(json, c, m, d) && Succeeds(json, c.w, m)
    requires c.told !! c.gs.mem
    ensures d.told !! d.gs.mem <==> c.acked <= c.w.applied
    ensures c.told !! c.gs.lost ==> d.told !! d.gs.lost
  {
    hide Lawful, Rest, Step, Succeeds;
    WriteStep(json, c, m, d);
    RestLive(json, c.w, c.h, c.gs);
    if c.acked > c.w.applied {
      assert c.acked in d.told && c.acked in d.gs.mem;
    }
  }

  // The exact condition, for any write that succeeds at any point of any run:
  // nothing acknowledged is passed over if and only if memory had reached what was
  // acknowledged.
  lemma PassedIff(json: Json, opts: Options, cs: seq<Config>, ms: seq<Move>, i: nat)
    requires IsRunFrom(json, opts, cs, ms) && i < |ms| && Succeeds(json, cs[i].w, ms[i])
    requires cs[i].told !! cs[i].gs.mem
    ensures cs[i + 1].told !! cs[i + 1].gs.mem <==> cs[i].acked <= cs[i].w.applied
  {
    hide Lawful, Step, Good, Succeeds, Fresh;
    RunIsGood(json, opts, cs, ms, i);
    assert Step(json, cs[i], ms[i], cs[i + 1]);
    PassedStep(json, cs[i], ms[i], cs[i + 1]);
  }

  // No other move passes over anything acknowledged, while log and snapshot have
  // everything.
  lemma QuietStep(json: Json, c: Config, m: Move, d: Config)
    requires Lawful(json) && Good(json, c) && Step(json, c, m, d) && !Succeeds(json, c.w, m)
    requires Retained(json, c.w) && CarefulEvent(json, c.w, m.e)
    requires c.told !! c.gs.mem && c.told !! c.gs.lost
    ensures d.told !! d.gs.mem && d.told !! d.gs.lost
  {
    hide Lawful, Rest, Possible, Extended, Moved, GapsMoved, Succeeds, Retained, CarefulEvent, Crashed;
    LostWasPassed(json, c.w, c.h, c.gs, m);
    if m.CrashDuring? {
      StepRetains(json, c, m, d);
    } else {
      QuietGaps(json, c, m, d);
    }
  }

  lemma QuietGaps(json: Json, c: Config, m: Move, d: Config)
    requires Lawful(json) && Good(json, c) && Step(json, c, m, d) && !Succeeds(json, c.w, m) && m.Complete?
    requires Retained(json, c.w)
    ensures d.gs.mem <= c.gs.mem + c.gs.lost
  {
    hide Lawful, Possible, Extended, Acknowledged, Told, Rest, Fold, Based, Covers, Mutate, SetBatch, TakeSnapshot,
         Reload, Flush, InBackground, OnwardFrom, ReadBack, GapsFrom, Allowed;
    PossibleEnabled(json, c.w, m);
    CompleteIs(json, c.w, m);
    var kept := SomeKept(m.e);
    EventRests(json, c.w, c.h, c.gs, m.e, kept);
    match m.e {
      case Mutation(_, _, _, _) => SameGaps(c, d);
      case Batch(pairs, ios, sync) =>
        if pairs == [] {
          EmptyBatch(json, c.w, ios, sync);
        }
        SameGaps(c, d);
      case Reloading(io) =>
        ReloadLog(json, c.w, io);
        RestSeqs(json, d.w, (c.h + Issued(json, m.e))[..d.w.log.nextSeq - 1], d.gs);
        CoveredSkips(c.w.log, GapsLoaded(json, c.w, c.gs).mem, Based(json, c.w), d.w.applied);
      case _ =>
    }
  }

  lemma SameGaps(c: Config, d: Config)
    requires d.w.applied == c.w.applied
    ensures GapsFrom(c.gs, c.w, c.w.log.nextSeq, d.w) == c.gs
  {
  }

  // At no point up to i does memory lack anything that was acknowledged although
  // it has something later.
  ghost predicate NonePassed(cs: seq<Config>, i: nat)
    requires i < |cs|
  {
    forall j :: 0 <= j <= i ==> cs[j].told !! cs[j].gs.mem
  }

  // No write succeeded with memory behind what had been acknowledged.
  ghost predicate NeverBehind(json: Json, cs: seq<Config>, ms: seq<Move>, i: nat)
    requires |cs| == |ms| + 1 && i <= |ms|
  {
    forall j :: 0 <= j < i && Succeeds(json, cs[j].w, ms[j]) ==> cs[j].acked <= cs[j].w.applied
  }

  // The exact condition for whole runs, and no snapshot lacks any of it either.
  lemma {:induction false} NeverPassedIff(json: Json, opts: Options, cs: seq<Config>, ms: seq<Move>, i: nat)
    requires IsRunFrom(json, opts, cs, ms) && i < |cs| && Careful(json, cs, ms, i)
    ensures NonePassed(cs, i) <==> NeverBehind(json, cs, ms, i)
    ensures NonePassed(cs, i) ==> cs[i].told !! cs[i].gs.lost
  {
    hide Lawful, Step, Good, Succeeds, Retained, CarefulEvent, Fresh;
    if i > 0 {
      var c, m, d := cs[i - 1], ms[i - 1], cs[i];
      NeverPassedIff(json, opts, cs, ms, i - 1);
      RunIsGood(json, opts, cs, ms, i - 1);
      CarefulIsRetained(json, opts, cs, ms, i - 1);
      assert Step(json, c, m, d) && CarefulEvent(json, c.w, m.e);
      assert NonePassed(cs, i) <==> NonePassed(cs, i - 1) && d.told !! d.gs.mem;
      assert NeverBehind(json, cs, ms, i)
             <==> NeverBehind(json, cs, ms, i - 1) && (Succeeds(json, c.w, m) ==> c.acked <= c.w.applied);
      if NonePassed(cs, i - 1) {
        if Succeeds(json, c.w, m) {
          PassedStep(json, c, m, d);
        } else {
          QuietStep(json, c, m, d);
        }
      }
    }
  }

  // ----- Failed Reloads -----

  // A Reload that returned an error.
  ghost predicate FailedReload(json: Json, w: World, m: Move) {
    Usable(w) && m.Complete? && m.e.Reloading? && Reload(json, w, m.e.io).reply.Failed?
  }

  // What a failed Reload left behind still stands: no Reload that succeeded, no
  // restart and no write that succeeded came after it.
  ghost predicate Stale(json: Json, cs: seq<Config>, ms: seq<Move>, i: nat)
    requires |cs| == |ms| + 1 && i <= |ms|
    decreases i
  {
    && i > 0
    && (FailedReload(json, cs[i - 1].w, ms[i - 1])
        || (Stale(json, cs, ms, i - 1) && !ms[i - 1].CrashDuring? && !ms[i - 1].e.Reloading?
            && !Succeeds(json, cs[i - 1].w, ms[i - 1])))
  }

  // Only that leaves memory behind what was acknowledged, or behind the snapshot.
  lemma {:induction false} BehindIsStale(json: Json, opts: Options, cs: seq<Config>, ms: seq<Move>, i: nat)
    requires IsRunFrom(json, opts, cs, ms) && i < |cs| && Careful(json, cs, ms, i)
    ensures cs[i].acked > cs[i].w.applied ==> Stale(json, cs, ms, i)
    ensures Based(json, cs[i].w) > cs[i].w.applied ==> Stale(json, cs, ms, i)
  {
    hide Lawful, Step, Good, Succeeds, Retained, CarefulEvent, Fresh, FailedReload, Based;
    assert i == 0 ==> Based(json, cs[0].w) == 0 by { FreshBased(json, opts); }
    if i > 0 {
      var c, m, d := cs[i - 1], ms[i - 1], cs[i];
      BehindIsStale(json, opts, cs, ms, i - 1);
      RunIsGood(json, opts, cs, ms, i - 1);
      RunIsGood(json, opts, cs, ms, i);
      CarefulIsRetained(json, opts, cs, ms, i - 1);
      assert Step(json, c, m, d) && CarefulEvent(json, c.w, m.e);
      if !Stale(json, cs, ms, i) {
        CatchesUp(json, c, m, d);
      }
    }
  }

  lemma CatchesUp(json: Json, c: Config, m: Move, d: Config)
    requires Lawful(json) && Good(json, c) && Good(json, d) && Step(json, c, m, d)
    requires Retained(json, c.w) && CarefulEvent(json, c.w, m.e) && !FailedReload(json, c.w, m)
    requires (c.acked <= c.w.applied && Based(json, c.w) <= c.w.applied)
             || m.CrashDuring? || m.e.Reloading? || Succeeds(json, c.w, m)
    ensures d.acked <= d.w.applied && Based(json, d.w) <= d.w.applied
  {
    hide Lawful, Rest, Possible, Extended, Moved, GapsMoved, Succeeds, Retained, CarefulEvent, Crashed, Told, Based;
    RestSeqs(json, d.w, d.h, d.gs);
    RestBased(json, d.w, d.h, d.gs);
    if Succeeds(json, c.w, m) {
      WriteStep(json, c, m, d);
    } else if m.CrashDuring? {
      StepRetains(json, c, m, d);
    } else {
      EventCatchesUp(json, c, m, d);
    }
  }

  lemma EventCatchesUp(json: Json, c: Config, m: Move, d: Config)
    requires Lawful(json) && Good(json, c) && Step(json, c, m, d) && m.Complete?
    requires Retained(json, c.w) && !FailedReload(json, c.w, m)
    ensures m.e.Reloading? ==> d.w.applied == d.w.log.nextSeq - 1
    ensures !m.e.Reloading? ==> c.w.applied <= d.w.applied
    ensures Based(json, d.w) <= Based(json, c.w) || Based(json, d.w) == c.w.applied
  {
    hide Lawful, Extended, Acknowledged, Told, Rest, Retained, Mutate, SetBatch, TakeSnapshot, InBackground,
         OnwardFrom, GapsMoved, Reload, Allowed;
    PossibleEnabled(json, c.w, m);
    CompleteIs(json, c.w, m);
    var kept := SomeKept(m.e);
    EventRests(json, c.w, c.h, c.gs, m.e, kept);
    BasedAt(json, c.w, m.e, d.w);
    if m.e.Reloading? {
      ReloadCatchesUp(json, c.w, c.h, c.gs, m.e.io) by { WorkingReload(json, c.w, m.e); }
    }
  }

  lemma BasedAt(json: Json, w: World, e: Event, x: World)
    requires SnapshotAt(json, w, e, x)
    ensures Based(json, x) == Based(json, w) || Based(json, x) == w.applied || Based(json, x) == 0
  {
    hide ReadSnapshot;
  }

  lemma FreshBased(json: Json, opts: Options)
    requires opts.Valid()
    ensures Based(json, Fresh(opts)) == 0
  {
    NewLog(opts);
  }

  lemma RestBased(json: Json, w: World, h: seq<seq<byte>>, gs: Gaps)
    requires Rest(json, w, h, gs)
    ensures Based(json, w) <= w.log.durable
  {
    hide Inv, FoldWithout, ReadSnapshot;
  }

  lemma WorkingReload(json: Json, w: World, e: Event)
    requires Enabled(json, w, e) && e.Reloading?
    ensures RollbackWorks(e.io.flush)
  {
  }

  lemma ReloadCatchesUp(json: Json, w: World, h: seq<seq<byte>>, gs: Gaps, io: ReloadIO)
    requires Rest(json, w, h, gs) && Retained(json, w) && RollbackWorks(io.flush)
    requires Usable(w) && !Reload(json, w, io).reply.Failed?
    ensures Reload(json, w, io).world.applied == Reload(json, w, io).world.log.nextSeq - 1
  {
    hide Rest, Sound, Usable, Covers, Reload, ReplayFrom, Flush, Based, FoldWithout, GapsReplayed, Exhausted;
    RestSound(json, w, h, gs);
    ReloadFlushed(json, w, io);
    ReloadRebuilds(json, w, h, gs, io);
  }

  lemma ReloadFlushed(json: Json, w: World, io: ReloadIO)
    requires w.log.segs != [] && !Reload(json, w, io).reply.Failed?
    ensures !io.readErr && Flush(w.log, io.flush).ok
  {
    hide ReplayFrom, Flush, LoadSnapshot;
  }

  lemma RestSound(json: Json, w: World, h: seq<seq<byte>>, gs: Gaps)
    requires Rest(json, w, h, gs)
    ensures Sound(json, w, h, gs) && w.log.segs != []
  {
    hide Sound;
  }

  // So a snapshot taken while no failed Reload stands is a careful one.
  lemma SnapshotIsCareful(json: Json, opts: Options, cs: seq<Config>, ms: seq<Move>, i: nat)
    requires IsRunFrom(json, opts, cs, ms) && i < |cs| && Careful(json, cs, ms, i) && !Stale(json, cs, ms, i)
    ensures Covers(cs[i].w.log, cs[i].w.applied + 1)
  {
    hide Lawful, Step, CarefulEvent, Fresh, Stale, Based;
    BehindIsStale(json, opts, cs, ms, i);
    CarefulIsRetained(json, opts, cs, ms, i);
  }

  // Unless a write succeeded while a failed Reload stood, nothing that was
  // acknowledged is ever passed over, by memory or by a snapshot: other writes may
  // have been lost, acknowledged ones are not.
  lemma AcknowledgedIsNeverPassed(json: Json, opts: Options, cs: seq<Config>, ms: seq<Move>, i: nat)
    requires IsRunFrom(json, opts, cs, ms) && i < |cs| && Careful(json, cs, ms, i)
    requires forall j :: 0 <= j < i && Succeeds(json, cs[j].w, ms[j]) ==> !Stale(json, cs, ms, j)
    ensures cs[i].told !! cs[i].gs.mem && cs[i].told !! cs[i].gs.lost
  {
    hide Lawful, Step, Succeeds, CarefulEvent, Fresh, FailedReload, Stale;
    forall j | 0 <= j < i && Succeeds(json, cs[j].w, ms[j])
      ensures cs[j].acked <= cs[j].w.applied
    {
      BehindIsStale(json, opts, cs, ms, j);
    }
    NeverPassedIff(json, opts, cs, ms, i);
  }
}
