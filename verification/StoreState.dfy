// The key/value store on top of the log (internal/store/store.go), as values.
// A world is the log handle, the memory of the store and the snapshot file.
module StoreState {
  import opened Bytes
  import opened LogState
  import opened LogSteps
  import opened LogReads
  import opened LogBackground
  import opened Snapshots

  datatype World = World(log: Log, kv: map<Key, Value>, applied: nat, snap: Option<seq<byte>>)

  datatype StoreError =
    | EmptyKey
    | AppendFailed(outcome: Outcome)
    | SyncFailed
    | BadCommand
    | LogUnreadable(why: ReadError)
    | SnapshotNotWritten
    | SnapshotUnreadable

  datatype Reply = Done(seqs: seq<nat>) | Failed(error: StoreError)

  datatype Result = Result(world: World, reply: Reply)

  // ----- Applying one command -----

  function ApplyCommand(kv: map<Key, Value>, c: Command): map<Key, Value> {
    match c
    case Set(key, value) => kv[key := value]
    case Delete(key) => kv - {key}
  }

  // Apply: sequences at or below `applied` are skipped.
  function Apply(json: Json, w: World, s: nat, payload: seq<byte>): (r: Result)
    ensures r.world.log == w.log && r.world.snap == w.snap
  {
    match DecodeCommand(json, payload)
    case None => Result(w, Failed(BadCommand))
    case Some(c) =>
      if s <= w.applied then Result(w, Done([]))
      else Result(w.(kv := ApplyCommand(w.kv, c), applied := s), Done([]))
  }

  // ----- Set and Delete -----

  function Mutate(json: Json, w: World, op: Op, key: Key, value: Value, io: AppendIO): Result
    requires w.log.segs != [] && w.log.opts.maxRecord >= 1
  {
    match EncodeCommand(json, op, key, value)
    case None => Result(w, Failed(EmptyKey))
    case Some(payload) =>
      var r := Append(w.log, payload, true, io);
      match r.outcome
      case Assigned(s) =>
        var a := Apply(json, w.(log := r.log), s, payload);
        if a.reply.Done? then Result(a.world, Done([s])) else a
      case why => Result(w.(log := r.log), Failed(AppendFailed(why)))
  }

  // ----- SetBatch -----

  datatype Pair = Pair(key: Key, value: Value)

  function EncodeAll(json: Json, pairs: seq<Pair>): (r: Option<seq<seq<byte>>>)
    ensures r.Some? ==> |r.value| == |pairs|
  {
    if pairs == [] then Some([])
    else
      match EncodeCommand(json, OpSet, pairs[0].key, pairs[0].value)
      case None => None
      case Some(p) =>
        match EncodeAll(json, pairs[1..])
        case None => None
        case Some(rest) => Some([p] + rest)
  }

  // SetBatch lets go of the log's mutex between its calls, so other goroutines
  // can work on the log before each append and before the sync.
  datatype BatchIO = BatchIO(before: seq<Background>, append: AppendIO)

  datatype SyncIO = SyncIO(before: seq<Background>, flush: FlushIO)

  // The appends of a batch, up to the first that fails.
  function AppendAll(v: Log, ps: seq<seq<byte>>, ios: seq<BatchIO>): (r: AppendResult)
    requires v.segs != [] && v.opts.maxRecord >= 1 && |ios| == |ps|
    ensures r.log.segs != [] && r.log.opts == v.opts
    decreases ps
  {
    if ps == [] then AppendResult(v, Assigned(v.nextSeq))
    else
      var r := Append(AllBackground(v, ios[0].before), ps[0], false, ios[0].append);
      if r.outcome.Assigned? then AppendAll(r.log, ps[1..], ios[1..]) else r
  }

  function ApplyAll(json: Json, w: World, s: nat, ps: seq<seq<byte>>): Result
    decreases ps
  {
    if ps == [] then Result(w, Done([]))
    else
      var a := Apply(json, w, s, ps[0]);
      if a.reply.Failed? then a else ApplyAll(json, a.world, s + 1, ps[1..])
  }

  // n consecutive sequences.
  function Numbers(first: nat, n: nat): (s: seq<nat>)
    ensures |s| == n && forall i :: 0 <= i < n ==> s[i] == first + i
  {
    seq(n, i requires 0 <= i < n => first + i)
  }

  function SetBatch(json: Json, w: World, pairs: seq<Pair>, ios: seq<BatchIO>, sync: SyncIO): Result
    requires w.log.segs != [] && w.log.opts.maxRecord >= 1 && |ios| == |pairs|
  {
    match EncodeAll(json, pairs)
    case None => Result(w, Failed(EmptyKey))
    case Some(ps) =>
      if ps == [] then Result(w, Done([]))
      else
        var first := w.log.nextSeq;
        var r := AppendAll(w.log, ps, ios);
        if !r.outcome.Assigned? then Result(w.(log := r.log), Failed(AppendFailed(r.outcome)))
        else
          var f := Flush(AllBackground(r.log, sync.before), sync.flush);
          if !f.ok then Result(w.(log := f.log), Failed(SyncFailed))
          else
            var a := ApplyAll(json, w.(log := f.log), first, ps);
            if a.reply.Done? then Result(a.world, Done(Numbers(first, |ps|))) else a
  }

  // ----- Snapshot, load, replay -----

  // What can happen to writeAtomic: creating, filling, syncing and closing the
  // temporary file, renaming it over snapshot.dat, syncing the directory.
  datatype AtomicIO = AtomicIO(
    createErr: bool, wrote: nat, writeErr: bool, syncErr: bool, closeErr: bool, renameErr: bool, dirErr: bool)

  // The temporary file is complete, on disk, and renamed.
  predicate Renamed(data: seq<byte>, io: AtomicIO) {
    && !io.createErr && !io.writeErr && io.wrote >= |data|
    && !io.syncErr && !io.closeErr && !io.renameErr
  }

  // snapshot.dat after writeAtomic: the old file until the rename, then the new.
  function AfterAtomic(was: Option<seq<byte>>, data: seq<byte>, io: AtomicIO): Option<seq<byte>> {
    if Renamed(data, io) then Some(data) else was
  }

  predicate AtomicOk(data: seq<byte>, io: AtomicIO) {
    Renamed(data, io) && !io.dirErr
  }

  // What can happen to writeSnapshot: the directory is made, the file written,
  // then read back and its time stamp looked up.
  datatype SnapshotIO = SnapshotIO(mkdirErr: bool, atomic: AtomicIO, backErr: bool)

  function AfterWriting(was: Option<seq<byte>>, data: seq<byte>, io: SnapshotIO): Option<seq<byte>> {
    if io.mkdirErr then was else AfterAtomic(was, data, io.atomic)
  }

  predicate WritingOk(data: seq<byte>, io: SnapshotIO) {
    !io.mkdirErr && AtomicOk(data, io.atomic) && !io.backErr
  }

  function SnapshotBytes(json: Json, w: World): seq<byte> {
    SnapshotFrame(json.renderBody(Body(w.applied, w.kv)))
  }

  // The new file is read back before success is reported.
  function TakeSnapshot(json: Json, w: World, sync: FlushIO, file: SnapshotIO): Result
    requires w.log.segs != []
  {
    var f := Flush(w.log, sync);
    if !f.ok then Result(w.(log := f.log), Failed(SyncFailed))
    else
      var data := SnapshotBytes(json, w);
      var r := w.(log := f.log, snap := AfterWriting(w.snap, data, file));
      if !WritingOk(data, file) then Result(r, Failed(SnapshotNotWritten))
      else match ReadSnapshot(json, data)
           case Invalid(_) => Result(r, Failed(SnapshotNotWritten))
           case Loaded(body) => Result(r, Done([body.applied]))
  }

  function Blank(w: World): World {
    w.(kv := map[], applied := 0)
  }

  // loadSnapshot, with the invalid file ignored as New and Reload do.
  function LoadSnapshot(json: Json, w: World): World {
    match w.snap
    case None => w
    case Some(data) =>
      match ReadSnapshot(json, data)
      case Invalid(_) => w
      case Loaded(body) => w.(kv := body.values, applied := body.applied)
  }

  // log.Replay(s.Apply) from sequence s on.
  function ReplayFrom(json: Json, w: World, s: nat): Result
    decreases w.log.durable + 1 - s
  {
    if s > w.log.durable then Result(w, Done([]))
    else if s !in w.log.index then ReplayFrom(json, w, s + 1)
    else
      match ReadIndexed(w.log, s)
      case ReadFailed(e) => Result(w, Failed(LogUnreadable(e)))
      case Payload(p) =>
        var a := Apply(json, w, s, p);
        if a.reply.Failed? then a else ReplayFrom(json, a.world, s + 1)
  }

  // readErr: snapshot.dat cannot be read, for a reason other than its absence.
  datatype ReloadIO = ReloadIO(readErr: bool, flush: FlushIO)

  function Reload(json: Json, w: World, io: ReloadIO): Result
    requires w.log.segs != []
  {
    if io.readErr then Result(Blank(w), Failed(SnapshotUnreadable))
    else
      var loaded := LoadSnapshot(json, Blank(w));
      var f := Flush(w.log, io.flush);
      if !f.ok then Result(loaded.(log := f.log), Failed(SyncFailed))
      else ReplayFrom(json, loaded.(log := f.log), 1)
  }

  // New: the store over an opened log and whatever snapshot file there is.
  function New(json: Json, log: Log, snap: Option<seq<byte>>, io: ReloadIO): Result
    requires log.segs != []
  {
    Reload(json, World(log, map[], 0, snap), io)
  }

  // ----- What the store means -----

  // The state after the first n commands of a history, those in `gaps` left out.
  function FoldWithout(json: Json, h: seq<seq<byte>>, gaps: set<nat>, n: nat): map<Key, Value>
    requires n <= |h|
  {
    if n == 0 then map[]
    else
      var before := FoldWithout(json, h, gaps, n - 1);
      if n in gaps then before
      else
        match DecodeCommand(json, h[n - 1])
        case None => before
        case Some(c) => ApplyCommand(before, c)
  }

  // The state after the first n commands, every one of them applied.
  function Fold(json: Json, h: seq<seq<byte>>, n: nat): map<Key, Value>
    requires n <= |h|
  {
    FoldWithout(json, h, {}, n)
  }

  function Between(a: nat, b: nat): (r: set<nat>)
    ensures forall s: nat :: s in r <==> a < s < b
  {
    if b <= a + 1 then {} else Between(a, b - 1) + {b - 1}
  }

  // Sequences that were passed over: records on the log whose commands a memory,
  // or the snapshot taken of one, does not have although it has later ones. An
  // append that fails after its sequence was assigned makes them, once a later
  // write succeeds.
  datatype Gaps = Gaps(mem: set<nat>, lost: set<nat>)

  ghost predicate Decodable(json: Json, h: seq<seq<byte>>) {
    forall i :: 0 <= i < |h| ==> DecodeCommand(json, h[i]).Some?
  }

  // A readable snapshot is a state the log confirmed, up to the commands passed
  // over.
  ghost predicate SnapshotOk(json: Json, w: World, h: seq<seq<byte>>, lost: set<nat>) {
    w.snap.Some? && ReadSnapshot(json, w.snap.value).Loaded? ==>
      var body := ReadSnapshot(json, w.snap.value).body;
      && body.applied <= w.log.durable && body.applied <= |h|
      && (forall s :: s in lost ==> 1 <= s <= body.applied)
      && body.values == FoldWithout(json, h, lost, body.applied)
  }

  // Memory is the fold of commands 1, ..., applied without those passed over,
  // and all of them are confirmed.
  ghost predicate Live(json: Json, w: World, h: seq<seq<byte>>, mem: set<nat>) {
    && w.applied <= w.log.durable && w.applied <= |h|
    && (forall s :: s in mem ==> 1 <= s <= w.applied)
    && w.kv == FoldWithout(json, h, mem, w.applied)
  }

  // What a restart depends on.
  ghost predicate OnDisk(json: Json, w: World, h: seq<seq<byte>>, lost: set<nat>) {
    InvAt(w.log, h) && Decodable(json, h) && SnapshotOk(json, w, h, lost)
  }

  // The store invariant at any moment; h may already hold payloads of the
  // running operation that have no sequence yet.
  ghost predicate Sound(json: Json, w: World, h: seq<seq<byte>>, gs: Gaps) {
    OnDisk(json, w, h, gs.lost) && Live(json, w, h, gs.mem)
  }

  // At rest: the history is exactly what has been assigned.
  ghost predicate Settled(json: Json, w: World, h: seq<seq<byte>>, gs: Gaps) {
    Sound(json, w, h, gs) && w.log.nextSeq == |h| + 1
  }
}
