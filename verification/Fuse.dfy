/**
 Writing through FUSE: a handle uploads while it is written, a rename issued meanwhile is deferred, and Release
 settles both. Each Step is what happens under one lock or in one indivisible call; runs interleave them freely.
 */
module Fuse {
  import opened Wrappers
  import opened ByteStrings
  import opened PathMaps
  import opened Views

  const EIO := -5
  const EBADF := -9
  const EOPNOTSUPP := -95

  /** uploadPath is None until the first write. content is what went into the pipe so far. */
  datatype WriteHandle = WriteHandle(
    path: Path, uploadPath: Option<Path>, renameTo: Option<Path>, started: bool, expected: nat, content: Bytes)

  /** A handle that Release took out of the table, before and after its upload is stored. */
  datatype Releasing = Releasing(handle: WriteHandle, uploaded: bool)

  /** nodes and placeholders are what the proxy shows: folders, plaintext, and live memory placeholders. */
  datatype FsState = FsState(
    nextFH: nat, writers: map<nat, WriteHandle>, releasing: map<nat, Releasing>,
    nodes: FsTree, placeholders: set<Path>)

  datatype Step =
    | Open(path: Path)                          // newWriteHandle, for Create and for Open with write access
    | Write(fh: nat, buff: Bytes, ofst: int)
    | Rename(p: Path, q: Path, on: Option<nat>) // deferRename finds the handle on, or else the proxy renames
    | Detach(fh: nat)                           // removeWriteHandle, at the start of Release
    | Upload(fh: nat, fails: bool)              // the pipe is closed and UploadFile has returned
    | Finish(fh: nat, fails: bool)              // the rest of Release
    | Other(nodes: FsTree, placeholders: set<Path>)  // anything else that changes the proxy

  /** What a call returns; calls that are still running return nothing yet. */
  datatype Reply = Handle(fh: nat) | Code(n: int) | Pending

  predicate OccursAt(s: string, t: string, i: nat) {
    i + |t| <= |s| && s[i..i + |t|] == t
  }

  predicate Contains(s: string, t: string) {
    exists i: nat :: i <= |s| && OccursAt(s, t, i)
  }

  predicate IsPlaceholderCandidate(p: Path) {
    Contains(Base(p), ".~#")
  }

  /** What deferRename looks for. */
  predicate IsWriting(h: WriteHandle, p: Path) {
    h.path == p || h.uploadPath == Some(p)
  }

  function Written(h: WriteHandle, buff: Bytes): WriteHandle {
    h.(started := true, uploadPath := if h.started then h.uploadPath else Some(h.path),
       expected := h.expected + |buff|, content := h.content + buff)
  }

  /** Proxy.UploadFile and Proxy.RenameFile as the file system shows them. A failing upload has removed the
      placeholder too. */
  function Stored(s: FsState, p: Path, data: Bytes, fails: bool): FsState {
    s.(nodes := if fails then s.nodes else StoreNode(s.nodes, p, data), placeholders := s.placeholders - {p})
  }

  function RenameInProxy(s: FsState, p: Path, q: Path): (FsState, Reply) {
    if p in s.nodes then (s.(nodes := RenameNode(s.nodes, p, q)), Code(0))
    else if p in s.placeholders then (s.(placeholders := s.placeholders + {q} - {p}), Code(0))
    else (s, Code(EIO))
  }

  function AfterWrite(s: FsState, fh: nat, buff: Bytes, ofst: int): (FsState, Reply) {
    if fh !in s.writers then (s, Code(EBADF))
    else if ofst != s.writers[fh].expected then (s, Code(EOPNOTSUPP))
    else (s.(writers := s.writers[fh := Written(s.writers[fh], buff)]), Code(|buff|))
  }

  function AfterDetach(s: FsState, fh: nat): (FsState, Reply) {
    if fh !in s.writers then (s, Code(0))
    else (s.(writers := s.writers - {fh}, releasing := s.releasing[fh := Releasing(s.writers[fh], false)]), Pending)
  }

  function AfterUpload(s: FsState, fh: nat, fails: bool): (FsState, Reply)
    requires fh in s.releasing && s.releasing[fh].handle.uploadPath.Some?
  {
    var h := s.releasing[fh].handle;
    var s' := Stored(s, h.uploadPath.value, h.content, fails);
    if fails then (s'.(releasing := s.releasing - {fh}), Code(EIO))
    else (s'.(releasing := s.releasing[fh := Releasing(h, true)]), Pending)
  }

  function AfterFinish(s: FsState, fh: nat, fails: bool): (FsState, Reply)
    requires fh in s.releasing
  {
    var h, s' := s.releasing[fh].handle, s.(releasing := s.releasing - {fh});
    if !h.started then
      if IsPlaceholderCandidate(h.path) && h.expected == 0 then
        var p := if h.renameTo.Some? then h.renameTo.value else h.path;
        (s'.(placeholders := s.placeholders + {p}), Code(0))
      else (Stored(s', h.path, [], fails), Code(if fails then EIO else 0))
    else if h.renameTo.Some? && h.renameTo != h.uploadPath && h.uploadPath.Some? then
      if fails then (s', Code(EIO)) else RenameInProxy(s', h.uploadPath.value, h.renameTo.value)
    else (s', Code(0))
  }

  function Next(s: FsState, step: Step): (FsState, Reply)
    requires Enabled(s, step)
  {
    match step
    case Open(p) =>
      var h := WriteHandle(p, None, None, false, 0, []);
      (s.(nextFH := (s.nextFH + 1) % TWO_TO_64, writers := s.writers[s.nextFH := h]), Handle(s.nextFH))
    case Write(fh, buff, ofst) => AfterWrite(s, fh, buff, ofst)
    case Rename(p, q, on) =>
      if on.Some? then (s.(writers := s.writers[on.value := s.writers[on.value].(renameTo := Some(q))]), Code(0))
      else RenameInProxy(s, p, q)
    case Detach(fh) => AfterDetach(s, fh)
    case Upload(fh, fails) => AfterUpload(s, fh, fails)
    case Finish(fh, fails) => AfterFinish(s, fh, fails)
    case Other(nodes, placeholders) => (s.(nodes := nodes, placeholders := placeholders), Pending)
  }

  /** The order that Release's own code imposes on its steps; of several handles on a path, deferRename finds any. */
  predicate Enabled(s: FsState, step: Step) {
    match step
    case Rename(p, _, Some(fh)) => fh in s.writers && IsWriting(s.writers[fh], p)
    case Rename(p, _, None) => forall fh :: fh in s.writers ==> !IsWriting(s.writers[fh], p)
    case Upload(fh, _) => fh in s.releasing && !s.releasing[fh].uploaded && s.releasing[fh].handle.uploadPath.Some?
    case Finish(fh, _) => fh in s.releasing && (s.releasing[fh].handle.started ==> s.releasing[fh].uploaded)
    case _ => true
  }

  /** The handle fh while it is live or its Release is running. */
  function InFlight(s: FsState, fh: nat): Option<WriteHandle> {
    if fh in s.writers then Some(s.writers[fh])
    else if fh in s.releasing then Some(s.releasing[fh].handle)
    else None
  }

  /** What a client saw of one handle: its path, the bytes accepted, and where the last acknowledged rename of its file
      took it. place is where its content stands once it is uploaded. */
  datatype Seen = Seen(path: Path, data: Bytes, target: Path, writes: nat, place: Option<Path>)

  datatype Log = Log(count: nat, seen: map<nat, Seen>)

  /** Where a rename of p to q takes what stands at k. */
  function Carried(p: Path, q: Path, k: Path): Path {
    if p <= k then q + k[|p|..] else k
  }

  /** An uploaded file that the proxy renames, itself or with a folder above it. */
  function CarriedSeen(w: Seen, p: Path, q: Path): Seen {
    if w.place.Some? && p <= w.place.value then
      w.(place := Some(Carried(p, q, w.place.value)), target := Carried(p, q, w.place.value))
    else w
  }

  function ObserveRename(log: Log, s: FsState, p: Path, q: Path, on: Option<nat>): Log {
    if on.Some? then
      if on.value in log.seen then log.(seen := log.seen[on.value := log.seen[on.value].(target := q)]) else log
    else if p in s.nodes then
      log.(seen := map fh | fh in log.seen :: CarriedSeen(log.seen[fh], p, q))
    else log
  }

  function Observe(log: Log, s: FsState, step: Step): Log
    requires Enabled(s, step)
  {
    match step
    case Open(p) => Log(log.count + 1, log.seen[s.nextFH := Seen(p, [], p, 0, None)])
    case Write(fh, buff, _) =>
      if fh in log.seen && Next(s, step).1.n >= 0 then
        var w := log.seen[fh];
        log.(seen := log.seen[fh := w.(data := w.data + buff, writes := w.writes + 1)])
      else log
    case Rename(p, q, on) => ObserveRename(log, s, p, q, on)
    case Upload(fh, fails) =>
      if fh in log.seen && !fails then log.(seen := log.seen[fh := log.seen[fh].(place := Some(log.seen[fh].path))])
      else log
    case _ => log
  }

  /** Fewer than 2^64 handles are opened in all. */
  predicate Counted(log: Log, step: Step) {
    step.Open? ==> log.count < TWO_TO_64 - 1
  }

  /** Uploads succeed, and renames are tried, only as the metadata store supports them. */
  ghost predicate Supported(s: FsState, step: Step)
    requires Enabled(s, step)
  {
    match step
    case Rename(p, q, None) => CanRename(s.nodes, p, q) || Absent(s.nodes, p)
    case Upload(fh, fails) => fails || Fits(s.nodes, false, s.releasing[fh].handle.uploadPath.value)
    case Finish(fh, fails) => fails || FinishFits(s, s.releasing[fh].handle)
    case _ => true
  }

  ghost predicate FinishFits(s: FsState, h: WriteHandle) {
    if !h.started then IsPlaceholderCandidate(h.path) || Fits(s.nodes, false, h.path)
    else h.renameTo.Some? && h.renameTo != Some(h.path) ==>
      CanRename(s.nodes, h.path, h.renameTo.value) || Absent(s.nodes, h.path)
  }

  /** Where a step puts something, and where the steps of a handle take something away. */
  function Touched(s: FsState, step: Step): set<Path>
    requires Enabled(s, step)
  {
    match step
    case Rename(_, q, None) => {q}
    case Upload(fh, fails) => if fails then {} else {s.releasing[fh].handle.path}
    case Finish(fh, fails) =>
      var h := s.releasing[fh].handle;
      if fails && (h.started || !IsPlaceholderCandidate(h.path)) then {} else {h.path, Deferred(h)}
    case _ => {}
  }

  /** The path k is not at, above or below where a handle writes, and not at or above its content. */
  ghost predicate Beside(h: WriteHandle, w: Seen, k: Path) {
    Apart(k, h.path) && (w.place.Some? ==> !(k <= w.place.value))
  }

  /** The step leaves the file of handle me alone: me is opened where nothing is, and what others put or take away lies
      beside the path and the content of me. Renames of any path, at any time, and of folders above it, are not
      restricted otherwise; nor is what other handles do to one another. */
  ghost predicate Spares(s: FsState, log: Log, step: Step, me: nat)
    requires Enabled(s, step)
  {
    match step
    case Open(p) => s.nextFH == me ==> p !in s.nodes && p !in s.placeholders
    case Upload(fh, _) => fh != me ==> NothingTouched(s, log, step, me)
    case Finish(fh, _) => fh != me ==> NothingTouched(s, log, step, me)
    case Rename(_, _, None) => NothingTouched(s, log, step, me)
    case Other(nodes, placeholders) =>
      InFlight(s, me).Some? && me in log.seen ==>
        LeftAlone(InFlight(s, me).value, log.seen[me], s.nodes, nodes, placeholders)
    case _ => true
  }

  ghost predicate NothingTouched(s: FsState, log: Log, step: Step, me: nat)
    requires Enabled(s, step)
  {
    InFlight(s, me).Some? && me in log.seen ==>
      forall k :: k in Touched(s, step) ==> Beside(InFlight(s, me).value, log.seen[me], k)
  }

  /** A call that changes the proxy otherwise. */
  ghost predicate LeftAlone(h: WriteHandle, w: Seen, before: FsTree, nodes: FsTree, placeholders: set<Path>) {
    && Look(nodes, h.path) == Look(before, h.path) && h.path !in placeholders
    && (w.place.Some? ==> Look(nodes, w.place.value) == Look(before, w.place.value))
  }

  /** Where the deferred rename, if any, is to take the file. */
  function Deferred(h: WriteHandle): Path {
    if h.renameTo.Some? then h.renameTo.value else h.path
  }

  function FileAt(n: FsTree, p: Path): Option<Bytes> {
    if p in n && n[p].Plain? then Some(n[p].data) else None
  }

  predicate IsUploaded(s: FsState, fh: nat) {
    fh in s.releasing && s.releasing[fh].uploaded
  }

  /** What holds of every handle: it is in one table only, and the log has its path and its accepted bytes. */
  ghost predicate Known(s: FsState, log: Log, fh: nat) {
    InFlight(s, fh).Some? ==>
      fh in log.seen && !(fh in s.writers && fh in s.releasing) && SeenRight(InFlight(s, fh).value, log.seen[fh])
  }

  ghost predicate Sound(s: FsState, log: Log) {
    && s.nextFH == (log.count + 1) % TWO_TO_64 && log.count < TWO_TO_64
    && (forall fh :: fh in log.seen ==> 0 < fh <= log.count)
    && (forall fh: nat {:trigger Known(s, log, fh)} :: Known(s, log, fh))
  }

  /** What holds of a handle whose file is left alone. */
  ghost predicate HandleOk(s: FsState, log: Log, fh: nat) {
    InFlight(s, fh).Some? && fh in log.seen ==>
      HandleRight(s.nodes, s.placeholders, InFlight(s, fh).value, log.seen[fh], IsUploaded(s, fh))
  }

  /** Before its upload nothing stands at a handle's path; afterwards the content stands at its place, which is the path
      until the proxy renames it. */
  ghost predicate HandleRight(nodes: FsTree, placeholders: set<Path>, h: WriteHandle, w: Seen, uploaded: bool) {
    && h.path !in placeholders && (w.place.Some? <==> uploaded)
    && (w.place != Some(h.path) ==> h.path !in nodes)
    && if w.place.None? then w.target == Deferred(h)
       else
         && h.started && FileAt(nodes, w.place.value) == Some(h.content)
         && w.target == if w.place.value == h.path then Deferred(h) else w.place.value
  }

  ghost predicate SeenRight(h: WriteHandle, w: Seen) {
    && w.path == h.path && w.data == h.content && (w.writes > 0 <==> h.started)
    && h.uploadPath == (if h.started then Some(h.path) else None)
    && h.expected == |h.content| && (!h.started ==> h.content == [])
  }

  const INIT := FsState(1, map[], map[], map[[] := Folder], {})

  const NOTHING_SEEN := Log(0, map[])

  lemma OpenStaysSound(s: FsState, log: Log, step: Step)
    requires Sound(s, log) && step.Open? && Counted(log, step)
    ensures Sound(Next(s, step).0, Observe(log, s, step))
    ensures var fh := Next(s, step).1.fh;
            fh != 0 && fh !in log.seen && InFlight(s, fh).None?
  {
    var s', log' := Next(s, step).0, Observe(log, s, step);
    assert Known(s, log, s.nextFH);
    forall fh: nat
      ensures Known(s', log', fh)
    {
      assert Known(s, log, fh);
    }
  }

  lemma StepKnown(s: FsState, log: Log, step: Step, fh: nat)
    requires Sound(s, log) && Enabled(s, step) && !step.Open?
    ensures Known(Next(s, step).0, Observe(log, s, step), fh)
  {
    assert Known(s, log, fh);
  }

  lemma StepStaysSound(s: FsState, log: Log, step: Step)
    requires Sound(s, log) && Enabled(s, step) && Counted(log, step)
    ensures Sound(Next(s, step).0, Observe(log, s, step))
  {
    if step.Open? {
      OpenStaysSound(s, log, step);
    } else {
      forall fh: nat
        ensures Known(Next(s, step).0, Observe(log, s, step), fh)
      {
        StepKnown(s, log, step, fh);
      }
    }
  }

  /** A rename in the proxy leaves alone what lies apart from its target and not below its source. */
  lemma RenameElsewhere(n: FsTree, p: Path, q: Path, k: Path)
    requires Apart(q, k)
    ensures Look(RenameNode(n, p, q), k) == if p <= k then None else Look(n, k)
  {
    RenameNodeLook(n, p, q, k);
    assert k <= Parent(q) ==> k <= q;
  }

  lemma RenameCarries(n: FsTree, p: Path, q: Path, k: Path)
    requires p <= k && k in n
    ensures Look(RenameNode(n, p, q), Carried(p, q, k)) == Look(n, k) && q <= Carried(p, q, k)
  {
    var o := Carried(p, q, k);
    RenameNodeLook(n, p, q, o);
    assert p + o[|q|..] == k;
  }

  lemma CarriedRight(nodes: FsTree, placeholders: set<Path>, h: WriteHandle, w: Seen, uploaded: bool, p: Path, q: Path)
    requires HandleRight(nodes, placeholders, h, w, uploaded) && Beside(h, w, q)
    ensures HandleRight(RenameNode(nodes, p, q), placeholders, h, CarriedSeen(w, p, q), uploaded)
  {
    RenameElsewhere(nodes, p, q, h.path);
    if w.place.Some? {
      if p <= w.place.value {
        RenameCarries(nodes, p, q, w.place.value);
      } else {
        RenameNodeLook(nodes, p, q, w.place.value);
      }
    }
  }

  lemma StoreElsewhere(n: FsTree, p: Path, data: Bytes, k: Path)
    requires Apart(p, k) || k in n
    ensures k != p ==> Look(StoreNode(n, p, data), k) == Look(n, k)
  {
    StoreLook(n, p, data, k);
    assert k <= Parent(p) ==> k <= p;
  }

  /** Storing a file apart from a handle's path and not above its content leaves the handle as it was. */
  lemma StoreBeside(nodes: FsTree, placeholders: set<Path>, h: WriteHandle, w: Seen, uploaded: bool, p: Path,
                    data: Bytes)
    requires HandleRight(nodes, placeholders, h, w, uploaded) && Beside(h, w, p)
    ensures HandleRight(StoreNode(nodes, p, data), placeholders - {p}, h, w, uploaded)
    ensures HandleRight(nodes, placeholders - {p}, h, w, uploaded)
  {
    StoreElsewhere(nodes, p, data, h.path);
    if w.place.Some? {
      StoreElsewhere(nodes, p, data, w.place.value);
    }
  }

  /** So does a rename of something else to a place apart from the path and not above the content. */
  lemma RenameBeside(nodes: FsTree, placeholders: set<Path>, h: WriteHandle, w: Seen, uploaded: bool, p: Path, q: Path)
    requires HandleRight(nodes, placeholders, h, w, uploaded) && Beside(h, w, p) && Beside(h, w, q)
    ensures HandleRight(RenameNode(nodes, p, q), placeholders, h, w, uploaded)
    ensures HandleRight(nodes, placeholders + {q} - {p}, h, w, uploaded)
  {
    RenameElsewhere(nodes, p, q, h.path);
    if w.place.Some? {
      RenameNodeLook(nodes, p, q, w.place.value);
    }
  }

  lemma OwnUploadRight(nodes: FsTree, placeholders: set<Path>, h: WriteHandle, w: Seen)
    requires HandleRight(nodes, placeholders, h, w, false) && SeenRight(h, w) && h.started
    ensures
      HandleRight(StoreNode(nodes, h.path, h.content), placeholders - {h.path}, h, w.(place := Some(h.path)), true)
  {
    StoreLook(nodes, h.path, h.content, h.path);
  }

  lemma UploadKeepsHandle(s: FsState, log: Log, step: Step, me: nat)
    requires Sound(s, log) && step.Upload? && Enabled(s, step) && Spares(s, log, step, me) && HandleOk(s, log, me)
    ensures HandleOk(Next(s, step).0, Observe(log, s, step), me)
  {
    assert Known(s, log, step.fh) && Known(s, log, me);
    if InFlight(s, me).Some? {
      var h, g, w := s.releasing[step.fh].handle, InFlight(s, me).value, log.seen[me];
      if step.fh == me {
        OwnUploadRight(s.nodes, s.placeholders, h, w);
      } else if !step.fails {
        StoreBeside(s.nodes, s.placeholders, g, w, IsUploaded(s, me), h.path, h.content);
      }
    }
  }

  lemma FinishKeepsHandle(s: FsState, log: Log, step: Step, me: nat)
    requires Sound(s, log) && step.Finish? && Enabled(s, step) && Spares(s, log, step, me) && HandleOk(s, log, me)
    ensures HandleOk(Next(s, step).0, Observe(log, s, step), me)
  {
    assert Known(s, log, step.fh) && Known(s, log, me);
    var h, s' := s.releasing[step.fh].handle, Next(s, step).0;
    FinishResult(s, step.fh, step.fails);
    if step.fh == me {
      assert InFlight(s', me).None?;
    } else if InFlight(s, me).Some? {
      var g, w, up := InFlight(s, me).value, log.seen[me], IsUploaded(s, me);
      assert InFlight(s', me) == Some(g) && IsUploaded(s', me) == up;
      if Touched(s, step) == {} {
        assert HandleRight(s'.nodes, s'.placeholders, g, w, up);
      } else {
        assert h.path in Touched(s, step) && Deferred(h) in Touched(s, step);
        StoreBeside(s.nodes, s.placeholders, g, w, up, h.path, []);
        RenameBeside(s.nodes, s.placeholders, g, w, up, h.path, Deferred(h));
        assert HandleRight(s'.nodes, s'.placeholders, g, w, up);
      }
    }
  }

  /** The ways in which the rest of a Release can end. */
  lemma FinishResult(s: FsState, fh: nat, fails: bool)
    requires fh in s.releasing && s.releasing[fh].handle.uploadPath in {None, Some(s.releasing[fh].handle.path)}
    ensures var h, s' := s.releasing[fh].handle, AfterFinish(s, fh, fails).0;
            && s'.writers == s.writers && s'.releasing == s.releasing - {fh}
            && (s'.nodes == s.nodes
                || (s'.nodes == StoreNode(s.nodes, h.path, []) && s'.placeholders == s.placeholders - {h.path})
                || (s'.nodes == RenameNode(s.nodes, h.path, Deferred(h)) && s'.placeholders == s.placeholders))
            && (s'.nodes == s.nodes ==> s'.placeholders <= s.placeholders + {Deferred(h)})
            && (fails && (h.started || !IsPlaceholderCandidate(h.path)) ==>
                  s'.nodes == s.nodes && s'.placeholders <= s.placeholders)
  {
  }

  lemma RenameKeepsHandle(s: FsState, log: Log, step: Step, me: nat)
    requires Sound(s, log) && step.Rename? && Enabled(s, step) && Spares(s, log, step, me) && HandleOk(s, log, me)
    ensures HandleOk(Next(s, step).0, Observe(log, s, step), me)
  {
    assert Known(s, log, me);
    if InFlight(s, me).Some? && step.on.None? {
      var h, w := InFlight(s, me).value, log.seen[me];
      assert step.q in Touched(s, step) && Beside(h, w, step.q);
      if step.p in s.nodes {
        CarriedRight(s.nodes, s.placeholders, h, w, IsUploaded(s, me), step.p, step.q);
      }
    }
  }

  /** A step that spares a handle's file keeps it as it should be. */
  lemma StepKeepsHandle(s: FsState, log: Log, step: Step, me: nat)
    requires Sound(s, log) && Enabled(s, step) && Counted(log, step) && Spares(s, log, step, me)
    requires HandleOk(s, log, me)
    ensures HandleOk(Next(s, step).0, Observe(log, s, step), me)
  {
    assert Known(s, log, me);
    match step {
      case Rename(_, _, _) => RenameKeepsHandle(s, log, step, me);
      case Upload(_, _) => UploadKeepsHandle(s, log, step, me);
      case Finish(_, _) => FinishKeepsHandle(s, log, step, me);
      case _ =>
    }
  }

  /** A run of steps, each of which can happen. */
  ghost predicate AllEnabled(s: FsState, log: Log, steps: seq<Step>)
    decreases |steps|
  {
    steps == [] ||
      (Enabled(s, steps[0]) && Counted(log, steps[0])
       && AllEnabled(Next(s, steps[0]).0, Observe(log, s, steps[0]), steps[1..]))
  }

  ghost predicate AllSpare(s: FsState, log: Log, steps: seq<Step>, me: nat)
    requires AllEnabled(s, log, steps)
    decreases |steps|
  {
    steps == [] ||
      (Supported(s, steps[0]) && Spares(s, log, steps[0], me)
       && AllSpare(Next(s, steps[0]).0, Observe(log, s, steps[0]), steps[1..], me))
  }

  ghost function Run(s: FsState, log: Log, steps: seq<Step>): (FsState, Log)
    requires AllEnabled(s, log, steps)
    decreases |steps|
  {
    if steps == [] then (s, log) else Run(Next(s, steps[0]).0, Observe(log, s, steps[0]), steps[1..])
  }

  lemma {:induction false} RunStaysSound(s: FsState, log: Log, steps: seq<Step>)
    requires Sound(s, log) && AllEnabled(s, log, steps)
    ensures Sound(Run(s, log, steps).0, Run(s, log, steps).1)
    decreases |steps|
  {
    if steps != [] {
      StepStaysSound(s, log, steps[0]);
      RunStaysSound(Next(s, steps[0]).0, Observe(log, s, steps[0]), steps[1..]);
    }
  }

  lemma {:induction false} RunKeepsHandle(s: FsState, log: Log, steps: seq<Step>, me: nat)
    requires Sound(s, log) && AllEnabled(s, log, steps) && AllSpare(s, log, steps, me) && HandleOk(s, log, me)
    ensures HandleOk(Run(s, log, steps).0, Run(s, log, steps).1, me)
    decreases |steps|
  {
    if steps != [] {
      StepStaysSound(s, log, steps[0]);
      StepKeepsHandle(s, log, steps[0], me);
      RunKeepsHandle(Next(s, steps[0]).0, Observe(log, s, steps[0]), steps[1..], me);
    }
  }

  lemma InitSound()
    ensures Sound(INIT, NOTHING_SEEN)
  {
    forall fh: nat
      ensures Known(INIT, NOTHING_SEEN, fh)
    {
    }
  }

  /** The file is at its last acknowledged target with exactly the accepted bytes, and nothing is left at its path. */
  ghost predicate Delivered(n: FsTree, w: Seen) {
    FileAt(n, w.target) == Some(w.data) && (w.target != w.path ==> w.path !in n)
  }

  lemma FinishDelivers(s: FsState, log: Log, me: nat, fails: bool)
    requires Sound(s, log) && HandleOk(s, log, me) && Enabled(s, Finish(me, fails)) && Supported(s, Finish(me, fails))
    requires Next(s, Finish(me, fails)).1 == Code(0)
    ensures me in log.seen && InFlight(s, me).Some? && InFlight(s, me).value.expected == |log.seen[me].data|
    ensures var s', w := Next(s, Finish(me, fails)).0, log.seen[me];
            if w.writes == 0 && IsPlaceholderCandidate(w.path) then s'.nodes == s.nodes && w.target in s'.placeholders
            else Delivered(s'.nodes, w) <==> w.writes > 0 || w.target == w.path
  {
    assert Known(s, log, me);
    var h, w := s.releasing[me].handle, log.seen[me];
    if !h.started {
      StoreLook(s.nodes, h.path, [], h.path);
    } else if h.renameTo.Some? && h.renameTo != Some(h.path) {
      assert w.place == Some(h.path);
      RenameCarries(s.nodes, h.path, h.renameTo.value, h.path);
      assert Carried(h.path, h.renameTo.value, h.path) == h.renameTo.value;
      RenameElsewhere(s.nodes, h.path, h.renameTo.value, h.path);
    }
  }

  /** A step that Release of me can end with: its upload, when that fails, or what comes after it. */
  predicate EndsRelease(step: Step, me: nat) {
    (step.Upload? || step.Finish?) && step.fh == me
  }

  /** After any interleaving that leaves the file of handle me alone: whichever step Release of me returns 0 from, a
      file that was written is delivered to its last acknowledged target, and a file that was never written is
      delivered exactly when no rename took it elsewhere. A placeholder candidate that was never written leaves its
      placeholder at the target. */
  lemma ReleaseDelivers(steps: seq<Step>, me: nat, step: Step)
    requires AllEnabled(INIT, NOTHING_SEEN, steps) && AllSpare(INIT, NOTHING_SEEN, steps, me) && EndsRelease(step, me)
    requires var (s, log) := Run(INIT, NOTHING_SEEN, steps);
             Enabled(s, step) && Supported(s, step) && Next(s, step).1 == Code(0)
    ensures var (s, log) := Run(INIT, NOTHING_SEEN, steps);
            me in log.seen && InFlight(s, me).Some? && InFlight(s, me).value.expected == |log.seen[me].data|
    ensures var (s, log) := Run(INIT, NOTHING_SEEN, steps);
            var s', w := Next(s, step).0, log.seen[me];
            if w.writes == 0 && IsPlaceholderCandidate(w.path) then s'.nodes == s.nodes && w.target in s'.placeholders
            else Delivered(s'.nodes, w) <==> w.writes > 0 || w.target == w.path
  {
    var (s, log) := Run(INIT, NOTHING_SEEN, steps);
    InitSound();
    RunStaysSound(INIT, NOTHING_SEEN, steps);
    RunKeepsHandle(INIT, NOTHING_SEEN, steps, me);
    assert step == Finish(me, step.fails);
    FinishDelivers(s, log, me, step.fails);
  }

  /** An upload that fails ends its Release with an error: the handle is gone, and so is the file unless something else
      stands at its path. */
  lemma FailedUploadAnswers(s: FsState, me: nat)
    requires Enabled(s, Upload(me, true))
    ensures var (s', reply) := Next(s, Upload(me, true));
            reply == Code(-5) && me !in s'.releasing && s'.nodes == s.nodes
            && s'.placeholders == s.placeholders - {s.releasing[me].handle.uploadPath.value}
  {
  }

  /** A placeholder candidate has ".~#" somewhere in its last component. */
  lemma CandidateContains(p: Path)
    ensures IsPlaceholderCandidate(p) <==> exists a, b :: Base(p) == a + ".~#" + b
  {
    var s := Base(p);
    if IsPlaceholderCandidate(p) {
      var i: nat :| i <= |s| && OccursAt(s, ".~#", i);
      assert s == s[..i] + s[i..i + 3] + s[i + 3..];
    }
    if exists a, b :: s == a + ".~#" + b {
      var a, b :| s == a + ".~#" + b;
      assert s[|a|..|a| + 3] == ".~#";
      assert OccursAt(s, ".~#", |a|);
    }
  }

  /** A folder rename takes along a file that is uploaded already, and misses one that is still being written: that
      one is going to be stored at its old path. */
  lemma FolderRenameTakesUploaded(s: FsState, log: Log, p: Path, q: Path, fh: nat)
    requires Sound(s, log) && HandleOk(s, log, fh) && fh in log.seen
    requires Enabled(s, Step.Rename(p, q, None)) && Spares(s, log, Step.Rename(p, q, None), fh) && p in s.nodes
    requires InFlight(s, fh).Some? && p <= InFlight(s, fh).value.path && p != InFlight(s, fh).value.path
    requires log.seen[fh].place in {None, Some(InFlight(s, fh).value.path)}
    ensures Next(s, Step.Rename(p, q, None)).1 == Code(0)
    ensures var step := Step.Rename(p, q, None);
            var n, w, w' := Next(s, step).0.nodes, log.seen[fh], Observe(log, s, step).seen[fh];
            if IsUploaded(s, fh) then
              w'.target == Carried(p, q, w.path) && FileAt(n, w'.target) == Some(w.data)
            else
              w'.target == w.target && w'.place == None && w.path !in n
  {
    assert Known(s, log, fh);
    RenameKeepsHandle(s, log, Step.Rename(p, q, None), fh);
    if IsUploaded(s, fh) {
      assert q <= Carried(p, q, log.seen[fh].path);
    }
  }

  // Two runs with concrete paths, one step after the other.

  const A: Path := ["a"]
  const B: Path := ["b"]

  function Fresh(p: Path): WriteHandle {
    WriteHandle(p, None, None, false, 0, [])
  }

  function Holding(p: Path, data: Bytes): WriteHandle {
    WriteHandle(p, Some(p), None, true, |data|, data)
  }

  /** The steps can happen one after the other from the start, and lead to this state. */
  ghost predicate Reaches(steps: seq<Step>, s: FsState, log: Log) {
    AllEnabled(INIT, NOTHING_SEEN, steps) && Run(INIT, NOTHING_SEEN, steps) == (s, log)
  }

  lemma {:induction false} RunFurther(s: FsState, log: Log, steps: seq<Step>, step: Step)
    requires AllEnabled(s, log, steps)
    requires Enabled(Run(s, log, steps).0, step) && Counted(Run(s, log, steps).1, step)
    ensures var (s', log') := Run(s, log, steps);
            && AllEnabled(s, log, steps + [step])
            && Run(s, log, steps + [step]) == (Next(s', step).0, Observe(log', s', step))
    decreases |steps|
  {
    if steps == [] {
      assert steps + [step] == [step] && [step][1..] == [];
    } else {
      RunFurther(Next(s, steps[0]).0, Observe(log, s, steps[0]), steps[1..], step);
      assert (steps + [step])[1..] == steps[1..] + [step];
    }
  }

  lemma OneStep(steps: seq<Step>, s: FsState, log: Log, step: Step, s': FsState, log': Log)
    requires Reaches(steps, s, log) && Enabled(s, step) && Counted(log, step)
    requires Next(s, step).0 == s' && Observe(log, s, step) == log'
    ensures Reaches(steps + [step], s', log')
  {
    RunFurther(INIT, NOTHING_SEEN, steps, step);
  }

  /** A rename acknowledged for a file that is never written does not take effect: the empty file is at the old path. */
  lemma UnwrittenStays()
    ensures var steps := [Step.Open(A), Step.Rename(A, B, Some(1)), Step.Detach(1)];
            && AllEnabled(INIT, NOTHING_SEEN, steps)
            && var (s, log) := Run(INIT, NOTHING_SEEN, steps);
               && Enabled(s, Finish(1, false)) && 1 in log.seen && log.seen[1].target == B
               && var (s', reply) := Next(s, Finish(1, false));
                  reply == Code(0) && FileAt(s'.nodes, A) == Some([]) && B !in s'.nodes
  {
    var deferred := Fresh(A).(renameTo := Some(B));
    var s1 := INIT.(nextFH := 2, writers := map[1 := Fresh(A)]);
    var s2 := s1.(writers := map[1 := deferred]);
    var s3 := s2.(writers := map[], releasing := map[1 := Releasing(deferred, false)]);
    var log1, log2 := Log(1, map[1 := Seen(A, [], A, 0, None)]), Log(1, map[1 := Seen(A, [], B, 0, None)]);
    var o, r, d := Step.Open(A), Step.Rename(A, B, Some(1)), Step.Detach(1);
    OneStep([], INIT, NOTHING_SEEN, o, s1, log1);
    assert s1.writers[1 := deferred] == s2.writers && log1.seen[1 := Seen(A, [], B, 0, None)] == log2.seen;
    OneStep([] + [o], s1, log1, r, s2, log2);
    assert s2.writers - {1} == s3.writers;
    OneStep([] + [o] + [r], s2, log2, d, s3, log2);
    assert [] + [o] + [r] + [d] == [o, r, d];
    assert !IsPlaceholderCandidate(A) && Parent(A) == [];
  }

  /** Two files wait for their Release, and the first is to be moved onto the second: both Releases return 0, and the
      first file has replaced the second. */
  lemma TargetTaken(s: FsState, i: nat, j: nat)
    requires i != j && i in s.releasing && j in s.releasing
    requires var g, h := s.releasing[i].handle, s.releasing[j].handle;
             && s.releasing[i].uploaded && s.releasing[j].uploaded && g.started && h.started
             && g.uploadPath == Some(g.path) && g.renameTo == Some(h.path) && h.renameTo == None
             && Apart(g.path, h.path)
             && FileAt(s.nodes, g.path) == Some(g.content)
    ensures var (s', first) := Next(s, Finish(i, false));
            && first == Code(0) && Enabled(s', Finish(j, false))
            && var (s'', second) := Next(s', Finish(j, false));
               second == Code(0) && FileAt(s''.nodes, s.releasing[j].handle.path) == Some(s.releasing[i].handle.content)
  {
    var g, h := s.releasing[i].handle, s.releasing[j].handle;
    RenameCarries(s.nodes, g.path, h.path, g.path);
    assert Carried(g.path, h.path, g.path) == h.path;
  }

  /** A file renamed onto one that is still being written: the rename is acknowledged, both Releases return 0, and what
      was written to the second file is gone. */
  lemma OverwrittenInFlight()
    ensures var steps := [Step.Open(A), Step.Write(1, [1], 0), Step.Open(B), Step.Write(2, [2], 0),
                          Step.Rename(A, B, Some(1)), Step.Detach(1), Step.Detach(2),
                          Step.Upload(2, false), Step.Upload(1, false)];
            && AllEnabled(INIT, NOTHING_SEEN, steps)
            && var (s, log) := Run(INIT, NOTHING_SEEN, steps);
               && Enabled(s, Finish(1, false)) && 2 in log.seen && log.seen[2].target == B && log.seen[2].data == [2]
               && var (s', first) := Next(s, Finish(1, false));
                  && first == Code(0) && Enabled(s', Finish(2, false))
                  && var (s'', second) := Next(s', Finish(2, false));
                     second == Code(0) && FileAt(s''.nodes, B) == Some([1])
  {
    var front := TwoWriters();
    var o1, w1, o2, w2 := Step.Open(A), Step.Write(1, [1], 0), Step.Open(B), Step.Write(2, [2], 0);
    var r, d1, d2 := Step.Rename(A, B, Some(1)), Step.Detach(1), Step.Detach(2);
    var u2, u1 := Step.Upload(2, false), Step.Upload(1, false);
    var g, h := Holding(A, [1]).(renameTo := Some(B)), Holding(B, [2]);
    var s5 := INIT.(nextFH := 3, writers := map[1 := g, 2 := h]);
    var log5 := Log(2, map[1 := Seen(A, [1], B, 1, None), 2 := Seen(B, [2], B, 1, None)]);
    var s6 := s5.(writers := map[2 := h], releasing := map[1 := Releasing(g, false)]);
    var s7 := s5.(writers := map[], releasing := map[1 := Releasing(g, false), 2 := Releasing(h, false)]);
    assert s5.writers - {1} == s6.writers && s6.writers - {2} == s7.writers;
    assert s6.releasing[2 := Releasing(h, false)] == s7.releasing;
    OneStep(front, s5, log5, d1, s6, log5);
    OneStep(front + [d1], s6, log5, d2, s7, log5);
    var s8, log8 := Next(s7, u2).0, Observe(log5, s7, u2);
    OneStep(front + [d1] + [d2], s7, log5, u2, s8, log8);
    var s9, log9 := Next(s8, u1).0, Observe(log8, s8, u1);
    OneStep(front + [d1] + [d2] + [u2], s8, log8, u1, s9, log9);
    assert front + [d1] + [d2] + [u2] + [u1] == [o1, w1, o2, w2, r, d1, d2, u2, u1];
    assert s9.releasing[1] == Releasing(g, true) && s9.releasing[2] == Releasing(h, true);
    StoreLook(s8.nodes, A, g.content, A);
    assert A[0] != B[0] && FileAt(s9.nodes, A) == Some(g.content);
    TargetTaken(s9, 1, 2);
  }

  lemma FirstWrite(p: Path, data: Bytes)
    ensures Written(Fresh(p), data) == Holding(p, data) && [] + data == data
  {
  }

  lemma TwoWriters() returns (steps: seq<Step>)
    ensures steps == [Step.Open(A), Step.Write(1, [1], 0), Step.Open(B), Step.Write(2, [2], 0),
                      Step.Rename(A, B, Some(1))]
    ensures var g, h := Holding(A, [1]).(renameTo := Some(B)), Holding(B, [2]);
            Reaches(steps, INIT.(nextFH := 3, writers := map[1 := g, 2 := h]),
                    Log(2, map[1 := Seen(A, [1], B, 1, None), 2 := Seen(B, [2], B, 1, None)]))
  {
    var o1, w1, o2, w2 := Step.Open(A), Step.Write(1, [1], 0), Step.Open(B), Step.Write(2, [2], 0);
    var r := Step.Rename(A, B, Some(1));
    FirstWrite(A, [1]);
    FirstWrite(B, [2]);
    var s1, log1 := Next(INIT, o1).0, Observe(NOTHING_SEEN, INIT, o1);
    OneStep([], INIT, NOTHING_SEEN, o1, s1, log1);
    var s2, log2 := Next(s1, w1).0, Observe(log1, s1, w1);
    OneStep([] + [o1], s1, log1, w1, s2, log2);
    assert s2.writers == map[1 := Holding(A, [1])] && log2 == Log(1, map[1 := Seen(A, [1], A, 1, None)]);
    var s3, log3 := Next(s2, o2).0, Observe(log2, s2, o2);
    OneStep([] + [o1] + [w1], s2, log2, o2, s3, log3);
    var s4, log4 := Next(s3, w2).0, Observe(log3, s3, w2);
    OneStep([] + [o1] + [w1] + [o2], s3, log3, w2, s4, log4);
    assert s4.writers == map[1 := Holding(A, [1]), 2 := Holding(B, [2])];
    assert log4 == Log(2, map[1 := Seen(A, [1], A, 1, None), 2 := Seen(B, [2], B, 1, None)]);
    var s5, log5 := Next(s4, r).0, Observe(log4, s4, r);
    OneStep([] + [o1] + [w1] + [o2] + [w2], s4, log4, r, s5, log5);
    assert s5.writers == map[1 := Holding(A, [1]).(renameTo := Some(B)), 2 := Holding(B, [2])];
    assert log5.seen == map[1 := Seen(A, [1], B, 1, None), 2 := Seen(B, [2], B, 1, None)];
    steps := [] + [o1] + [w1] + [o2] + [w2] + [r];
  }

  /** A handle id is never 0 and never one that was given out before. */
  lemma HandleIdsFresh(steps: seq<Step>, p: Path)
    requires AllEnabled(INIT, NOTHING_SEEN, steps)
    requires Counted(Run(INIT, NOTHING_SEEN, steps).1, Step.Open(p))
    ensures var (s, log) := Run(INIT, NOTHING_SEEN, steps);
            var fh := Next(s, Step.Open(p)).1.fh;
            fh != 0 && fh !in log.seen
  {
    var (s, log) := Run(INIT, NOTHING_SEEN, steps);
    InitSound();
    RunStaysSound(INIT, NOTHING_SEEN, steps);
    OpenStaysSound(s, log, Step.Open(p));
  }

  /** A write anywhere but at the end of what was accepted so far is refused and changes nothing. */
  lemma OnlySequentialWrites(s: FsState, log: Log, fh: nat, buff: Bytes, ofst: int)
    requires Sound(s, log) && fh in s.writers
    ensures var (s', reply) := Next(s, Step.Write(fh, buff, ofst));
            fh in log.seen &&
            if ofst == |log.seen[fh].data| then reply == Code(|buff|) else reply == Code(EOPNOTSUPP) && s' == s
  {
    assert Known(s, log, fh);
  }

  class ClearVaultFS {
    var nextFH: nat
    var writers: map<nat, WriteHandle>
    var releasing: map<nat, Releasing>
    var nodes: FsTree
    var placeholders: set<Path>

    ghost function State(): FsState
      reads this
    {
      FsState(nextFH, writers, releasing, nodes, placeholders)
    }

    constructor ()
      ensures State() == INIT
    {
      nextFH, writers, releasing, nodes, placeholders := 1, map[], map[], map[[] := Folder], {};
    }

    method NewWriteHandle(path: Path) returns (fh: nat)
      requires nextFH < TWO_TO_64
      modifies this`nextFH, this`writers
      ensures (State(), Handle(fh)) == Next(old(State()), Step.Open(path))
      ensures fh == old(nextFH) && writers == old(writers)[fh := WriteHandle(path, None, None, false, 0, [])]
    {
      fh := nextFH;
      nextFH := (nextFH + 1) % TWO_TO_64;
      writers := writers[fh := WriteHandle(path, None, None, false, 0, [])];
    }

    method WriteAt(fh: nat, buff: Bytes, ofst: int) returns (n: int)
      modifies this`writers
      ensures (State(), Code(n)) == Next(old(State()), Step.Write(fh, buff, ofst))
      // Without a handle, out of order, or else the bytes are appended.
      ensures fh !in old(writers) ==> n == -9 && writers == old(writers)
      ensures fh in old(writers) && ofst != old(writers)[fh].expected ==> n == -95 && writers == old(writers)
      ensures fh in old(writers) && ofst == old(writers)[fh].expected ==>
        var h := old(writers)[fh];
        && n == |buff| && fh in writers && writers == old(writers)[fh := writers[fh]] && writers[fh].started
        && writers[fh].content == h.content + buff && writers[fh].expected == h.expected + |buff|
        && writers[fh].path == h.path && writers[fh].renameTo == h.renameTo
    {
      if fh !in writers {
        return EBADF;
      }
      var h := writers[fh];
      if ofst != h.expected {
        return EOPNOTSUPP;
      }
      if !h.started {
        h := h.(started := true, uploadPath := Some(h.path));
      }
      h := h.(content := h.content + buff);
      h := h.(expected := h.expected + |buff|);
      writers := writers[fh := h];
      return |buff|;
    }

    /** Looks through the table, in any order, for a handle that writes p. */
    method DeferRename(p: Path, q: Path) returns (deferred: bool, ghost on: Option<nat>)
      modifies this`writers
      ensures deferred == on.Some? && Enabled(old(State()), Step.Rename(p, q, on))
      ensures deferred ==> (State(), Code(0)) == Next(old(State()), Step.Rename(p, q, on))
      ensures !deferred ==> State() == old(State())
    {
      var todo := writers.Keys;
      while todo != {}
        invariant todo <= writers.Keys && writers == old(writers)
        invariant forall fh :: fh in writers && fh !in todo ==> !IsWriting(writers[fh], p)
        decreases todo
      {
        var fh :| fh in todo;
        todo := todo - {fh};
        if writers[fh].path == p || writers[fh].uploadPath == Some(p) {
          writers := writers[fh := writers[fh].(renameTo := Some(q))];
          return true, Some(fh);
        }
      }
      return false, None;
    }

    method ProxyRename(p: Path, q: Path) returns (ok: bool)
      modifies this`nodes, this`placeholders
      ensures (State(), Code(if ok then 0 else EIO)) == RenameInProxy(old(State()), p, q)
    {
      if p in nodes {
        nodes := RenameNode(nodes, p, q);
        return true;
      }
      if p in placeholders {
        placeholders := placeholders + {q} - {p};
        return true;
      }
      return false;
    }

    method RenamePath(p: Path, q: Path) returns (n: int, ghost on: Option<nat>)
      modifies this`writers, this`nodes, this`placeholders
      ensures Enabled(old(State()), Step.Rename(p, q, on))
      ensures (State(), Code(n)) == Next(old(State()), Step.Rename(p, q, on))
      // Deferred on a handle that writes p; otherwise done at once, or refused when there is nothing at p.
      ensures (exists fh :: fh in old(writers) && IsWriting(old(writers)[fh], p)) ==>
        && n == 0 && on.Some? && on.value in old(writers) && IsWriting(old(writers)[on.value], p)
        && writers == old(writers)[on.value := old(writers)[on.value].(renameTo := Some(q))]
        && nodes == old(nodes) && placeholders == old(placeholders)
      ensures (forall fh :: fh in old(writers) ==> !IsWriting(old(writers)[fh], p)) ==>
        && writers == old(writers) && (n == 0 <==> p in old(nodes) || p in old(placeholders)) && (n != 0 ==> n == -5)
        && nodes == (if p in old(nodes) then RenameNode(old(nodes), p, q) else old(nodes))
        && placeholders == if p in old(nodes) || p !in old(placeholders) then old(placeholders)
                           else old(placeholders) + {q} - {p}
    {
      var deferred;
      deferred, on := DeferRename(p, q);
      if deferred {
        return 0, on;
      }
      var ok := ProxyRename(p, q);
      n := if ok then 0 else EIO;
    }

    /** Release with nothing else running in between: the three steps one after the other. */
    method Release(fh: nat, uploadFails: bool, finishFails: bool) returns (n: int)
      requires fh in writers ==> (writers[fh].started <==> writers[fh].uploadPath.Some?) && fh !in releasing
      modifies this
      ensures fh !in old(writers) ==> n == 0 && State() == old(State())
      ensures fh in old(writers) ==>
        var s1 := AfterDetach(old(State()), fh).0;
        if !old(writers)[fh].started then (State(), Code(n)) == AfterFinish(s1, fh, finishFails)
        else if uploadFails then (State(), Code(n)) == AfterUpload(s1, fh, true)
        else (State(), Code(n)) == AfterFinish(AfterUpload(s1, fh, false).0, fh, finishFails)
      // A written file is at its target when the answer is 0, and the answer is 0 only when nothing failed.
      ensures fh in old(writers) && old(writers)[fh].started ==>
        var h := old(writers)[fh];
        var moves := h.renameTo.Some? && h.renameTo != h.uploadPath;
        && (n == 0 <==> !uploadFails && !(moves && finishFails)) && (n != 0 ==> n == -5)
        && (n == 0 ==> FileAt(nodes, if moves then h.renameTo.value else h.uploadPath.value) == Some(h.content))
        && (uploadFails ==> nodes == old(nodes))
      // A file never written is empty at its path, or a placeholder at its target.
      ensures fh in old(writers) && !old(writers)[fh].started ==>
        var h := old(writers)[fh];
        if IsPlaceholderCandidate(h.path) && h.expected == 0 then
          n == 0 && nodes == old(nodes) && placeholders == old(placeholders) + {Deferred(h)}
        else if finishFails then n == -5 && nodes == old(nodes)
        else n == 0 && FileAt(nodes, h.path) == Some([])
    {
      if fh !in writers {
        return 0;
      }
      var h := writers[fh];
      writers := writers - {fh};
      releasing := releasing[fh := Releasing(h, false)];
      if h.started {
        placeholders := placeholders - {h.uploadPath.value};
        if uploadFails {
          releasing := releasing - {fh};
          return EIO;
        }
        nodes := StoreNode(nodes, h.uploadPath.value, h.content);
        releasing := releasing[fh := Releasing(h, true)];
      }
      releasing := releasing - {fh};
      if !h.started {
        var target := if h.renameTo.Some? then h.renameTo.value else h.path;
        if h.expected == 0 && IsPlaceholderCandidate(h.path) {
          placeholders := placeholders + {target};
          return 0;
        }
        placeholders := placeholders - {h.path};
        if finishFails {
          return EIO;
        }
        nodes := StoreNode(nodes, h.path, []);
        return 0;
      }
      if h.renameTo.Some? && h.renameTo != h.uploadPath {
        if finishFails {
          return EIO;
        }
        RenameCarries(nodes, h.uploadPath.value, h.renameTo.value, h.uploadPath.value);
        assert Carried(h.uploadPath.value, h.renameTo.value, h.uploadPath.value) == h.renameTo.value;
        var ok := ProxyRename(h.uploadPath.value, h.renameTo.value);
        return if ok then 0 else EIO;
      }
      return 0;
    }
  }
}
