/**
 The transfer protocol between the edge and the central side as one state machine. Every action is one
 file operation of src/ft_shadow_data_plane/edge/writer.py (publishing), edge/spool.py (`apply_acks`),
 edge/day_index.py (recording and sealing) or central/pull.py (ingest, day publication, ACK push), and
 they interleave freely. Either machine may crash between any two of its operations. What the mirror
 delivers to the central side is arbitrary; only what hashes to the manifest it came with is kept.
 */
module Transfer {
  import opened Base
  import opened Spool
  import opened AckApply

  datatype Publication = Publication(path: DataPath, content: Bytes)

  /** Where a `_seal` in progress stands; `must` names the chunks described when it began. */
  datatype Sealer =
    | Resting
    | ReadingReady(day: int, refs: Inventory, stems: set<Stem>, must: set<string>)
    | ReadingAcked(day: int, refs: Inventory, keys: set<AckedKey>, must: set<string>)
    | Writing(day: int, refs: Inventory, hadJournal: bool, must: set<string>)
    | CleaningJournal(day: int)
    | CleaningAcked(day: int)

  /** Where an `_ingest_chunk` in progress stands. */
  datatype Puller =
    | Waiting
    | Checked(manifest: Manifest, content: Bytes)
    | Stored(manifest: Manifest)
    | Recorded(manifest: Manifest)

  /** What a seal had to list, and whether the day's journal file was there. */
  datatype SealRecord = SealRecord(must: set<string>, hadJournal: bool)

  /** The central side: durable raw files and their manifests, ACKs waiting to be pushed, published days. */
  datatype Central = Central(
    raw: map<DataPath, Bytes>, rawManifests: map<Stem, Manifest>, staged: map<string, File<Ack>>,
    puller: Puller, days: map<int, seq<ChunkRef>>)

  /**
   `published`, `described` and `seals` are history: the data file of every chunk id that was ever
   finished, the chunk ids whose manifest ever reached `ready`, and per sealed day what had been
   described when its seal began. `owner` tells whose a file name is.
   */
  datatype System = System(
    edge: Edge, applier: Applier, sealer: Sealer, central: Central,
    published: map<string, Publication>, owner: map<AckedKey, string>, described: set<string>,
    seals: map<int, SealRecord>)

  datatype SealAction =
    | Begin(day: int)
    | Read(stem: Stem)
    | Skip(stem: Stem)
    | ReadAcked(key: AckedKey)
    | Advance

  datatype CentralAction =
    | Fetch(manifest: Manifest, content: Bytes)
    | Place
    | Describe
    | StageAck(at: int)
    | PublishDay(day: int, chunks: seq<ChunkRef>)
    | UnstageAck(name: string)
    | CrashCentral

  datatype Action =
    | PublishData(id: string, publication: Publication)
    | PublishManifest(id: string, createdAt: int)
    | RecordChunk(id: string)
    | ApplyStep(pick: string)
    | Seal(step: SealAction)
    | CrashEdge
    | AtCentral(act: CentralAction)
    | PushAck(name: string)
    | DamageAck(name: string)
    | DamageManifest(stem: Stem)
    | DamageTransaction(name: string)

  const EMPTY_EDGE := Edge(map[], map[], map[], map[], multiset{}, map[], map[], map[], {})

  const INITIAL := System(EMPTY_EDGE, Idle, Resting, Central(map[], map[], map[], Waiting, map[]), map[], map[], {}, map[])

  function KeyOf(stem: Stem): AckedKey {
    AckedKey(stem.day, stem.name)
  }

  function RefOf(id: string, p: Publication): ChunkRef {
    ChunkRef(id, p.path, Sha(p.content), |p.content|)
  }

  function ManifestOf(id: string, p: Publication, createdAt: int): Manifest {
    Manifest(RefOf(id, p), p.path.stem.day, createdAt)
  }

  function DayOf(p: Publication): int {
    p.path.stem.day
  }

  // ---------------------------------------------------------------- the central side

  /** `_verify_local` */
  predicate Verifies(content: Bytes, chunk: ChunkRef) {
    |content| == chunk.size && Sha(content) == chunk.sha
  }

  predicate AllHeld(raw: map<DataPath, Bytes>, chunks: seq<ChunkRef>) {
    forall chunk | chunk in chunks :: chunk.path in raw && Verifies(raw[chunk.path], chunk)
  }

  /** `_ingest_chunk` up to the verified copy; any exception ends it. */
  function FetchChunk(c: Central, m: Manifest, content: Bytes): Puller {
    if m.chunk.path in c.raw then (if Verifies(c.raw[m.chunk.path], m.chunk) then Stored(m) else Waiting)
    else if Verifies(content, m.chunk) then Checked(m, content) else Waiting
  }

  function DescribeChunk(c: Central, m: Manifest): Central {
    var stem := m.chunk.path.stem;
    if stem in c.rawManifests && c.rawManifests[stem] != m then c.(puller := Waiting)
    else c.(rawManifests := c.rawManifests[stem := m], puller := Recorded(m))
  }

  predicate CanAtCentral(c: Central, a: CentralAction) {
    match a
    case Fetch(_, _) => c.puller.Waiting?
    case Place => c.puller.Checked?
    case Describe => c.puller.Stored?
    case StageAck(_) => c.puller.Recorded?
    case _ => true
  }

  function DoAtCentral(c: Central, a: CentralAction): Central
    requires CanAtCentral(c, a)
  {
    match a
    case Fetch(m, content) => c.(puller := FetchChunk(c, m, content))
    case Place =>
      var m := c.puller.manifest;
      c.(raw := c.raw[m.chunk.path := c.puller.content], puller := Stored(m))
    case Describe => DescribeChunk(c, c.puller.manifest)
    case StageAck(at) =>
      var chunk := c.puller.manifest.chunk;
      c.(staged := c.staged[chunk.chunkId := Good(Ack(chunk.chunkId, chunk.sha, at))], puller := Waiting)
    case PublishDay(day, chunks) =>
      if day !in c.days && AllHeld(c.raw, chunks) then c.(days := c.days[day := chunks]) else c
    case UnstageAck(name) => c.(staged := c.staged - {name})
    case CrashCentral => c.(puller := Waiting)
  }

  // ---------------------------------------------------------------- sealing a day

  function Noted(refs: Inventory, chunk: ChunkRef): Inventory {
    refs[(chunk.chunkId, chunk.sha) := chunk]
  }

  function NotedAll(refs: Inventory, chunks: seq<ChunkRef>): Inventory
    decreases |chunks|
  {
    if chunks == [] then refs else Noted(NotedAll(refs, chunks[..|chunks| - 1]), chunks[|chunks| - 1])
  }

  function ReadyOf(e: Edge, day: int): set<Stem> {
    set stem | stem in e.manifests && stem.day == day
  }

  function AckedOf(e: Edge, day: int): set<AckedKey> {
    set key | key in e.acked && key.day == day
  }

  /** `_seal` up to the scan: a sealed day is only cleaned, a day without a journal has no chunks. */
  function BeginSeal(e: Edge, day: int, must: set<string>): Sealer {
    if day in e.sealed then CleaningJournal(day)
    else if day !in e.dayJournal then Writing(day, map[], false, must)
    else ReadingReady(day, NotedAll(map[], e.dayJournal[day]), ReadyOf(e, day), must)
  }

  predicate CanSeal(e: Edge, p: Sealer, a: SealAction) {
    match a
    case Begin(_) => p.Resting?
    case Read(stem) => p.ReadingReady? && stem in e.manifests && stem.day == p.day
    case Skip(stem) => p.ReadingReady? && stem in p.stems && stem !in e.manifests
    case ReadAcked(key) => p.ReadingAcked? && key in e.acked && key.day == p.day
    case Advance =>
      !p.Resting? && (p.ReadingReady? ==> p.stems == {}) && (p.ReadingAcked? ==> p.keys == {})
  }

  datatype SealPoint = SealPoint(edge: Edge, sealer: Sealer)

  /** The next phase of `_seal`, once the listing of this one is used up. */
  function AdvanceSeal(e: Edge, p: Sealer): SealPoint {
    match p
    case Resting => SealPoint(e, p)
    case ReadingReady(day, refs, _, must) => SealPoint(e, ReadingAcked(day, refs, AckedOf(e, day), must))
    case ReadingAcked(day, refs, _, must) => SealPoint(e, Writing(day, refs, true, must))
    case Writing(day, refs, _, _) => SealPoint(e.(sealed := e.sealed[day := refs]), CleaningJournal(day))
    case CleaningJournal(day) => SealPoint(e.(dayJournal := e.dayJournal - {day}), CleaningAcked(day))
    case CleaningAcked(day) => SealPoint(e.(acked := e.acked - AckedOf(e, day)), Resting)
  }

  /** One action of the seal; a manifest that does not decode raises and ends it. */
  function DoSeal(e: Edge, p: Sealer, a: SealAction, must: set<string>): SealPoint
    requires CanSeal(e, p, a)
  {
    match a
    case Begin(day) => SealPoint(e, BeginSeal(e, day, must))
    case Read(stem) =>
      SealPoint(e, match e.manifests[stem]
                   case Damaged => Resting
                   case Good(m) => ReadingReady(p.day, Noted(p.refs, m.chunk), p.stems - {stem}, p.must))
    case Skip(stem) => SealPoint(e, ReadingReady(p.day, p.refs, p.stems - {stem}, p.must))
    case ReadAcked(key) =>
      SealPoint(e, match e.acked[key]
                   case Damaged => Resting
                   case Good(m) => ReadingAcked(p.day, Noted(p.refs, m.chunk), p.keys - {key}, p.must))
    case Advance => AdvanceSeal(e, p)
  }

  // ---------------------------------------------------------------- the whole system

  /** The chunks of a day whose manifest has reached `ready`. */
  function DescribedOn(s: System, day: int): set<string> {
    set id | id in s.described && id in s.published && DayOf(s.published[id]) == day
  }

  /** `record`: a sealed day raises, any other day's journal gets one more line. */
  function JournalChunk(e: Edge, id: string, p: Publication): Edge {
    var day := DayOf(p);
    if day in e.sealed then e
    else
      var lines := if day in e.dayJournal then e.dayJournal[day] else [];
      e.(dayJournal := e.dayJournal[day := lines + [RefOf(id, p)]])
  }

  /** What the code, or the uniqueness of chunk ids and file names, requires of the action. */
  predicate Can(s: System, a: Action) {
    match a
    case PublishData(id, p) =>
      // chunk ids are never reused; a gap fact may be written again, with the same content
      if id in s.published then s.published[id] == p else KeyOf(p.path.stem) !in s.owner
    case PublishManifest(id, _) => id in s.published
    case RecordChunk(id) => id in s.described && id in s.published && s.sealer.Resting?
    case ApplyStep(_) => true
    case Seal(step) => CanSeal(s.edge, s.sealer, step)
    case CrashEdge => true
    case AtCentral(act) => CanAtCentral(s.central, act)
    case PushAck(name) => name in s.central.staged
    case DamageAck(name) => name in s.edge.acks
    case DamageManifest(stem) => stem in s.edge.manifests
    case DamageTransaction(name) => name in s.edge.applying
  }

  function PublishDataDone(s: System, id: string, p: Publication): System {
    s.(edge := s.edge.(data := s.edge.data[p.path := p.content]), published := s.published[id := p],
       owner := s.owner[KeyOf(p.path.stem) := id])
  }

  function PublishManifestDone(s: System, id: string, p: Publication, createdAt: int): System {
    s.(edge := s.edge.(manifests := s.edge.manifests[p.path.stem := Good(ManifestOf(id, p, createdAt))]),
       described := s.described + {id})
  }

  function SealDone(s: System, step: SealAction): System
    requires CanSeal(s.edge, s.sealer, step)
  {
    var must := if step.Begin? then DescribedOn(s, step.day) else {};
    var next := DoSeal(s.edge, s.sealer, step, must);
    s.(edge := next.edge, sealer := next.sealer, seals := SealsDone(s.seals, s.sealer, step))
  }

  function SealsDone(seals: map<int, SealRecord>, p: Sealer, step: SealAction): map<int, SealRecord> {
    if step.Advance? && p.Writing? then seals[p.day := SealRecord(p.must, p.hadJournal)] else seals
  }

  function ApplyDone(s: System, pick: string): System {
    var next := Step(s.edge, s.applier, pick);
    s.(edge := next.edge, applier := next.applier)
  }

  function Do(s: System, a: Action): System
    requires Can(s, a)
  {
    match a
    case PublishData(id, p) => PublishDataDone(s, id, p)
    case PublishManifest(id, createdAt) => PublishManifestDone(s, id, s.published[id], createdAt)
    case RecordChunk(id) => s.(edge := JournalChunk(s.edge, id, s.published[id]))
    case ApplyStep(pick) => ApplyDone(s, pick)
    case Seal(step) => SealDone(s, step)
    case CrashEdge => s.(applier := Idle, sealer := Resting)
    case AtCentral(act) => s.(central := DoAtCentral(s.central, act))
    case PushAck(name) => s.(edge := s.edge.(acks := s.edge.acks[name := s.central.staged[name]]))
    case DamageAck(name) => s.(edge := s.edge.(acks := s.edge.acks[name := Damaged]))
    case DamageManifest(stem) => s.(edge := s.edge.(manifests := s.edge.manifests[stem := Damaged]))
    case DamageTransaction(name) => s.(edge := s.edge.(applying := s.edge.applying[name := Damaged]))
  }

  /** Whether the actions are possible one after the other from `s`. */
  predicate Runs(s: System, actions: seq<Action>)
    decreases |actions|
  {
    actions == [] || (Can(s, actions[0]) && Runs(Do(s, actions[0]), actions[1..]))
  }

  function After(s: System, actions: seq<Action>): System
    requires Runs(s, actions)
    decreases |actions|
  {
    if actions == [] then s else After(Do(s, actions[0]), actions[1..])
  }
}
