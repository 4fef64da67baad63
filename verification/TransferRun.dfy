/**
 The central puller and the edge's day index as objects: uninterrupted operations, proved to be what
 the single file operations of `Transfer` add up to.
 */
module TransferRun {
  import opened Base
  import opened Spool
  import opened Transfer
  import opened TransferHonest
  import opened TransferSeal

  // ---------------------------------------------------------------- central/pull.py

  /** `_ingest_chunk`, all of its steps in a row; it ends early wherever the code raises. */
  function Ingested(c: Central, m: Manifest, content: Bytes, at: int): Central
    requires c.puller.Waiting?
  {
    var fetched := DoAtCentral(c, Fetch(m, content));
    if fetched.puller.Waiting? then fetched
    else
      var stored := if fetched.puller.Checked? then DoAtCentral(fetched, Place) else fetched;
      var described := DoAtCentral(stored, Describe);
      if described.puller.Waiting? then described else DoAtCentral(described, StageAck(at))
  }

  /** The copy at hand has the manifest's size and digest, and no other manifest is stored at its place. */
  predicate Acceptable(c: Central, m: Manifest, content: Bytes) {
    && Verifies(if m.chunk.path in c.raw then c.raw[m.chunk.path] else content, m.chunk)
    && (m.chunk.path.stem in c.rawManifests ==> c.rawManifests[m.chunk.path.stem] == m)
  }

  /** What acceptance leaves behind: the verified file and its manifest in place, and the ACK staged. */
  predicate Acknowledged(c: Central, after: Central, m: Manifest, at: int) {
    && after.staged == c.staged[m.chunk.chunkId := Good(Ack(m.chunk.chunkId, m.chunk.sha, at))]
    && m.chunk.path in after.raw && Verifies(after.raw[m.chunk.path], m.chunk)
    && after.rawManifests == c.rawManifests[m.chunk.path.stem := m]
    && after.raw - {m.chunk.path} == c.raw - {m.chunk.path}
    && (m.chunk.path in c.raw ==> after.raw == c.raw)
  }

  /** What a raised error leaves behind: no ACK and no manifest, at most the verified file. */
  predicate Declined(c: Central, after: Central, m: Manifest) {
    && after.staged == c.staged && after.rawManifests == c.rawManifests
    && after.raw - {m.chunk.path} == c.raw - {m.chunk.path}
    && (m.chunk.path in c.raw ==> after.raw == c.raw)
    && (m.chunk.path in after.raw && m.chunk.path !in c.raw ==> Verifies(after.raw[m.chunk.path], m.chunk))
  }

  lemma AcceptableIsAcknowledged(c: Central, m: Manifest, content: Bytes, at: int)
    requires c.puller.Waiting? && Acceptable(c, m, content)
    ensures Acknowledged(c, Ingested(c, m, content, at), m, at)
  {
    var path := m.chunk.path;
    var copy := if path in c.raw then c.raw[path] else content;
    hide Verifies;
    var stored := c.(raw := c.raw[path := copy], puller := Stored(m));
    if path in c.raw {
      assert c.raw[path := copy] == c.raw;
    }
    var described := stored.(rawManifests := c.rawManifests[path.stem := m], puller := Recorded(m));
    assert DescribeChunk(stored, m) == described;
    assert Ingested(c, m, content, at) == DoAtCentral(described, StageAck(at));
    hide Ingested, Acceptable, DescribeChunk;
  }

  lemma UnacceptableIsDeclined(c: Central, m: Manifest, content: Bytes, at: int)
    requires c.puller.Waiting? && !Acceptable(c, m, content)
    ensures Declined(c, Ingested(c, m, content, at), m)
  {
    var path := m.chunk.path;
    var copy := if path in c.raw then c.raw[path] else content;
    hide Verifies;
    if Verifies(copy, m.chunk) {
      var stored := c.(raw := c.raw[path := copy], puller := Stored(m));
      if path in c.raw {
        assert c.raw[path := copy] == c.raw;
      }
      assert DescribeChunk(stored, m) == stored.(puller := Waiting);
      assert Ingested(c, m, content, at) == stored.(puller := Waiting);
    } else {
      assert Ingested(c, m, content, at) == c.(puller := Waiting);
    }
    hide Ingested, Acceptable, DescribeChunk;
  }

  datatype DayOutcome = PUBLISHED | ALREADY | CONFLICT | INCOMPLETE | BAD_HASH

  class CentralPuller {
    var raw: map<DataPath, Bytes>
    var rawManifests: map<Stem, Manifest>
    var staged: map<string, File<Ack>>
    var days: map<int, seq<ChunkRef>>

    function Value(): Central
      reads this
    {
      Central(raw, rawManifests, staged, Waiting, days)
    }

    constructor ()
      ensures Value() == Central(map[], map[], map[], Waiting, map[])
    {
      raw, rawManifests, staged, days := map[], map[], map[], map[];
    }

    /** `_ingest_chunk`; `ok` is false where it raises. */
    method IngestChunk(m: Manifest, content: Bytes, at: int) returns (ok: bool)
      modifies this`raw, this`rawManifests, this`staged
      ensures Value() == Ingested(old(Value()), m, content, at)
      ensures ok == Acceptable(old(Value()), m, content)
    {
      hide Verifies;
      var destination := m.chunk.path;
      if destination in raw {
        if !Verifies(raw[destination], m.chunk) {
          return false;
        }
      } else {
        if !Verifies(content, m.chunk) {
          return false;
        }
        raw := raw[destination := content];
      }
      var stem := destination.stem;
      if stem in rawManifests && rawManifests[stem] != m {
        return false;
      }
      rawManifests := rawManifests[stem := m];
      staged := staged[m.chunk.chunkId := Good(Ack(m.chunk.chunkId, m.chunk.sha, at))];
      return true;
    }

    /** `_publish_complete_day` */
    method PublishCompleteDay(day: int, chunks: seq<ChunkRef>) returns (outcome: DayOutcome)
      modifies this`days
      ensures Value() == DoAtCentral(old(Value()), PublishDay(day, chunks))
      ensures outcome.PUBLISHED? <==> day !in old(days) && AllHeld(raw, chunks)
      ensures outcome.ALREADY? <==> day in old(days) && old(days)[day] == chunks
      ensures outcome.CONFLICT? <==> day in old(days) && old(days)[day] != chunks
      ensures outcome.BAD_HASH? ==> exists chunk :: chunk in chunks && chunk.path in raw &&
                                      |raw[chunk.path]| == chunk.size && Sha(raw[chunk.path]) != chunk.sha
    {
      if day in days {
        return if days[day] == chunks then ALREADY else CONFLICT;
      }
      for i := 0 to |chunks|
        invariant forall k :: 0 <= k < i ==> chunks[k].path in raw && Verifies(raw[chunks[k].path], chunks[k])
      {
        var path := chunks[i].path;
        assert chunks[i] in chunks;
        if path !in raw || |raw[path]| != chunks[i].size {
          return INCOMPLETE;
        }
        if Sha(raw[path]) != chunks[i].sha {
          return BAD_HASH;
        }
      }
      days := days[day := chunks];
      return PUBLISHED;
    }

    /**
     `push_acks`: staged files that are no ACK under their own name are put aside. The others are
     copied to the edge's inbox and then removed here. `copies` says whether the copy succeeds; when it
     fails, the files of `arrived` are in the inbox all the same and every ACK stays staged.
     */
    method PushAcks(inbox: map<string, File<Ack>>, copies: bool, arrived: set<string>)
      returns (done: bool, delivered: map<string, File<Ack>>, aside: map<string, File<Ack>>, pushed: nat)
      modifies this`staged
      ensures var valid := ValidAcks(old(staged), old(staged).Keys);
              && aside == old(staged) - valid.Keys
              && done == (copies || valid == map[])
              && (done ==> delivered == inbox + valid && staged == map[] && pushed == |valid|)
              && (!done ==> delivered == inbox + ValidAcks(old(staged), arrived) && staged == valid && pushed == 0)
    {
      var valid;
      valid, aside := SplitStaged(staged);
      hide ValidAck;
      if valid != map[] && !copies {
        done, delivered, pushed := false, inbox + ValidAcks(staged, arrived), 0;
        staged := valid;
      } else {
        done, delivered, pushed := true, inbox + valid, |valid|;
        staged := map[];
      }
    }
  }

  /** The loop over the staged files: ACKs under their own name, and the rest. */
  method SplitStaged(files: map<string, File<Ack>>) returns (valid: map<string, File<Ack>>, aside: map<string, File<Ack>>)
    ensures valid == ValidAcks(files, files.Keys) && aside == files - valid.Keys
  {
    valid, aside := map[], map[];
    var todo := files.Keys;
    ghost var seen: set<string> := {};
    while todo != {}
      invariant seen + todo == files.Keys && seen !! todo
      invariant valid == ValidAcks(files, seen) && aside == SetAside(files, seen)
      decreases |todo|
    {
      hide ValidAcks, ValidAck, SetAside;
      var name :| name in todo;
      ValidOneMore(files, seen, name);
      AsideOneMore(files, seen, name);
      if ValidAck(name, files[name]) {
        valid := valid[name := files[name]];
      } else {
        aside := aside[name := files[name]];
      }
      todo, seen := todo - {name}, seen + {name};
    }
    assert seen == files.Keys;
    AsideIsRest(files);
    hide ValidAcks, SetAside;
  }

  /** The staged files that are no ACK under their own name. */
  function SetAside(staged: map<string, File<Ack>>, among: set<string>): map<string, File<Ack>> {
    map name | name in staged && name in among && !ValidAck(name, staged[name]) :: staged[name]
  }

  lemma AsideOneMore(staged: map<string, File<Ack>>, seen: set<string>, name: string)
    requires name in staged && name !in seen
    ensures SetAside(staged, seen + {name}) ==
            if ValidAck(name, staged[name]) then SetAside(staged, seen) else SetAside(staged, seen)[name := staged[name]]
  {
    hide ValidAck;
  }

  lemma AsideIsRest(staged: map<string, File<Ack>>)
    ensures SetAside(staged, staged.Keys) == staged - ValidAcks(staged, staged.Keys).Keys
  {
    hide ValidAck;
  }

  function ValidAcks(staged: map<string, File<Ack>>, among: set<string>): map<string, File<Ack>> {
    map name | name in staged && name in among && ValidAck(name, staged[name]) :: staged[name]
  }

  lemma ValidOneMore(staged: map<string, File<Ack>>, seen: set<string>, name: string)
    requires name in staged && name !in seen
    ensures ValidAcks(staged, seen + {name}) ==
            if ValidAck(name, staged[name]) then ValidAcks(staged, seen)[name := staged[name]] else ValidAcks(staged, seen)
  {
    hide ValidAck;
  }

  predicate ValidAck(name: string, file: File<Ack>) {
    file.Good? && file.value.chunkId == name
  }

  // ---------------------------------------------------------------- edge/day_index.py

  /** `refs` holds one of the listed chunks for every identity that occurs among them. */
  ghost predicate IsInventory(refs: Inventory, sources: set<ChunkRef>) {
    && (forall chunk | chunk in sources :: (chunk.chunkId, chunk.sha) in refs)
    && (forall key | key in refs :: refs[key] in sources && key == (refs[key].chunkId, refs[key].sha))
  }

  /** With true references only, an inventory lists a chunk exactly when one of its sources does. */
  lemma InventoryLists(refs: Inventory, sources: set<ChunkRef>, published: History, id: string)
    requires IsInventory(refs, sources) && id in published
    requires forall chunk | chunk in sources ::
               chunk.chunkId in published && chunk == RefOf(chunk.chunkId, published[chunk.chunkId])
    ensures Lists(refs, id, published[id]) <==> RefOf(id, published[id]) in sources
  {
  }

  lemma NoteSource(refs: Inventory, sources: set<ChunkRef>, chunk: ChunkRef)
    requires IsInventory(refs, sources)
    ensures IsInventory(Noted(refs, chunk), sources + {chunk})
  {
  }

  function ChunksOf<K(==)>(files: map<K, File<Manifest>>, keys: set<K>): set<ChunkRef> {
    set key | key in keys && key in files && files[key].Good? :: files[key].value.chunk
  }

  lemma ChunksOfOne<K>(files: map<K, File<Manifest>>, keys: set<K>, key: K)
    requires key in files && files[key].Good?
    ensures ChunksOf(files, keys + {key}) == ChunksOf(files, keys) + {files[key].value.chunk}
  {
  }

  function LinesIn(lines: seq<ChunkRef>): set<ChunkRef> {
    set chunk | chunk in lines
  }

  /** The three sources of a day's inventory. */
  ghost function Sources(e: Edge, day: int): set<ChunkRef>
    requires day in e.dayJournal
  {
    LinesIn(e.dayJournal[day]) + ChunksOf(e.manifests, ReadyOf(e, day)) + ChunksOf(e.acked, AckedOf(e, day))
  }

  predicate Readable<K(!new)>(files: map<K, File<Manifest>>, keys: set<K>) {
    forall key | key in keys :: key in files && files[key].Good?
  }

  /** A loop of `_read_refs`: one directory's manifests, in any order; a damaged one raises. */
  method ReadManifests<K(==, !new)>(files: map<K, File<Manifest>>, keys: set<K>, refs: Inventory, ghost sources: set<ChunkRef>)
    returns (ok: bool, all: Inventory)
    requires keys <= files.Keys && IsInventory(refs, sources)
    ensures ok <==> Readable(files, keys)
    ensures ok ==> IsInventory(all, sources + ChunksOf(files, keys))
  {
    hide IsInventory;
    all := refs;
    var todo := keys;
    ghost var seen: set<K> := {};
    assert sources + ChunksOf(files, {}) == sources;
    while todo != {}
      invariant seen + todo == keys && seen !! todo
      invariant Readable(files, seen)
      invariant IsInventory(all, sources + ChunksOf(files, seen))
      decreases |todo|
    {
      var key :| key in todo;
      if files[key].Damaged? {
        return false, all;
      }
      var chunk := files[key].value.chunk;
      NoteSource(all, sources + ChunksOf(files, seen), chunk);
      ChunksOfOne(files, seen, key);
      assert sources + ChunksOf(files, seen) + {chunk} == sources + ChunksOf(files, seen + {key});
      all := Noted(all, chunk);
      todo, seen := todo - {key}, seen + {key};
    }
    assert seen == keys;
    return true, all;
  }

  lemma OneLine(lines: seq<ChunkRef>, i: nat)
    requires i < |lines|
    ensures NotedAll(map[], lines[..i + 1]) == Noted(NotedAll(map[], lines[..i]), lines[i])
    ensures LinesIn(lines[..i + 1]) == LinesIn(lines[..i]) + {lines[i]}
  {
    assert lines[..i + 1][..i] == lines[..i];
    assert lines[..i + 1] == lines[..i] + [lines[i]];
    hide Noted;
  }

  class DayIndex {
    var manifests: map<Stem, File<Manifest>>
    var acked: map<AckedKey, File<Manifest>>
    var sealed: map<int, Inventory>
    var dayJournal: map<int, seq<ChunkRef>>

    function Value(): Edge
      reads this
    {
      Edge(map[], manifests, map[], map[], multiset{}, acked, sealed, dayJournal, {})
    }

    constructor (e: Edge)
      ensures manifests == e.manifests && acked == e.acked && sealed == e.sealed && dayJournal == e.dayJournal
    {
      manifests, acked, sealed, dayJournal := e.manifests, e.acked, e.sealed, e.dayJournal;
    }

    /** `record`: a sealed day raises. */
    method RecordChunk(id: string, p: Publication) returns (ok: bool)
      modifies this`dayJournal
      ensures ok == (DayOf(p) !in sealed)
      ensures Value() == JournalChunk(old(Value()), id, p)
    {
      var day := DayOf(p);
      if day in sealed {
        return false;
      }
      var lines := if day in dayJournal then dayJournal[day] else [];
      dayJournal := dayJournal[day := lines + [RefOf(id, p)]];
      return true;
    }

    /** The journal part of `_read_refs`. */
    method ReadJournal(day: int) returns (refs: Inventory)
      requires day in dayJournal
      ensures refs == NotedAll(map[], dayJournal[day])
      ensures IsInventory(refs, LinesIn(dayJournal[day]))
    {
      var lines := dayJournal[day];
      refs := map[];
      for i := 0 to |lines|
        invariant refs == NotedAll(map[], lines[..i])
        invariant IsInventory(refs, LinesIn(lines[..i]))
      {
        OneLine(lines, i);
        hide IsInventory, NotedAll, LinesIn;
        NoteSource(refs, LinesIn(lines[..i]), lines[i]);
        refs := Noted(refs, lines[i]);
      }
      assert lines[..|lines|] == lines;
    }

    /** `_read_refs`; `ok` is false where a manifest does not decode. */
    method ReadRefs(day: int) returns (ok: bool, refs: Inventory)
      ensures day !in dayJournal ==> ok && refs == map[]
      ensures day in dayJournal ==>
                && (ok <==> Readable(manifests, ReadyOf(Value(), day)) && Readable(acked, AckedOf(Value(), day)))
                && (ok ==> IsInventory(refs, Sources(Value(), day)))
    {
      if day !in dayJournal {
        return true, map[];
      }
      var ready, kept := ReadyOf(Value(), day), AckedOf(Value(), day);
      refs := ReadJournal(day);
      ghost var lines := LinesIn(dayJournal[day]);
      hide IsInventory, Readable, ReadyOf, AckedOf;
      assert ready <= manifests.Keys && kept <= acked.Keys by {
        DayFiles(Value(), day);
      }
      ok, refs := ReadManifests(manifests, ready, refs, lines);
      if ok {
        ok, refs := ReadManifests(acked, kept, refs, lines + ChunksOf(manifests, ready));
      }
    }

    /** `_seal`: a sealed day is only cleaned up; a failed read leaves everything as it was. */
    method SealDay(day: int) returns (ok: bool)
      modifies this`sealed, this`acked, this`dayJournal
      ensures day in old(sealed) ==> ok && sealed == old(sealed)
      ensures day !in old(sealed) && ok ==>
                && day in sealed && sealed == old(sealed)[day := sealed[day]]
                && (day !in old(dayJournal) ==> sealed[day] == map[])
                && (day in old(dayJournal) ==> IsInventory(sealed[day], Sources(old(Value()), day)))
      ensures !ok ==> day in old(dayJournal) && Value() == old(Value())
      ensures !ok ==> !(Readable(manifests, ReadyOf(Value(), day)) && Readable(acked, AckedOf(Value(), day)))
      ensures ok ==> dayJournal == old(dayJournal) - {day} && acked == old(acked) - AckedOf(old(Value()), day)
    {
      var kept := AckedOf(Value(), day);
      hide IsInventory, Readable, AckedOf, ReadyOf;
      ok := true;
      if day !in sealed {
        var refs;
        ok, refs := ReadRefs(day);
        if !ok {
          return;
        }
        sealed := sealed[day := refs];
      }
      dayJournal := dayJournal - {day};
      acked := acked - kept;
    }
  }

  lemma DayFiles(e: Edge, day: int)
    ensures ReadyOf(e, day) <= e.manifests.Keys && AckedOf(e, day) <= e.acked.Keys
  {
  }
}
