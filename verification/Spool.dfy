/**
 The edge spool of src/ft_shadow_data_plane/edge/spool.py: directories are maps, and `apply_acks`
 is cut into its single file operations, so that a crash can fall between any two of them.
 */
module Spool {
  import opened Base

  type Bytes = seq<int>

  /** SHA-256 taken as injective: a digest remembers what it was computed from. */
  datatype Digest = Digest(content: Bytes)

  function Sha(content: Bytes): Digest {
    Digest(content)
  }

  /** `date=<day>/writer=<group>/<name>`: a data file's path without its suffix, which is also its manifest's. */
  datatype Stem = Stem(day: int, group: string, name: string)

  datatype DataPath = DataPath(stem: Stem, suffix: string)

  datatype ChunkRef = ChunkRef(chunkId: string, path: DataPath, sha: Digest, size: nat)

  datatype Manifest = Manifest(chunk: ChunkRef, day: int, createdAt: int)

  datatype Ack = Ack(chunkId: string, sha: Digest, durableAt: int)

  datatype Transaction = Transaction(ack: Ack, manifest: Manifest)

  /** A file that decodes to a value, or one that does not decode. */
  datatype File<T> = Good(value: T) | Damaged

  datatype Reason =
    | INVALID | INVALID_NAME | UNKNOWN | HASH_MISMATCH | TRANSACTION_CONFLICT
    | INVALID_TRANSACTION | TRANSACTION_HASH_MISMATCH

  datatype Rejection = Rejection(name: string, reason: Reason)

  /** The identity of a REMOTE_GC event: chunk id and the ACK's durable time. */
  datatype GcRecord = GcRecord(chunkId: string, durableAt: int)

  /** `control/acked-manifests/date=<day>/<name>` */
  datatype AckedKey = AckedKey(day: int, name: string)

  type Inventory = map<(string, Digest), ChunkRef>

  datatype Edge = Edge(
    data: map<DataPath, Bytes>,
    manifests: map<Stem, File<Manifest>>,
    acks: map<string, File<Ack>>,
    applying: map<string, File<Transaction>>,
    rejected: multiset<Rejection>,
    acked: map<AckedKey, File<Manifest>>,
    sealed: map<int, Inventory>,
    dayJournal: map<int, seq<ChunkRef>>,
    gcLog: set<GcRecord>)

  // ---------------------------------------------------------------- the ready manifests

  predicate WellPlaced(manifests: map<Stem, File<Manifest>>, stem: Stem) {
    stem in manifests && manifests[stem].Good? && manifests[stem].value.chunk.path.stem == stem
  }

  /** The readable manifests that lie where their own data path puts them. */
  function Placed(manifests: map<Stem, File<Manifest>>): (placed: set<Manifest>)
    ensures forall m :: m in placed <==>
              m.chunk.path.stem in manifests && manifests[m.chunk.path.stem] == Good(m)
  {
    set stem | stem in manifests && WellPlaced(manifests, stem) :: manifests[stem].value
  }

  /** No other manifest of `placed` claims the same chunk id. */
  predicate Sole(placed: set<Manifest>, m: Manifest) {
    m in placed && forall other | other in placed :: other.chunk.chunkId == m.chunk.chunkId ==> other == m
  }

  /** What the scan must find: the manifests without a rival, by chunk id. */
  function Known(placed: set<Manifest>): (known: map<string, Manifest>)
    ensures forall m :: Sole(placed, m) ==> m.chunk.chunkId in known && known[m.chunk.chunkId] == m
    ensures forall id :: id in known ==> Sole(placed, known[id]) && known[id].chunk.chunkId == id
  {
    map m | m in placed && Sole(placed, m) :: m.chunk.chunkId := m
  }

  /** The dict after part of the scan: every manifest seen is in it, unless its id has two claimants. */
  ghost predicate Scanned(seen: set<Manifest>, found: map<string, Manifest>, rivals: map<string, (Manifest, Manifest)>) {
    && (forall id | id in found :: found[id] in seen && found[id].chunk.chunkId == id && id !in rivals)
    && (forall id | id in rivals :: rivals[id].0 in seen && rivals[id].1 in seen && rivals[id].0 != rivals[id].1)
    && (forall id | id in rivals :: rivals[id].0.chunk.chunkId == id && rivals[id].1.chunk.chunkId == id)
    && (forall m | m in seen && m.chunk.chunkId !in rivals :: m.chunk.chunkId in found && found[m.chunk.chunkId] == m)
  }

  lemma FoundAreSole(seen: set<Manifest>, found: map<string, Manifest>, rivals: map<string, (Manifest, Manifest)>, m: Manifest)
    requires Scanned(seen, found, rivals)
    ensures Sole(seen, m) <==> m.chunk.chunkId in found && found[m.chunk.chunkId] == m
    ensures m in seen && m.chunk.chunkId in rivals ==> !Sole(seen, m)
  {
  }

  lemma ScanFindsKnown(seen: set<Manifest>, found: map<string, Manifest>, rivals: map<string, (Manifest, Manifest)>)
    requires Scanned(seen, found, rivals)
    ensures found == Known(seen)
  {
    hide Known, Sole;
    forall id
      ensures id in found <==> id in Known(seen)
      ensures id in found ==> found[id] == Known(seen)[id]
    {
      if id in found {
        FoundAreSole(seen, found, rivals, found[id]);
      } else if id in Known(seen) {
        FoundAreSole(seen, found, rivals, Known(seen)[id]);
      }
    }
  }

  lemma NoRivals(seen: set<Manifest>, found: map<string, Manifest>, rivals: map<string, (Manifest, Manifest)>)
    requires Scanned(seen, found, rivals)
    ensures rivals == map[] <==> forall m | m in seen :: Sole(seen, m)
  {
    if rivals != map[] {
      var id :| id in rivals;
      FoundAreSole(seen, found, rivals, rivals[id].0);
    } else {
      forall m | m in seen
        ensures Sole(seen, m)
      {
        FoundAreSole(seen, found, rivals, m);
      }
    }
  }

  lemma ScanOne(seen: set<Manifest>, found: map<string, Manifest>, rivals: map<string, (Manifest, Manifest)>, m: Manifest)
    requires Scanned(seen, found, rivals)
    ensures var id := m.chunk.chunkId;
            if id in rivals then Scanned(seen + {m}, found, rivals)
            else if id in found && found[id] != m then Scanned(seen + {m}, found - {id}, rivals[id := (found[id], m)])
            else Scanned(seen + {m}, found[id := m], rivals)
  {
  }

  /** The manifests the loop has accepted from the files listed so far. */
  function PlacedOf(manifests: map<Stem, File<Manifest>>, listed: seq<Stem>): set<Manifest> {
    set stem | stem in listed && WellPlaced(manifests, stem) :: manifests[stem].value
  }

  predicate AllPlaced(manifests: map<Stem, File<Manifest>>, listed: seq<Stem>) {
    forall stem | stem in listed :: WellPlaced(manifests, stem)
  }

  lemma ListOne(manifests: map<Stem, File<Manifest>>, listed: seq<Stem>, stem: Stem)
    ensures WellPlaced(manifests, stem) ==>
              PlacedOf(manifests, listed + [stem]) == PlacedOf(manifests, listed) + {manifests[stem].value}
    ensures !WellPlaced(manifests, stem) ==> PlacedOf(manifests, listed + [stem]) == PlacedOf(manifests, listed)
    ensures AllPlaced(manifests, listed + [stem]) <==> AllPlaced(manifests, listed) && WellPlaced(manifests, stem)
  {
  }

  lemma ListAll(manifests: map<Stem, File<Manifest>>, listing: seq<Stem>)
    requires forall stem :: stem in listing <==> stem in manifests
    ensures PlacedOf(manifests, listing) == Placed(manifests)
    ensures AllPlaced(manifests, listing) <==> forall stem | stem in manifests :: WellPlaced(manifests, stem)
  {
  }

  /** `_ready_manifests`: the loop over the listing, in whatever order the directory gives it. */
  method ReadyManifests(manifests: map<Stem, File<Manifest>>, listing: seq<Stem>)
    returns (found: map<string, Manifest>, errors: nat)
    requires forall stem :: stem in listing <==> stem in manifests
    ensures found == Known(Placed(manifests))
    ensures errors == 0 <==>
              (forall stem | stem in manifests :: WellPlaced(manifests, stem)) &&
              (forall m | m in Placed(manifests) :: Sole(Placed(manifests), m))
  {
    hide Scanned, Known, Sole, Placed, PlacedOf, AllPlaced;
    found, errors := map[], 0;
    var conflicted: set<string> := {};
    ghost var rivals: map<string, (Manifest, Manifest)> := map[];
    ScanNothing(manifests);
    for i := 0 to |listing|
      invariant conflicted == rivals.Keys
      invariant Scanned(PlacedOf(manifests, listing[..i]), found, rivals)
      invariant errors == 0 <==> rivals == map[] && AllPlaced(manifests, listing[..i])
    {
      var stem := listing[i];
      assert listing[..i + 1] == listing[..i] + [stem];
      ListOne(manifests, listing[..i], stem);
      if manifests[stem].Good? && manifests[stem].value.chunk.path.stem == stem {
        var manifest := manifests[stem].value;
        var id := manifest.chunk.chunkId;
        ScanOne(PlacedOf(manifests, listing[..i]), found, rivals, manifest);
        if id !in conflicted {
          if id in found && found[id] != manifest {
            rivals := rivals[id := (found[id], manifest)];
            found := found - {id};
            conflicted := conflicted + {id};
            errors := errors + 1;
          } else {
            found := found[id := manifest];
          }
        }
      } else {
        errors := errors + 1;
      }
    }
    assert listing[..|listing|] == listing;
    ListAll(manifests, listing);
    ScanFindsKnown(Placed(manifests), found, rivals);
    NoRivals(Placed(manifests), found, rivals);
  }

  lemma ScanNothing(manifests: map<Stem, File<Manifest>>)
    ensures PlacedOf(manifests, []) == {}
    ensures Scanned({}, map[], map[]) && AllPlaced(manifests, [])
  {
  }
}
