/**
The durable object that keeps one bucket: persistent storage in chunks and lazily filled
fields in memory. It answers merge, get and collect requests as `BucketStore` specifies,
however often its fields are dropped in between.
*/
module AggregateStore {
  import opened Wrappers
  import opened Arithmetic
  import opened Bytes
  import opened PrimeField
  import opened AggShare
  import opened BucketStore
  import opened Chunks

  const MAX_AGG_SHARE_CHUNK_KEY_COUNT: nat := 8

  const DEFAULT_REPORT_ID_CHUNK_KEY_COUNT: nat := 5

  datatype Metadata = Metadata(count: nat, minTime: nat, maxTime: nat, checksum: Digest, kind: Option<FieldKind>)

  /** The persistent keys of the object. */
  datatype Storage = Storage(
    meta: Option<Metadata>,
    shareChunks: map<nat, seq<Byte>>,
    idChunks: map<nat, seq<Byte>>,
    keyCount: Option<nat>,
    collected: Option<bool>)

  const NOTHING: Storage := Storage(None, map[], map[], None, None)

  // ---- Encoding of share data

  function Width(kind: FieldKind): (w: nat)
    ensures w > 0
  {
    match kind
    case Field32 => 4
    case Field64 => 8
    case Field128 => 16
  }

  function PerChunk(kind: FieldKind): (per: nat)
    ensures Width(kind) * per == MAX_CHUNK_SIZE
  {
    match kind
    case Field32 => 32_000
    case Field64 => 16_000
    case Field128 => 8_000
  }

  /** Field elements fit in their encoding. */
  lemma ModulusFits(kind: FieldKind)
    ensures Modulus(kind) <= Pow256(Width(kind))
  {
    Widths();
    assert Pow256(12) == Pow256(8) * 0x1_0000_0000 by {
      assert Pow256(9) == 256 * Pow256(8) && Pow256(10) == 256 * Pow256(9) && Pow256(11) == 256 * Pow256(10);
    }
    assert Pow256(13) == 256 * Pow256(12) && Pow256(14) == 256 * Pow256(13) && Pow256(15) == 256 * Pow256(14);
  }

  ghost function EncElems(kind: FieldKind, elems: seq<nat>): (items: seq<seq<Byte>>)
    ensures |items| == |elems| && AllLen(items, Width(kind))
  {
    seq(|elems|, i requires 0 <= i < |elems| => EncUintLe(Width(kind), elems[i]))
  }

  /** The bytes of a share's data. */
  ghost function DataBytes(data: Option<VdafShare>): seq<Byte>
    requires data.Some? ==> Canonical(Modulus(data.value.kind), data.value.elems)
  {
    if data.None? then [] else Flat(EncElems(data.value.kind, data.value.elems))
  }

  ghost predicate CanonicalData(data: Option<VdafShare>) {
    data.Some? ==> Canonical(Modulus(data.value.kind), data.value.elems)
  }

  method EncodeData(data: VdafShare) returns (bytes: seq<Byte>)
    requires Canonical(Modulus(data.kind), data.elems)
    ensures bytes == DataBytes(Some(data))
  {
    bytes := [];
    for i := 0 to |data.elems|
      invariant bytes == Flat(EncElems(data.kind, data.elems[..i]))
    {
      FlatSnoc(EncElems(data.kind, data.elems[..i]), EncUintLe(Width(data.kind), data.elems[i]));
      assert EncElems(data.kind, data.elems[..i + 1])
          == EncElems(data.kind, data.elems[..i]) + [EncUintLe(Width(data.kind), data.elems[i])];
      bytes := bytes + EncUintLe(Width(data.kind), data.elems[i]);
    }
    assert data.elems[..|data.elems|] == data.elems;
  }

  // ---- What storage says of a share

  function MetaOf(share: Share): Metadata {
    Metadata(share.count, share.minTime, share.maxTime, share.checksum,
             if share.data.Some? then Some(share.data.value.kind) else None)
  }

  /** The share a cold load returns: data without elements is lost. */
  function ColdShare(share: Share): Share {
    if share.data.Some? && share.data.value.elems == [] then share.(data := None) else share
  }

  /** A cold load returns the share of the reports if and only if their data has elements, or there are none. */
  lemma {:induction false} ColdShareExact(sha: Sha, rs: seq<Report>, sh: Shape)
    requires AllShaped(rs, sh)
    ensures ColdShare(Fold(sha, rs, sh)) == Fold(sha, rs, sh) <==> sh.len > 0 || rs == []
  {
    FoldMeaning(sha, rs, sh);
  }

  ghost predicate ShareStored(storage: Storage, share: Share) {
    && CanonicalData(share.data)
    && (if storage.meta.None? then share == EMPTY else storage.meta.value == MetaOf(share))
    && storage.shareChunks == ChunksOf(DataBytes(share.data))
    && NumChunks(DataBytes(share.data)) <= MAX_AGG_SHARE_CHUNK_KEY_COUNT
  }

  /** Load the share from storage. */
  method ColdLoadShare(storage: Storage, ghost share: Share) returns (loaded: Share)
    requires ShareStored(storage, share)
    ensures loaded == ColdShare(share)
  {
    ghost var bytes := DataBytes(share.data);
    if storage.meta.None? && storage.shareChunks == map[] {
      return EMPTY;
    }
    DataPresent(share);
    assert storage.meta.Some?;
    var meta := storage.meta.value;
    loaded := Share(meta.count, meta.minTime, meta.maxTime, meta.checksum, None);
    if storage.shareChunks != map[] {
      var kind := meta.kind.value;
      ghost var items := EncElems(kind, share.data.value.elems);
      var read := ReadItems(storage.shareChunks, MAX_AGG_SHARE_CHUNK_KEY_COUNT, Width(kind), items, PerChunk(kind));
      var elems := DecodeElems(kind, read, share.data.value.elems);
      loaded := loaded.(data := Some(VdafShare(kind, elems)));
    }
  }

  /** There are chunks exactly when there are elements. */
  lemma DataPresent(share: Share)
    requires CanonicalData(share.data)
    ensures ChunksOf(DataBytes(share.data)) != map[] <==> share.data.Some? && share.data.value.elems != []
  {
    ChunksPresent(DataBytes(share.data));
    if share.data.Some? {
      FlatLen(EncElems(share.data.value.kind, share.data.value.elems), Width(share.data.value.kind));
      if share.data.value.elems != [] {
        MulLe(1, |share.data.value.elems|, Width(share.data.value.kind));
      }
    }
  }

  method DecodeElems(kind: FieldKind, items: seq<seq<Byte>>, ghost elems: seq<nat>) returns (out: seq<int>)
    requires items == EncElems(kind, elems) && Canonical(Modulus(kind), elems)
    ensures out == elems
  {
    out := [];
    ModulusFits(kind);
    for i := 0 to |items|
      invariant out == elems[..i]
    {
      UintLeOfEnc(Width(kind), elems[i]);
      out := out + [UintLeOf(items[i])];
    }
  }

  // ---- What storage says of report IDs

  const ID_SIZE: nat := 16

  const IDS_PER_CHUNK: nat := 8_000

  ghost predicate Enumerates(order: seq<ReportId>, ids: set<ReportId>) {
    (forall i, j | 0 <= i < j < |order| :: order[i] != order[j]) && (forall id :: id in order <==> id in ids)
  }

  function KeyCount(storage: Storage): nat {
    if storage.keyCount.Some? then storage.keyCount.value else DEFAULT_REPORT_ID_CHUNK_KEY_COUNT
  }

  ghost predicate IdsStored(storage: Storage, order: seq<ReportId>) {
    && storage.idChunks == ChunksOf(Flat(order))
    && (order == [] || KeyCount(storage) == NumChunks(Flat(order)))
  }

  /** Encode a set of report IDs in whatever order it is enumerated. */
  method EncodeIds(ids: set<ReportId>) returns (bytes: seq<Byte>, ghost order: seq<ReportId>)
    ensures Enumerates(order, ids) && bytes == Flat(order)
  {
    bytes, order := [], [];
    var rest := ids;
    while rest != {}
      invariant rest <= ids && Enumerates(order, ids - rest) && bytes == Flat(order)
      decreases rest
    {
      var id :| id in rest;
      FlatSnoc(order, id);
      bytes, order, rest := bytes + id, order + [id], rest - {id};
    }
  }

  /** Load the report IDs from the chunks under the first `keys` keys. */
  method ColdLoadIds(storage: Storage, keys: nat, ghost order: seq<ReportId>, ghost ids: set<ReportId>)
    returns (loaded: set<ReportId>)
    requires IdsStored(storage, order) && Enumerates(order, ids) && keys == KeyCount(storage)
    ensures loaded == ids
  {
    var read := ReadItems(storage.idChunks, keys, ID_SIZE, order, IDS_PER_CHUNK);
    loaded := {};
    for i := 0 to |read|
      invariant loaded == set id | id in order[..i]
    {
      loaded := loaded + {read[i]};
    }
    assert order[..|order|] == order;
  }

  lemma {:induction false} EnumerationSize(order: seq<ReportId>, ids: set<ReportId>)
    requires Enumerates(order, ids)
    ensures |order| == |ids|
  {
    if order == [] {
      assert ids == {};
    } else {
      var last := order[|order| - 1];
      assert order == order[..|order| - 1] + [last];
      EnumerationSize(order[..|order| - 1], ids - {last});
    }
  }

  /** IDs up to the capacity of 255 keys need at most 255 chunks. */
  lemma {:induction false} IdCapacity(order: seq<ReportId>)
    requires |order| <= 255 * IDS_PER_CHUNK
    ensures NumChunks(Flat(order)) <= 255
  {
    FlatLen(order, ID_SIZE);
  }

  // ---- Shares up to what a cold load loses

  /** `share` is `full`, or what a cold load makes of it. */
  ghost predicate Reads(share: Share, full: Share) {
    share == full || share == ColdShare(full)
  }

  lemma ReadsJoin(share: Share, full: Share, delta: Share, sh: Shape)
    requires Shaped(full, sh) && Shaped(delta, sh) && Reads(share, full)
    ensures Mergeable(share.data, delta.data) && Mergeable(full.data, delta.data)
    ensures Reads(Join(share, delta), Join(full, delta))
  {
    JoinShaped(full, delta, sh);
    if share != full && delta.data.Some? {
      assert full.data.value.elems == [] && delta.data.value.elems == [];
    }
  }

  lemma ReadsCanonical(share: Share, full: Share, sh: Shape)
    requires Shaped(full, sh) && Reads(share, full)
    ensures CanonicalData(share.data) && CanonicalData(full.data)
    ensures DataBytes(share.data) == DataBytes(full.data)
    ensures |DataBytes(full.data)| == if full.count == 0 then 0 else sh.len * Width(sh.kind)
  {
    if full.data.Some? {
      FlatLen(EncElems(full.data.value.kind, full.data.value.elems), Width(full.data.value.kind));
    }
  }

  /** Writing the chunks of a string over those of one no longer leaves the new ones. */
  lemma ChunksOver(before: seq<Byte>, after: seq<Byte>)
    requires |before| <= |after|
    ensures ChunksOf(before) + ChunksOf(after) == ChunksOf(after)
  {
    assert NumChunks(before) <= NumChunks(after);
  }

  /** Data of the given shape fits under the keys for share chunks. */
  ghost predicate Capacity(sh: Shape) {
    sh.len * Width(sh.kind) <= MAX_AGG_SHARE_CHUNK_KEY_COUNT * MAX_CHUNK_SIZE
  }

  /** The share of the log is in storage and, if anything, in memory. */
  ghost predicate ShareOk(sha: Sha, sh: Shape, log: seq<Entry>, storage: Storage, aggShare: Option<Share>) {
    && Capacity(sh) && AllShaped(Reports(log), sh)
    && var full := Fold(sha, Reports(log), sh);
    && (ShareStored(storage, full) || ShareStored(storage, ColdShare(full)))
    && (aggShare.Some? ==> Reads(aggShare.value, full))
  }

  /** The IDs are in storage, in the given order, and, if anything, in memory. */
  ghost predicate IdsOk(ids: set<ReportId>, order: seq<ReportId>, storage: Storage, reportIds: Option<set<ReportId>>,
                        keyCount: Option<nat>)
  {
    && Enumerates(order, ids) && IdsStored(storage, order)
    && (reportIds.Some? ==> reportIds.value == ids)
    && (keyCount.Some? ==> keyCount.value == KeyCount(storage))
  }

  ghost predicate FlagOk(flag: bool, storage: Storage, collected: Option<bool>) {
    flag == (storage.collected == Some(true)) && (collected.Some? ==> collected.value == flag)
  }

  /** What a commit writes. */
  function Written(storage: Storage, meta: Metadata, shareChunks: map<nat, seq<Byte>>,
                   idChunks: map<nat, seq<Byte>>): Storage
  {
    storage.(meta := Some(meta), shareChunks := storage.shareChunks + shareChunks,
             idChunks := storage.idChunks + idChunks)
  }

  lemma {:induction false} WrittenShareOk(sha: Sha, sh: Shape, log: seq<Entry>, job: nat, rs: seq<Report>,
                                          storage: Storage,
                       meta: Metadata,
                       shareChunks: map<nat, seq<Byte>>, idChunks: map<nat, seq<Byte>>, share: Share)
    requires Capacity(sh) && AllShaped(Reports(log) + rs, sh) && Reads(share, Fold(sha, Reports(log) + rs, sh))
    requires ShareStored(storage.(meta := Some(meta), shareChunks := storage.shareChunks + shareChunks), share)
    ensures ShareOk(sha, sh, log + Entries(rs, job), Written(storage, meta, shareChunks, idChunks), Some(share))
  {
    ReportsConcat(log, rs, job);
    assert ShareStored(Written(storage, meta, shareChunks, idChunks), share);
  }

  lemma KeyCountApart(sha: Sha, sh: Shape, log: seq<Entry>, storage: Storage, aggShare: Option<Share>,
                      keyCount: Option<nat>)
    requires ShareOk(sha, sh, log, storage, aggShare)
    ensures ShareOk(sha, sh, log, storage.(keyCount := keyCount), aggShare)
  {
  }

  lemma {:induction false} WrittenIdsOk(ids: set<ReportId>, order: seq<ReportId>, storage: Storage, meta: Metadata,
                     shareChunks: map<nat, seq<Byte>>, idChunks: map<nat, seq<Byte>>)
    requires Enumerates(order, ids) && KeyCount(storage) == NumChunks(Flat(order))
    requires idChunks == ChunksOf(Flat(order)) && storage.idChunks + idChunks == idChunks
    ensures IdsOk(ids, order, Written(storage, meta, shareChunks, idChunks), Some(ids), Some(KeyCount(storage)))
  {
  }

  class Store {
    var storage: Storage
    var reportIds: Option<set<ReportId>>
    var aggShare: Option<Share>
    var collected: Option<bool>
    var keyCount: Option<nat>
    const sha: Sha
    ghost const sh: Shape
    ghost var st: BucketState
    ghost var order: seq<ReportId>

    ghost predicate ValidShare()
      reads this
    {
      ShareOk(sha, sh, st.log, storage, aggShare)
    }

    ghost predicate ValidIds()
      reads this
    {
      IdsOk(st.ids, order, storage, reportIds, keyCount)
    }

    ghost predicate ValidFlag()
      reads this
    {
      FlagOk(st.collected, storage, collected)
    }

    ghost predicate Valid()
      reads this
    {
      ValidShare() && ValidIds() && ValidFlag()
    }

    /** A bucket nobody wrote to. */
    constructor (sha: Sha, ghost sh: Shape)
      requires Capacity(sh)
      ensures Valid() && st == FRESH && this.sha == sha && this.sh == sh
    {
      this.sha, this.sh := sha, sh;
      storage := NOTHING;
      reportIds, aggShare, collected, keyCount := None, None, None, None;
      st, order := FRESH, [];
      new;
      assert Reports(FRESH.log) == [];
    }

    /** The object is dropped from memory and built anew over its storage. */
    method Restart()
      requires Valid()
      modifies `reportIds, `aggShare, `collected, `keyCount
      ensures Valid() && reportIds.None? && aggShare.None? && collected.None? && keyCount.None?
    {
      reportIds, aggShare, collected, keyCount := None, None, None, None;
    }

    method IsCollected() returns (r: bool)
      requires Valid()
      modifies `collected
      ensures Valid() && r == st.collected
    {
      if collected.None? {
        collected := Some(storage.collected == Some(true));
      }
      r := collected.value;
    }

    /** How many keys may hold report IDs. */
    method AggregatedReportsKeys() returns (keys: nat)
      requires keyCount.Some? ==> keyCount.value == KeyCount(storage)
      modifies `keyCount
      ensures keys == KeyCount(storage) && keyCount == Some(keys)
    {
      if keyCount.None? {
        keyCount := Some(KeyCount(storage));
      }
      keys := keyCount.value;
    }

    method SetReportIdChunkKeyCount(count: nat)
      requires keyCount.Some? ==> keyCount.value == KeyCount(storage)
      modifies `keyCount, `storage
      ensures KeyCount(storage) == count && keyCount == Some(count)
      ensures storage in {old(storage), old(storage).(keyCount := Some(count))}
    {
      if keyCount == Some(count) {
        return;
      }
      storage := storage.(keyCount := Some(count));
      keyCount := Some(count);
    }

    method LoadAggregatedReportIds() returns (ids: set<ReportId>)
      requires Valid()
      modifies `reportIds, `keyCount
      ensures Valid() && ids == st.ids && reportIds == Some(ids)
    {
      if reportIds.None? {
        var keys := AggregatedReportsKeys();
        var loaded := ColdLoadIds(storage, keys, order, st.ids);
        reportIds := Some(loaded);
      }
      ids := reportIds.value;
    }

    method GetAggShare() returns (share: Share)
      requires ValidShare()
      modifies `aggShare
      ensures ValidShare() && aggShare == Some(share) && Reads(share, Fold(sha, Reports(st.log), sh))
      ensures old(aggShare).None? ==> share == ColdShare(Fold(sha, Reports(st.log), sh))
    {
      if aggShare.None? {
        ghost var full := Fold(sha, Reports(st.log), sh);
        var loaded := ColdLoadShare(storage, if ShareStored(storage, full) then full else ColdShare(full));
        aggShare := Some(loaded);
      }
      share := aggShare.value;
    }

    /** Write the new set of report IDs, returning the chunks to store. */
    method StageIds(merged: set<ReportId>) returns (chunks: map<nat, seq<Byte>>, ghost order': seq<ReportId>)
      requires Valid() && st.ids <= merged && |merged| <= 255 * IDS_PER_CHUNK
      modifies `reportIds, `keyCount, `storage
      ensures ValidShare() && ValidFlag()
      ensures reportIds == Some(merged) && Enumerates(order', merged) && chunks == ChunksOf(Flat(order'))
      ensures KeyCount(storage) == NumChunks(Flat(order')) <= 255 && keyCount == Some(KeyCount(storage))
      ensures storage.idChunks + chunks == chunks
    {
      reportIds := Some(merged);
      var bytes;
      bytes, order' := EncodeIds(merged);
      EnumerationSize(order', merged);
      EnumerationSize(order, st.ids);
      SubsetCard(st.ids, merged);
      IdCapacity(order');
      FlatLen(order, ID_SIZE);
      FlatLen(order', ID_SIZE);
      ChunksOver(Flat(order), Flat(order'));
      KeyCountApart(sha, sh, st.log, storage, aggShare, Some(NumChunks(bytes)));
      SetReportIdChunkKeyCount(NumChunks(bytes));
      var keys := AggregatedReportsKeys();
      chunks := ShardBytesToObject(keys, bytes);
    }

    /** Merge the delta into the share in memory, returning its chunks. */
    method StageShare(delta: Share, ghost rs: seq<Report>) returns (meta: Metadata, chunks: map<nat, seq<Byte>>)
      requires ValidShare() && AllShaped(rs, sh) && delta == Fold(sha, rs, sh)
      modifies `aggShare
      ensures AllShaped(Reports(st.log) + rs, sh)
      ensures aggShare.Some? && Reads(aggShare.value, Fold(sha, Reports(st.log) + rs, sh))
      ensures ShareStored(storage.(meta := Some(meta), shareChunks := storage.shareChunks + chunks), aggShare.value)
    {
      FoldConcat(sha, Reports(st.log), rs, sh);
      var share := GetAggShare();
      ghost var before := Fold(sha, Reports(st.log), sh);
      ReadsJoin(share, before, delta, sh);
      var merged := MergeInto(share, delta);
      var after := merged.value;
      aggShare := Some(after);
      ghost var full := Join(before, delta);
      JoinShaped(before, delta, sh);
      StagedChunks(storage, before, after, full, sh);
      meta := MetaOf(after);
      chunks := map[];
      if after.data.Some? {
        var bytes := EncodeData(after.data.value);
        chunks := ShardBytesToObject(MAX_AGG_SHARE_CHUNK_KEY_COUNT, bytes);
      }
    }

    method CommitMerge(contained: set<ReportId>, delta: Share, ghost job: nat, ghost rs: seq<Report>)
      requires Valid() && reportIds == Some(st.ids) && Commits(st, rs)
      requires AllShaped(rs, sh) && delta == Fold(sha, rs, sh) && contained == IdSet(rs)
      requires |st.ids + contained| <= 255 * IDS_PER_CHUNK
      modifies this
      ensures Valid() && st == BucketMerge(Durable, old(st), job, rs).0
    {
      var idChunks, order' := StageIds(reportIds.value + contained);
      var meta, shareChunks := StageShare(delta, rs);
      Write(meta, shareChunks, idChunks, order', job, rs);
    }

    /** Write everything staged in one request to storage. */
    method Write(meta: Metadata, shareChunks: map<nat, seq<Byte>>, idChunks: map<nat, seq<Byte>>,
                 ghost order': seq<ReportId>, ghost job: nat, ghost rs: seq<Report>)
      requires ValidFlag() && Capacity(sh) && Commits(st, rs)
      requires AllShaped(Reports(st.log) + rs, sh)
      requires aggShare.Some? && Reads(aggShare.value, Fold(sha, Reports(st.log) + rs, sh))
      requires ShareStored(storage.(meta := Some(meta), shareChunks := storage.shareChunks + shareChunks),
                           aggShare.value)
      requires reportIds == Some(st.ids + IdSet(rs)) && Enumerates(order', st.ids + IdSet(rs))
      requires KeyCount(storage) == NumChunks(Flat(order')) && keyCount == Some(KeyCount(storage))
      requires idChunks == ChunksOf(Flat(order')) && storage.idChunks + idChunks == idChunks
      modifies `storage, `st, `order
      ensures Valid() && st == BucketMerge(Durable, old(st), job, rs).0
    {
      WrittenShareOk(sha, sh, st.log, job, rs, storage, meta, shareChunks, idChunks, aggShare.value);
      WrittenIdsOk(st.ids + IdSet(rs), order', storage, meta, shareChunks, idChunks);
      storage := Written(storage, meta, shareChunks, idChunks);
      st, order := BucketState(st.log + Entries(rs, job), st.ids + IdSet(rs), false), order';
    }

    /** Merge an aggregate share into the bucket, unless it repeats reports or the bucket is collected. */
    method Merge(contained: seq<ReportId>, delta: Share, ghost job: nat, ghost rs: seq<Report>)
      returns (resp: MergeResp)
      requires Valid() && AllShaped(rs, sh) && delta == Fold(sha, rs, sh)
      requires |contained| == |rs| && forall i | 0 <= i < |rs| :: contained[i] == rs[i].id
      requires |st.ids + IdSet(rs)| <= 255 * IDS_PER_CHUNK
      modifies this
      ensures Valid()
      ensures st == BucketMerge(Durable, old(st), job, rs).0 && resp == BucketMerge(Durable, old(st), job, rs).1
    {
      var isCollected := IsCollected();
      if isCollected {
        return AlreadyCollected;
      }
      var merged := LoadAggregatedReportIds();
      var ids := set id | id in contained;
      var repeats := set id | id in contained && id in merged;
      RepeatsAre(contained, merged, rs);
      if repeats != {} {
        return if |repeats| == delta.count then Committed else ReplaysDetected(repeats);
      }
      CommitMerge(ids, delta, job, rs);
      return Committed;
    }

    /** The share of the bucket, up to data without elements. */
    method Get() returns (share: Share)
      requires Valid()
      modifies `aggShare
      ensures Valid() && Reads(share, Fold(sha, Reports(st.log), sh))
      ensures sh.len > 0 ==> share == Fold(sha, Reports(st.log), sh)
    {
      share := GetAggShare();
    }

    method GetMerged() returns (ids: set<ReportId>)
      requires Valid()
      modifies `reportIds, `keyCount
      ensures Valid() && ids == st.ids
    {
      ids := LoadAggregatedReportIds();
    }

    method MarkCollected()
      requires Valid()
      modifies this
      ensures Valid() && st == Step(Durable, old(st), OpMarkCollected)
    {
      storage := storage.(collected := Some(true));
      collected := Some(true);
      st := st.(collected := true);
    }

    method CheckCollected() returns (r: bool)
      requires Valid()
      modifies `collected
      ensures Valid() && r == st.collected
    {
      r := IsCollected();
    }
  }

  lemma SameIds(contained: seq<ReportId>, rs: seq<Report>)
    requires |contained| == |rs| && forall i | 0 <= i < |rs| :: contained[i] == rs[i].id
    ensures (set id | id in contained) == IdSet(rs)
  {
    forall r | r in rs ensures r.id in contained {
      var i :| 0 <= i < |rs| && rs[i] == r;
      assert contained[i] == r.id;
    }
    forall id | id in contained ensures id in IdSet(rs) {
      var i :| 0 <= i < |contained| && contained[i] == id;
      assert rs[i] in rs;
    }
  }

  lemma RepeatsAre(contained: seq<ReportId>, merged: set<ReportId>, rs: seq<Report>)
    requires |contained| == |rs| && forall i | 0 <= i < |rs| :: contained[i] == rs[i].id
    ensures (set id | id in contained) == IdSet(rs)
    ensures var repeats := set id | id in contained && id in merged;
            repeats == IdSet(rs) * merged && (repeats == {} <==> IdSet(rs) !! merged)
  {
    SameIds(contained, rs);
    var ids := set id | id in contained;
    assert forall id | id in IdSet(rs) && id in merged :: id in ids;
    assert forall id | id in IdSet(rs) && id in merged :: id in IdSet(rs) * merged;
  }

  /** Storing the data of a share over the data of an earlier one. */
  lemma StagedChunks(storage: Storage, before: Share, after: Share, full: Share, sh: Shape)
    requires Capacity(sh) && Shaped(before, sh) && Shaped(full, sh) && Reads(after, full) && before.count <= full.count
    requires ShareStored(storage, before) || ShareStored(storage, ColdShare(before))
    ensures CanonicalData(after.data)
    ensures NumChunks(DataBytes(after.data)) <= MAX_AGG_SHARE_CHUNK_KEY_COUNT
    ensures storage.shareChunks + ChunksOf(DataBytes(after.data)) == ChunksOf(DataBytes(after.data))
  {
    ReadsCanonical(after, full, sh);
    ReadsCanonical(before, before, sh);
    ReadsCanonical(ColdShare(before), before, sh);
    ChunksOver(DataBytes(before.data), DataBytes(after.data));
  }

  // ---- Whole runs

  ghost predicate Fits(st: BucketState, op: Op) {
    op.OpMerge? ==> |st.ids + IdSet(op.reports)| <= 255 * IDS_PER_CHUNK
  }

  method ServeRequest(store: Store, op: Op)
    requires store.Valid() && Fits(store.st, op) && (op.OpMerge? ==> AllShaped(op.reports, store.sh))
    modifies store
    ensures store.Valid() && store.st == Step(Durable, old(store.st), op)
  {
    match op {
      case OpMerge(job, rs) =>
        var delta := FoldReports(store.sha, rs, store.sh);
        var ids := seq(|rs|, i requires 0 <= i < |rs| => rs[i].id);
        var _ := store.Merge(ids, delta, job, rs);
      case OpMarkCollected => store.MarkCollected();
    }
  }

  /**
  Cache and storage agree: after any requests, with the object dropped from memory wherever
  `drop` says, the report IDs and the share loaded cold from the chunks are those of the log.
  The share is that of the log if and only if its data has elements, or nothing was stored.
  */
  method ServeAndReload(sha: Sha, ops: seq<Op>, drop: seq<bool>, ghost sh: Shape)
    returns (ids: set<ReportId>, share: Share)
    requires Capacity(sh) && ShapedOps(ops, sh) && |drop| == |ops|
    requires forall k | 0 <= k < |ops| :: Fits(RunOps(Durable, FRESH, ops[..k]), ops[k])
    ensures ids == RunOps(Durable, FRESH, ops).ids
    ensures AllShaped(Reports(RunOps(Durable, FRESH, ops).log), sh)
    ensures var full := Fold(sha, Reports(RunOps(Durable, FRESH, ops).log), sh);
            share == ColdShare(full) && (share == full <==> sh.len > 0 || RunOps(Durable, FRESH, ops).log == [])
  {
    var store := new Store(sha, sh);
    for k := 0 to |ops|
      invariant fresh(store) && store.Valid() && store.sha == sha && store.sh == sh
      invariant store.st == RunOps(Durable, FRESH, ops[..k])
    {
      assert ops[..k + 1][..k] == ops[..k];
      if drop[k] {
        store.Restart();
      }
      ServeRequest(store, ops[k]);
    }
    assert ops[..|ops|] == ops;
    store.Restart();
    ids := store.GetMerged();
    share := store.GetAggShare();
    ColdShareExact(sha, Reports(store.st.log), sh);
  }

  /** One report without data, merged and loaded cold: its share had data, the loaded one has none. */
  method ReloadLosesData(sha: Sha) returns (ops: seq<Op>, share: Share, ghost sh: Shape)
    ensures WellFormedOps(ops) && ShapedOps(ops, sh) && AllShaped(Reports(RunOps(Durable, FRESH, ops).log), sh)
    ensures Fold(sha, Reports(RunOps(Durable, FRESH, ops).log), sh).data == Some(VdafShare(Field64, []))
    ensures share.count == 1 && share.data.None?
  {
    var r := Report(ZERO_DIGEST[..16], 0, VdafShare(Field64, []));
    sh := Shape(Field64, 0);
    ops := [OpMerge(0, [r])];
    assert ops[..0] == [];
    assert RunOps(Durable, FRESH, ops).log == [Entry(r, 0)];
    assert Reports([Entry(r, 0)]) == [r] && [r][..0] == [];
    FoldMeaning(sha, [r], sh);
    DistinctCard([r]);
    var ids;
    ids, share := ServeAndReload(sha, ops, [false], sh);
  }
}
