/** Cover updates of a comic issue: upload the images, replace the issue's cover rows in one transaction, then
    delete the objects that lost. */
module Covers {
  import opened Wrappers
  import opened Constants
  import opened FileReferences

  datatype CoverKind = Stateless | Stateful

  /** A stored cover row of the issue, as the query returns it. */
  datatype CoverRow = CoverRow(ref: Ref, image: string)

  /** A row to insert; `isNew` when the request brought an image for it. */
  datatype PlannedRow = PlannedRow(ref: Ref, image: string, isNew: bool)

  /** A cover of the request: its size in bytes, zero for an unchanged image, its upload, and for a stateless
      cover the share it may name. */
  datatype CoverDto = CoverDto(ref: Ref, size: nat, upload: Upload, share: Option<nat>)

  datatype CoverOutcome = Replaced | RowsRejected | DataFailed | NoOldCover

  predicate Owned(kind: CoverKind, id: nat, r: Ref) {
    match kind
    case Stateless => r.StatelessImage? && r.issueId == id
    case Stateful => r.StatefulImage? && r.issueId == id
  }

  // ---------- the rows ----------

  function FindImage(stored: seq<CoverRow>, r: Ref): (image: Option<string>)
    ensures image.Some? ==> CoverRow(r, image.value) in stored
    ensures image.None? ==> forall row :: row in stored ==> row.ref != r
  {
    if stored == [] then None
    else if stored[0].ref == r then Some(stored[0].image)
    else FindImage(stored[1..], r)
  }

  /** Images of the request, and its rows: an image-less stateless cover takes over the old image of its rarity,
      or throws when there is none. */
  function Merge(stored: seq<CoverRow>, dtos: seq<CoverDto>): Option<seq<PlannedRow>>
    requires forall d :: d in dtos ==> d.upload.Stored?
  {
    if dtos == [] then Some([])
    else
      var before, d := Merge(stored, dtos[..|dtos| - 1]), dtos[|dtos| - 1];
      assert d in dtos;
      var image := if d.size > 0 then Some(d.upload.key) else FindImage(stored, d.ref);
      if before.None? || image.None? then None else Some(before.value + [PlannedRow(d.ref, image.value, d.size > 0)])
  }

  function NewKeys(dtos: seq<CoverDto>): seq<string>
    requires forall d :: d in dtos ==> d.upload.Stored?
  {
    if dtos == [] then []
    else
      var d := dtos[|dtos| - 1];
      assert d in dtos;
      NewKeys(dtos[..|dtos| - 1]) + (if d.size > 0 then [d.upload.key] else [])
  }

  predicate Changed(dtos: seq<CoverDto>, r: Ref) {
    exists d :: d in dtos && d.size > 0 && d.ref == r
  }

  /** Old images of the covers that the request brings an image for. */
  function ChangedKeys(stored: seq<CoverRow>, dtos: seq<CoverDto>): seq<string> {
    if stored == [] then []
    else ChangedKeys(stored[..|stored| - 1], dtos)
         + (if Changed(dtos, stored[|stored| - 1].ref) then [stored[|stored| - 1].image] else [])
  }

  function Images(stored: seq<CoverRow>): seq<string> {
    if stored == [] then [] else Images(stored[..|stored| - 1]) + [stored[|stored| - 1].image]
  }

  // ---------- the transaction ----------

  function Cleared(refs: map<Ref, string>, kind: CoverKind, id: nat): map<Ref, string> {
    map r | r in refs && !Owned(kind, id, r) :: refs[r]
  }

  function WithRows(refs: map<Ref, string>, rows: seq<PlannedRow>): map<Ref, string> {
    if rows == [] then refs
    else WithRows(refs, rows[..|rows| - 1])[rows[|rows| - 1].ref := rows[|rows| - 1].image]
  }

  /** The unique constraints on cover rows: one stateless cover a rarity, one stateful cover a set of traits. */
  predicate DistinctRefs(rows: seq<PlannedRow>) {
    forall i, j :: 0 <= i < j < |rows| ==> rows[i].ref != rows[j].ref
  }

  function ReplaceRows(s: Store, kind: CoverKind, id: nat, rows: seq<PlannedRow>, newKeys: seq<string>,
          oldKeys: seq<string>, rowFails: bool, stuck: set<string>): (CoverOutcome, Store) {
    if rowFails || !DistinctRefs(rows) then (RowsRejected, Store(s.refs, DeleteAll(s.bucket, newKeys, stuck)))
    else (Replaced, Store(WithRows(Cleared(s.refs, kind, id), rows), DeleteAll(s.bucket, oldKeys, stuck)))
  }

  /** The rows to insert, and the keys to delete on failure. */
  ghost predicate Plans(s: Store, kind: CoverKind, id: nat, rows: seq<PlannedRow>, newKeys: seq<string>) {
    && (forall row :: row in rows ==> Owned(kind, id, row.ref))
    && (forall row :: row in rows && row.isNew ==> FreshFor(s.refs, row.ref, row.image) && row.image in newKeys)
    && (forall row :: row in rows && !row.isNew ==> row.ref in s.refs && s.refs[row.ref] == row.image)
    && (forall a, b :: a in rows && b in rows && a.isNew && b.isNew && a.ref != b.ref ==> a.image != b.image)
    && (forall k :: k in newKeys ==> exists row :: row in rows && row.isNew && row.image == k)
  }

  /** The keys to delete on success. */
  ghost predicate Retires(s: Store, kind: CoverKind, id: nat, rows: seq<PlannedRow>, oldKeys: seq<string>) {
    && (forall k :: k in oldKeys ==> exists r :: Retired(s, kind, id, rows, r) && s.refs[r] == k)
    && (forall row :: row in rows && row.isNew && row.ref in s.refs ==> s.refs[row.ref] in oldKeys)
  }

  /** An old cover of the issue whose image no inserted row takes over. */
  predicate Retired(s: Store, kind: CoverKind, id: nat, rows: seq<PlannedRow>, r: Ref) {
    r in s.refs && Owned(kind, id, r) && forall row :: row in rows && row.ref == r ==> row.isNew
  }

  /** A new image was stored under the key its own cover already has, and the bucket will delete that key. */
  predicate Reuses(s: Store, rows: seq<PlannedRow>, stuck: set<string>) {
    exists row :: row in rows && row.isNew && row.ref in s.refs && s.refs[row.ref] == row.image && row.image !in stuck
  }

  lemma {:induction false} WithRowsSpec(refs: map<Ref, string>, rows: seq<PlannedRow>)
    requires DistinctRefs(rows)
    ensures forall row :: row in rows ==> row.ref in WithRows(refs, rows) && WithRows(refs, rows)[row.ref] == row.image
    ensures forall r :: r in WithRows(refs, rows) && (forall row :: row in rows ==> row.ref != r) ==>
              r in refs && WithRows(refs, rows)[r] == refs[r]
    ensures refs.Keys <= WithRows(refs, rows).Keys
  {
    if rows != [] {
      var before, last := rows[..|rows| - 1], rows[|rows| - 1];
      WithRowsSpec(refs, before);
      assert forall row :: row in rows <==> row in before || row == last;
      forall row | row in before ensures row.ref != last.ref {
        var i :| 0 <= i < |before| && before[i] == row;
      }
    }
  }

  /** The columns after the transaction: the inserted rows, and every column that is not a cover of the issue. */
  lemma {:induction false} ReplacedRefs(s: Store, kind: CoverKind, id: nat, rows: seq<PlannedRow>)
    requires DistinctRefs(rows)
    ensures var refs := WithRows(Cleared(s.refs, kind, id), rows);
            && (forall row :: row in rows ==> row.ref in refs && refs[row.ref] == row.image)
            && (forall r :: r in refs ==>
                  (exists row :: row in rows && row.ref == r)
                    || (r in s.refs && !Owned(kind, id, r) && refs[r] == s.refs[r]))
            && (forall r :: r in s.refs && !Owned(kind, id, r) ==> r in refs)
  {
    WithRowsSpec(Cleared(s.refs, kind, id), rows);
  }

  /** No two columns share a key after the transaction. */
  lemma {:induction false} ReplacedUnique(s: Store, kind: CoverKind, id: nat, rows: seq<PlannedRow>,
          newKeys: seq<string>)
    requires Sound(s) && Plans(s, kind, id, rows, newKeys) && DistinctRefs(rows)
    ensures var refs := WithRows(Cleared(s.refs, kind, id), rows);
            forall r, r' :: r in refs && r' in refs && r != r' && refs[r] == refs[r'] ==> refs[r] == ""
  {
    ReplacedRefs(s, kind, id, rows);
  }

  /** Which of the stored keys the transaction leaves without an object. */
  lemma {:induction false} ReplacedSound(s: Store, bucket: set<string>, kind: CoverKind, id: nat,
          rows: seq<PlannedRow>, newKeys: seq<string>, oldKeys: seq<string>, stuck: set<string>)
    requires Sound(s) && Plans(s, kind, id, rows, newKeys) && Retires(s, kind, id, rows, oldKeys) && DistinctRefs(rows)
    requires s.bucket <= bucket && forall k :: k in newKeys ==> k in bucket
    ensures Sound(ReplaceRows(Store(s.refs, bucket), kind, id, rows, newKeys, oldKeys, false, stuck).1)
            <==> !Reuses(s, rows, stuck)
  {
    ReplacedRefs(s, kind, id, rows);
    ReplacedUnique(s, kind, id, rows, newKeys);
    var after := ReplaceRows(Store(s.refs, bucket), kind, id, rows, newKeys, oldKeys, false, stuck).1;
    if Reuses(s, rows, stuck) {
      var row :| row in rows && row.isNew && row.ref in s.refs && s.refs[row.ref] == row.image && row.image !in stuck;
      assert FreshFor(s.refs, row.ref, row.image);
      assert after.refs[row.ref] == row.image && row.image !in after.bucket;
    } else {
      forall r | r in after.refs && after.refs[r] != "" ensures after.refs[r] in after.bucket {
        KeptObject(s, bucket, kind, id, rows, newKeys, oldKeys, stuck, r);
      }
    }
  }

  lemma {:induction false} KeptObject(s: Store, bucket: set<string>, kind: CoverKind, id: nat, rows: seq<PlannedRow>,
          newKeys: seq<string>, oldKeys: seq<string>, stuck: set<string>, r: Ref)
    requires Sound(s) && Plans(s, kind, id, rows, newKeys) && Retires(s, kind, id, rows, oldKeys) && DistinctRefs(rows)
    requires s.bucket <= bucket && forall k :: k in newKeys ==> k in bucket
    requires !Reuses(s, rows, stuck)
    requires var refs := WithRows(Cleared(s.refs, kind, id), rows); r in refs && refs[r] != ""
    ensures WithRows(Cleared(s.refs, kind, id), rows)[r] in DeleteAll(bucket, oldKeys, stuck)
  {
    ReplacedRefs(s, kind, id, rows);
    var key := WithRows(Cleared(s.refs, kind, id), rows)[r];
    assert key in bucket;
    assert key !in oldKeys || key in stuck;
  }

  /** Rejected rows leave the columns as they were; deleting the new images is harmless on the same condition. */
  lemma {:induction false} RejectedSound(s: Store, bucket: set<string>, kind: CoverKind, id: nat,
          rows: seq<PlannedRow>, newKeys: seq<string>, stuck: set<string>)
    requires Sound(s) && Plans(s, kind, id, rows, newKeys)
    requires s.bucket <= bucket
    ensures Sound(Store(s.refs, DeleteAll(bucket, newKeys, stuck))) <==> !Reuses(s, rows, stuck)
  {
    var after := Store(s.refs, DeleteAll(bucket, newKeys, stuck));
    if Reuses(s, rows, stuck) {
      var row :| row in rows && row.isNew && row.ref in s.refs && s.refs[row.ref] == row.image && row.image !in stuck;
      assert FreshFor(s.refs, row.ref, row.image);
      assert after.refs[row.ref] == row.image && row.image !in after.bucket;
    } else {
      forall r | r in s.refs && s.refs[r] != "" ensures s.refs[r] in after.bucket {
        if s.refs[r] in newKeys {
          var row :| row in rows && row.isNew && row.image == s.refs[r];
          assert FreshFor(s.refs, row.ref, row.image);
        }
      }
    }
  }

  // ---------- the requests ----------

  /** The rows of one issue, in any order. */
  ghost predicate IsRowsOf(refs: map<Ref, string>, kind: CoverKind, id: nat, stored: seq<CoverRow>) {
    && (forall row :: row in stored ==> Owned(kind, id, row.ref) && row.ref in refs && refs[row.ref] == row.image)
    && (forall r :: r in refs && Owned(kind, id, r) ==> exists row :: row in stored && row.ref == r)
  }

  /** New keys are fresh for their covers, and differ between covers. */
  ghost predicate FreshCovers(s: Store, kind: CoverKind, id: nat, dtos: seq<CoverDto>) {
    && (forall d :: d in dtos ==>
          Owned(kind, id, d.ref) && (d.upload.Stored? ==> FreshFor(s.refs, d.ref, d.upload.key)))
    && (forall d, e :: d in dtos && e in dtos && d.upload.Stored? && e.upload.Stored? && d.ref != e.ref ==>
          d.upload.key != e.upload.key)
  }

  predicate AllStored(dtos: seq<CoverDto>) {
    forall d :: d in dtos ==> d.upload.Stored?
  }

  /** getRarityShare: throws for a number of covers without a table, and for a rarity its table does not have. */
  predicate HasShare(numberOfCovers: nat, rarity: ComicRarity) {
    var table := GetRarityShareTable(numberOfCovers);
    table.Some? && exists share :: share in table.value && share.rarity == rarity
  }

  /** Every stateless cover names its share, or gets one from the table for this many covers. */
  predicate SharesKnown(dtos: seq<CoverDto>) {
    forall d :: d in dtos && d.ref.StatelessImage? && d.share.None? ==> HasShare(|dtos|, d.ref.rarity)
  }

  /** The data of all covers could be made; it is made after each cover's upload, so failing deletes nothing. */
  predicate DataMade(dtos: seq<CoverDto>) {
    AllStored(dtos) && SharesKnown(dtos)
  }

  /** Every upload is attempted, and every object that was stored stays, a zero-size one included. */
  function UploadAll(bucket: set<string>, dtos: seq<CoverDto>): set<string> {
    if dtos == [] then bucket
    else UploadAll(bucket, dtos[..|dtos| - 1])
         + (if dtos[|dtos| - 1].upload.Stored? then {dtos[|dtos| - 1].upload.key} else {})
  }

  function AsRows(dtos: seq<CoverDto>): seq<PlannedRow>
    requires AllStored(dtos)
  {
    if dtos == [] then []
    else
      var d := dtos[|dtos| - 1];
      assert d in dtos;
      AsRows(dtos[..|dtos| - 1]) + [PlannedRow(d.ref, d.upload.key, true)]
  }

  function AllKeys(dtos: seq<CoverDto>): seq<string>
    requires AllStored(dtos)
  {
    if dtos == [] then []
    else
      var d := dtos[|dtos| - 1];
      assert d in dtos;
      AllKeys(dtos[..|dtos| - 1]) + [d.upload.key]
  }

  function StatelessCoversAfter(s: Store, id: nat, stored: seq<CoverRow>, dtos: seq<CoverDto>, rowFails: bool,
          stuck: set<string>): (CoverOutcome, Store) {
    var uploaded := s.(bucket := UploadAll(s.bucket, dtos));
    if !DataMade(dtos) then (DataFailed, uploaded)
    else
      var rows := Merge(stored, dtos);
      if rows.None? then (NoOldCover, uploaded)
      else ReplaceRows(uploaded, Stateless, id, rows.value, NewKeys(dtos), ChangedKeys(stored, dtos), rowFails, stuck)
  }

  function StatefulCoversAfter(s: Store, id: nat, stored: seq<CoverRow>, dtos: seq<CoverDto>, rowFails: bool,
          stuck: set<string>): (CoverOutcome, Store) {
    var uploaded := s.(bucket := UploadAll(s.bucket, dtos));
    if !AllStored(dtos) then (DataFailed, uploaded)
    else ReplaceRows(uploaded, Stateful, id, AsRows(dtos), AllKeys(dtos), Images(stored), rowFails, stuck)
  }

  lemma {:induction false} UploadAllSpec(bucket: set<string>, dtos: seq<CoverDto>)
    ensures bucket <= UploadAll(bucket, dtos)
    ensures forall d :: d in dtos && d.upload.Stored? ==> d.upload.key in UploadAll(bucket, dtos)
  {
    if dtos != [] {
      UploadAllSpec(bucket, dtos[..|dtos| - 1]);
      assert forall d :: d in dtos <==> d in dtos[..|dtos| - 1] || d == dtos[|dtos| - 1];
    }
  }

  lemma {:induction false} NewKeysSpec(dtos: seq<CoverDto>)
    requires AllStored(dtos)
    ensures forall k :: k in NewKeys(dtos) <==> exists d :: d in dtos && d.size > 0 && d.upload.key == k
  {
    if dtos != [] {
      var before, last := dtos[..|dtos| - 1], dtos[|dtos| - 1];
      NewKeysSpec(before);
      assert forall d :: d in dtos <==> d in before || d == last;
    }
  }

  lemma {:induction false} ChangedKeysSpec(stored: seq<CoverRow>, dtos: seq<CoverDto>)
    ensures forall k ::
              k in ChangedKeys(stored, dtos) <==> exists row ::
                row in stored && Changed(dtos, row.ref) && row.image == k
  {
    if stored != [] {
      var before, last := stored[..|stored| - 1], stored[|stored| - 1];
      ChangedKeysSpec(before, dtos);
      assert forall row :: row in stored <==> row in before || row == last;
    }
  }

  lemma {:induction false} ImagesSpec(stored: seq<CoverRow>)
    ensures forall k :: k in Images(stored) <==> exists row :: row in stored && row.image == k
  {
    if stored != [] {
      var before, last := stored[..|stored| - 1], stored[|stored| - 1];
      ImagesSpec(before);
      assert forall row :: row in stored <==> row in before || row == last;
    }
  }

  /** Merging succeeds exactly when every image-less cover has an old cover of its rarity; row `i` then holds the
      new image of cover `i`, or the old image of the same rarity. */
  lemma {:induction false} MergeSpec(stored: seq<CoverRow>, dtos: seq<CoverDto>)
    requires AllStored(dtos)
    ensures Merge(stored, dtos).Some? <==> forall d :: d in dtos && d.size == 0 ==>
              exists row :: row in stored && row.ref == d.ref
    ensures Merge(stored, dtos).Some? ==>
              var rows := Merge(stored, dtos).value;
              |rows| == |dtos| && forall i :: 0 <= i < |dtos| ==>
                && rows[i].ref == dtos[i].ref && rows[i].isNew == (dtos[i].size > 0)
                && (if dtos[i].size > 0 then rows[i].image == dtos[i].upload.key
                    else CoverRow(dtos[i].ref, rows[i].image) in stored)
  {
    if dtos != [] {
      var before, last := dtos[..|dtos| - 1], dtos[|dtos| - 1];
      MergeSpec(stored, before);
      assert forall d :: d in dtos <==> d in before || d == last;
    }
  }

  lemma {:induction false} AsRowsSpec(dtos: seq<CoverDto>)
    requires AllStored(dtos)
    ensures |AsRows(dtos)| == |AllKeys(dtos)| == |dtos|
    ensures forall i :: 0 <= i < |dtos| ==>
              AsRows(dtos)[i] == PlannedRow(dtos[i].ref, dtos[i].upload.key, true)
                && AllKeys(dtos)[i] == dtos[i].upload.key
  {
    if dtos != [] {
      AsRowsSpec(dtos[..|dtos| - 1]);
    }
  }

  // ---------- the main results ----------

  predicate DistinctCovers(dtos: seq<CoverDto>) {
    forall i, j :: 0 <= i < j < |dtos| ==> dtos[i].ref != dtos[j].ref
  }

  /** Whether a cover of the request replaces the stored image: a stateful one always does. */
  predicate Brings(kind: CoverKind, d: CoverDto) {
    kind == Stateful || d.size > 0
  }

  /** Some cover was uploaded under the key it already has, and that key can be deleted. */
  predicate ReusesKey(s: Store, kind: CoverKind, dtos: seq<CoverDto>, stuck: set<string>) {
    exists d ::
      d in dtos && Brings(kind, d) && d.upload.Stored? && d.ref in s.refs && s.refs[d.ref] == d.upload.key
        && d.upload.key !in stuck
  }

  /** Row by row, what the request asks for: the new image, or the stored image of the same cover. */
  ghost predicate RowsFor(s: Store, kind: CoverKind, dtos: seq<CoverDto>, rows: seq<PlannedRow>)
    requires AllStored(dtos)
  {
    && |rows| == |dtos|
    && forall i :: 0 <= i < |dtos| ==>
         && rows[i].ref == dtos[i].ref && rows[i].isNew == Brings(kind, dtos[i])
         && (if rows[i].isNew then rows[i].image == dtos[i].upload.key
             else dtos[i].ref in s.refs && s.refs[dtos[i].ref] == rows[i].image)
  }

  predicate Matches(kind: CoverKind, d: CoverDto, row: PlannedRow) {
    && d.ref == row.ref && Brings(kind, d) == row.isNew
    && (row.isNew ==> d.upload == Stored(row.image))
  }

  lemma {:induction false} RowsAndCovers(s: Store, kind: CoverKind, dtos: seq<CoverDto>, rows: seq<PlannedRow>)
    requires AllStored(dtos) && RowsFor(s, kind, dtos, rows)
    ensures forall row :: row in rows ==> exists d :: d in dtos && Matches(kind, d, row)
    ensures forall d :: d in dtos ==> exists row :: row in rows && Matches(kind, d, row)
  {
    forall row | row in rows
      ensures exists d :: d in dtos && Matches(kind, d, row)
    {
      var i :| 0 <= i < |rows| && rows[i] == row;
      assert dtos[i] in dtos && Matches(kind, dtos[i], row);
    }
    forall d | d in dtos
      ensures exists row :: row in rows && Matches(kind, d, row)
    {
      var i :| 0 <= i < |dtos| && dtos[i] == d;
      assert rows[i] in rows && Matches(kind, d, rows[i]);
    }
  }

  lemma {:induction false} RowsDistinct(s: Store, kind: CoverKind, dtos: seq<CoverDto>, rows: seq<PlannedRow>)
    requires AllStored(dtos) && RowsFor(s, kind, dtos, rows)
    ensures DistinctRefs(rows) <==> DistinctCovers(dtos)
  {}

  lemma {:induction false} ReusesAgree(s: Store, kind: CoverKind, dtos: seq<CoverDto>, rows: seq<PlannedRow>,
          stuck: set<string>)
    requires AllStored(dtos) && RowsFor(s, kind, dtos, rows)
    ensures Reuses(s, rows, stuck) <==> ReusesKey(s, kind, dtos, stuck)
  {
    RowsAndCovers(s, kind, dtos, rows);
  }

  lemma {:induction false} CoversPlan(s: Store, kind: CoverKind, id: nat, dtos: seq<CoverDto>, rows: seq<PlannedRow>,
          newKeys: seq<string>)
    requires FreshCovers(s, kind, id, dtos) && AllStored(dtos) && RowsFor(s, kind, dtos, rows)
    requires forall k :: k in newKeys <==> exists d :: d in dtos && Brings(kind, d) && d.upload.key == k
    ensures Plans(s, kind, id, rows, newKeys)
  {
    RowsAndCovers(s, kind, dtos, rows);
    forall row | row in rows && !row.isNew ensures row.ref in s.refs && s.refs[row.ref] == row.image {
      var i :| 0 <= i < |rows| && rows[i] == row;
    }
  }

  /** The deleted keys are the stored images of the covers the request replaces; of all of them, for stateful ones. */
  ghost predicate RetiresFor(s: Store, kind: CoverKind, id: nat, dtos: seq<CoverDto>, oldKeys: seq<string>) {
    && (forall k :: k in oldKeys ==>
          exists r :: r in s.refs && Owned(kind, id, r) && (kind == Stateful || Changed(dtos, r)) && s.refs[r] == k)
    && (forall d :: d in dtos && Brings(kind, d) && d.ref in s.refs ==> s.refs[d.ref] in oldKeys)
  }

  lemma {:induction false} RetiredImage(s: Store, kind: CoverKind, id: nat, dtos: seq<CoverDto>,
          rows: seq<PlannedRow>, r: Ref)
    requires AllStored(dtos) && RowsFor(s, kind, dtos, rows) && DistinctCovers(dtos)
    requires r in s.refs && Owned(kind, id, r) && (kind == Stateful || Changed(dtos, r))
    ensures Retired(s, kind, id, rows, r)
  {
    forall row | row in rows && row.ref == r ensures row.isNew {
      var i :| 0 <= i < |rows| && rows[i] == row;
      if kind == Stateless {
        var d :| d in dtos && d.size > 0 && d.ref == r;
        var j :| 0 <= j < |dtos| && dtos[j] == d;
        assert i == j;
      }
    }
  }

  lemma {:induction false} CoversRetire(s: Store, kind: CoverKind, id: nat, dtos: seq<CoverDto>,
          rows: seq<PlannedRow>, oldKeys: seq<string>)
    requires AllStored(dtos) && RowsFor(s, kind, dtos, rows) && DistinctCovers(dtos)
    requires RetiresFor(s, kind, id, dtos, oldKeys)
    ensures Retires(s, kind, id, rows, oldKeys)
  {
    forall k | k in oldKeys ensures exists r :: Retired(s, kind, id, rows, r) && s.refs[r] == k {
      var r :| r in s.refs && Owned(kind, id, r) && (kind == Stateful || Changed(dtos, r)) && s.refs[r] == k;
      RetiredImage(s, kind, id, dtos, rows, r);
    }
    forall row | row in rows && row.isNew && row.ref in s.refs ensures s.refs[row.ref] in oldKeys {
      var i :| 0 <= i < |rows| && rows[i] == row;
      assert dtos[i] in dtos;
    }
  }

  /** For any request whose uploads succeeded and whose rows are known: exactly when the update goes through,
      what the columns hold afterwards, which objects are gone, and when every stored key keeps its object. */
  lemma {:induction false} CoversExactly(s: Store, bucket: set<string>, kind: CoverKind, id: nat, dtos: seq<CoverDto>,
          rows: seq<PlannedRow>, newKeys: seq<string>, oldKeys: seq<string>, rowFails: bool, stuck: set<string>)
    requires Sound(s) && FreshCovers(s, kind, id, dtos) && AllStored(dtos) && RowsFor(s, kind, dtos, rows)
    requires forall k :: k in newKeys <==> exists d :: d in dtos && Brings(kind, d) && d.upload.key == k
    requires RetiresFor(s, kind, id, dtos, oldKeys)
    requires s.bucket <= bucket && forall d :: d in dtos ==> d.upload.key in bucket
    ensures var (outcome, after) := ReplaceRows(Store(s.refs, bucket), kind, id, rows, newKeys, oldKeys, rowFails,
              stuck);
            && (outcome == Replaced <==> !rowFails && DistinctCovers(dtos))
            && (outcome != Replaced ==> after.refs == s.refs)
            && (outcome == Replaced ==> CoversReplaced(s, after, kind, id, dtos, stuck))
            && (Sound(after) <==> !ReusesKey(s, kind, dtos, stuck))
  {
    RowsDistinct(s, kind, dtos, rows);
    CoversPlan(s, kind, id, dtos, rows, newKeys);
    ReusesAgree(s, kind, dtos, rows, stuck);
    if !rowFails && DistinctCovers(dtos) {
      CoversRetire(s, kind, id, dtos, rows, oldKeys);
      assert forall k :: k in newKeys ==> k in bucket;
      ReplacedSound(s, bucket, kind, id, rows, newKeys, oldKeys, stuck);
      CoversStored(s, bucket, kind, id, dtos, rows, newKeys, oldKeys, stuck);
    } else {
      RejectedSound(s, bucket, kind, id, rows, newKeys, stuck);
    }
  }

  /** The issue's covers are those of the request, each with its new image or the image it had; every other
      column is unchanged, and replaced images are deleted. */
  ghost predicate CoversReplaced(s: Store, after: Store, kind: CoverKind, id: nat, dtos: seq<CoverDto>,
          stuck: set<string>) {
    && (forall d :: d in dtos ==> d.ref in after.refs)
    && (forall d :: d in dtos && Brings(kind, d) && d.upload.Stored? ==> after.refs[d.ref] == d.upload.key)
    && (forall d :: d in dtos && !Brings(kind, d) ==> d.ref in s.refs && after.refs[d.ref] == s.refs[d.ref])
    && (forall r :: r in after.refs && Owned(kind, id, r) ==> exists d :: d in dtos && d.ref == r)
    && (forall r :: !Owned(kind, id, r) ==> (r in after.refs <==> r in s.refs))
    && (forall r :: !Owned(kind, id, r) && r in s.refs ==> after.refs[r] == s.refs[r])
    && (forall d :: d in dtos && Brings(kind, d) && d.ref in s.refs && s.refs[d.ref] !in stuck ==>
          s.refs[d.ref] !in after.bucket)
  }

  lemma {:induction false} CoverColumn(s: Store, kind: CoverKind, id: nat, dtos: seq<CoverDto>, rows: seq<PlannedRow>,
          d: CoverDto)
    requires AllStored(dtos) && RowsFor(s, kind, dtos, rows) && DistinctRefs(rows) && d in dtos
    ensures var refs := WithRows(Cleared(s.refs, kind, id), rows);
            d.ref in refs
              && (if Brings(kind, d) then refs[d.ref] == d.upload.key
                  else d.ref in s.refs && refs[d.ref] == s.refs[d.ref])
  {
    ReplacedRefs(s, kind, id, rows);
    var i :| 0 <= i < |dtos| && dtos[i] == d;
    assert rows[i] in rows;
  }

  lemma {:induction false} ColumnsCovered(s: Store, kind: CoverKind, id: nat, dtos: seq<CoverDto>,
          rows: seq<PlannedRow>, r: Ref)
    requires AllStored(dtos) && RowsFor(s, kind, dtos, rows) && DistinctRefs(rows)
    requires r in WithRows(Cleared(s.refs, kind, id), rows) && Owned(kind, id, r)
    ensures exists d :: d in dtos && d.ref == r
  {
    ReplacedRefs(s, kind, id, rows);
    var row :| row in rows && row.ref == r;
    var i :| 0 <= i < |rows| && rows[i] == row;
    assert dtos[i] in dtos;
  }

  lemma {:induction false} CoversStored(s: Store, bucket: set<string>, kind: CoverKind, id: nat, dtos: seq<CoverDto>,
          rows: seq<PlannedRow>, newKeys: seq<string>, oldKeys: seq<string>, stuck: set<string>)
    requires FreshCovers(s, kind, id, dtos) && AllStored(dtos) && RowsFor(s, kind, dtos, rows) && DistinctCovers(dtos)
    requires RetiresFor(s, kind, id, dtos, oldKeys)
    ensures CoversReplaced(s, ReplaceRows(Store(s.refs, bucket), kind, id, rows, newKeys, oldKeys, false, stuck).1,
              kind, id, dtos, stuck)
  {
    RowsDistinct(s, kind, dtos, rows);
    var refs := WithRows(Cleared(s.refs, kind, id), rows);
    forall d | d in dtos
      ensures d.ref in refs
              && (if Brings(kind, d) then refs[d.ref] == d.upload.key
                  else d.ref in s.refs && refs[d.ref] == s.refs[d.ref])
    {
      CoverColumn(s, kind, id, dtos, rows, d);
    }
    forall r | r in refs && Owned(kind, id, r) ensures exists d :: d in dtos && d.ref == r {
      ColumnsCovered(s, kind, id, dtos, rows, r);
    }
    OtherColumns(s, kind, id, dtos, rows);
  }

  lemma {:induction false} OtherColumns(s: Store, kind: CoverKind, id: nat, dtos: seq<CoverDto>, rows: seq<PlannedRow>)
    requires FreshCovers(s, kind, id, dtos) && AllStored(dtos) && RowsFor(s, kind, dtos, rows) && DistinctRefs(rows)
    ensures var refs := WithRows(Cleared(s.refs, kind, id), rows);
            && (forall r :: !Owned(kind, id, r) ==> (r in refs <==> r in s.refs))
            && (forall r :: !Owned(kind, id, r) && r in s.refs ==> refs[r] == s.refs[r])
  {
    RowsAndCovers(s, kind, dtos, rows);
    ReplacedRefs(s, kind, id, rows);
  }

  /** Every image-less cover has an old cover of its rarity. */
  ghost predicate ImagesKnown(s: Store, dtos: seq<CoverDto>) {
    forall d :: d in dtos && d.size == 0 ==> d.ref in s.refs
  }

  lemma {:induction false} StatelessCoversExactly(s: Store, id: nat, stored: seq<CoverRow>, dtos: seq<CoverDto>,
          rowFails: bool, stuck: set<string>)
    requires Sound(s) && IsRowsOf(s.refs, Stateless, id, stored) && FreshCovers(s, Stateless, id, dtos)
    ensures var (outcome, after) := StatelessCoversAfter(s, id, stored, dtos, rowFails, stuck);
            && (outcome == Replaced <==> DataMade(dtos) && ImagesKnown(s, dtos) && DistinctCovers(dtos) && !rowFails)
            && (outcome != Replaced ==> after.refs == s.refs)
            && (outcome == Replaced ==> CoversReplaced(s, after, Stateless, id, dtos, stuck))
            && (Sound(after) <==> outcome in {DataFailed, NoOldCover} || !ReusesKey(s, Stateless, dtos, stuck))
  {
    UploadAllSpec(s.bucket, dtos);
    if DataMade(dtos) {
      MergeSpec(stored, dtos);
      if Merge(stored, dtos).Some? {
        NewKeysSpec(dtos);
        ChangedKeysSpec(stored, dtos);
        CoversExactly(s, UploadAll(s.bucket, dtos), Stateless, id, dtos, Merge(stored, dtos).value, NewKeys(dtos),
          ChangedKeys(stored, dtos), rowFails, stuck);
      }
    }
  }

  lemma {:induction false} StatefulCoversExactly(s: Store, id: nat, stored: seq<CoverRow>, dtos: seq<CoverDto>,
          rowFails: bool, stuck: set<string>)
    requires Sound(s) && IsRowsOf(s.refs, Stateful, id, stored) && FreshCovers(s, Stateful, id, dtos)
    ensures var (outcome, after) := StatefulCoversAfter(s, id, stored, dtos, rowFails, stuck);
            && (outcome == Replaced <==> AllStored(dtos) && DistinctCovers(dtos) && !rowFails)
            && (outcome != Replaced ==> after.refs == s.refs)
            && (outcome == Replaced ==> CoversReplaced(s, after, Stateful, id, dtos, stuck))
            && (Sound(after) <==> outcome == DataFailed || !ReusesKey(s, Stateful, dtos, stuck))
  {
    UploadAllSpec(s.bucket, dtos);
    if AllStored(dtos) {
      AsRowsSpec(dtos);
      AllKeysSpec(dtos);
      ImagesSpec(stored);
      CoversExactly(s, UploadAll(s.bucket, dtos), Stateful, id, dtos, AsRows(dtos), AllKeys(dtos), Images(stored),
        rowFails, stuck);
    }
  }

  lemma {:induction false} AllKeysSpec(dtos: seq<CoverDto>)
    requires AllStored(dtos)
    ensures forall k :: k in AllKeys(dtos) <==> exists d :: d in dtos && d.upload.key == k
  {
    if dtos != [] {
      AllKeysSpec(dtos[..|dtos| - 1]);
      assert forall d :: d in dtos <==> d in dtos[..|dtos| - 1] || d == dtos[|dtos| - 1];
    }
  }

  // ---------- columns and objects, named ----------

  /** Which rarities a share table has: one cover is common, three and five are those of the tables; any other number
      of covers has no share at all. */
  lemma {:induction false} HasShareExactly(numberOfCovers: nat, rarity: ComicRarity)
    ensures HasShare(numberOfCovers, rarity)
            <==> || (numberOfCovers == 1 && rarity == Common)
                 || (numberOfCovers == 3 && rarity in {Common, Rare, Legendary})
                 || (numberOfCovers == 5 && rarity in {Common, Uncommon, Rare, Epic, Legendary})
  {
    var table := GetRarityShareTable(numberOfCovers);
    if table.Some? {
      assert |table.value| == numberOfCovers;
      forall i | 0 <= i < |table.value| ensures table.value[i] in table.value {
      }
    }
  }

  /** An update of an issue's stateless covers leaves every other column alone; when it goes through, the issue has
      the covers of the request and no other. */
  lemma {:induction false} StatelessColumns(s: Store, id: nat, stored: seq<CoverRow>, dtos: seq<CoverDto>,
          rowFails: bool, stuck: set<string>)
    requires Sound(s) && IsRowsOf(s.refs, Stateless, id, stored) && FreshCovers(s, Stateless, id, dtos)
    ensures var (outcome, after) := StatelessCoversAfter(s, id, stored, dtos, rowFails, stuck);
            && (forall r :: r in s.refs && !(r.StatelessImage? && r.issueId == id) ==>
                  r in after.refs && after.refs[r] == s.refs[r])
            && (forall r :: r in after.refs && !(r.StatelessImage? && r.issueId == id) ==> r in s.refs)
            && (outcome == Replaced ==>
                  forall rarity :: StatelessImage(id, rarity) in after.refs
                                   <==> exists d :: d in dtos && d.ref == StatelessImage(id, rarity))
  {
    StatelessCoversExactly(s, id, stored, dtos, rowFails, stuck);
  }

  lemma {:induction false} StatefulColumns(s: Store, id: nat, stored: seq<CoverRow>, dtos: seq<CoverDto>,
          rowFails: bool, stuck: set<string>)
    requires Sound(s) && IsRowsOf(s.refs, Stateful, id, stored) && FreshCovers(s, Stateful, id, dtos)
    ensures var (outcome, after) := StatefulCoversAfter(s, id, stored, dtos, rowFails, stuck);
            && (forall r :: r in s.refs && !(r.StatefulImage? && r.issueId == id) ==>
                  r in after.refs && after.refs[r] == s.refs[r])
            && (forall r :: r in after.refs && !(r.StatefulImage? && r.issueId == id) ==> r in s.refs)
            && (outcome == Replaced ==>
                  forall r :: r in after.refs && r.StatefulImage? && r.issueId == id
                              <==> exists d :: d in dtos && d.ref == r)
  {
    StatefulCoversExactly(s, id, stored, dtos, rowFails, stuck);
  }

  /** An object the request stored. */
  predicate Uploaded(dtos: seq<CoverDto>, k: string) {
    exists d :: d in dtos && d.upload == Stored(k)
  }

  /** One that is a new image: zero-size covers have objects that are none. */
  predicate NewImage(dtos: seq<CoverDto>, k: string) {
    exists d :: d in dtos && d.size > 0 && d.upload == Stored(k)
  }

  /** The image of a stateless cover of the issue that the request has a new image for. */
  ghost predicate ReplacedImage(s: Store, id: nat, dtos: seq<CoverDto>, k: string) {
    exists rarity :: && StatelessImage(id, rarity) in s.refs && s.refs[StatelessImage(id, rarity)] == k
                     && exists d :: d in dtos && d.size > 0 && d.ref == StatelessImage(id, rarity)
  }

  lemma {:induction false} UploadAllExactly(bucket: set<string>, dtos: seq<CoverDto>, k: string)
    ensures k in UploadAll(bucket, dtos) <==> k in bucket || Uploaded(dtos, k)
  {
    if dtos != [] {
      UploadAllExactly(bucket, dtos[..|dtos| - 1], k);
      assert forall d :: d in dtos <==> d in dtos[..|dtos| - 1] || d == dtos[|dtos| - 1];
    }
  }

  lemma {:induction false} ChangedImages(s: Store, id: nat, stored: seq<CoverRow>, dtos: seq<CoverDto>, k: string)
    requires IsRowsOf(s.refs, Stateless, id, stored)
    ensures k in ChangedKeys(stored, dtos) <==> ReplacedImage(s, id, dtos, k)
  {
    ChangedKeysSpec(stored, dtos);
    if row :| row in stored && Changed(dtos, row.ref) && row.image == k {
      assert row.ref == StatelessImage(id, row.ref.rarity);
    }
    if ReplacedImage(s, id, dtos, k) {
      var rarity :| && StatelessImage(id, rarity) in s.refs && s.refs[StatelessImage(id, rarity)] == k
                    && exists d :: d in dtos && d.size > 0 && d.ref == StatelessImage(id, rarity);
      var row :| row in stored && row.ref == StatelessImage(id, rarity);
      assert Changed(dtos, row.ref) && row.image == k;
    }
  }

  /** The objects after an update of stateless covers: those of before and the uploaded ones, but for the new images if
      the rows were rejected, and the replaced ones when they were stored, that the bucket would delete. */
  lemma {:induction false} StatelessObjects(s: Store, id: nat, stored: seq<CoverRow>, dtos: seq<CoverDto>,
          rowFails: bool, stuck: set<string>, k: string)
    requires IsRowsOf(s.refs, Stateless, id, stored)
    ensures var (outcome, after) := StatelessCoversAfter(s, id, stored, dtos, rowFails, stuck);
            k in after.bucket
            <==> && (k in s.bucket || Uploaded(dtos, k))
                 && (k in stuck
                     || match outcome
                        case Replaced => !ReplacedImage(s, id, dtos, k)
                        case RowsRejected => !NewImage(dtos, k)
                        case _ => true)
  {
    UploadAllExactly(s.bucket, dtos, k);
    if DataMade(dtos) {
      NewKeysSpec(dtos);
      ChangedImages(s, id, stored, dtos, k);
      assert k in NewKeys(dtos) <==> NewImage(dtos, k);
    }
  }

  /** The same for stateful covers, all of which are replaced. */
  lemma {:induction false} StatefulObjects(s: Store, id: nat, stored: seq<CoverRow>, dtos: seq<CoverDto>,
          rowFails: bool, stuck: set<string>, k: string)
    requires IsRowsOf(s.refs, Stateful, id, stored)
    ensures var (outcome, after) := StatefulCoversAfter(s, id, stored, dtos, rowFails, stuck);
            k in after.bucket
            <==> && (k in s.bucket || Uploaded(dtos, k))
                 && (k in stuck
                     || match outcome
                        case Replaced =>
                          !exists r :: r in s.refs && r.StatefulImage? && r.issueId == id && s.refs[r] == k
                        case RowsRejected => !Uploaded(dtos, k)
                        case _ => true)
  {
    UploadAllExactly(s.bucket, dtos, k);
    ImagesSpec(stored);
    if AllStored(dtos) {
      AllKeysSpec(dtos);
      assert k in AllKeys(dtos) <==> Uploaded(dtos, k);
    }
    if r :| r in s.refs && r.StatefulImage? && r.issueId == id && s.refs[r] == k {
      var row :| row in stored && row.ref == r;
      assert k in Images(stored);
    }
  }

  // ---------- the services ----------

  /** createManyStatelessCoversData and its stateful twin: every image is uploaded, a stateless cover then looks
      up its share; one failure fails all. */
  method MakeData(store: FileStore, kind: CoverKind, dtos: seq<CoverDto>) returns (ok: bool)
    modifies store`bucket
    ensures ok == (AllStored(dtos) && (kind == Stateless ==> SharesKnown(dtos)))
    ensures store.bucket == UploadAll(old(store.bucket), dtos)
  {
    ok := true;
    for i := 0 to |dtos|
      invariant store.bucket == UploadAll(old(store.bucket), dtos[..i])
      invariant ok == forall k :: 0 <= k < i ==> dtos[k].upload.Stored? && ShareKnown(kind, |dtos|, dtos[k])
    {
      assert dtos[..i + 1][..i] == dtos[..i];
      if dtos[i].upload.Stored? {
        store.bucket := store.bucket + {dtos[i].upload.key};
        if !ShareKnown(kind, |dtos|, dtos[i]) {
          ok := false;
        }
      } else {
        ok := false;
      }
    }
    assert dtos[..|dtos|] == dtos;
  }

  predicate ShareKnown(kind: CoverKind, numberOfCovers: nat, d: CoverDto) {
    kind == Stateful || !d.ref.StatelessImage? || d.share.Some? || HasShare(numberOfCovers, d.ref.rarity)
  }

  /** The keys to delete on failure, and those to delete on success. */
  method StatelessKeys(stored: seq<CoverRow>, dtos: seq<CoverDto>)
    returns (newFileKeys: seq<string>, oldFileKeys: seq<string>)
    requires AllStored(dtos)
    ensures newFileKeys == NewKeys(dtos) && oldFileKeys == ChangedKeys(stored, dtos)
  {
    newFileKeys, oldFileKeys := [], [];
    for i := 0 to |dtos|
      invariant newFileKeys == NewKeys(dtos[..i])
    {
      assert dtos[..i + 1][..i] == dtos[..i];
      if dtos[i].size > 0 {
        newFileKeys := newFileKeys + [dtos[i].upload.key];
      }
    }
    for i := 0 to |stored|
      invariant oldFileKeys == ChangedKeys(stored[..i], dtos)
    {
      assert stored[..i + 1][..i] == stored[..i];
      if Changed(dtos, stored[i].ref) {
        oldFileKeys := oldFileKeys + [stored[i].image];
      }
    }
    assert dtos[..|dtos|] == dtos && stored[..|stored|] == stored;
  }

  /** Replaces the missing images by the stored ones; None when there is none to take. */
  method MergeImages(stored: seq<CoverRow>, dtos: seq<CoverDto>) returns (merged: Option<seq<PlannedRow>>)
    requires AllStored(dtos)
    ensures merged == Merge(stored, dtos)
  {
    var rows := [];
    for i := 0 to |dtos|
      invariant Merge(stored, dtos[..i]) == Some(rows)
    {
      assert dtos[..i + 1][..i] == dtos[..i];
      var image := if dtos[i].size > 0 then Some(dtos[i].upload.key) else FindImage(stored, dtos[i].ref);
      if image.None? {
        MergeSpec(stored, dtos);
        return None;
      }
      rows := rows + [PlannedRow(dtos[i].ref, image.value, dtos[i].size > 0)];
    }
    assert dtos[..|dtos|] == dtos;
    merged := Some(rows);
  }

  method UpdateStatelessCovers(store: FileStore, id: nat, stored: seq<CoverRow>, dtos: seq<CoverDto>, rowFails: bool,
          stuck: set<string>)
    returns (outcome: CoverOutcome)
    modifies store
    ensures (outcome, store.State()) == StatelessCoversAfter(old(store.State()), id, stored, dtos, rowFails, stuck)
  {
    var ok := MakeData(store, Stateless, dtos);
    if !ok {
      return DataFailed;
    }
    var newFileKeys, oldFileKeys := StatelessKeys(stored, dtos);
    var rows := MergeImages(stored, dtos);
    if rows.None? {
      return NoOldCover;
    }
    outcome := ReplaceStoredRows(store, Stateless, id, rows.value, newFileKeys, oldFileKeys, rowFails, stuck);
  }

  method UpdateStatefulCovers(store: FileStore, id: nat, stored: seq<CoverRow>, dtos: seq<CoverDto>, rowFails: bool,
          stuck: set<string>)
    returns (outcome: CoverOutcome)
    modifies store
    ensures (outcome, store.State()) == StatefulCoversAfter(old(store.State()), id, stored, dtos, rowFails, stuck)
  {
    var ok := MakeData(store, Stateful, dtos);
    if !ok {
      return DataFailed;
    }
    var newFileKeys, oldFileKeys, rows := [], [], [];
    for i := 0 to |dtos|
      invariant newFileKeys == AllKeys(dtos[..i]) && rows == AsRows(dtos[..i])
    {
      assert dtos[..i + 1][..i] == dtos[..i];
      newFileKeys := newFileKeys + [dtos[i].upload.key];
      rows := rows + [PlannedRow(dtos[i].ref, dtos[i].upload.key, true)];
    }
    for i := 0 to |stored|
      invariant oldFileKeys == Images(stored[..i])
    {
      assert stored[..i + 1][..i] == stored[..i];
      oldFileKeys := oldFileKeys + [stored[i].image];
    }
    assert dtos[..|dtos|] == dtos && stored[..|stored|] == stored;
    outcome := ReplaceStoredRows(store, Stateful, id, rows, newFileKeys, oldFileKeys, rowFails, stuck);
  }

  /** Delete the issue's rows and insert the new ones in one transaction, then delete the objects that lost. */
  method ReplaceStoredRows(store: FileStore, kind: CoverKind, id: nat, rows: seq<PlannedRow>,
          newFileKeys: seq<string>, oldFileKeys: seq<string>, rowFails: bool, stuck: set<string>)
    returns (outcome: CoverOutcome)
    modifies store
    ensures (outcome, store.State())
             == ReplaceRows(old(store.State()), kind, id, rows, newFileKeys, oldFileKeys, rowFails, stuck)
  {
    if rowFails || !DistinctRefs(rows) {
      store.DeleteObjects(newFileKeys, stuck);
      return RowsRejected;
    }
    store.refs := WithRows(Cleared(store.refs, kind, id), rows);
    store.DeleteObjects(oldFileKeys, stuck);
    outcome := Replaced;
  }
}
