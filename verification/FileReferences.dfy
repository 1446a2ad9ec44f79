/** File columns of rows against objects in the bucket: uploads, row updates and garbage collection happen one
    after the other, and any of them can fail. */
module FileReferences {
  import opened Constants

  datatype ComicField = Cover | Banner | Logo

  /** A column that stores a file key; the empty key stands for no file. */
  datatype Ref =
    | ComicFile(slug: string, field: ComicField)
    | IssuePdf(issueId: nat)
    | StatelessImage(issueId: nat, rarity: ComicRarity)
    | StatefulImage(issueId: nat, rarity: ComicRarity, isUsed: bool, isSigned: bool)

  datatype Store = Store(refs: map<Ref, string>, bucket: set<string>)

  /** Every stored key has its object, and no two columns share one. */
  ghost predicate Sound(s: Store) {
    && (forall r :: r in s.refs && s.refs[r] != "" ==> s.refs[r] in s.bucket)
    && (forall r, r' :: r in s.refs && r' in s.refs && r != r' && s.refs[r] == s.refs[r'] ==> s.refs[r] == "")
  }

  datatype Outcome = Updated | NotFound | Malformed | RowFailed | CleanupFailed

  /** A file of a request: not given, refused (too large, or the upload throws), or stored under a key. */
  datatype Upload = Absent | Refused | Stored(key: string)

  datatype File = File(ref: Ref, upload: Upload)

  // ---------- garbage collection ----------

  /** Deletes the `doomed` keys that are not `kept`, in order, until one deletion throws; the bucket will not
      delete the `stuck` keys. */
  function Collect(bucket: set<string>, doomed: seq<string>, kept: seq<string>,
          stuck: set<string>): (bool, set<string>) {
    if doomed == [] then (false, bucket)
    else if doomed[0] == "" || doomed[0] in kept then Collect(bucket, doomed[1..], kept, stuck)
    else if doomed[0] in stuck then (true, bucket)
    else Collect(bucket - {doomed[0]}, doomed[1..], kept, stuck)
  }

  /** Only doomed keys go, none that is kept; all of them go unless a deletion threw. */
  lemma {:induction false} CollectSpec(bucket: set<string>, doomed: seq<string>, kept: seq<string>, stuck: set<string>)
    ensures var (threw, after) := Collect(bucket, doomed, kept, stuck);
            && after <= bucket
            && (forall k :: k in bucket && k !in after ==> k in doomed && k !in kept && k != "")
            && (threw <==> exists k :: k in doomed && k !in kept && k != "" && k in stuck)
            && (!threw ==> forall k :: k in doomed && k !in kept && k != "" ==> k !in after)
  {
    if doomed != [] {
      var skipped := doomed[0] == "" || doomed[0] in kept;
      if skipped || doomed[0] !in stuck {
        CollectSpec(if skipped then bucket else bucket - {doomed[0]}, doomed[1..], kept, stuck);
        assert forall k :: k in doomed <==> k == doomed[0] || k in doomed[1..];
      }
    }
  }

  /** One request for all keys: the bucket keeps those it will not delete. */
  function DeleteAll(bucket: set<string>, keys: seq<string>, stuck: set<string>): set<string> {
    set k | k in bucket && (k !in keys || k in stuck)
  }

  // ---------- several files at once ----------

  datatype Progress = Progress(bucket: set<string>, newKeys: seq<string>, oldKeys: seq<string>, failed: bool)

  /** The next file of a request; nothing more is uploaded after a failure. */
  function Push(p: Progress, upload: Upload, oldKey: string): Progress {
    if p.failed then p
    else
      match upload
      case Absent => p
      case Refused => p.(failed := true)
      case Stored(key) => Progress(p.bucket + {key}, p.newKeys + [key], p.oldKeys + [oldKey], false)
  }

  function Uploads(s: Store, files: seq<File>): Progress
    requires forall f :: f in files ==> f.ref in s.refs
  {
    if files == [] then Progress(s.bucket, [], [], false)
    else
      var f := files[|files| - 1];
      assert f in files;
      Push(Uploads(s, files[..|files| - 1]), f.upload, s.refs[f.ref])
  }

  function SetFile(refs: map<Ref, string>, f: File): map<Ref, string> {
    if f.upload.Stored? then refs[f.ref := f.upload.key] else refs
  }

  /** The row update: columns without a new file keep their key. */
  function SetFiles(refs: map<Ref, string>, files: seq<File>): map<Ref, string> {
    if files == [] then refs else SetFile(SetFiles(refs, files[..|files| - 1]), files[|files| - 1])
  }

  /** Upload, update the row, then delete what was replaced; a failed upload deletes what was uploaded, a failed
      row update deletes nothing. */
  function UpdateFiles(s: Store, files: seq<File>, rowFails: bool, stuck: set<string>): (Outcome, Store)
    requires forall f :: f in files ==> f.ref in s.refs
  {
    var p := Uploads(s, files);
    if p.failed then
      var (threw, bucket) := Collect(p.bucket, p.newKeys, p.oldKeys, stuck);
      (if threw then CleanupFailed else Malformed, Store(s.refs, bucket))
    else if rowFails then (RowFailed, Store(s.refs, p.bucket))
    else
      var (threw, bucket) := Collect(p.bucket, p.oldKeys, p.newKeys, stuck);
      (if threw then CleanupFailed else Updated, Store(SetFiles(s.refs, files), bucket))
  }

  /** A new key may be the key its own column has now, and is no other column's. */
  ghost predicate FreshFor(refs: map<Ref, string>, r: Ref, key: string) {
    key != "" && forall r' :: r' in refs && r' != r ==> refs[r'] != key
  }

  ghost predicate FreshFiles(s: Store, files: seq<File>) {
    && (forall f :: f in files ==> f.ref in s.refs)
    && (forall f :: f in files && f.upload.Stored? ==> FreshFor(s.refs, f.ref, f.upload.key))
    && (forall i, j :: 0 <= i < j < |files| ==> files[i].ref != files[j].ref)
    && (forall i, j :: 0 <= i < j < |files| && files[i].upload.Stored? && files[j].upload.Stored? ==>
          files[i].upload.key != files[j].upload.key)
  }

  /** What the upload phase leaves: the objects under the new keys, each listed with its column's old key. */
  lemma {:induction false} UploadsSpec(s: Store, files: seq<File>)
    requires forall f :: f in files ==> f.ref in s.refs
    ensures var p := Uploads(s, files);
            && (forall k :: k in p.bucket <==> k in s.bucket || k in p.newKeys)
            && (forall k :: k in p.newKeys ==>
                  exists f :: f in files && f.upload == Stored(k) && s.refs[f.ref] in p.oldKeys)
            && (forall k :: k in p.oldKeys ==> exists f :: f in files && f.upload.Stored? && s.refs[f.ref] == k)
            && (!p.failed ==> forall f :: f in files && f.upload.Stored? ==>
                  f.upload.key in p.newKeys && s.refs[f.ref] in p.oldKeys)
            && (p.failed <==> exists f :: f in files && f.upload.Refused?)
  {
    UploadFails(s, files);
    if files != [] {
      var before, f := files[..|files| - 1], files[|files| - 1];
      UploadsSpec(s, before);
      assert forall g :: g in files <==> g in before || g == f;
      PushSpec(Uploads(s, before), f.upload, s.refs[f.ref]);
    }
  }

  lemma {:induction false} PushSpec(p: Progress, upload: Upload, oldKey: string)
    ensures var after := Push(p, upload, oldKey);
            if !p.failed && upload.Stored? then
              && (forall k :: k in after.bucket <==> k in p.bucket || k == upload.key)
              && (forall k :: k in after.newKeys <==> k in p.newKeys || k == upload.key)
              && (forall k :: k in after.oldKeys <==> k in p.oldKeys || k == oldKey)
            else after.bucket == p.bucket && after.newKeys == p.newKeys && after.oldKeys == p.oldKeys
  {}

  lemma {:induction false} UploadFails(s: Store, files: seq<File>)
    requires forall f :: f in files ==> f.ref in s.refs
    ensures Uploads(s, files).failed <==> exists f :: f in files && f.upload.Refused?
  {
    if files != [] {
      UploadFails(s, files[..|files| - 1]);
      assert forall g :: g in files <==> g in files[..|files| - 1] || g == files[|files| - 1];
    }
  }

  lemma {:induction false} SetFilesSpec(refs: map<Ref, string>, files: seq<File>)
    requires forall f :: f in files ==> f.ref in refs
    requires forall i, j :: 0 <= i < j < |files| ==> files[i].ref != files[j].ref
    ensures var after := SetFiles(refs, files);
            && after.Keys == refs.Keys
            && (forall f :: f in files ==> after[f.ref] == if f.upload.Stored? then f.upload.key else refs[f.ref])
            && (forall r :: r in refs && (forall f :: f in files ==> f.ref != r) ==> after[r] == refs[r])
  {
    if files != [] {
      var before, f := files[..|files| - 1], files[|files| - 1];
      SetFilesSpec(refs, before);
      assert forall g :: g in files <==> g in before || g == f;
      forall g | g in before ensures g.ref != f.ref {
        var i :| 0 <= i < |before| && before[i] == g;
      }
    }
  }

  /** A request with a refused file or a failed row update changes no column. */
  predicate Rejected(files: seq<File>, rowFails: bool) {
    rowFails || exists f :: f in files && f.upload.Refused?
  }

  lemma {:induction false} RejectedFilesSound(s: Store, files: seq<File>, rowFails: bool, stuck: set<string>)
    requires Sound(s) && FreshFiles(s, files) && Rejected(files, rowFails)
    ensures var (outcome, after) := UpdateFiles(s, files, rowFails, stuck);
            && Sound(after) && after.refs == s.refs
            && outcome != Updated
            && (outcome == Malformed ==> after.bucket <= s.bucket)
  {
    var (outcome, after) := UpdateFiles(s, files, rowFails, stuck);
    UploadFails(s, files);
    forall r | r in s.refs && s.refs[r] != "" ensures s.refs[r] in after.bucket {
      RejectedKeeps(s, files, rowFails, stuck, r);
    }
    if outcome == Malformed {
      RejectedLeavesNothing(s, files, rowFails, stuck);
    }
  }

  lemma {:induction false} RejectedKeeps(s: Store, files: seq<File>, rowFails: bool, stuck: set<string>, r: Ref)
    requires Sound(s) && FreshFiles(s, files) && Rejected(files, rowFails) && r in s.refs && s.refs[r] != ""
    ensures s.refs[r] in UpdateFiles(s, files, rowFails, stuck).1.bucket
  {
    var p := Uploads(s, files);
    UploadsSpec(s, files);
    CollectSpec(p.bucket, p.newKeys, p.oldKeys, stuck);
    if s.refs[r] in p.newKeys {
      var f :| f in files && f.upload == Stored(s.refs[r]) && s.refs[f.ref] in p.oldKeys;
      assert FreshFor(s.refs, f.ref, s.refs[r]);
      assert s.refs[r] in p.oldKeys;
    }
  }

  lemma {:induction false} RejectedLeavesNothing(s: Store, files: seq<File>, rowFails: bool, stuck: set<string>)
    requires Sound(s) && FreshFiles(s, files) && UpdateFiles(s, files, rowFails, stuck).0 == Malformed
    ensures UpdateFiles(s, files, rowFails, stuck).1.bucket <= s.bucket
  {
    var p := Uploads(s, files);
    UploadsSpec(s, files);
    CollectSpec(p.bucket, p.newKeys, p.oldKeys, stuck);
    forall k | k in UpdateFiles(s, files, rowFails, stuck).1.bucket ensures k in s.bucket {
      if k in p.newKeys {
        assert k in p.oldKeys;
        var f :| f in files && f.upload == Stored(k) && s.refs[f.ref] in p.oldKeys;
        var g :| g in files && g.upload.Stored? && s.refs[g.ref] == k;
      }
    }
  }

  lemma {:induction false} AcceptedFilesRefs(s: Store, files: seq<File>)
    requires Sound(s) && FreshFiles(s, files)
    ensures var refs := SetFiles(s.refs, files);
            forall r, r' :: r in refs && r' in refs && r != r' && refs[r] == refs[r'] ==> refs[r] == ""
  {
    SetFilesSpec(s.refs, files);
    var refs := SetFiles(s.refs, files);
    forall r, r' | r in refs && r' in refs && r != r' && refs[r] == refs[r'] ensures refs[r] == "" {
      if r !in (set f | f in files :: f.ref) {
        assert refs[r] == s.refs[r];
      }
      if r' !in (set f | f in files :: f.ref) {
        assert refs[r'] == s.refs[r'];
      }
    }
  }

  lemma {:induction false} AcceptedObjects(s: Store, files: seq<File>, stuck: set<string>)
    requires Sound(s) && FreshFiles(s, files) && !Rejected(files, false)
    ensures var after := UpdateFiles(s, files, false, stuck).1;
            forall r :: r in after.refs && after.refs[r] != "" ==> after.refs[r] in after.bucket
  {
    var p := Uploads(s, files);
    UploadsSpec(s, files);
    SetFilesSpec(s.refs, files);
    CollectSpec(p.bucket, p.oldKeys, p.newKeys, stuck);
    var after := UpdateFiles(s, files, false, stuck).1;
    forall r | r in after.refs && after.refs[r] != "" ensures after.refs[r] in after.bucket {
      if f :| f in files && f.ref == r && f.upload.Stored? {
        assert f.upload.key in p.newKeys;
      } else {
        assert after.refs[r] == s.refs[r];
        assert s.refs[r] !in p.oldKeys;
      }
    }
  }

  lemma {:induction false} ReplacedGone(s: Store, files: seq<File>, stuck: set<string>, f: File)
    requires Sound(s) && FreshFiles(s, files) && !Rejected(files, false)
    requires UpdateFiles(s, files, false, stuck).0 == Updated
    requires f in files && f.upload.Stored? && s.refs[f.ref] != f.upload.key && s.refs[f.ref] != ""
    ensures s.refs[f.ref] !in UpdateFiles(s, files, false, stuck).1.bucket
  {
    var p := Uploads(s, files);
    UploadsSpec(s, files);
    CollectSpec(p.bucket, p.oldKeys, p.newKeys, stuck);
    assert s.refs[f.ref] in p.oldKeys;
    forall g | g in files && g.upload.Stored? ensures g.upload.key != s.refs[f.ref] {
      OwnFile(s, files, f, g);
    }
  }

  /** No file of the request is stored under the key that another one's column had. */
  lemma {:induction false} OwnFile(s: Store, files: seq<File>, f: File, g: File)
    requires FreshFiles(s, files) && f in files && g in files && f.upload.Stored? && g.upload.Stored?
    requires s.refs[f.ref] != f.upload.key
    ensures g.upload.key != s.refs[f.ref]
  {
    assert FreshFor(s.refs, g.ref, g.upload.key);
    if g.ref == f.ref {
      var i :| 0 <= i < |files| && files[i] == f;
      var j :| 0 <= j < |files| && files[j] == g;
      assert i == j;
    }
  }

  /** An accepted request stores its new keys, keeps every other column, and no column dangles; unless a
      deletion threw, the objects it replaced are gone. */
  lemma {:induction false} AcceptedFilesSound(s: Store, files: seq<File>, stuck: set<string>)
    requires Sound(s) && FreshFiles(s, files) && !Rejected(files, false)
    ensures var (outcome, after) := UpdateFiles(s, files, false, stuck);
            && Sound(after) && after.refs == SetFiles(s.refs, files)
            && outcome in {Updated, CleanupFailed}
            && (outcome == Updated ==>
                  forall f ::
                    f in files && f.upload.Stored? && s.refs[f.ref] != f.upload.key && s.refs[f.ref] != "" ==>
                      s.refs[f.ref] !in after.bucket)
  {
    UploadFails(s, files);
    AcceptedFilesRefs(s, files);
    AcceptedObjects(s, files, stuck);
    var (outcome, after) := UpdateFiles(s, files, false, stuck);
    if outcome == Updated {
      forall f | f in files && f.upload.Stored? && s.refs[f.ref] != f.upload.key && s.refs[f.ref] != ""
        ensures s.refs[f.ref] !in after.bucket
      {
        ReplacedGone(s, files, stuck, f);
      }
    }
  }

  /** An object stored by the request, and one it is to delete. */
  ghost predicate NewKey(files: seq<File>, k: string) {
    exists f :: f in files && f.upload == Stored(k)
  }

  ghost predicate ReplacedKey(s: Store, files: seq<File>, k: string)
    requires forall f :: f in files ==> f.ref in s.refs
  {
    k != "" && exists f :: f in files && f.upload.Stored? && s.refs[f.ref] == k
  }

  /** Whatever the keys are: clean-up of an accepted request fails exactly when the bucket holds on to a replaced
      object that no new one took the place of; else exactly the new objects and the old ones not replaced are there. */
  lemma {:induction false} AcceptedExactly(s: Store, files: seq<File>, stuck: set<string>)
    requires (forall f :: f in files ==> f.ref in s.refs) && !Rejected(files, false)
    ensures var (outcome, after) := UpdateFiles(s, files, false, stuck);
            && outcome in {Updated, CleanupFailed}
            && (outcome == CleanupFailed
                <==> exists k :: k in stuck && ReplacedKey(s, files, k) && !NewKey(files, k))
            && (outcome == Updated ==>
                  forall k :: k in after.bucket
                              <==> NewKey(files, k) || (k in s.bucket && !ReplacedKey(s, files, k)))
  {
    var p := Uploads(s, files);
    KeysOfUploads(s, files);
    CollectExactly(p.bucket, p.oldKeys, p.newKeys, stuck);
  }

  lemma {:induction false} KeysOfUploads(s: Store, files: seq<File>)
    requires (forall f :: f in files ==> f.ref in s.refs) && !Rejected(files, false)
    ensures var p := Uploads(s, files);
            && !p.failed
            && (forall k :: k in p.newKeys <==> NewKey(files, k))
            && (forall k :: k in p.oldKeys && k != "" <==> ReplacedKey(s, files, k))
            && (forall k :: k in p.bucket <==> k in s.bucket || NewKey(files, k))
  {
    UploadsSpec(s, files);
  }

  lemma {:induction false} CollectExactly(bucket: set<string>, doomed: seq<string>, kept: seq<string>,
          stuck: set<string>)
    ensures var (threw, after) := Collect(bucket, doomed, kept, stuck);
            && (threw <==> exists k :: k in stuck && (k in doomed && k != "") && k !in kept)
            && (!threw ==> forall k :: k in after <==> k in bucket && !((k in doomed && k != "") && k !in kept))
  {
    CollectSpec(bucket, doomed, kept, stuck);
  }

  /** A refused file, or a failed row update without one, is all that keeps a request from being accepted. */
  lemma {:induction false} RejectedExactly(s: Store, files: seq<File>, rowFails: bool, stuck: set<string>)
    requires (forall f :: f in files ==> f.ref in s.refs) && Rejected(files, rowFails)
    ensures var (outcome, after) := UpdateFiles(s, files, rowFails, stuck);
            && after.refs == s.refs
            && (outcome == RowFailed <==> forall f :: f in files ==> !f.upload.Refused?)
            && (outcome != RowFailed ==> outcome in {Malformed, CleanupFailed})
  {
    UploadFails(s, files);
  }

  // ---------- one file ----------

  /** The comic's updateFile: the old object is deleted after the try. Without a file, or when the upload throws,
      nothing has happened yet. */
  function ReplaceFile(s: Store, r: Ref, upload: Upload, rowFails: bool, stuck: set<string>): (Outcome, Store)
    requires r in s.refs
  {
    if !upload.Stored? then (Malformed, s)
    else
      var oldKey, newKey := s.refs[r], upload.key;
      var uploaded := s.bucket + {newKey};
      if rowFails then
        if oldKey == newKey then (Malformed, Store(s.refs, uploaded))
        else if newKey in stuck then (CleanupFailed, Store(s.refs, uploaded))
        else (Malformed, Store(s.refs, uploaded - {newKey}))
      else
        var refs := s.refs[r := newKey];
        if oldKey == "" || oldKey == newKey then (Updated, Store(refs, uploaded))
        else if oldKey in stuck then (CleanupFailed, Store(refs, uploaded))
        else (Updated, Store(refs, uploaded - {oldKey}))
  }

  /** The comic issue's updateFile: the old object is deleted inside the try, so a deletion that throws is
      treated like a failed row update. */
  function ReplaceIssueFile(s: Store, r: Ref, upload: Upload, rowFails: bool, stuck: set<string>): (Outcome, Store)
    requires r in s.refs
  {
    var (outcome, after) := ReplaceFile(s, r, upload, rowFails, stuck);
    if outcome == CleanupFailed && !rowFails && upload.key !in stuck
    then (Malformed, Store(after.refs, after.bucket - {upload.key}))
    else (outcome, after)
  }

  lemma {:induction false} ReplaceFileSound(s: Store, r: Ref, upload: Upload, rowFails: bool, stuck: set<string>)
    requires Sound(s) && r in s.refs && (upload.Stored? ==> FreshFor(s.refs, r, upload.key))
    ensures var (outcome, after) := ReplaceFile(s, r, upload, rowFails, stuck);
            && Sound(after)
            && after.refs == (if upload.Stored? && !rowFails then s.refs[r := upload.key] else s.refs)
            && (outcome == Malformed ==> after.refs == s.refs && after.bucket <= s.bucket)
            && (outcome == Updated ==>
                  upload.Stored? && after.refs[r] == upload.key
                    && (s.refs[r] in {"", upload.key} || s.refs[r] !in after.bucket))
  {
    var after := ReplaceFile(s, r, upload, rowFails, stuck).1;
    forall q | q in after.refs && after.refs[q] != "" ensures after.refs[q] in after.bucket {
      assert q != r ==> after.refs[q] == s.refs[q];
    }
  }

  /** How replacing one file ends: without a stored file nothing happened; after a failed row update the new object is
      deleted unless it took the old one's place; after a good one the old object is, unless there is none. */
  lemma {:induction false} ReplaceFileExactly(s: Store, r: Ref, upload: Upload, rowFails: bool, stuck: set<string>)
    requires r in s.refs
    ensures var (outcome, after) := ReplaceFile(s, r, upload, rowFails, stuck);
            var was := s.refs[r];
            && (!upload.Stored? ==> outcome == Malformed && after == s)
            && (upload.Stored? && rowFails ==>
                  outcome == if upload.key != was && upload.key in stuck then CleanupFailed else Malformed)
            && (upload.Stored? && !rowFails ==>
                  outcome == if was !in {"", upload.key} && was in stuck then CleanupFailed else Updated)
            && (upload.Stored? ==>
                  forall k :: k != upload.key && k != was ==> (k in after.bucket <==> k in s.bucket))
            && (upload.Stored? && !rowFails ==> upload.key in after.bucket)
            && (upload.Stored? && outcome == Malformed && upload.key != was ==> upload.key !in after.bucket)
  {}

  /** The row was updated, and the object it replaced cannot be deleted, but the new one can. */
  predicate DropsNewFile(s: Store, r: Ref, upload: Upload, rowFails: bool, stuck: set<string>)
    requires r in s.refs
  {
    upload.Stored? && !rowFails && s.refs[r] != "" && s.refs[r] != upload.key && s.refs[r] in stuck
      && upload.key !in stuck
  }

  /** The issue's file dangles exactly then: its row names the new object, which is deleted while the old one stays. */
  lemma {:induction false} IssueFileSoundExactly(s: Store, r: Ref, upload: Upload, rowFails: bool, stuck: set<string>)
    requires Sound(s) && r in s.refs && (upload.Stored? ==> FreshFor(s.refs, r, upload.key))
    ensures var (outcome, after) := ReplaceIssueFile(s, r, upload, rowFails, stuck);
            && (Sound(after) <==> !DropsNewFile(s, r, upload, rowFails, stuck))
            && (DropsNewFile(s, r, upload, rowFails, stuck) ==>
                  outcome == Malformed && after.refs[r] == upload.key && upload.key !in after.bucket
                    && s.refs[r] in after.bucket)
            && (!DropsNewFile(s, r, upload, rowFails, stuck) ==>
                  (outcome, after) == ReplaceFile(s, r, upload, rowFails, stuck))
  {
    ReplaceFileSound(s, r, upload, rowFails, stuck);
    var after := ReplaceIssueFile(s, r, upload, rowFails, stuck).1;
    if DropsNewFile(s, r, upload, rowFails, stuck) {
      assert after.refs[r] != "" && after.refs[r] !in after.bucket;
    }
  }

  // ---------- the services ----------

  predicate HasComic(refs: map<Ref, string>, slug: string) {
    ComicFile(slug, Cover) in refs && ComicFile(slug, Banner) in refs && ComicFile(slug, Logo) in refs
  }

  function ComicFiles(slug: string, cover: Upload, banner: Upload, logo: Upload): seq<File> {
    [File(ComicFile(slug, Cover), cover), File(ComicFile(slug, Banner), banner), File(ComicFile(slug, Logo), logo)]
  }

  /** A pdf of more than 100 MiB, rounded up, is refused before its upload. */
  function PdfUpload(pdf: Upload, size: nat): Upload {
    if !pdf.Absent? && (size + 1048575) / 1048576 > 100 then Refused else pdf
  }

  function UpdateComicFiles(s: Store, slug: string, cover: Upload, banner: Upload, logo: Upload, rowFails: bool,
          stuck: set<string>): (Outcome, Store) {
    if !HasComic(s.refs, slug) then (NotFound, s)
    else UpdateFiles(s, ComicFiles(slug, cover, banner, logo), rowFails, stuck)
  }

  function UpdateIssueFiles(s: Store, id: nat, pdf: Upload, size: nat, rowFails: bool,
          stuck: set<string>): (Outcome, Store) {
    if IssuePdf(id) !in s.refs then (NotFound, s)
    else UpdateFiles(s, [File(IssuePdf(id), PdfUpload(pdf, size))], rowFails, stuck)
  }

  /** The keys of the comic's columns after a request that was accepted. */
  ghost predicate ComicColumns(before: map<Ref, string>, after: map<Ref, string>, slug: string, cover: Upload,
          banner: Upload, logo: Upload)
    requires HasComic(before, slug)
  {
    && after.Keys == before.Keys
    && after[ComicFile(slug, Cover)] == (if cover.Stored? then cover.key else before[ComicFile(slug, Cover)])
    && after[ComicFile(slug, Banner)] == (if banner.Stored? then banner.key else before[ComicFile(slug, Banner)])
    && after[ComicFile(slug, Logo)] == (if logo.Stored? then logo.key else before[ComicFile(slug, Logo)])
    && forall r :: r in before && !(r.ComicFile? && r.slug == slug) ==> after[r] == before[r]
  }

  /** The old key of a column of the comic that the request gives a new file for. */
  ghost predicate ComicReplaces(refs: map<Ref, string>, slug: string, cover: Upload, banner: Upload, logo: Upload,
          k: string)
    requires HasComic(refs, slug)
  {
    && k != ""
    && ((cover.Stored? && refs[ComicFile(slug, Cover)] == k) || (banner.Stored? && refs[ComicFile(slug, Banner)] == k)
        || (logo.Stored? && refs[ComicFile(slug, Logo)] == k))
  }

  /** A request for a comic, column by column: without a refused file and a failing row update each column holds the
      key of the upload given under its name, or its old one; the replaced objects are gone unless the bucket holds
      on to one. Otherwise no column changes. */
  lemma {:induction false} ComicFilesStored(s: Store, slug: string, cover: Upload, banner: Upload, logo: Upload,
          rowFails: bool, stuck: set<string>)
    requires ComicFile(slug, Cover) in s.refs && ComicFile(slug, Banner) in s.refs && ComicFile(slug, Logo) in s.refs
    ensures var (outcome, after) := UpdateComicFiles(s, slug, cover, banner, logo, rowFails, stuck);
            if rowFails || Refused in {cover, banner, logo} then
              && after.refs == s.refs
              && (outcome == RowFailed <==> Refused !in {cover, banner, logo})
              && (outcome != RowFailed ==> outcome in {Malformed, CleanupFailed})
            else
              && ComicColumns(s.refs, after.refs, slug, cover, banner, logo)
              && outcome in {Updated, CleanupFailed}
              && (outcome == CleanupFailed
                  <==> exists k :: k in stuck && ComicReplaces(s.refs, slug, cover, banner, logo, k)
                                   && Stored(k) !in {cover, banner, logo})
              && (outcome == Updated ==>
                    forall k :: k in after.bucket
                                <==> Stored(k) in {cover, banner, logo}
                                     || (k in s.bucket && !ComicReplaces(s.refs, slug, cover, banner, logo, k)))
  {
    var files := ComicFiles(slug, cover, banner, logo);
    ComicKeys(s, slug, cover, banner, logo);
    if Rejected(files, rowFails) {
      RejectedExactly(s, files, rowFails, stuck);
    } else {
      AcceptedExactly(s, files, stuck);
      UploadFails(s, files);
      ComicColumnsSet(s.refs, slug, cover, banner, logo);
    }
  }

  lemma {:induction false} ComicColumnsSet(refs: map<Ref, string>, slug: string, cover: Upload, banner: Upload,
          logo: Upload)
    requires HasComic(refs, slug)
    ensures ComicColumns(refs, SetFiles(refs, ComicFiles(slug, cover, banner, logo)), slug, cover, banner, logo)
  {
    var files := ComicFiles(slug, cover, banner, logo);
    assert files[0] in files && files[1] in files && files[2] in files;
    SetFilesSpec(refs, files);
  }

  lemma {:induction false} ComicKeys(s: Store, slug: string, cover: Upload, banner: Upload, logo: Upload)
    requires HasComic(s.refs, slug)
    ensures var files := ComicFiles(slug, cover, banner, logo);
            && (forall f :: f in files ==> f.ref in s.refs)
            && ((exists f :: f in files && f.upload.Refused?) <==> Refused in {cover, banner, logo})
            && (forall k :: NewKey(files, k) <==> Stored(k) in {cover, banner, logo})
            && forall k :: ReplacedKey(s, files, k) <==> ComicReplaces(s.refs, slug, cover, banner, logo, k)
  {
    var files := ComicFiles(slug, cover, banner, logo);
    assert files[0] in files && files[1] in files && files[2] in files;
  }

  /** A request for an issue: a pdf of more than 100 * 1024 * 1024 bytes is refused before anything is stored; else
      its column holds the new key or its old one, and the replaced object is gone. No other column changes. */
  lemma {:induction false} IssueFilesStored(s: Store, id: nat, pdf: Upload, size: nat, rowFails: bool,
          stuck: set<string>)
    requires IssuePdf(id) in s.refs
    ensures var (outcome, after) := UpdateIssueFiles(s, id, pdf, size, rowFails, stuck);
            var was := s.refs[IssuePdf(id)];
            if pdf == Refused || (pdf.Stored? && size > 104857600) then outcome == Malformed && after == s
            else if rowFails then
              outcome == RowFailed && after.refs == s.refs
            else if pdf == Absent then outcome == Updated && after == s
            else
              && after.refs == s.refs[IssuePdf(id) := pdf.key]
              && (outcome == if was != "" && was != pdf.key && was in stuck then CleanupFailed else Updated)
              && after.bucket == s.bucket + {pdf.key} - (if was in {"", pdf.key} || was in stuck then {} else {was})
  {
    var upload := PdfUpload(pdf, size);
    var files := [File(IssuePdf(id), upload)];
    assert (size + 1048575) / 1048576 > 100 <==> size > 104857600;
    assert files[..0] == [];
    assert Uploads(s, files) == Push(Progress(s.bucket, [], [], false), upload, s.refs[IssuePdf(id)]);
    assert SetFiles(s.refs, files) == SetFile(s.refs, files[0]);
    if upload.Stored? {
      assert [] + [upload.key] == [upload.key] && [] + [s.refs[IssuePdf(id)]] == [s.refs[IssuePdf(id)]];
      CollectOne(s.bucket + {upload.key}, s.refs[IssuePdf(id)], upload.key, stuck);
    }
  }

  lemma {:induction false} CollectOne(bucket: set<string>, doomed: string, kept: string, stuck: set<string>)
    ensures Collect(bucket, [doomed], [kept], stuck)
         == (doomed != "" && doomed != kept && doomed in stuck,
             bucket - if doomed in {"", kept} || doomed in stuck then {} else {doomed})
    ensures Collect(bucket, [], [], stuck) == (false, bucket)
  {
    assert [doomed][1..] == [];
    assert bucket - {} == bucket;
  }

  class FileStore {
    var refs: map<Ref, string>
    var bucket: set<string>

    function State(): Store
      reads this
    {
      Store(refs, bucket)
    }

    method DeleteObject(key: string, stuck: set<string>) returns (threw: bool)
      modifies this`bucket
      ensures threw == (key in stuck)
      ensures bucket == if threw then old(bucket) else old(bucket) - {key}
    {
      threw := key in stuck;
      if !threw {
        bucket := bucket - {key};
      }
    }

    method DeleteObjects(keys: seq<string>, stuck: set<string>)
      modifies this`bucket
      ensures bucket == DeleteAll(old(bucket), keys, stuck)
    {
      if keys == [] {
        return;
      }
      bucket := bucket - (set k | k in keys && k !in stuck);
    }

    method GarbageCollectNewFiles(newFileKeys: seq<string>, oldFileKeys: seq<string>, stuck: set<string>)
      returns (threw: bool)
      modifies this`bucket
      ensures (threw, bucket) == Collect(old(bucket), newFileKeys, oldFileKeys, stuck)
    {
      for i := 0 to |newFileKeys|
        invariant Collect(bucket, newFileKeys[i..], oldFileKeys, stuck)
                  == Collect(old(bucket), newFileKeys, oldFileKeys, stuck)
      {
        assert newFileKeys[i..][1..] == newFileKeys[i + 1..];
        if newFileKeys[i] != "" && newFileKeys[i] !in oldFileKeys {
          threw := DeleteObject(newFileKeys[i], stuck);
          if threw {
            return;
          }
        }
      }
      threw := false;
    }

    method GarbageCollectOldFiles(newFileKeys: seq<string>, oldFileKeys: seq<string>, stuck: set<string>)
      returns (threw: bool)
      modifies this`bucket
      ensures (threw, bucket) == Collect(old(bucket), oldFileKeys, newFileKeys, stuck)
    {
      for i := 0 to |oldFileKeys|
        invariant Collect(bucket, oldFileKeys[i..], newFileKeys, stuck)
                  == Collect(old(bucket), oldFileKeys, newFileKeys, stuck)
      {
        assert oldFileKeys[i..][1..] == oldFileKeys[i + 1..];
        if oldFileKeys[i] != "" && oldFileKeys[i] !in newFileKeys {
          threw := DeleteObject(oldFileKeys[i], stuck);
          if threw {
            return;
          }
        }
      }
      threw := false;
    }

    method GarbageCollectNewFile(newFileKey: string, oldFileKey: string, stuck: set<string>) returns (threw: bool)
      modifies this`bucket
      ensures threw == (oldFileKey != newFileKey && newFileKey in stuck)
      ensures bucket == if oldFileKey == newFileKey || threw then old(bucket) else old(bucket) - {newFileKey}
    {
      threw := false;
      if oldFileKey != newFileKey {
        threw := DeleteObject(newFileKey, stuck);
      }
    }

    method GarbageCollectOldFile(newFileKey: string, oldFileKey: string, stuck: set<string>) returns (threw: bool)
      modifies this`bucket
      ensures threw == (oldFileKey != "" && oldFileKey != newFileKey && oldFileKey in stuck)
      ensures bucket == if oldFileKey == "" || oldFileKey == newFileKey || threw then old(bucket)
              else old(bucket) - {oldFileKey}
    {
      threw := false;
      if oldFileKey != "" && oldFileKey != newFileKey {
        threw := DeleteObject(oldFileKey, stuck);
      }
    }

    /** The part of updateFiles after its uploads. */
    method FinishFiles(files: seq<File>, p: Progress, rowFails: bool, stuck: set<string>) returns (outcome: Outcome)
      requires forall f :: f in files ==> f.ref in refs
      requires bucket == p.bucket
      modifies this
      ensures forall s: Store :: s.refs == old(refs) && Uploads(s, files) == p ==>
                (outcome, State()) == UpdateFiles(s, files, rowFails, stuck)
    {
      if p.failed {
        var threw := GarbageCollectNewFiles(p.newKeys, p.oldKeys, stuck);
        return if threw then CleanupFailed else Malformed;
      }
      if rowFails {
        return RowFailed;
      }
      refs := SetFiles(refs, files);
      var threw := GarbageCollectOldFiles(p.newKeys, p.oldKeys, stuck);
      outcome := if threw then CleanupFailed else Updated;
    }

    /** One upload of updateFiles: the object is stored, and both keys are pushed. */
    method UploadOne(p: Progress, upload: Upload, oldKey: string) returns (after: Progress)
      requires bucket == p.bucket
      modifies this`bucket
      ensures after == Push(p, upload, oldKey) && bucket == after.bucket
    {
      after := p;
      if p.failed || upload.Absent? {
        return;
      }
      if upload.Refused? {
        return p.(failed := true);
      }
      bucket := bucket + {upload.key};
      after := Progress(bucket, p.newKeys + [upload.key], p.oldKeys + [oldKey], false);
    }

    method ComicUpdateFiles(slug: string, cover: Upload, banner: Upload, logo: Upload, rowFails: bool,
            stuck: set<string>)
      returns (outcome: Outcome)
      modifies this
      ensures (outcome, State()) == UpdateComicFiles(old(State()), slug, cover, banner, logo, rowFails, stuck)
      ensures HasComic(old(refs), slug) ==>
                if rowFails || Refused in {cover, banner, logo} then refs == old(refs)
                else ComicColumns(old(refs), refs, slug, cover, banner, logo)
    {
      if !HasComic(refs, slug) {
        return NotFound;
      }
      ghost var s, files := State(), ComicFiles(slug, cover, banner, logo);
      ComicFilesStored(s, slug, cover, banner, logo, rowFails, stuck);
      var p := Progress(bucket, [], [], false);
      p := UploadOne(p, cover, refs[ComicFile(slug, Cover)]);
      assert files[..1][..0] == [] && p == Uploads(s, files[..1]);
      p := UploadOne(p, banner, refs[ComicFile(slug, Banner)]);
      assert files[..2][..1] == files[..1] && p == Uploads(s, files[..2]);
      p := UploadOne(p, logo, refs[ComicFile(slug, Logo)]);
      assert files[..3] == files && p == Uploads(s, files);
      outcome := FinishFiles(ComicFiles(slug, cover, banner, logo), p, rowFails, stuck);
    }

    method ComicUpdateFile(slug: string, field: ComicField, upload: Upload, rowFails: bool, stuck: set<string>)
      returns (outcome: Outcome)
      modifies this
      ensures (outcome, State()) == if ComicFile(slug, field) !in old(refs) then (NotFound, old(State()))
                                    else ReplaceFile(old(State()), ComicFile(slug, field), upload, rowFails, stuck)
    {
      var r := ComicFile(slug, field);
      if r !in refs {
        return NotFound;
      }
      var oldFileKey := refs[r];
      if !upload.Stored? {
        return Malformed;
      }
      var newFileKey := upload.key;
      bucket := bucket + {newFileKey};
      if rowFails {
        var threw := GarbageCollectNewFile(newFileKey, oldFileKey, stuck);
        return if threw then CleanupFailed else Malformed;
      }
      refs := refs[r := newFileKey];
      var threw := GarbageCollectOldFile(newFileKey, oldFileKey, stuck);
      outcome := if threw then CleanupFailed else Updated;
    }

    method IssueUpdateFiles(id: nat, pdf: Upload, size: nat, rowFails: bool, stuck: set<string>)
      returns (outcome: Outcome)
      modifies this
      ensures (outcome, State()) == UpdateIssueFiles(old(State()), id, pdf, size, rowFails, stuck)
    {
      if IssuePdf(id) !in refs {
        return NotFound;
      }
      ghost var s, files := State(), [File(IssuePdf(id), PdfUpload(pdf, size))];
      var p := Progress(bucket, [], [], false);
      p := UploadOne(p, PdfUpload(pdf, size), refs[IssuePdf(id)]);
      assert files[..0] == [] && p == Uploads(s, files);
      outcome := FinishFiles([File(IssuePdf(id), PdfUpload(pdf, size))], p, rowFails, stuck);
    }

    method IssueUpdateFile(id: nat, upload: Upload, rowFails: bool, stuck: set<string>) returns (outcome: Outcome)
      modifies this
      ensures (outcome, State()) == if IssuePdf(id) !in old(refs) then (NotFound, old(State()))
                                    else ReplaceIssueFile(old(State()), IssuePdf(id), upload, rowFails, stuck)
    {
      var r := IssuePdf(id);
      if r !in refs {
        return NotFound;
      }
      var oldFileKey := refs[r];
      if !upload.Stored? {
        return Malformed;
      }
      var newFileKey := upload.key;
      bucket := bucket + {newFileKey};
      if !rowFails {
        refs := refs[r := newFileKey];
        var threw := GarbageCollectOldFile(newFileKey, oldFileKey, stuck);
        if !threw {
          return Updated;
        }
      }
      var threw := GarbageCollectNewFile(newFileKey, oldFileKey, stuck);
      outcome := if threw then CleanupFailed else Malformed;
    }
  }
}
