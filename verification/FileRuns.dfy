/** Every file operation in any order: which of them can leave a stored key without its object. */
module FileRuns {
  import opened Wrappers
  import opened Constants
  import opened FileReferences
  import opened Covers

  datatype Op =
    | ComicFilesOp(slug: string, cover: Upload, banner: Upload, logo: Upload, rowFails: bool, stuck: set<string>)
    | ComicFileOp(slug: string, field: ComicField, upload: Upload, rowFails: bool, stuck: set<string>)
    | IssueFilesOp(id: nat, pdf: Upload, size: nat, rowFails: bool, stuck: set<string>)
    | IssueFileOp(id: nat, upload: Upload, rowFails: bool, stuck: set<string>)
    | StatelessCoversOp(id: nat, stored: seq<CoverRow>, dtos: seq<CoverDto>, rowFails: bool, stuck: set<string>)
    | StatefulCoversOp(id: nat, stored: seq<CoverRow>, dtos: seq<CoverDto>, rowFails: bool, stuck: set<string>)

  function Step(s: Store, op: Op): Store {
    match op
    case ComicFilesOp(slug, cover, banner, logo, rowFails, stuck) =>
      UpdateComicFiles(s, slug, cover, banner, logo, rowFails, stuck).1
    case ComicFileOp(slug, field, upload, rowFails, stuck) =>
      if ComicFile(slug, field) in s.refs then ReplaceFile(s, ComicFile(slug, field), upload, rowFails, stuck).1 else s
    case IssueFilesOp(id, pdf, size, rowFails, stuck) => UpdateIssueFiles(s, id, pdf, size, rowFails, stuck).1
    case IssueFileOp(id, upload, rowFails, stuck) =>
      if IssuePdf(id) in s.refs then ReplaceIssueFile(s, IssuePdf(id), upload, rowFails, stuck).1 else s
    case StatelessCoversOp(id, stored, dtos, rowFails, stuck) =>
      StatelessCoversAfter(s, id, stored, dtos, rowFails, stuck).1
    case StatefulCoversOp(id, stored, dtos, rowFails, stuck) =>
      StatefulCoversAfter(s, id, stored, dtos, rowFails, stuck).1
  }

  /** The uploads of an operation get keys that no other column has; cover operations read their issue's rows. */
  ghost predicate Fresh(s: Store, op: Op) {
    match op
    case ComicFilesOp(slug, cover, banner, logo, _, _) =>
      HasComic(s.refs, slug) ==> FreshFiles(s, ComicFiles(slug, cover, banner, logo))
    case ComicFileOp(slug, field, upload, _, _) =>
      upload.Stored? ==> FreshFor(s.refs, ComicFile(slug, field), upload.key)
    case IssueFilesOp(id, pdf, size, _, _) =>
      IssuePdf(id) in s.refs ==> FreshFiles(s, [File(IssuePdf(id), PdfUpload(pdf, size))])
    case IssueFileOp(id, upload, _, _) => upload.Stored? ==> FreshFor(s.refs, IssuePdf(id), upload.key)
    case StatelessCoversOp(id, stored, dtos, _, _) =>
      IsRowsOf(s.refs, Stateless, id, stored) && FreshCovers(s, Stateless, id, dtos)
    case StatefulCoversOp(id, stored, dtos, _, _) =>
      IsRowsOf(s.refs, Stateful, id, stored) && FreshCovers(s, Stateful, id, dtos)
  }

  /** Only three operations can do harm: an issue's updateFile whose replaced object cannot be deleted, and a
      cover update that stores an image under the key the cover already has and gets as far as deleting. */
  ghost predicate Harmful(s: Store, op: Op) {
    match op
    case IssueFileOp(id, upload, rowFails, stuck) =>
      IssuePdf(id) in s.refs && DropsNewFile(s, IssuePdf(id), upload, rowFails, stuck)
    case StatelessCoversOp(_, _, dtos, _, stuck) =>
      DataMade(dtos) && ImagesKnown(s, dtos) && ReusesKey(s, Stateless, dtos, stuck)
    case StatefulCoversOp(_, _, dtos, _, stuck) => AllStored(dtos) && ReusesKey(s, Stateful, dtos, stuck)
    case _ => false
  }

  lemma {:induction false} UpdateFilesSound(s: Store, files: seq<File>, rowFails: bool, stuck: set<string>)
    requires Sound(s) && FreshFiles(s, files)
    ensures Sound(UpdateFiles(s, files, rowFails, stuck).1)
  {
    if Rejected(files, rowFails) {
      RejectedFilesSound(s, files, rowFails, stuck);
    } else {
      AcceptedFilesSound(s, files, stuck);
    }
  }

  /** One operation, on every success and failure branch: nothing dangles unless the operation is harmful. */
  lemma {:induction false} StepSoundExactly(s: Store, op: Op)
    requires Sound(s) && Fresh(s, op)
    ensures Sound(Step(s, op)) <==> !Harmful(s, op)
  {
    match op
    case ComicFilesOp(slug, cover, banner, logo, rowFails, stuck) =>
      if HasComic(s.refs, slug) {
        UpdateFilesSound(s, ComicFiles(slug, cover, banner, logo), rowFails, stuck);
      }
    case ComicFileOp(slug, field, upload, rowFails, stuck) =>
      if ComicFile(slug, field) in s.refs {
        ReplaceFileSound(s, ComicFile(slug, field), upload, rowFails, stuck);
      }
    case IssueFilesOp(id, pdf, size, rowFails, stuck) =>
      if IssuePdf(id) in s.refs {
        UpdateFilesSound(s, [File(IssuePdf(id), PdfUpload(pdf, size))], rowFails, stuck);
      }
    case IssueFileOp(id, upload, rowFails, stuck) =>
      if IssuePdf(id) in s.refs {
        IssueFileSoundExactly(s, IssuePdf(id), upload, rowFails, stuck);
      }
    case StatelessCoversOp(id, stored, dtos, rowFails, stuck) =>
      StatelessCoversExactly(s, id, stored, dtos, rowFails, stuck);
      StatelessOutcome(s, id, stored, dtos, rowFails, stuck);
    case StatefulCoversOp(id, stored, dtos, rowFails, stuck) =>
      StatefulCoversExactly(s, id, stored, dtos, rowFails, stuck);
  }

  lemma {:induction false} StatelessOutcome(s: Store, id: nat, stored: seq<CoverRow>, dtos: seq<CoverDto>,
          rowFails: bool, stuck: set<string>)
    requires IsRowsOf(s.refs, Stateless, id, stored) && FreshCovers(s, Stateless, id, dtos)
    ensures StatelessCoversAfter(s, id, stored, dtos, rowFails, stuck).0 !in {DataFailed, NoOldCover}
            <==> DataMade(dtos) && ImagesKnown(s, dtos)
  {
    if DataMade(dtos) {
      MergeSpec(stored, dtos);
    }
  }

  function Run(s: Store, ops: seq<Op>): Store {
    if ops == [] then s else Step(Run(s, ops[..|ops| - 1]), ops[|ops| - 1])
  }

  ghost predicate FreshRun(s: Store, ops: seq<Op>) {
    ops == [] || (FreshRun(s, ops[..|ops| - 1]) && Fresh(Run(s, ops[..|ops| - 1]), ops[|ops| - 1]))
  }

  /** No state of the run has a dangling or shared key. */
  ghost predicate SoundThroughout(s: Store, ops: seq<Op>) {
    Sound(Run(s, ops)) && (ops == [] || SoundThroughout(s, ops[..|ops| - 1]))
  }

  ghost predicate NoneHarmful(s: Store, ops: seq<Op>) {
    ops == [] || (NoneHarmful(s, ops[..|ops| - 1]) && !Harmful(Run(s, ops[..|ops| - 1]), ops[|ops| - 1]))
  }

  /** A run over fresh keys stays sound throughout exactly when none of its operations is harmful: the first
      dangling reference comes right after a harmful operation. */
  lemma {:induction false} RunSound(s: Store, ops: seq<Op>)
    requires Sound(s) && FreshRun(s, ops)
    ensures SoundThroughout(s, ops) <==> NoneHarmful(s, ops)
  {
    if ops != [] {
      var before := ops[..|ops| - 1];
      RunSound(s, before);
      if SoundThroughout(s, before) {
        StepSoundExactly(Run(s, before), ops[|ops| - 1]);
      }
    }
  }

  /** One way to lose a file: the old pdf cannot be deleted, so the new one is. */
  lemma {:induction false} IssueFileCanDangle()
    ensures var s, op := Store(map[IssuePdf(0) := "a"], {"a"}), IssueFileOp(0, Stored("b"), false, {"a"});
            Sound(s) && Fresh(s, op) && !Sound(Step(s, op))
  {
    StepSoundExactly(Store(map[IssuePdf(0) := "a"], {"a"}), IssueFileOp(0, Stored("b"), false, {"a"}));
  }

  /** The other: a cover is uploaded again under the key it has. */
  lemma {:induction false} CoverCanDangle(r: Ref)
    requires r == StatefulImage(0, Rare, false, false)
    ensures var s, op := Store(map[r := "a"], {"a"}),
              StatefulCoversOp(0, [CoverRow(r, "a")], [CoverDto(r, 1, Stored("a"), None)], false, {});
            Sound(s) && Fresh(s, op) && !Sound(Step(s, op))
  {
    var s := Store(map[r := "a"], {"a"});
    var d, row := CoverDto(r, 1, Stored("a"), None), CoverRow(r, "a");
    assert forall e :: e in [d] <==> e == d;
    assert row in [row] && d in [d] && ReusesKey(s, Stateful, [d], {});
    StepSoundExactly(s, StatefulCoversOp(0, [row], [d], false, {}));
  }
}
