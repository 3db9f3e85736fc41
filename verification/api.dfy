/** The submission service: the aggregate flattened into one `applications`
    row, the row inserted, the photo and the documents uploaded, and the row
    updated with the storage paths. The backend (insert, storage, update, the
    clock) is a parameter; what the service does is recorded as a trace of
    calls, so "nothing is uploaded after a failed insert" is a statement about
    that trace. */
module Api {
  import opened Wrappers
  import opened Text
  import opened Seqs
  import opened Application
  import opened ApplicationForm

  // ---------------------------------------------------------------------------
  // The database row
  // ---------------------------------------------------------------------------

  /** The column-name stem of an outcome: its answer is stored in
      `<stem>_accepted` and `<stem>_comment`. */
  function ColumnStem(k: OutcomeKey): string {
    match k
    case Playbook => "outcome21_playbook"
    case TeamRestructure => "outcome22_team_restructure"
    case OperationalDiscipline => "outcome23_operational_discipline"
    case HighPerformance => "outcome24_high_performance"
    case BarRaiser => "outcome241_bar_raiser"
    case Accountability => "outcome242_accountability"
    case Conversion => "outcome26_conversion"
    case Ai => "outcome27_ai"
  }

  /** No two outcomes share a column. */
  lemma ColumnStemsDistinct(a: OutcomeKey, b: OutcomeKey)
    requires a != b
    ensures ColumnStem(a) != ColumnStem(b)
  {
  }

  /** One outcome's pair of columns. */
  datatype OutcomeColumns = OutcomeColumns(stem: string, accepted: bool, comment: string)

  /** The row inserted into `applications`. `socialMedia == None` is SQL `null`. */
  datatype DbRecord = DbRecord(
    step0Accepted: bool,
    step1Accepted: bool,
    missionReflection: string,
    outcomeColumns: seq<OutcomeColumns>,
    competencies: Competencies,
    fullName: string,
    cpf: string,
    birthDate: string,
    city: string,
    state: string,
    email: string,
    whatsapp: string,
    socialMedia: Option<seq<SocialLink>>,
    salaryExpectation: string,
    finalNotes: string,
    documents: seq<string>,
    status: string)

  /** Every new application starts in this status. */
  const PendingStatus := "pending"

  /** The outcome columns, in the order the row lists them. */
  function OutcomeColumnsOf(o: Outcomes): (cols: seq<OutcomeColumns>)
    ensures |cols| == |OutcomeKeys|
    ensures forall i :: 0 <= i < |cols| ==>
              cols[i].stem == ColumnStem(OutcomeKeys[i])
              && cols[i].accepted == o.Get(OutcomeKeys[i]).accepted
              && cols[i].comment == o.Get(OutcomeKeys[i]).comment
  {
    seq(|OutcomeKeys|, i requires 0 <= i < |OutcomeKeys| =>
      OutcomeColumns(ColumnStem(OutcomeKeys[i]), o.Get(OutcomeKeys[i]).accepted, o.Get(OutcomeKeys[i]).comment))
  }

  /** The pair of columns named after `k`'s stem, found by name. */
  function Column(cols: seq<OutcomeColumns>, k: OutcomeKey): Option<OutcomeColumns> {
    match FindIndex(cols, (c: OutcomeColumns) => c.stem == ColumnStem(k))
    case None => None
    case Some(i) => Some(cols[i])
  }

  /** Reading an outcome back from the row by column name gives exactly the
      answer stored under that key: the flattening neither drops nor mixes up
      outcomes. */
  lemma ColumnsKeepEveryOutcome(o: Outcomes, k: OutcomeKey)
    ensures Column(OutcomeColumnsOf(o), k)
            == Some(OutcomeColumns(ColumnStem(k), o.Get(k).accepted, o.Get(k).comment))
  {
    var cols := OutcomeColumnsOf(o);
    var p := (c: OutcomeColumns) => c.stem == ColumnStem(k);
    var i := KeyIndex(k);
    KeyIndexOfPosition(i);
    forall j | 0 <= j < i
      ensures !p(cols[j])
    {
      KeyIndexOfPosition(j);
      ColumnStemsDistinct(OutcomeKeys[j], k);
    }
    FindIndexAt(cols, p, i);
  }

  /** The row for `f` with `social` as the social-media list: only a non-empty
      list is stored, an empty one becomes `null`. */
  function Row(f: FormData, social: seq<SocialLink>): (r: DbRecord)
    ensures r.socialMedia == (if social == [] then None else Some(social))
    ensures r.outcomeColumns == OutcomeColumnsOf(f.outcomes)
    ensures r.documents == FileNames(f.step4.files)
    ensures r.status == PendingStatus
  {
    var s := f.step4;
    DbRecord(
      f.step0.accepted, f.step1.accepted, f.step1.missionReflection,
      OutcomeColumnsOf(f.outcomes),
      f.competencies,
      s.personalInfo.fullName, s.personalInfo.cpf, s.personalInfo.birthDate,
      s.personalInfo.city, s.personalInfo.state,
      s.contact.email, s.contact.whatsapp,
      if social == [] then None else Some(social),
      s.salaryExpectation, s.finalNotes,
      FileNames(s.files),
      PendingStatus)
  }

  /** The row keeps every answer of the form: the text fields one for one, the
      competencies (holes included) as they are, the file names in order. */
  lemma RowKeepsAnswers(f: FormData, social: seq<SocialLink>)
    ensures var r := Row(f, social);
            && r.step0Accepted == f.step0.accepted
            && r.step1Accepted == f.step1.accepted
            && r.missionReflection == f.step1.missionReflection
            && r.competencies == f.competencies
            && r.fullName == f.step4.personalInfo.fullName
            && r.cpf == f.step4.personalInfo.cpf
            && r.birthDate == f.step4.personalInfo.birthDate
            && r.city == f.step4.personalInfo.city
            && r.state == f.step4.personalInfo.state
            && r.email == f.step4.contact.email
            && r.whatsapp == f.step4.contact.whatsapp
            && r.salaryExpectation == f.step4.salaryExpectation
            && r.finalNotes == f.step4.finalNotes
            && |r.documents| == |f.step4.files|
  {
  }

  datatype TransformError = SocialMediaUndefined

  /** `transformFormDataToDatabase` as written: it reads
      `step4.socialMedia.length`, which throws while the list was never edited
      (the initial aggregate has no `socialMedia` key). */
  function TransformAsWritten(f: FormData): (r: Result<DbRecord, TransformError>)
    ensures r.Err? <==> f.step4.socialMedia.None?
    ensures r.Ok? ==> (r.value.socialMedia.Some? <==> f.step4.socialMedia.value != [])
  {
    match f.step4.socialMedia
    case None => Err(SocialMediaUndefined)
    case Some(social) => Ok(Row(f, social))
  }

  /** The transform with an absent list read as the empty list: it always
      produces a row, and a row with `null` social media exactly when the
      candidate gave no link. */
  function Transform(f: FormData): (r: DbRecord)
    ensures r.socialMedia.None? <==> SocialList(f) == []
    ensures r.socialMedia.Some? ==> r.socialMedia.value == SocialList(f)
    ensures r.status == PendingStatus
  {
    Row(f, SocialList(f))
  }

  /** The corrected transform changes nothing where the original worked. */
  lemma TransformExtendsAsWritten(f: FormData)
    ensures TransformAsWritten(f).Ok? ==> TransformAsWritten(f).value == Transform(f)
  {
  }

  /** A candidate who never touches the social-media list cannot be
      transformed, so no row is ever inserted for them. */
  lemma UntouchedSocialMediaThrows()
    ensures TransformAsWritten(InitialFormData) == Err(SocialMediaUndefined)
    ensures TransformAsWritten(LoadMerge(SaveDraft(InitialFormData))).Err?
    ensures Transform(InitialFormData).socialMedia.None?
  {
  }

  // ---------------------------------------------------------------------------
  // Storage paths
  // ---------------------------------------------------------------------------

  /** The characters `[a-zA-Z0-9.-]` that a stored file name keeps. */
  predicate SafeChar(c: char) {
    ('a' <= c <= 'z') || ('A' <= c <= 'Z') || ('0' <= c <= '9') || c == '.' || c == '-'
  }

  /** `name.replace(/[^a-zA-Z0-9.-]/g, '_')`. */
  function Sanitize(name: string): (r: string)
    ensures |r| == |name|
    ensures forall i :: 0 <= i < |r| ==> SafeChar(r[i]) || r[i] == '_'
    ensures forall i :: 0 <= i < |r| ==> SafeChar(name[i]) ==> r[i] == name[i]
    ensures forall i :: 0 <= i < |r| ==> !SafeChar(name[i]) ==> r[i] == '_'
  {
    if name == [] then []
    else [if SafeChar(name[0]) then name[0] else '_'] + Sanitize(name[1..])
  }

  /** Sanitizing a sanitized name changes nothing. */
  lemma {:induction false} SanitizeIdempotent(name: string)
    ensures Sanitize(Sanitize(name)) == Sanitize(name)
  {
    if name != [] {
      SanitizeIdempotent(name[1..]);
      assert Sanitize(name)[1..] == Sanitize(name[1..]);
    }
  }

  /** A sanitized name has no `/`, so a document cannot leave its
      application's folder. */
  lemma SanitizedHasNoSlash(name: string)
    ensures '/' !in Sanitize(name)
  {
    var r := Sanitize(name);
    assert forall i :: 0 <= i < |r| ==> r[i] != '/';
  }

  /** `${applicationId}/${timestamp}_${sanitizedFileName}`. */
  function DocumentPath(id: string, timestamp: nat, name: string): (p: string)
    ensures StartsWith(p, id + "/") && '/' !in p[|id| + 1..]
  {
    SanitizedHasNoSlash(name);
    assert forall i :: 0 <= i < |DecimalString(timestamp)| ==> IsDigit(DecimalString(timestamp)[i]);
    id + "/" + DecimalString(timestamp) + "_" + Sanitize(name)
  }

  /** `name.split('.').pop()`: the last dot-separated piece. */
  function Extension(name: string): string {
    var pieces := Split(name, '.');
    pieces[|pieces| - 1]
  }

  /** How the extension of a name relates to that of its tail. */
  lemma ExtensionOfTail(name: string)
    requires name != []
    ensures name[0] == '.' || '.' in name[1..] ==> Extension(name) == Extension(name[1..])
    ensures name[0] != '.' && '.' !in name[1..] ==> Extension(name) == name
  {
    var t := name[1..];
    var rest := Split(t, '.');
    OccurrencesPositive(t, '.');
    if name[0] == '.' {
      assert Split(name, '.') == [[]] + rest;
    } else if '.' !in t {
      SplitJoin(t, '.');
      assert rest[0] == t;
      assert name == [name[0]] + t;
    }
  }

  /** The extension is the longest dot-free suffix of the name: all of it when
      the name has no dot, otherwise what follows the last dot. */
  lemma {:induction false} ExtensionIsLastPiece(name: string)
    ensures var e := Extension(name);
            && '.' !in e
            && |e| <= |name| && name[|name| - |e|..] == e
            && ('.' !in name ==> e == name)
            && ('.' in name ==> name[|name| - |e| - 1] == '.')
  {
    var e := Extension(name);
    assert '.' !in e by {
      var pieces := Split(name, '.');
      assert '.' !in pieces[|pieces| - 1];
    }
    if name != [] {
      var t := name[1..];
      ExtensionOfTail(name);
      ExtensionIsLastPiece(t);
      assert '.' in name <==> name[0] == '.' || '.' in t;
      if name[0] == '.' || '.' in t {
        assert e == Extension(t);
        assert name[|name| - |e|..] == t[|t| - |e|..];
      }
    }
  }

  /** `${applicationId}/photo/${Date.now()}.${photoExt}`. */
  function PhotoPath(id: string, timestamp: nat, name: string): (p: string)
    ensures StartsWith(p, id + "/photo/")
  {
    id + "/photo/" + DecimalString(timestamp) + "." + Extension(name)
  }

  /** The photo's folder keeps it apart from the documents: its path never
      equals a document path, so the photo upload and the document uploads
      never compete for one path. */
  lemma PhotoPathIsNoDocumentPath(id: string, t: nat, name: string, u: nat, doc: string)
    ensures PhotoPath(id, t, name) != DocumentPath(id, u, doc)
  {
    var p, d := PhotoPath(id, t, name), DocumentPath(id, u, doc);
    assert p[|id| + 1..][5] == '/';
    assert '/' in p[|id| + 1..] && '/' !in d[|id| + 1..];
  }

  // ---------------------------------------------------------------------------
  // Uploading and submitting
  // ---------------------------------------------------------------------------

  /** What the service asks of the backend, in order. */
  datatype Call =
    | Insert(row: DbRecord)
    | UploadPhoto(path: string)
    | UploadDocument(path: string)
    | Update(documents: seq<string>, photoUrl: Option<string>)

  /** The backend's answers. `clock(i)` is the time the i-th document reads,
      `photoClock` the time the photo reads; `storageOk(path)` says whether an
      upload to `path` succeeds when nothing is stored there yet. Uploads use
      `upsert: false`, so of two uploads to the same path at most one succeeds. */
  datatype Backend = Backend(
    insertOk: bool,
    id: string,
    photoClock: nat,
    clock: nat -> nat,
    storageOk: string -> bool,
    updateOk: bool)

  function DocumentPaths(files: seq<FileRef>, id: string, clock: nat -> nat): (paths: seq<string>)
    ensures |paths| == |files|
    ensures forall i :: 0 <= i < |files| ==> paths[i] == DocumentPath(id, clock(i), files[i].name)
  {
    seq(|files|, i requires 0 <= i < |files| => DocumentPath(id, clock(i), files[i].name))
  }

  /** Whether every upload of `paths` succeeds: each path is accepted by the
      storage, and no path is written twice (whichever of two uploads to one
      path comes second is refused, so `Promise.all` fails in any order). */
  predicate AllStored(paths: seq<string>, b: Backend) {
    (forall i :: 0 <= i < |paths| ==> b.storageOk(paths[i])) && NoRepeats(paths)
  }

  /** `uploadDocuments`: every file is started (`files.map` runs each upload
      up to its first `await`), and `Promise.all` succeeds with the paths in
      file order only if every upload succeeds. */
  function UploadDocuments(files: seq<FileRef>, id: string, b: Backend): (r: (Option<seq<string>>, seq<Call>))
    ensures files == [] ==> r == (Some([]), [])
    ensures |r.1| == |files|
    ensures forall i :: 0 <= i < |files| ==> r.1[i] == UploadDocument(DocumentPath(id, b.clock(i), files[i].name))
    ensures r.0.Some? <==>
              (forall i :: 0 <= i < |files| ==> b.storageOk(DocumentPath(id, b.clock(i), files[i].name)))
              && forall i, j :: 0 <= i < j < |files| ==>
                   DocumentPath(id, b.clock(i), files[i].name) != DocumentPath(id, b.clock(j), files[j].name)
    ensures r.0.Some? ==> r.0.value == DocumentPaths(files, id, b.clock)
  {
    var paths := DocumentPaths(files, id, b.clock);
    var calls := seq(|paths|, i requires 0 <= i < |paths| => UploadDocument(paths[i]));
    if AllStored(paths, b) then (Some(paths), calls)
    else (None, calls)
  }

  /** Two files of the same name whose uploads read the same millisecond get
      the same path, and the second upload is refused: the documents fail
      even when the storage accepts every path. */
  lemma SameInstantCopiesFail(files: seq<FileRef>, id: string, b: Backend, i: nat, j: nat)
    requires i < j < |files| && files[i].name == files[j].name && b.clock(i) == b.clock(j)
    ensures UploadDocuments(files, id, b).0.None?
  {
    var paths := DocumentPaths(files, id, b.clock);
    assert paths[i] == paths[j];
  }

  /** The outcome of `submitApplication`: `success`, whether the documents
      failed after the row was created, and the calls made. */
  datatype Submission = Submission(success: bool, documentsFailed: bool, calls: seq<Call>)

  /** `submitApplication` once the row is known (or the transform threw). */
  function SubmitRow(row: Result<DbRecord, TransformError>, f: FormData, b: Backend): (s: Submission)
    ensures row.Err? ==> s == Submission(false, false, [])
    ensures row.Ok? ==> |s.calls| >= 1 && s.calls[0] == Insert(row.value)
    ensures row.Ok? && !b.insertOk ==> s == Submission(false, false, [Insert(row.value)])
    ensures s.success <==> row.Ok? && b.insertOk && !f.step4.photo.Placeholder?
    ensures s.documentsFailed ==> s.success && f.step4.files != []
  {
    match row
    case Err(_) => Submission(false, false, [])
    case Ok(rec) =>
      if !b.insertOk then Submission(false, false, [Insert(rec)])
      else
        match f.step4.photo
        case Placeholder =>
          // `photoFile.name` is undefined: `.split` throws and the catch reports failure.
          Submission(false, false, [Insert(rec)])
        case NoPhoto => AfterPhoto(rec, f, b, [], None)
        case PhotoFile(file) =>
          var path := PhotoPath(b.id, b.photoClock, file.name);
          AfterPhoto(rec, f, b, [UploadPhoto(path)], if b.storageOk(path) then Some(path) else None)
  }

  /** Steps 3 and 4 of the submission: the documents, then the update. A
      failed update is only logged. */
  function AfterPhoto(rec: DbRecord, f: FormData, b: Backend, photoCalls: seq<Call>, photoUrl: Option<string>): (s: Submission)
    ensures s.success
    ensures |s.calls| >= 1 + |photoCalls| && s.calls[..1 + |photoCalls|] == [Insert(rec)] + photoCalls
    ensures f.step4.files == [] ==> s == Submission(true, false, [Insert(rec)] + photoCalls)
  {
    var prefix := [Insert(rec)] + photoCalls;
    if f.step4.files == [] then Submission(true, false, prefix)
    else
      var (urls, docCalls) := UploadDocuments(f.step4.files, b.id, b);
      match urls
      case None => Submission(true, true, prefix + docCalls)
      case Some(paths) => Submission(true, false, prefix + docCalls + [Update(paths, photoUrl)])
  }

  /** `submitApplication` as written. */
  function SubmitApplicationAsWritten(f: FormData, b: Backend): Submission {
    SubmitRow(TransformAsWritten(f), f, b)
  }

  /** `submitApplication` with the corrected transform. */
  function SubmitApplication(f: FormData, b: Backend): (s: Submission)
    ensures s.success <==> b.insertOk && !f.step4.photo.Placeholder?
    ensures |s.calls| >= 1 && s.calls[0] == Insert(Transform(f))
  {
    SubmitRow(Ok(Transform(f)), f, b)
  }

  /** As written, a candidate who never edited the social-media list is
      reported as failed and nothing reaches the backend. */
  lemma AsWrittenDropsUntouchedSocialMedia(f: FormData, b: Backend)
    requires f.step4.socialMedia.None?
    ensures SubmitApplicationAsWritten(f, b) == Submission(false, false, [])
    ensures b.insertOk && f.step4.photo != Placeholder ==> SubmitApplication(f, b).success
  {
  }

  /** The row is written back exactly when there are documents and all of
      them were stored; the update then carries the document paths in file
      order and the photo path only if the photo upload succeeded. A photo
      with no documents is uploaded but never linked to the row. */
  lemma UpdateOnlyAfterAllDocuments(f: FormData, b: Backend)
    requires b.insertOk && !f.step4.photo.Placeholder?
    ensures var s := SubmitApplication(f, b);
            var docsOk := AllStored(DocumentPaths(f.step4.files, b.id, b.clock), b);
            (s.calls[|s.calls| - 1].Update? <==> f.step4.files != [] && docsOk)
            && (s.documentsFailed <==> f.step4.files != [] && !docsOk)
  {
    var s := SubmitApplication(f, b);
    var rec := Transform(f);
    var photoCalls := if f.step4.photo.PhotoFile? then [UploadPhoto(PhotoPath(b.id, b.photoClock, f.step4.photo.file.name))] else [];
    var prefix := [Insert(rec)] + photoCalls;
    if f.step4.files != [] {
      var (urls, docCalls) := UploadDocuments(f.step4.files, b.id, b);
      assert |docCalls| == |f.step4.files| && docCalls[|docCalls| - 1].UploadDocument?;
      if urls.None? {
        assert s.calls == prefix + docCalls;
      }
    } else {
      assert s.calls == prefix;
    }
  }

  /** The photo after a JSON reload makes the submission fail after the row
      was already inserted. */
  lemma ReloadedPhotoFailsAfterInsert(f: FormData, b: Backend)
    requires f.step4.photo != NoPhoto && f.step4.socialMedia.Some? && b.insertOk
    ensures var g := LoadMergeAsWritten(SaveDraft(f));
            var s := SubmitApplicationAsWritten(g, b);
            !s.success && |s.calls| == 1 && s.calls[0].Insert?
  {
  }

  // ---------------------------------------------------------------------------
  // Statistics
  // ---------------------------------------------------------------------------

  /** The two columns the statistics read. */
  datatype StatusRow = StatusRow(status: string, archived: bool)

  datatype Stats = Stats(total: nat, active: nat, archived: nat, pending: nat, approved: nat, rejected: nat)

  predicate IsActive(r: StatusRow) { !r.archived }
  predicate IsArchived(r: StatusRow) { r.archived }
  predicate IsPending(r: StatusRow) { r.status == "pending" }
  predicate IsApproved(r: StatusRow) { r.status == "approved" }
  predicate IsRejected(r: StatusRow) { r.status == "rejected" }
  predicate ActivePending(r: StatusRow) { IsActive(r) && IsPending(r) }
  predicate ActiveApproved(r: StatusRow) { IsActive(r) && IsApproved(r) }
  predicate ActiveRejected(r: StatusRow) { IsActive(r) && IsRejected(r) }

  /** `getApplicationsStats`: the counts by archive flag over all rows, and the
      counts by status over the active rows only. */
  function StatsOf(rows: seq<StatusRow>): Stats {
    var active := Filter(rows, IsActive);
    Stats(|rows|, |active|, |Filter(rows, IsArchived)|,
          |Filter(active, IsPending)|,
          |Filter(active, IsApproved)|,
          |Filter(active, IsRejected)|)
  }

  /** Every row is active or archived, never both; the three statuses count
      only active rows and never overlap. */
  lemma {:induction false} StatsConsistent(rows: seq<StatusRow>)
    ensures var st := StatsOf(rows);
            && st.active + st.archived == st.total
            && st.pending + st.approved + st.rejected <= st.active
  {
    var active := Filter(rows, IsActive);
    CountIsFilterLength(rows, IsActive);
    CountIsFilterLength(rows, IsArchived);
    CountComplement(rows, IsActive, IsArchived);
    var p, a, j := IsPending, IsApproved, IsRejected;
    CountIsFilterLength(active, p);
    CountIsFilterLength(active, a);
    CountIsFilterLength(active, j);
    CountDisjoint3(active, p, a, j);
  }

  /** The same counts in one pass over the rows. */
  method CountStats(rows: seq<StatusRow>) returns (st: Stats)
    ensures st == StatsOf(rows)
    ensures st.active + st.archived == st.total
  {
    var active, archived, pending, approved, rejected := 0, 0, 0, 0, 0;
    var i := 0;
    while i < |rows|
      invariant 0 <= i <= |rows|
      invariant active == Count(rows[..i], IsActive)
      invariant archived == Count(rows[..i], IsArchived)
      invariant pending == Count(rows[..i], ActivePending)
      invariant approved == Count(rows[..i], ActiveApproved)
      invariant rejected == Count(rows[..i], ActiveRejected)
    {
      CountsStep(rows, i);
      if !rows[i].archived {
        active := active + 1;
        if rows[i].status == "pending" {
          pending := pending + 1;
        } else if rows[i].status == "approved" {
          approved := approved + 1;
        } else if rows[i].status == "rejected" {
          rejected := rejected + 1;
        }
      } else {
        archived := archived + 1;
      }
      i := i + 1;
    }
    assert rows[..i] == rows;
    st := Stats(|rows|, active, archived, pending, approved, rejected);
    StatsAsCounts(rows);
    StatsConsistent(rows);
  }

  /** One more row adds one to each count whose predicate it meets. */
  lemma CountsStep(rows: seq<StatusRow>, i: nat)
    requires i < |rows|
    ensures Count(rows[..i + 1], IsActive) == Count(rows[..i], IsActive) + (if IsActive(rows[i]) then 1 else 0)
    ensures Count(rows[..i + 1], IsArchived) == Count(rows[..i], IsArchived) + (if IsArchived(rows[i]) then 1 else 0)
    ensures Count(rows[..i + 1], ActivePending) == Count(rows[..i], ActivePending) + (if ActivePending(rows[i]) then 1 else 0)
    ensures Count(rows[..i + 1], ActiveApproved) == Count(rows[..i], ActiveApproved) + (if ActiveApproved(rows[i]) then 1 else 0)
    ensures Count(rows[..i + 1], ActiveRejected) == Count(rows[..i], ActiveRejected) + (if ActiveRejected(rows[i]) then 1 else 0)
  {
    assert rows[..i + 1] == rows[..i] + [rows[i]];
    CountSnoc(rows[..i], rows[i], IsActive);
    CountSnoc(rows[..i], rows[i], IsArchived);
    CountSnoc(rows[..i], rows[i], ActivePending);
    CountSnoc(rows[..i], rows[i], ActiveApproved);
    CountSnoc(rows[..i], rows[i], ActiveRejected);
  }

  lemma {:induction false} CountSnoc<T>(s: seq<T>, x: T, p: T -> bool)
    ensures Count(s + [x], p) == Count(s, p) + (if p(x) then 1 else 0)
  {
    CountIsFilterLength(s + [x], p);
    CountIsFilterLength(s, p);
    FilterAppend(s, [x], p);
    CountIsFilterLength([x], p);
  }

  /** The filtered lengths of `StatsOf` as counts over all rows. */
  lemma StatsAsCounts(rows: seq<StatusRow>)
    ensures var st := StatsOf(rows);
            && st.active == Count(rows, IsActive)
            && st.archived == Count(rows, IsArchived)
            && st.pending == Count(rows, ActivePending)
            && st.approved == Count(rows, ActiveApproved)
            && st.rejected == Count(rows, ActiveRejected)
  {
    var active := Filter(rows, IsActive);
    CountIsFilterLength(rows, IsActive);
    CountIsFilterLength(rows, IsArchived);
    var p, a, j := IsPending, IsApproved, IsRejected;
    CountIsFilterLength(active, p);
    CountIsFilterLength(active, a);
    CountIsFilterLength(active, j);
    CountOfFilter(rows, IsActive, p, ActivePending);
    CountOfFilter(rows, IsActive, a, ActiveApproved);
    CountOfFilter(rows, IsActive, j, ActiveRejected);
  }
}
