/** Step 4 of the wizard, personal data and attachments. Both Step 4
    components run the same eight-stage submit chain, with the same messages,
    and admit documents the same way; the photo/social-media variant adds photo
    admission and the social-media list. Their `onDataChange` is the
    controller's `updateStep4`, and their local copies of the file and
    social-media lists start from, and are written back to, `step4`. */
module Step4Form {
  import opened Wrappers
  import opened Text
  import opened Seqs
  import opened Application
  import opened ApplicationForm
  import opened Validators
  import opened Modal

  /* ---------- the submit chain ---------- */

  datatype Field = FullName | Cpf | BirthDate | City | State | Email | WhatsApp | SalaryExpectation

  /** The order in which the fields are checked. */
  const CheckOrder: seq<Field> := [FullName, Cpf, BirthDate, City, State, Email, WhatsApp, SalaryExpectation]

  function FieldIndex(f: Field): (i: nat)
    ensures i < |CheckOrder| && CheckOrder[i] == f
  {
    match f
    case FullName => 0
    case Cpf => 1
    case BirthDate => 2
    case City => 3
    case State => 4
    case Email => 5
    case WhatsApp => 6
    case SalaryExpectation => 7
  }

  lemma FieldIndexOfPosition(i: nat)
    requires i < |CheckOrder|
    ensures FieldIndex(CheckOrder[i]) == i
  {
  }

  /** The check each field must pass. The city must not be blank after
      trimming; the state must only be non-empty. */
  predicate Passes(d: Step4Data, currentYear: int, f: Field) {
    match f
    case FullName => ValidateFullName(d.personalInfo.fullName)
    case Cpf => ValidateCPF(d.personalInfo.cpf)
    case BirthDate => ValidateDate(d.personalInfo.birthDate, currentYear)
    case City => Trim(d.personalInfo.city) != ""
    case State => d.personalInfo.state != ""
    case Email => ValidateEmail(d.contact.email)
    case WhatsApp => ValidateWhatsApp(d.contact.whatsapp)
    case SalaryExpectation => ValidateSalary(d.salaryExpectation)
  }

  function FieldMessage(f: Field): string {
    match f
    case FullName => "Por favor, informe seu nome completo (nome e sobrenome)."
    case Cpf => "Por favor, informe um CPF válido (11 dígitos)."
    case BirthDate => "Por favor, informe uma data de nascimento válida (DD/MM/AAAA)."
    case City => "Por favor, informe sua cidade."
    case State => "Por favor, selecione seu estado."
    case Email => "Por favor, informe um e-mail válido."
    case WhatsApp => "Por favor, informe um WhatsApp válido com DDD."
    case SalaryExpectation => "Por favor, informe sua pretensão salarial."
  }

  /** The first field, in check order, that fails its check. */
  function FirstFailingField(d: Step4Data, currentYear: int): (r: Option<Field>)
    ensures r.None? <==> forall f :: Passes(d, currentYear, f)
    ensures r.Some? ==> !Passes(d, currentYear, r.value)
    ensures r.Some? ==> forall f :: FieldIndex(f) < FieldIndex(r.value) ==> Passes(d, currentYear, f)
  {
    var fails := (f: Field) => !Passes(d, currentYear, f);
    assert forall f :: fails(f) <==> !Passes(d, currentYear, f);
    var r := FindIndex(CheckOrder, fails);
    FindIndexEnumerated(CheckOrder, FieldIndex, fails);
    if r.Some? then FieldIndexOfPosition(r.value); Some(CheckOrder[r.value]) else None
  }

  /** What pressing "submit" leaves behind: the fields marked in error, the
      modal, and whether `onSubmit` was called. */
  datatype SubmitOutcome = SubmitOutcome(errors: set<Field>, modal: ModalState, submitted: bool)

  /** `handleSubmit`: the first failing field is the only one marked and its
      warning is shown; when every check passes the marks are cleared and
      `onSubmit` is called, with the modal untouched. */
  function HandleSubmit(d: Step4Data, currentYear: int, modal: ModalState): (r: SubmitOutcome)
    ensures r.submitted <==> forall f :: Passes(d, currentYear, f)
    ensures r.submitted ==> r.errors == {} && r.modal == modal
    ensures !r.submitted ==>
              exists f :: r.errors == {f} && !Passes(d, currentYear, f)
                && (forall g :: FieldIndex(g) < FieldIndex(f) ==> Passes(d, currentYear, g))
                && r.modal == ShowModal(FieldMessage(f), Some("Atenção"), Some(Warning))
  {
    match FirstFailingField(d, currentYear)
    case Some(f) =>
      var r := SubmitOutcome({f}, ShowModal(FieldMessage(f), Some("Atenção"), Some(Warning)), false);
      assert r.errors == {f};
      r
    case None => SubmitOutcome({}, modal, true)
  }

  /** The chain reads no attachment: documents, photo and social media never
      decide whether the form is submitted. */
  lemma SubmitIgnoresAttachments(d: Step4Data, currentYear: int, modal: ModalState,
                                 files: seq<FileRef>, socialMedia: Option<seq<SocialLink>>, photo: PhotoSlot)
    ensures HandleSubmit(d.(files := files, socialMedia := socialMedia, photo := photo), currentYear, modal)
            == HandleSubmit(d, currentYear, modal)
  {
    var e := d.(files := files, socialMedia := socialMedia, photo := photo);
    assert forall f :: Passes(e, currentYear, f) == Passes(d, currentYear, f);
    assert FirstFailingField(e, currentYear) == FirstFailingField(d, currentYear);
  }

  /* ---------- documents ---------- */

  /** 10 MiB. */
  const MaxFileSize := 10 * 1024 * 1024

  predicate FitsDocument(f: FileRef) {
    f.size <= MaxFileSize
  }

  predicate TooLargeDocument(f: FileRef) {
    f.size > MaxFileSize
  }

  function FileTooLargeModal(f: FileRef): ModalState {
    ShowModal("O arquivo " + f.name + " excede o tamanho máximo de 10MB.", Some("Arquivo muito grande"), Some(Warning))
  }

  /** The files attached after an upload: the previous ones, then the chosen
      ones that fit, in the order chosen. */
  function AdmitDocuments(existing: seq<FileRef>, chosen: seq<FileRef>): (r: seq<FileRef>)
    ensures |existing| <= |r| && r[..|existing|] == existing
    ensures r[|existing|..] == Filter(chosen, FitsDocument)
    ensures forall x :: x in r[|existing|..] ==> x in chosen && x.size <= MaxFileSize
    ensures forall x :: x in chosen && x.size <= MaxFileSize ==> x in r
  {
    var r := existing + Filter(chosen, FitsDocument);
    assert r[..|existing|] == existing;
    assert r[|existing|..] == Filter(chosen, FitsDocument);
    r
  }

  /** `handleFileUpload` on the chosen files: oversized ones are dropped, each
      with a warning (the last warning is what stays on screen), and the others
      are appended after the files already attached. */
  function UploadFiles(f: FormData, chosen: seq<FileRef>, modal: ModalState): (r: (FormData, ModalState))
    ensures r.0 == f.(step4 := f.step4.(files := AdmitDocuments(f.step4.files, chosen)))
    ensures var rejected := Filter(chosen, TooLargeDocument);
            r.1 == if rejected == [] then modal else FileTooLargeModal(rejected[|rejected| - 1])
  {
    var rejected := Filter(chosen, TooLargeDocument);
    (UpdateStep4(f, EmptyStep4Patch.(files := Some(AdmitDocuments(f.step4.files, chosen)))),
     if rejected == [] then modal else FileTooLargeModal(rejected[|rejected| - 1]))
  }

  /** Every chosen file is either attached or warned about, never both. */
  lemma UploadAccountsForEveryFile(f: FormData, chosen: seq<FileRef>, modal: ModalState)
    ensures |UploadFiles(f, chosen, modal).0.step4.files| ==
              |f.step4.files| + |chosen| - |Filter(chosen, TooLargeDocument)|
  {
    var r := UploadFiles(f, chosen, modal).0.step4.files;
    assert r == r[..|f.step4.files|] + r[|f.step4.files|..];
    CountIsFilterLength(chosen, FitsDocument);
    CountIsFilterLength(chosen, TooLargeDocument);
    CountComplement(chosen, FitsDocument, TooLargeDocument);
  }

  /** `handleRemoveFile(name)`: every file with that name goes, the rest keep
      their order. */
  function RemoveFile(files: seq<FileRef>, name: string): (r: seq<FileRef>)
    ensures forall x :: x in r ==> x.name != name
    ensures forall x :: x in files && x.name != name ==> x in r
    ensures forall x :: x in r ==> x in files
    ensures |r| == |files| - Count(files, (x: FileRef) => x.name == name)
  {
    var keep, drop := (x: FileRef) => x.name != name, (x: FileRef) => x.name == name;
    CountIsFilterLength(files, keep);
    CountComplement(files, keep, drop);
    Filter(files, keep)
  }

  /** Removing twice is removing once, and removing from an upload result
      removes from the old and the new files separately. */
  lemma RemoveFileLaws(files: seq<FileRef>, added: seq<FileRef>, name: string)
    ensures RemoveFile(RemoveFile(files, name), name) == RemoveFile(files, name)
    ensures RemoveFile(files + added, name) == RemoveFile(files, name) + RemoveFile(added, name)
  {
    var keep := (x: FileRef) => x.name != name;
    var once := RemoveFile(files, name);
    forall i | 0 <= i < |once| ensures keep(once[i]) {
      assert once[i] in once;
    }
    FilterAll(once, keep);
    FilterAppend(files, added, keep);
  }

  /* ---------- photo ---------- */

  /** 5 MiB. */
  const MaxPhotoSize := 5 * 1024 * 1024

  /** A photo the component would have admitted. */
  predicate AdmissiblePhoto(p: PhotoSlot) {
    p.PhotoFile? ==> p.file.size <= MaxPhotoSize && StartsWith(p.file.mediaType, "image/")
  }

  const PhotoTooLargeModal := ShowModal("A foto excede o tamanho máximo de 5MB.", Some("Arquivo muito grande"), Some(Warning))

  const PhotoNotImageModal :=
    ShowModal("Por favor, selecione um arquivo de imagem válido (JPG, PNG).", Some("Formato inválido"), Some(Warning))

  /** `handlePhotoUpload`: the size is checked before the type; a photo that
      passes both replaces the current one without touching the modal. */
  function UploadPhoto(f: FormData, chosen: Option<FileRef>, modal: ModalState): (r: (FormData, ModalState))
    ensures chosen.None? ==> r == (f, modal)
    ensures chosen.Some? && chosen.value.size > MaxPhotoSize ==> r == (f, PhotoTooLargeModal)
    ensures chosen.Some? && chosen.value.size <= MaxPhotoSize && !StartsWith(chosen.value.mediaType, "image/") ==>
              r == (f, PhotoNotImageModal)
    ensures r.0 != f ==> chosen.Some? && r.0 == f.(step4 := f.step4.(photo := PhotoFile(chosen.value))) && r.1 == modal
    ensures AdmissiblePhoto(f.step4.photo) ==> AdmissiblePhoto(r.0.step4.photo)
  {
    match chosen
    case None => (f, modal)
    case Some(file) =>
      if file.size > MaxPhotoSize then (f, PhotoTooLargeModal)
      else if !StartsWith(file.mediaType, "image/") then (f, PhotoNotImageModal)
      else (UpdateStep4(f, EmptyStep4Patch.(photo := Some(PhotoFile(file)))), modal)
  }

  /** An image within the size limit is always taken. */
  lemma UploadPhotoAccepts(f: FormData, file: FileRef, modal: ModalState)
    requires file.size <= MaxPhotoSize && StartsWith(file.mediaType, "image/")
    ensures UploadPhoto(f, Some(file), modal) == (f.(step4 := f.step4.(photo := PhotoFile(file))), modal)
  {
  }

  /** `handleRemovePhoto`: `photo` becomes `null`. */
  function RemovePhoto(f: FormData): (r: FormData)
    ensures r.step4.photo == NoPhoto
    ensures r == f.(step4 := f.step4.(photo := NoPhoto))
  {
    UpdateStep4(f, EmptyStep4Patch.(photo := Some(NoPhoto)))
  }

  /* ---------- social media ---------- */

  function WithSocial(f: FormData, list: seq<SocialLink>): FormData {
    UpdateStep4(f, EmptyStep4Patch.(socialMedia := Some(list)))
  }

  /** `handleAddSocialMedia`: an empty entry at the end. */
  function AddSocial(f: FormData): (r: FormData)
    ensures r.step4.socialMedia.Some?
    ensures var l := r.step4.socialMedia.value;
            |l| == |SocialList(f)| + 1 && l[..|SocialList(f)|] == SocialList(f) && l[|l| - 1] == SocialLink("", "")
    ensures r.(step4 := f.step4) == f
  {
    WithSocial(f, SocialList(f) + [SocialLink("", "")])
  }

  /** `filter((_, i) => i !== index)`. */
  function RemoveAt<T>(s: seq<T>, index: nat): (r: seq<T>)
    ensures index < |s| ==>
              (|r| == |s| - 1
               && (forall j :: 0 <= j < index ==> r[j] == s[j])
               && (forall j :: index <= j < |r| ==> r[j] == s[j + 1]))
    ensures index >= |s| ==> r == s
  {
    if index < |s| then s[..index] + s[index + 1..] else s
  }

  /** `handleRemoveSocialMedia(index)`: only entry `index` goes. */
  function RemoveSocial(f: FormData, index: nat): (r: FormData)
    ensures r.step4.socialMedia == Some(RemoveAt(SocialList(f), index))
    ensures r.(step4 := f.step4) == f
  {
    WithSocial(f, RemoveAt(SocialList(f), index))
  }

  datatype SocialField = Name | Url

  /** `handleSocialMediaChange(index, field, value)`: one field of one entry. */
  function ChangeSocial(f: FormData, index: nat, field: SocialField, value: string): (r: FormData)
    requires index < |SocialList(f)|
    ensures r.step4.socialMedia.Some?
    ensures var l := SocialList(f);
            var m := r.step4.socialMedia.value;
            |m| == |l|
            && (forall j :: 0 <= j < |l| && j != index ==> m[j] == l[j])
            && (field == Name ==> m[index] == l[index].(name := value))
            && (field == Url ==> m[index] == l[index].(url := value))
    ensures r.(step4 := f.step4) == f
  {
    var l := SocialList(f);
    var e := if field == Name then l[index].(name := value) else l[index].(url := value);
    WithSocial(f, l[index := e])
  }

  /** Removing the entry just added restores the list. */
  lemma RemoveUndoesAdd(f: FormData)
    ensures SocialList(RemoveSocial(AddSocial(f), |SocialList(f)|)) == SocialList(f)
  {
    var l := SocialList(f);
    assert (l + [SocialLink("", "")])[..|l|] == l;
  }
}
