/**
 * The profile actions: validating and storing the profile text fields, and uploading a
 * profile photo to blob storage with its checks, the object path, the rule for deleting the
 * previous photo and the clean-up after a failure. Blob storage is outside the model: its
 * calls are recorded as a trace and the URL it would hand back is a parameter.
 */
module ProfileActions {
  import opened Wrappers
  import opened Store
  import opened Dates
  import Strings

  /* ---------- profile fields ---------- */

  /** What the form sends for the birth date: nothing or '', a parsable date, or text that is no date. */
  datatype BirthDateField = NoBirthDate | BirthDateGiven(date: Date) | UnparsableBirthDate

  /** The profile form's entries; `None` is an entry the form did not send. */
  datatype ProfileForm = ProfileForm(
    name: Option<string>,
    birthDate: BirthDateField,
    gender: Option<string>,
    city: Option<string>,
    aboutMe: Option<string>)

  const MaxName := 100
  const MaxGender := 50
  const MaxCity := 100
  const MaxAboutMe := 1000

  /** An optional text field with an upper length bound; '' is always accepted. */
  predicate WithinLimit(field: Option<string>, max: nat) {
    field.None? || |field.value| <= max
  }

  /**
   * The fields `profileSchema` rejects. A name must be absent, '' or 1..100 characters; gender,
   * city and the about-me text have upper bounds only; a birth date must be absent or a date.
   */
  function InvalidFields(form: ProfileForm): (fields: set<string>)
    ensures "name" in fields <==> !WithinLimit(form.name, MaxName)
    ensures "birthDate" in fields <==> form.birthDate.UnparsableBirthDate?
    ensures "gender" in fields <==> !WithinLimit(form.gender, MaxGender)
    ensures "city" in fields <==> !WithinLimit(form.city, MaxCity)
    ensures "aboutMe" in fields <==> !WithinLimit(form.aboutMe, MaxAboutMe)
    ensures fields <= {"name", "birthDate", "gender", "city", "aboutMe"}
  {
    (if WithinLimit(form.name, MaxName) then {} else {"name"})
    + (if form.birthDate.UnparsableBirthDate? then {"birthDate"} else {})
    + (if WithinLimit(form.gender, MaxGender) then {} else {"gender"})
    + (if WithinLimit(form.city, MaxCity) then {} else {"city"})
    + (if WithinLimit(form.aboutMe, MaxAboutMe) then {} else {"aboutMe"})
  }

  /** `value || null`: an absent or empty text is stored as null, anything else unchanged. */
  function StoredText(value: Option<string>): (stored: Option<string>)
    ensures stored.None? <==> value.None? || value.value == ""
    ensures stored.Some? ==> stored == value
  {
    if value.Some? && value.value != "" then value else None
  }

  /** The birth date column after an update: the date, or null when none was sent. */
  function StoredBirthDate(field: BirthDateField): (stored: Option<Date>)
    requires !field.UnparsableBirthDate?
    ensures stored.Some? <==> field.BirthDateGiven?
    ensures stored.Some? ==> stored.value == field.date
  {
    if field.BirthDateGiven? then Some(field.date) else None
  }

  /** The row `updateProfile` writes over `user`: every form column is replaced, the rest kept. */
  function UpdatedUser(user: User, form: ProfileForm): (u: User)
    requires !form.birthDate.UnparsableBirthDate?
    ensures u.id == user.id && u.image == user.image
    ensures u.name == StoredText(form.name) && u.gender == StoredText(form.gender)
    ensures u.city == StoredText(form.city) && u.aboutMe == StoredText(form.aboutMe)
    ensures u.birthDate == StoredBirthDate(form.birthDate)
  {
    user.(name := StoredText(form.name), birthDate := StoredBirthDate(form.birthDate),
          gender := StoredText(form.gender), city := StoredText(form.city), aboutMe := StoredText(form.aboutMe))
  }

  /** Re-submitting a profile that was just stored writes the same row again. */
  lemma UpdateIdempotent(user: User, form: ProfileForm)
    requires !form.birthDate.UnparsableBirthDate?
    ensures var u := UpdatedUser(user, form);
      UpdatedUser(u, ProfileForm(u.name, if u.birthDate.Some? then BirthDateGiven(u.birthDate.value) else NoBirthDate,
                                 u.gender, u.city, u.aboutMe)) == u
  {
  }

  datatype Status = Success | Error

  /** The form state the profile actions answer with. */
  datatype UpdateFormState = UpdateFormState(message: string, status: Status)

  /** `updateProfile`; `storeFails` is a failure of the update, including a missing user row. */
  method UpdateProfile(db: Database, session: Option<UserId>, form: ProfileForm, storeFails: bool)
    returns (state: UpdateFormState)
    requires db.Valid()
    modifies db`users
    ensures db.Valid()
    ensures !SignedIn(session) ==> state == UpdateFormState("Nicht autorisiert.", Error)
    ensures SignedIn(session) && InvalidFields(form) != {} ==>
      state == UpdateFormState("Validierungsfehler. Bitte \U{FC}berpr\U{FC}fen Sie Ihre Eingaben.", Error)
    ensures state.status == Success <==>
      SignedIn(session) && InvalidFields(form) == {} && !storeFails && session.value in old(db.users)
    ensures state.status == Error ==> db.users == old(db.users)
    ensures state.status == Success ==>
      db.users == old(db.users)[session.value := UpdatedUser(old(db.users)[session.value], form)]
  {
    if !SignedIn(session) {
      return UpdateFormState("Nicht autorisiert.", Error);
    }
    var userId := session.value;
    if InvalidFields(form) != {} {
      return UpdateFormState("Validierungsfehler. Bitte \U{FC}berpr\U{FC}fen Sie Ihre Eingaben.", Error);
    }
    if storeFails || userId !in db.users {
      return UpdateFormState("Datenbankfehler. Bitte versuchen Sie es erneut.", Error);
    }
    db.UpdateUser(UpdatedUser(db.users[userId], form));
    state := UpdateFormState("Profil erfolgreich aktualisiert.", Success);
  }

  /* ---------- photo upload ---------- */

  /** The uploaded file's metadata; its bytes are not modelled. */
  datatype UploadFile = UploadFile(name: string, mimeType: string, size: nat)

  /** 4.5 MiB. */
  const MaxPhotoSize: nat := 4718592

  datatype FileCheck = FileAccepted | NoFileChosen | NotAnImage | FileTooLarge

  /** The checks before any storage call, in their order: presence, type, then size. */
  function CheckFile(file: Option<UploadFile>): (check: FileCheck)
    ensures check == NoFileChosen <==> file.None? || file.value.size == 0
    ensures check == NotAnImage <==>
      file.Some? && file.value.size != 0 && !Strings.IsPrefix("image/", file.value.mimeType)
    ensures check == FileTooLarge <==>
      file.Some? && file.value.size != 0 && Strings.IsPrefix("image/", file.value.mimeType)
      && file.value.size > MaxPhotoSize
    ensures check == FileAccepted <==>
      file.Some? && 0 < file.value.size <= MaxPhotoSize && Strings.IsPrefix("image/", file.value.mimeType)
  {
    if file.None? || file.value.size == 0 then NoFileChosen
    else if !Strings.IsPrefix("image/", file.value.mimeType) then NotAnImage
    else if file.value.size > MaxPhotoSize then FileTooLarge
    else FileAccepted
  }

  /** The error shown for a rejected file; only an accepted file has no message. */
  function FileCheckMessage(check: FileCheck): (message: string)
    ensures message == "" <==> check == FileAccepted
  {
    match check
    case FileAccepted => ""
    case NoFileChosen => "Bitte w\U{E4}hlen Sie eine Datei aus."
    case NotAnImage => "Nur Bilddateien sind erlaubt."
    case FileTooLarge => "Datei zu gro\U{DF} (max. 4.5MB)."
  }

  /** The blob pathname `user-photos/<userId>/<timestamp>-<file name>`. */
  function PhotoPath(userId: UserId, timestamp: nat, fileName: string): (path: string)
    ensures Strings.IsPrefix("user-photos/" + userId + "/", path)
    ensures var start := |"user-photos/" + userId + "/"|;
      var end := |path| - |fileName| - 1;
      && start < end
      && path[end..] == "-" + fileName
      && Strings.ParseNat(path[start..end]) == Some(timestamp)
  {
    var prefix := "user-photos/" + userId + "/";
    var stamp := Strings.NatToString(timestamp);
    var path := prefix + stamp + "-" + fileName;
    assert path[..|prefix|] == prefix;
    assert path[|path| - |fileName| - 1..] == "-" + fileName;
    assert path[|prefix|..|path| - |fileName| - 1] == stamp;
    Strings.NatToStringRoundTrip(timestamp);
    path
  }

  /** Two uploads of the same file by the same user at different times get different paths. */
  lemma PhotoPathInjective(userId: UserId, t1: nat, t2: nat, fileName: string)
    requires PhotoPath(userId, t1, fileName) == PhotoPath(userId, t2, fileName)
    ensures t1 == t2
  {
    var prefix := "user-photos/" + userId + "/";
    var s1 := Strings.NatToString(t1);
    var s2 := Strings.NatToString(t2);
    var p1 := PhotoPath(userId, t1, fileName);
    var p2 := PhotoPath(userId, t2, fileName);
    assert |s1| == |s2| by {
      assert |p1| == |prefix| + |s1| + 1 + |fileName|;
      assert |p2| == |prefix| + |s2| + 1 + |fileName|;
    }
    assert s1 == p1[|prefix|..|prefix| + |s1|];
    assert s2 == p2[|prefix|..|prefix| + |s2|];
    Strings.NatToStringRoundTrip(t1);
    Strings.NatToStringRoundTrip(t2);
  }

  const BlobHost := "blob.vercel-storage.com"

  /** The previous photo is deleted when there is one, it is not the new URL, and it lives in blob storage. */
  predicate ShouldDeleteOld(oldImage: Option<string>, newUrl: string) {
    oldImage.Some? && oldImage.value != "" && oldImage.value != newUrl && Strings.Contains(oldImage.value, BlobHost)
  }

  /** A call into blob storage. */
  datatype BlobCall = Put(pathname: string) | Delete(url: string)

  /** Where the upload's storage steps can fail. */
  datatype UploadFailure = NoFailure | PutFails | LookupFails | UpdateFails

  datatype UploadState = UploadState(message: string, status: Status, imageUrl: Option<string>)

  /**
   * `uploadProfilePhoto`. `now` is `Date.now()`, `blobUrl` the URL `put` answers with, and
   * `failure` the step that throws, if any. Besides the state it returns the blob calls it made;
   * a failing deletion of the old photo is only logged and changes nothing.
   */
  method UploadProfilePhoto(db: Database, session: Option<UserId>, file: Option<UploadFile>, now: nat,
                            blobUrl: string, failure: UploadFailure)
    returns (state: UploadState, calls: seq<BlobCall>)
    requires db.Valid()
    modifies db`users
    ensures db.Valid()
    ensures !SignedIn(session) ==> state == UploadState("Nicht autorisiert.", Error, None)
    // the checks reject before any storage call
    ensures !SignedIn(session) || !CheckFile(file).FileAccepted? ==> calls == [] && db.users == old(db.users)
    ensures SignedIn(session) && !CheckFile(file).FileAccepted? ==>
      state == UploadState(FileCheckMessage(CheckFile(file)), Error, None)
    ensures SignedIn(session) && CheckFile(file).FileAccepted? ==>
      |calls| >= 1 && calls[0] == Put(PhotoPath(session.value, now, file.value.name))
    ensures state.status == Success <==>
      SignedIn(session) && CheckFile(file).FileAccepted? && failure == NoFailure && session.value in old(db.users)
    // success: the new URL is stored and the old photo is deleted exactly when the rule says so
    ensures state.status == Success ==>
      && state.imageUrl == Some(blobUrl)
      && db.users == old(db.users)[session.value := old(db.users)[session.value].(image := Some(blobUrl))]
      && calls == [calls[0]] + (if ShouldDeleteOld(old(db.users)[session.value].image, blobUrl)
                                then [Delete(old(db.users)[session.value].image.value)] else [])
      && Delete(blobUrl) !in calls
    // a failure after the put removes the new blob and leaves the user row alone
    ensures state.status == Error ==> db.users == old(db.users) && state.imageUrl.None?
    ensures SignedIn(session) && CheckFile(file).FileAccepted? && failure == PutFails ==> |calls| == 1
    ensures (SignedIn(session) && CheckFile(file).FileAccepted? && failure != PutFails && state.status == Error) ==>
      calls == [calls[0], Delete(blobUrl)]
  {
    if !SignedIn(session) {
      return UploadState("Nicht autorisiert.", Error, None), [];
    }
    var userId := session.value;
    var check := CheckFile(file);
    if !check.FileAccepted? {
      return UploadState(FileCheckMessage(check), Error, None), [];
    }
    var errorState := UploadState("Fehler beim Hochladen oder Speichern des Fotos.", Error, None);
    var pathname := PhotoPath(userId, now, file.value.name);
    calls := [Put(pathname)];
    if failure == PutFails {
      // no blob exists, so nothing is cleaned up
      return errorState, calls;
    }
    if failure == LookupFails || failure == UpdateFails || userId !in db.users {
      // a missing user row makes the update throw as well
      calls := calls + [Delete(blobUrl)];
      return errorState, calls;
    }
    var currentImage := db.users[userId].image;
    db.UpdateUser(db.users[userId].(image := Some(blobUrl)));
    if ShouldDeleteOld(currentImage, blobUrl) {
      calls := calls + [Delete(currentImage.value)];
    }
    state := UploadState("Foto erfolgreich hochgeladen.", Success, Some(blobUrl));
  }
}
