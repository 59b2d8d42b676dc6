/**
 * The profile form's client logic: the `yyyy-mm-dd` text of the birth-date input, the name of
 * the chosen photo, the reset of the file input after a successful upload, and the choice of
 * the preview image.
 */
module ProfileFormView {
  import opened Wrappers
  import opened Dates
  import Strings
  import ProfileActions

  /** A month or a day as two characters, left-padded with '0'. */
  function TwoDigits(n: nat): string {
    Strings.PadStart(Strings.NatToString(n), 2, '0')
  }

  lemma TwoDigitsRoundTrip(n: nat)
    requires n < 100
    ensures |TwoDigits(n)| == 2
    ensures Strings.ParseNat(TwoDigits(n)) == Some(n)
  {
    Strings.NatToStringRoundTrip(n);
    if n < 10 {
      var t := TwoDigits(n);
      assert Strings.NatToString(n) == [Strings.DigitChar(n)];
      assert t == ['0', Strings.DigitChar(n)];
      assert t[..1] == ['0'];
      Strings.DigitRoundTrip(n);
    } else {
      assert |Strings.NatToString(n / 10)| == 1;
    }
  }

  /**
   * `formatDateForInput`: '' without a date, otherwise the year unpadded, then the month and
   * the day as two digits each, separated by '-'.
   */
  function FormatDateForInput(date: Option<Date>): (text: string)
    requires date.Some? ==> ValidDate(date.value)
    ensures date.None? <==> text == ""
  {
    if date.None? then ""
    else
      var d := date.value;
      Strings.IntToString(d.year) + "-" + TwoDigits(d.month) + "-" + TwoDigits(d.day)
  }

  /** Reads a `year-mm-dd` text: the last six characters are "-mm-dd", the rest is the year. */
  function ParseDateInput(text: string): Option<Date> {
    if |text| < 7 || text[|text| - 6] != '-' || text[|text| - 3] != '-' then None
    else
      var year := Strings.ParseInt(text[..|text| - 6]);
      var month := Strings.ParseNat(text[|text| - 5..|text| - 3]);
      var day := Strings.ParseNat(text[|text| - 2..]);
      if year.Some? && month.Some? && day.Some? then Some(Date(year.value, month.value, day.value))
      else None
  }

  lemma DateTextParts(y: string, m: string, dd: string)
    requires |y| >= 1 && |m| == 2 && |dd| == 2
    ensures var text := y + "-" + m + "-" + dd; var n := |text|;
      && n >= 7 && text[n - 6] == '-' && text[n - 3] == '-'
      && text[..n - 6] == y && text[n - 5..n - 3] == m && text[n - 2..] == dd
  {
  }

  /** The input text of a real date reads back as that date, whatever the year. */
  lemma FormatDateForInputRoundTrip(d: Date)
    requires ValidDate(d)
    ensures ParseDateInput(FormatDateForInput(Some(d))) == Some(d)
  {
    TwoDigitsRoundTrip(d.month);
    TwoDigitsRoundTrip(d.day);
    Strings.IntToStringRoundTrip(d.year);
    DateTextParts(Strings.IntToString(d.year), TwoDigits(d.month), TwoDigits(d.day));
  }

  /** The preview of the photo form. */
  datatype Preview = Placeholder | Photo(src: string)

  predicate Truthy(s: Option<string>) {
    s.Some? && s.value != ""
  }

  /**
   * A photo is shown when the stored image or the uploaded URL is non-empty; its source is the
   * uploaded URL whenever the last upload returned one, and the stored image otherwise.
   */
  function PreviewFor(userImage: Option<string>, uploadState: Option<ProfileActions.UploadState>): (preview: Preview)
    ensures var imageUrl := if uploadState.Some? then uploadState.value.imageUrl else None;
      && (preview.Photo? <==> Truthy(userImage) || Truthy(imageUrl))
      && (preview.Photo? && imageUrl.Some? ==> preview.src == imageUrl.value)
      && (preview.Photo? && imageUrl.None? ==> Some(preview.src) == userImage)
  {
    var imageUrl := if uploadState.Some? then uploadState.value.imageUrl else None;
    if Truthy(userImage) || Truthy(imageUrl) then
      Photo(if imageUrl.Some? then imageUrl.value else userImage.value)
    else Placeholder
  }

  /** After a successful upload the preview shows the new blob, whatever the stored image was. */
  lemma PreviewShowsUpload(userImage: Option<string>, message: string, blobUrl: string)
    requires blobUrl != ""
    ensures PreviewFor(userImage, Some(ProfileActions.UploadState(message, ProfileActions.Success, Some(blobUrl)))) == Photo(blobUrl)
  {
  }

  class PhotoPicker {
    /** The `fileName` state. */
    var fileName: Option<string>
    /** The names of the files the file input currently holds. */
    var selectedFiles: seq<string>

    constructor ()
      ensures fileName.None? && selectedFiles == []
    {
      fileName := None;
      selectedFiles := [];
    }

    /** `handleFileChange`: the first chosen file's name, or null when none was chosen. */
    method HandleFileChange(files: seq<string>)
      modifies this
      ensures selectedFiles == files
      ensures fileName == if files == [] then None else Some(files[0])
    {
      selectedFiles := files;
      fileName := if files == [] then None else Some(files[0]);
    }

    /**
     * The check at render time: after a successful upload with a file name pending, the name
     * is dropped and the file input emptied; otherwise nothing changes.
     */
    method AfterUpload(uploadState: Option<ProfileActions.UploadState>)
      modifies this
      ensures uploadState.Some? && uploadState.value.status == ProfileActions.Success && Truthy(old(fileName)) ==>
        fileName.None? && selectedFiles == []
      ensures !(uploadState.Some? && uploadState.value.status == ProfileActions.Success && Truthy(old(fileName))) ==>
        fileName == old(fileName) && selectedFiles == old(selectedFiles)
    {
      if uploadState.Some? && uploadState.value.status == ProfileActions.Success && Truthy(fileName) {
        fileName := None;
        selectedFiles := [];
      }
    }
  }
}
