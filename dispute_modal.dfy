/** The dispute dialog: its reason text and evidence file, the checks a chosen file must pass,
    the submit guard and the reset when the dialog closes. */
module DisputeModal {
  import opened Wrappers
  import opened JsStrings

  /** The evidence file limit, in kilobytes. */
  const MaxFileSizeKb: int := 301

  /** What the dialog knows of a chosen file: its MIME type and its size in bytes. */
  datatype FileInfo = FileInfo(mimeType: string, size: int)

  /** The two reasons a file is refused; the displayed texts are translations. */
  datatype FileError = WrongType | TooLarge

  /** The check `handleFileChange` applies, the type before the size. */
  function FileCheck(f: FileInfo): (e: Option<FileError>)
    ensures e == Some(WrongType) <==> !StartsWith(f.mimeType, "image/")
    ensures e == Some(TooLarge) <==> StartsWith(f.mimeType, "image/") && f.size > MaxFileSizeKb * 1024
    ensures e.None? <==> StartsWith(f.mimeType, "image/") && f.size <= 308224
  {
    if !StartsWith(f.mimeType, "image/") then Some(WrongType)
    else if f.size > MaxFileSizeKb * 1024 then Some(TooLarge)
    else None
  }

  /** The URL evidence falls back to when no preview is set. */
  const FallbackEvidenceUrl := "https://images.unsplash.com/photo-1615485925576-3453de16da64?q=80&w=800"

  /** A submission handed to the caller: the reason as typed and the evidence URL. */
  datatype Submission = Submission(reason: string, evidenceUrl: string)

  /** The submit guard: a reason that is not blank and no file error. */
  predicate CanSubmit(reason: string, fileError: Option<FileError>)
    ensures CanSubmit(reason, fileError) ==> reason != "" && fileError.None?
  {
    Trim(reason) != "" && fileError.None?
  }

  /** The guard holds exactly when the reason has a character that is not white space and no
      file was refused. */
  lemma CanSubmitIff(reason: string, fileError: Option<FileError>)
    ensures CanSubmit(reason, fileError) <==>
      (exists i :: 0 <= i < |reason| && !IsWhiteSpace(reason[i])) && fileError.None?
  {
    TrimEmptyIffBlank(reason);
  }

  /** `preview || fallback`: an absent or empty preview gives the fallback URL. */
  function EvidenceUrl(preview: Option<string>): (url: string)
    ensures preview.Some? && preview.value != "" ==> url == preview.value
    ensures preview.None? || preview.value == "" ==> url == FallbackEvidenceUrl
    ensures url != ""
  {
    if preview.Some? && preview.value != "" then preview.value else FallbackEvidenceUrl
  }

  class DisputeForm {
    var reason: string
    var file: Option<FileInfo>
    var preview: Option<string>
    var fileError: Option<FileError>

    /** A file is kept exactly when it has a preview, it is one that passed the check, and a
        refused file leaves none kept. */
    ghost predicate Valid()
      reads this
    {
      && (file.Some? <==> preview.Some?)
      && (file.Some? ==> FileCheck(file.value).None?)
      && (fileError.Some? ==> file.None?)
    }

    /** The empty dialog. */
    constructor ()
      ensures reason == "" && file.None? && preview.None? && fileError.None?
      ensures Valid()
    {
      reason := "";
      file := None;
      preview := None;
      fileError := None;
    }

    /** Typing in the reason box. */
    method SetReason(text: string)
      modifies this
      requires Valid()
      ensures reason == text
      ensures file == old(file) && preview == old(preview) && fileError == old(fileError)
      ensures Valid()
    {
      reason := text;
    }

    /** `handleFileChange`: no file changes nothing; a refused file records its error and clears
        file and preview; an accepted one clears the error and is kept with `objectUrl`, the
        browser's URL for it, as its preview. */
    method HandleFileChange(selected: Option<FileInfo>, objectUrl: string)
      modifies this
      requires Valid()
      ensures Valid()
      ensures reason == old(reason)
      ensures selected.None? ==> file == old(file) && preview == old(preview) && fileError == old(fileError)
      ensures selected.Some? && FileCheck(selected.value).Some? ==>
        fileError == FileCheck(selected.value) && file.None? && preview.None?
      ensures selected.Some? && FileCheck(selected.value).None? ==>
        fileError.None? && file == selected && preview == Some(objectUrl)
    {
      if selected.Some? {
        var f := selected.value;
        if !StartsWith(f.mimeType, "image/") {
          fileError := Some(WrongType);
          file := None;
          preview := None;
          return;
        }
        if f.size > MaxFileSizeKb * 1024 {
          fileError := Some(TooLarge);
          file := None;
          preview := None;
          return;
        }
        fileError := None;
        file := Some(f);
        preview := Some(objectUrl);
      }
    }

    /** `handleSubmit`: with the guard met, the reason and the evidence URL; else nothing. This
        changes no state. */
    method HandleSubmit() returns (s: Option<Submission>)
      ensures s.Some? <==> CanSubmit(reason, fileError)
      ensures s.Some? ==> s.value == Submission(reason, EvidenceUrl(preview))
    {
      if Trim(reason) != "" && fileError.None? {
        s := Some(Submission(reason, EvidenceUrl(preview)));
      } else {
        s := None;
      }
    }

    /** The effect on `isOpen`: closing clears the reason, file, preview and error; opening
        changes nothing. */
    method OnOpenChange(isOpen: bool)
      modifies this
      requires Valid()
      ensures Valid()
      ensures !isOpen ==> reason == "" && file.None? && preview.None? && fileError.None?
      ensures isOpen ==> reason == old(reason) && file == old(file) && preview == old(preview) && fileError == old(fileError)
    {
      if !isOpen {
        reason := "";
        file := None;
        preview := None;
        fileError := None;
      }
    }
  }

  /** A refused file blocks submission whatever the reason says. */
  lemma RefusedFileBlocksSubmit(reason: string, f: FileInfo)
    requires FileCheck(f).Some?
    ensures !CanSubmit(reason, FileCheck(f))
  {
  }

  /** An image exactly at the limit is accepted; one byte more is refused for its size, and a
      file that is not an image is refused for its type whatever its size. */
  lemma SizeLimitBoundary(t: string, size: int)
    requires StartsWith(t, "image/")
    ensures FileCheck(FileInfo(t, 308224)).None?
    ensures FileCheck(FileInfo(t, 308225)) == Some(TooLarge)
    ensures FileCheck(FileInfo("text/plain", size)) == Some(WrongType)
  {
    assert "text/plain"[..6] != "image/" by {
      assert "text/plain"[0] != "image/"[0];
    }
  }
}
