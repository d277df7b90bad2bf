/** The profile page's picture upload: choosing a file, which is checked on
    the client, and uploading it, with the error text picked from whatever the
    request produced. */
module UserProfile {
  import opened JsBase
  import opened Entities

  const NotAnImage := "Please select an image file"
  const TooLarge := "Image must be less than 5MB"
  const NoFileChosen := "Please select an image first"
  const NotLoggedIn := "You must be logged in to update your profile picture"
  const NoToken := "Authentication token not found"
  const UploadedText := "Profile image uploaded successfully!"
  const RejectedDefault := "Failed to update profile picture"
  const UploadFailed := "Failed to update profile picture. Please try again."
  const NetworkFailed := "Network error. Please check your connection."
  const ServerOrigin := "http://localhost:5000"

  /** 5 MiB in bytes. */
  const MaxImageSize := 5 * 1024 * 1024

  /** A chosen file: its name, MIME type and size in bytes. */
  datatype File = File(name: string, mimeType: string, size: nat)

  /** What the upload request ends with: a 2xx answer with the body's
      `message` and `filePath`, an error status with the body's `message`, or
      no answer at all. */
  datatype Reply =
    | Answered(message: Option<string>, filePath: Option<string>)
    | ErrorStatus(message: Option<string>)
    | NoAnswer

  /** The client-side check of a chosen file. `type.match("image.*")` is an
      unanchored, case-sensitive search for "image"; the type is checked before
      the size, and the size limit is inclusive. */
  function FileProblem(f: File): (r: Option<string>)
    ensures r == Some(NotAnImage) <==> !Contains(f.mimeType, "image")
    ensures r == Some(TooLarge) <==> Contains(f.mimeType, "image") && f.size > MaxImageSize
    ensures r.None? <==> Contains(f.mimeType, "image") && f.size <= MaxImageSize
  {
    if !Contains(f.mimeType, "image") then Some(NotAnImage)
    else if f.size > MaxImageSize then Some(TooLarge)
    else None
  }

  /** `value || fallback` for a string that may be missing or empty: a
      non-empty value wins, `undefined`, `null` and `""` give the fallback, so
      the result is empty only when the fallback is. */
  function OrElse(value: Option<string>, fallback: string): (r: string)
    ensures value.Some? && value.value != "" ==> r == value.value
    ensures value.None? || value.value == "" ==> r == fallback
    ensures r == "" ==> fallback == ""
  {
    if value.Some? && value.value != "" then value.value else fallback
  }

  /** `if (!token)`: a stored token is usable only when it is a non-empty
      string; `localStorage.getItem` gives `null` for a missing one. */
  predicate HasToken(token: Option<string>)
  {
    token.Some? && token.value != ""
  }

  /** `${value}` in a template literal: a missing value renders as "undefined". */
  function Rendered(value: Option<string>): string
  {
    if value.Some? then value.value else "undefined"
  }

  /** The text shown after a failed upload with a token present. A 2xx answer
      without the success message is rethrown with its own message; an error
      status shows the server's message; no answer shows the network text;
      every fallback is the generic text. */
  function UploadErrorText(reply: Reply): (r: string)
    requires !(reply.Answered? && reply.message == Some(UploadedText))
    ensures reply.ErrorStatus? ==> r == OrElse(reply.message, UploadFailed)
    ensures reply.NoAnswer? ==> r == NetworkFailed
    ensures reply.Answered? ==> r == OrElse(reply.message, RejectedDefault)
  {
    match reply
    case Answered(message, _) => OrElse(message, RejectedDefault)
    case ErrorStatus(message) => OrElse(message, UploadFailed)
    case NoAnswer => NetworkFailed
  }

  class ProfilePage {
    var user: Option<User>
    var selectedFile: Option<File>
    var previewUrl: Option<string>
    var uploadLoading: bool
    var uploadError: Option<string>
    /** Every file posted to the upload endpoint. */
    var posted: seq<File>

    constructor(user: Option<User>)
      ensures this.user == user && selectedFile.None? && previewUrl.None?
      ensures !uploadLoading && uploadError.None? && posted == []
    {
      this.user := user;
      selectedFile := None;
      previewUrl := None;
      uploadLoading := false;
      uploadError := None;
      posted := [];
    }

    /** `handleFileChange` with the first chosen file, if any; `objectUrl` is
        the preview URL the browser would create for it. */
    method FileChange(file: Option<File>, objectUrl: string)
      modifies this`selectedFile, this`previewUrl, this`uploadError
      ensures file.None? ==> unchanged(this`selectedFile, this`previewUrl, this`uploadError)
      ensures file.Some? && FileProblem(file.value).Some? ==>
        uploadError == FileProblem(file.value) && unchanged(this`selectedFile, this`previewUrl)
      ensures file.Some? && FileProblem(file.value).None? ==>
        selectedFile == file && previewUrl == Some(objectUrl) && uploadError.None?
    {
      if file.None? {
        return;
      }
      var problem := FileProblem(file.value);
      if problem.Some? {
        uploadError := problem;
        return;
      }
      selectedFile := file;
      previewUrl := Some(objectUrl);
      uploadError := None;
    }

    /** `handleUpload`. `token` is what local storage holds and `reply` how the
        request ends when it is made. */
    method Upload(token: Option<string>, reply: Reply)
      modifies this`user, this`selectedFile, this`previewUrl, this`uploadLoading, this`uploadError, this`posted
      ensures old(selectedFile).None? ==>
        uploadError == Some(NoFileChosen) && unchanged(this`user, this`selectedFile, this`previewUrl, this`uploadLoading, this`posted)
      ensures old(selectedFile).Some? && old(user).None? ==>
        uploadError == Some(NotLoggedIn) && unchanged(this`user, this`selectedFile, this`previewUrl, this`uploadLoading, this`posted)
      ensures old(selectedFile).Some? && old(user).Some? ==> !uploadLoading
      ensures old(selectedFile).Some? && old(user).Some? && !HasToken(token) ==>
        uploadError == Some(NoToken) && posted == old(posted)
        && unchanged(this`user, this`selectedFile, this`previewUrl)
      ensures old(selectedFile).Some? && old(user).Some? && HasToken(token) ==>
        posted == old(posted) + [old(selectedFile).value]
      ensures old(selectedFile).Some? && old(user).Some? && HasToken(token) && reply.Answered? && reply.message == Some(UploadedText) ==>
        && user == Some(old(user).value.(profile_pic := Some(ServerOrigin + Rendered(reply.filePath))))
        && selectedFile.None? && previewUrl.None? && uploadError.None?
      ensures old(selectedFile).Some? && old(user).Some? && HasToken(token) && !(reply.Answered? && reply.message == Some(UploadedText)) ==>
        uploadError == Some(UploadErrorText(reply)) && unchanged(this`user, this`selectedFile, this`previewUrl)
    {
      if selectedFile.None? {
        uploadError := Some(NoFileChosen);
        return;
      }
      if user.None? {
        uploadError := Some(NotLoggedIn);
        return;
      }
      uploadLoading := true;
      uploadError := None;
      if !HasToken(token) {
        uploadError := Some(NoToken);
      } else {
        posted := posted + [selectedFile.value];
        if reply.Answered? && reply.message == Some(UploadedText) {
          user := Some(user.value.(profile_pic := Some(ServerOrigin + Rendered(reply.filePath))));
          selectedFile := None;
          previewUrl := None;
        } else {
          uploadError := Some(UploadErrorText(reply));
        }
      }
      uploadLoading := false;
    }
  }

  /** A file of exactly 5 MiB is accepted and one byte more is refused; an
      upper-case type does not match. */
  lemma FileLimits()
    ensures FileProblem(File("a.png", "image/png", MaxImageSize)).None?
    ensures FileProblem(File("a.png", "image/png", MaxImageSize + 1)) == Some(TooLarge)
    ensures FileProblem(File("a.png", "IMAGE/PNG", 1)) == Some(NotAnImage)
  {
    assert StartsWith("image/png", "image");
    MissingFirstCharNotContained("IMAGE/PNG", "image");
  }

  /** The error text for each way a tokened upload can fail. */
  lemma UploadErrorOrder()
    ensures UploadErrorText(ErrorStatus(Some("Invalid file"))) == "Invalid file"
    ensures UploadErrorText(ErrorStatus(None)) == UploadFailed
    ensures UploadErrorText(NoAnswer) == NetworkFailed
    ensures UploadErrorText(Answered(Some("Nope"), None)) == "Nope"
    ensures UploadErrorText(Answered(Some(""), None)) == RejectedDefault
  {
  }

  /** A stored empty token is falsy: nothing is posted and the token error is
      shown. */
  method EmptyTokenNotPosted() returns (posted: seq<File>, error: Option<string>)
    ensures posted == [] && error == Some(NoToken)
  {
    var page := new ProfilePage(Some(User(Num(7), "u7", None)));
    assert StartsWith("image/png", "image");
    page.FileChange(Some(File("p.png", "image/png", 10)), "blob:1");
    page.Upload(Some(""), NoAnswer);
    posted, error := page.posted, page.uploadError;
  }

  /** A successful upload stores the server path behind the server origin and
      clears the selection. */
  method SuccessfulUpload() returns (pic: Option<string>, selection: Option<File>)
    ensures pic == Some("http://localhost:5000/uploads/p.png") && selection.None?
  {
    var page := new ProfilePage(Some(User(Num(7), "u7", None)));
    assert StartsWith("image/png", "image");
    page.FileChange(Some(File("p.png", "image/png", 10)), "blob:1");
    assert page.selectedFile.Some? && page.user.Some?;
    page.Upload(Some("t"), Answered(Some(UploadedText), Some("/uploads/p.png")));
    assert ServerOrigin + Rendered(Some("/uploads/p.png")) == "http://localhost:5000/uploads/p.png";
    pic, selection := page.user.value.profile_pic, page.selectedFile;
  }
}
