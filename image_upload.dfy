/**
 * The image upload service's own logic: the checks it makes before sending
 * anything (key configured, then image type, then size) and how it reads the
 * image host's answer. The request itself is not modelled: the answer is an
 * input, with `None` standing for a request that threw.
 */
module ImageUpload {
  import opened Wrappers

  /** The host's free-tier limit, 32 MiB. */
  const MaxSize: nat := 32 * 1024 * 1024

  const NotConfigured := "Image upload not configured. Please add IMGBB_API_KEY to .env.local"
  const NotAnImage := "Please select a valid image file"
  const TooLarge := "Image size must be less than 32MB"
  const UploadFailed := "Upload failed"
  const NetworkError := "Network error during upload"

  /** What the service reads of the chosen file. */
  datatype FileInfo = FileInfo(mimeType: string, size: nat)

  /** `{ success, url?, error? }`. */
  datatype UploadResult = UploadResult(success: bool, url: Option<string>, error: Option<string>)

  /** The fields of the host's JSON answer that are read: `success`, `data.url` and `error.message` (an empty text counts as missing). */
  datatype Answer = Answer(success: bool, url: string, message: string)

  /** The first failing pre-check's message, or none when the file may be sent. */
  function PreCheck(apiKey: string, file: FileInfo): (r: Option<string>)
    ensures apiKey == "" ==> r == Some(NotConfigured)
    ensures apiKey != "" && !("image/" <= file.mimeType) ==> r == Some(NotAnImage)
    ensures apiKey != "" && "image/" <= file.mimeType && file.size > MaxSize ==> r == Some(TooLarge)
    ensures r.None? <==> apiKey != "" && "image/" <= file.mimeType && file.size <= MaxSize
  {
    if apiKey == "" then Some(NotConfigured)
    else if !("image/" <= file.mimeType) then Some(NotAnImage)
    else if file.size > MaxSize then Some(TooLarge)
    else None
  }

  /** How the answer (or a thrown request) becomes a result. */
  function ReadAnswer(answer: Option<Answer>): (r: UploadResult)
    ensures r.success <==> answer.Some? && answer.value.success && answer.value.url != ""
    ensures r.success ==> r.url == Some(answer.value.url) && r.error.None?
    ensures !r.success ==> r.url.None? && r.error.Some? && r.error.value != ""
    ensures answer.None? ==> r.error == Some(NetworkError)
  {
    match answer
    case None => UploadResult(false, None, Some(NetworkError))
    case Some(a) =>
      if a.success && a.url != "" then UploadResult(true, Some(a.url), None)
      else UploadResult(false, None, Some(if a.message != "" then a.message else UploadFailed))
  }

  /** `uploadImage(file)` given the configured key and the host's answer. */
  function UploadImage(apiKey: string, file: FileInfo, answer: Option<Answer>): (r: UploadResult)
    ensures PreCheck(apiKey, file).Some? ==> r == UploadResult(false, None, PreCheck(apiKey, file))
    ensures PreCheck(apiKey, file).None? ==> r == ReadAnswer(answer)
  {
    match PreCheck(apiKey, file)
    case Some(message) => UploadResult(false, None, Some(message))
    case None => ReadAnswer(answer)
  }

  /** A successful upload always carries a non-empty URL, and only a configured key, an image type and a size within the limit can succeed. */
  lemma SuccessNeedsAllChecks(apiKey: string, file: FileInfo, answer: Option<Answer>)
    ensures UploadImage(apiKey, file, answer).success ==>
      apiKey != "" && "image/" <= file.mimeType && file.size <= MaxSize
      && UploadImage(apiKey, file, answer).url.Some? && UploadImage(apiKey, file, answer).url.value != ""
  {
  }

  /** A file of exactly 32 MiB passes the size check; one byte more does not. */
  lemma SizeBoundary(apiKey: string, mimeType: string)
    requires apiKey != "" && "image/" <= mimeType
    ensures PreCheck(apiKey, FileInfo(mimeType, 33554432)).None?
    ensures PreCheck(apiKey, FileInfo(mimeType, 33554433)) == Some(TooLarge)
  {
  }

  /** The key is checked first: without it even a perfect file fails with the configuration message. */
  lemma KeyCheckedFirst(file: FileInfo, answer: Option<Answer>)
    ensures UploadImage("", file, answer) == UploadResult(false, None, Some(NotConfigured))
  {
  }
}
