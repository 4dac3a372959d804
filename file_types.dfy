/** GetFileType of the asset service: the file-type category of an upload,
    from its extension first and its MIME type otherwise. */
module FileTypes {
  import opened Text
  import opened FileNames

  const ImageExtensions: seq<string> := [".jpg", ".jpeg", ".png", ".gif", ".bmp", ".webp", ".svg",
    ".tiff", ".tif", ".heic", ".heif", ".psd", ".arw", ".cr2", ".nef", ".dng", ".raw"]
  const VideoExtensions: seq<string> := [".mp4", ".mov", ".avi", ".mkv", ".webm",
    ".flv", ".wmv", ".m4v", ".mpeg", ".mpg"]
  const AudioExtensions: seq<string> := [".mp3", ".wav", ".flac", ".aac", ".ogg", ".m4a", ".wma", ".aiff"]

  const FileTypes: seq<string> := ["image", "video", "audio", "document", "archive", "other"]

  /** GetFileType: the extension tables decide first (ignoring case); then
      the MIME type's prefix or a keyword in it; "other" when nothing matches. */
  function GetFileType(mimeType: string, fileName: string): (t: string)
    ensures t in FileTypes
  {
    var ext := Lower(GetExtension(fileName));
    if ext in ImageExtensions then "image"
    else if ext in VideoExtensions then "video"
    else if ext in AudioExtensions then "audio"
    else MimeFileType(mimeType)
  }

  /** The MIME fallbacks of GetFileType. */
  function MimeFileType(mimeType: string): (t: string)
    ensures t in FileTypes
  {
    if StartsWith(mimeType, "image/") then "image"
    else if StartsWith(mimeType, "video/") then "video"
    else if StartsWith(mimeType, "audio/") then "audio"
    else if Contains(mimeType, "pdf") then "document"
    else if Contains(mimeType, "word") || Contains(mimeType, "document") then "document"
    else if Contains(mimeType, "sheet") || Contains(mimeType, "excel") then "document"
    else if Contains(mimeType, "zip") || Contains(mimeType, "rar") || Contains(mimeType, "7z") then "archive"
    else "other"
  }

  /** A known extension decides the type whatever the MIME type says. */
  lemma ExtensionWins(m1: string, m2: string, fileName: string)
    requires Lower(GetExtension(fileName)) in ImageExtensions + VideoExtensions + AudioExtensions
    ensures GetFileType(m1, fileName) == GetFileType(m2, fileName)
    ensures GetFileType(m1, fileName) in ["image", "video", "audio"]
  {
  }

  /** Without a known extension the MIME type alone decides. */
  lemma UnknownExtensionUsesMime(mimeType: string, fileName: string)
    requires Lower(GetExtension(fileName)) !in ImageExtensions + VideoExtensions + AudioExtensions
    ensures GetFileType(mimeType, fileName) == MimeFileType(mimeType)
  {
  }
}
