/** The image check (src/utils/validators.ts): a type whitelist first, then
    a size cap. */
module Validators {
  import opened Wrappers

  const JpegType: string := "image/jpeg"
  const PngType: string := "image/png"

  /** `1024 * 1024` bytes. */
  const MaxImageBytes: nat := 1024 * 1024

  const TypeError: string := "Only JPG/PNG allowed"
  const SizeError: string := "Max image size is 1MB"

  /** `validateImage(file)`, on the file's MIME type and size in bytes:
      `None` for an acceptable file, else the message to show. */
  function ValidateImage(fileType: string, size: nat): (r: Option<string>)
    ensures fileType != JpegType && fileType != PngType ==> r == Some(TypeError)
    ensures (fileType == JpegType || fileType == PngType) && size > MaxImageBytes ==> r == Some(SizeError)
    ensures r.None? <==> (fileType == JpegType || fileType == PngType) && size <= MaxImageBytes
  {
    if fileType != JpegType && fileType != PngType then Some(TypeError)
    else if size > MaxImageBytes then Some(SizeError)
    else None
  }

  /** "image/jpg" is not on the whitelist, and the type error wins over the
      size error. */
  lemma JpgRejected(size: nat)
    ensures ValidateImage("image/jpg", size) == Some(TypeError)
  {
  }

  /** A file of exactly one mebibyte is accepted; one byte more is not. */
  lemma SizeBoundary()
    ensures ValidateImage(PngType, 1048576) == None
    ensures ValidateImage(PngType, 1048577) == Some(SizeError)
  {
  }
}
