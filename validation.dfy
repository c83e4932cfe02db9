/**
 * `validateImageFile(file)`: collects one error for an unsupported MIME type and one
 * for a file larger than `MAX_SIZE_MB` megabytes, in that order; the file is valid
 * when no error was collected.
 */
module Validation {
  import opened Constants

  /** The two fields of a browser `File` that the validator reads. */
  datatype ImageFile = ImageFile(mimeType: string, size: int)

  /** The messages, by the value they report (the wording and the `toFixed(2)` rendering are not modelled). */
  datatype ValidationError = UnsupportedFormat(mimeType: string) | TooLarge(size: int)

  datatype Verdict = Verdict(valid: bool, errors: seq<ValidationError>)

  const MaxSizeBytes: int := MaxSizeMb * 1024 * 1024

  /** A file the validator accepts: a supported format of at most 5 MiB. */
  predicate Acceptable(file: ImageFile) {
    file.mimeType in SupportedFormats && file.size <= MaxSizeBytes
  }

  method ValidateImageFile(file: ImageFile) returns (v: Verdict)
    ensures v.valid <==> Acceptable(file)
    ensures v.valid <==> file.mimeType in SupportedFormats && file.size <= 5 * 1024 * 1024
    ensures v.valid <==> v.errors == []
    ensures |v.errors| <= 2
    ensures UnsupportedFormat(file.mimeType) in v.errors <==> file.mimeType !in SupportedFormats
    ensures TooLarge(file.size) in v.errors <==> file.size > MaxSizeBytes
    ensures forall e :: e in v.errors ==> e == UnsupportedFormat(file.mimeType) || e == TooLarge(file.size)
    ensures |v.errors| == 2 ==> v.errors == [UnsupportedFormat(file.mimeType), TooLarge(file.size)]
  {
    var errors: seq<ValidationError> := [];
    if file.mimeType !in SupportedFormats {
      errors := errors + [UnsupportedFormat(file.mimeType)];
    }
    if file.size > MaxSizeBytes {
      errors := errors + [TooLarge(file.size)];
    }
    v := Verdict(|errors| == 0, errors);
  }
}
