/**
 * The photo upload of the older Spring service: the stored name is a fresh UUID followed by the
 * extension of the original file name, and the answer is its public URL. The path cleaning of
 * the framework, the UUID and the outcome of the file write are inputs.
 */
module Upload {
  import opened Common

  /** A multipart file as the service sees it. */
  datatype UploadedFile = UploadedFile(originalFilename: Option<string>, size: nat)

  /** `StringUtils.cleanPath`. */
  type PathCleaner = string -> string

  /** The suffix starting at the last '.', or "" when the name has no '.'. */
  function Extension(name: string): (ext: string)
    ensures ext == "" <==> forall i :: 0 <= i < |name| ==> name[i] != '.'
    ensures ext != "" ==> ext[0] == '.' && EndsWith(name, ext)
    ensures forall j :: 1 <= j < |ext| ==> ext[j] != '.'
  {
    var idx := LastIndexOf(name, '.');
    if idx >= 0 then name[idx..] else ""
  }

  /** The name the file is stored under: the UUID and the original extension. */
  function StoredName(uuid: string, original: string): string
  {
    uuid + Extension(original)
  }

  /**
   * `uploadPhoto`: 400 "No file uploaded" for a missing or empty file, 500 "Upload failed" when the
   * write fails; otherwise `/uploads/` and the stored name. A file without a name is taken as
   * "photo", which has no extension.
   */
  function UploadPhoto(file: Option<UploadedFile>, cleanPath: PathCleaner, uuid: string, written: bool)
    : (r: Result<string>)
    ensures (file.None? || file.value.size == 0) ==> r == Err(ApiError(400, "No file uploaded"))
    ensures file.Some? && file.value.size > 0 && !written ==> r == Err(ApiError(500, "Upload failed"))
    ensures file.Some? && file.value.size > 0 && written ==>
      var original := cleanPath(if file.value.originalFilename.None? then "photo" else file.value.originalFilename.value);
      r.Ok? && StartsWith(r.value, "/uploads/" + uuid) &&
      r.value == "/uploads/" + StoredName(uuid, original)
  {
    if file.None? || file.value.size == 0 then Err(ApiError(400, "No file uploaded"))
    else
      var original := cleanPath(if file.value.originalFilename.None? then "photo" else file.value.originalFilename.value);
      var filename := StoredName(uuid, original);
      if !written then Err(ApiError(500, "Upload failed"))
      else
        assert ("/uploads/" + uuid + Extension(original))[..|"/uploads/" + uuid|] == "/uploads/" + uuid;
        Ok("/uploads/" + filename)
  }

  /**
   * The stored file keeps the type of the original: when the UUID holds no '.', the extension
   * of the stored name is the extension of the original name.
   */
  lemma ExtensionPreserved(uuid: string, original: string)
    requires '.' !in uuid
    ensures Extension(StoredName(uuid, original)) == Extension(original)
  {
    var e := Extension(original);
    var s := uuid + e;
    var idx := LastIndexOf(s, '.');
    if e == "" {
      assert s == uuid;
      assert forall i :: 0 <= i < |uuid| ==> uuid[i] != '.';
    } else {
      assert s[|uuid|] == '.';
      assert idx == |uuid|;
      assert s[idx..] == e;
    }
  }

  /**
   * A file sent without a name is taken as "photo", which has no extension: when path cleaning
   * leaves "photo" as it is, the answer is the bare UUID under `/uploads/`.
   */
  lemma DefaultNameHasNoExtension(size: nat, cleanPath: PathCleaner, uuid: string)
    requires size > 0 && cleanPath("photo") == "photo"
    ensures UploadPhoto(Some(UploadedFile(None, size)), cleanPath, uuid, true) == Ok("/uploads/" + uuid)
  {
    assert forall i :: 0 <= i < |"photo"| ==> "photo"[i] != '.';
    assert StoredName(uuid, "photo") == uuid;
  }
}
