/** The content type of an extracted file, inferred from its extension
    (`FileProcessorService.getMimeType`). */
module MimeTypes {
  import opened Text

  const OctetStream: string := "application/octet-stream"

  /** The extension table, keyed by lower-case extension. */
  const MimeTable: map<string, string> := map[
    // Images
    "jpg" := "image/jpeg",
    "jpeg" := "image/jpeg",
    "png" := "image/png",
    "gif" := "image/gif",
    "bmp" := "image/bmp",
    "webp" := "image/webp",
    "svg" := "image/svg+xml",
    // Documents
    "pdf" := "application/pdf",
    "doc" := "application/msword",
    "docx" := "application/vnd.openxmlformats-officedocument.wordprocessingml.document",
    "xls" := "application/vnd.ms-excel",
    "xlsx" := "application/vnd.openxmlformats-officedocument.spreadsheetml.sheet",
    "ppt" := "application/vnd.ms-powerpoint",
    "pptx" := "application/vnd.openxmlformats-officedocument.presentationml.presentation",
    "txt" := "text/plain",
    "csv" := "text/csv",
    // Videos
    "mp4" := "video/mp4",
    "avi" := "video/x-msvideo",
    "mov" := "video/quicktime",
    "wmv" := "video/x-ms-wmv",
    "flv" := "video/x-flv",
    "webm" := "video/webm",
    "mkv" := "video/x-matroska",
    // Audio
    "mp3" := "audio/mpeg",
    "wav" := "audio/wav",
    "flac" := "audio/flac",
    "aac" := "audio/aac",
    // Archives
    "zip" := "application/zip",
    "rar" := "application/x-rar-compressed",
    "7z" := "application/x-7z-compressed",
    "tar" := "application/x-tar",
    "gz" := "application/gzip"
  ]

  /** `fileName.split('.').pop()?.toLowerCase()`: the lower-cased text after
      the last dot, or the whole lower-cased name when it has no dot. */
  function Extension(fileName: string): string
  {
    Lower(Last(Split(fileName, '.')))
  }

  /** The content type of a file name: the table entry of its extension, or
      `application/octet-stream`. */
  function MimeType(fileName: string): (m: string)
    ensures m == OctetStream || m in MimeTable.Values
  {
    var ext := Extension(fileName);
    if ext in MimeTable then MimeTable[ext] else OctetStream
  }

  /** A name ending in `.<ext>` gets the type of `ext`, whatever comes before
      the dot and in whatever case the extension is written. */
  lemma MimeTypeOfExtension(base: string, ext: string)
    requires '.' !in ext
    ensures MimeType(base + "." + ext) ==
      if Lower(ext) in MimeTable then MimeTable[Lower(ext)] else OctetStream
  {
    LastPieceAfterSeparator(base, '.', ext);
  }

  /** A name ending in `.<ext>`, for an extension of the table written in
      lower case, gets that extension's entry. */
  lemma MimeTypeOfTableExtension(base: string, ext: string)
    requires '.' !in ext && ext in MimeTable
    requires forall k :: 0 <= k < |ext| ==> 'a' <= ext[k] <= 'z' || '0' <= ext[k] <= '9' || ext[k] == '_'
    ensures MimeType(base + "." + ext) == MimeTable[ext]
  {
    MimeTypeOfExtension(base, ext);
    LowerKeepsLowerCase(ext);
  }

  /** A name without a dot is looked up as a whole. */
  lemma MimeTypeWithoutDot(fileName: string)
    requires '.' !in fileName
    ensures MimeType(fileName) ==
      if Lower(fileName) in MimeTable then MimeTable[Lower(fileName)] else OctetStream
  {
    SplitWithoutSeparator(fileName, '.');
  }

  // ---------------------------------------------------------------------------
  // The lookup as written

  /** The members every object literal inherits from `Object.prototype`. */
  const ObjectPrototypeMembers: set<string> := {
    "constructor", "__proto__", "hasOwnProperty", "isPrototypeOf",
    "propertyIsEnumerable", "toLocaleString", "toString", "valueOf",
    "__defineGetter__", "__defineSetter__", "__lookupGetter__", "__lookupSetter__"
  }

  /** What `mimeTypes[ext || ''] || 'application/octet-stream'` evaluates to on
      the object literal: a string, or an inherited member of
      `Object.prototype` (a function, or the prototype object itself for
      `__proto__`), which is truthy and so is returned in place of a type. */
  datatype LookupValue = TypeName(name: string) | InheritedMember(key: string)

  function MimeLookupAsWritten(fileName: string): LookupValue
  {
    var ext := Extension(fileName);
    if ext in MimeTable then TypeName(MimeTable[ext])
    else if ext in ObjectPrototypeMembers then InheritedMember(ext)
    else TypeName(OctetStream)
  }

  /** Whatever the base name, an archive member whose extension is
      `constructor` or `__proto__` is given an inherited member of
      `Object.prototype` as its content type, where `MimeType` gives
      `application/octet-stream`. */
  lemma MimeLookupAsWrittenLeaksPrototype(base: string, ext: string)
    requires ext == "constructor" || ext == "__proto__"
    ensures MimeLookupAsWritten(base + "." + ext) == InheritedMember(ext)
    ensures MimeType(base + "." + ext) == OctetStream
  {
    assert Extension(base + "." + ext) == ext by {
      LastPieceAfterSeparator(base, '.', ext);
      LowerKeepsLowerCase(ext);
    }
    assert ext !in MimeTable && ext in ObjectPrototypeMembers;
  }

  /** Only those two inherited members can be reached, because the other
      members' names hold capitals and the extension is lower-cased first;
      for every other name the lookup as written agrees with `MimeType`. */
  lemma MimeLookupAsWrittenAgreesElsewhere(fileName: string)
    requires Extension(fileName) != "constructor" && Extension(fileName) != "__proto__"
    ensures MimeLookupAsWritten(fileName) == TypeName(MimeType(fileName))
  {
    LowerIsLowerCase(Last(Split(fileName, '.')));
    assert "hasOwnProperty"[3] == 'O';
    assert "isPrototypeOf"[2] == 'P';
    assert "propertyIsEnumerable"[8] == 'I';
    assert "toLocaleString"[2] == 'L';
    assert "toString"[2] == 'S';
    assert "valueOf"[5] == 'O';
    assert "__defineGetter__"[8] == 'G';
    assert "__defineSetter__"[8] == 'S';
    assert "__lookupGetter__"[8] == 'G';
    assert "__lookupSetter__"[8] == 'S';
  }

  /** `toLowerCase` leaves lower-case letters, digits and `_` unchanged. */
  lemma {:induction false} LowerKeepsLowerCase(s: string)
    requires forall k :: 0 <= k < |s| ==> 'a' <= s[k] <= 'z' || '0' <= s[k] <= '9' || s[k] == '_'
    ensures Lower(s) == s
  {
    if s != [] {
      LowerKeepsLowerCase(s[1..]);
    }
  }

  lemma {:induction false} LowerIsLowerCase(s: string)
    ensures forall k :: 0 <= k < |Lower(s)| ==> !('A' <= Lower(s)[k] <= 'Z')
  {
    if s != [] {
      LowerIsLowerCase(s[1..]);
      assert Lower(s) == [LowerChar(s[0])] + Lower(s[1..]);
    }
  }
}
