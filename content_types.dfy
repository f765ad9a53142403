/**
 * Naming and language choice for a network resource opened read-only: the extension added to
 * the file name for a response's content type, and the editor language for that extension.
 */
module ContentTypes {
  import opened Wrappers
  import opened Strings
  import opened Paths

  /** `typeMap` of `getFileExtension`. */
  const CONTENT_TYPE_EXTENSIONS: map<string, string> := map[
    "text/plain" := ".txt",
    "text/html" := ".html",
    "text/css" := ".css",
    "text/javascript" := ".js",
    "application/json" := ".json",
    "application/xml" := ".xml",
    "text/xml" := ".xml",
    "application/yaml" := ".yaml",
    "text/yaml" := ".yaml",
    "application/yml" := ".yml",
    "text/yml" := ".yml"
  ]

  /** `languageMap` of `getLanguageId`. */
  const LANGUAGE_IDS: map<string, string> := map[
    ".json" := "json",
    ".html" := "html",
    ".css" := "css",
    ".js" := "javascript",
    ".xml" := "xml",
    ".yaml" := "yaml",
    ".yml" := "yaml",
    ".txt" := "plaintext"
  ]

  /** The extension used when the content type is not in the table. */
  const FALLBACK_EXTENSION: string := ".txt"

  /** `typeMap[contentType] || '.txt'`. */
  function ExtensionForType(contentType: string): (ext: string)
    ensures contentType in CONTENT_TYPE_EXTENSIONS ==> ext == CONTENT_TYPE_EXTENSIONS[contentType]
    ensures contentType !in CONTENT_TYPE_EXTENSIONS ==> ext == FALLBACK_EXTENSION
  {
    if contentType in CONTENT_TYPE_EXTENSIONS && CONTENT_TYPE_EXTENSIONS[contentType] != "" then
      CONTENT_TYPE_EXTENSIONS[contentType]
    else FALLBACK_EXTENSION
  }

  /**
   * `getFileExtension` as written: nothing for a file name that already has an extension,
   * otherwise the extension for the exact content-type string.
   */
  function GetFileExtension(contentType: string, fileName: string): (ext: string)
    ensures ext == "" <==> HasExtension(fileName)
    ensures !HasExtension(fileName) ==> ext == ExtensionForType(contentType)
  {
    if HasExtension(fileName) then "" else ExtensionForType(contentType)
  }

  /** `getLanguageId`: the editor language for an extension, if the table has one. */
  function GetLanguageId(fileExtension: string): (id: Option<string>)
    ensures id.Some? <==> fileExtension in LANGUAGE_IDS
    ensures id.Some? ==> id.value == LANGUAGE_IDS[fileExtension]
  {
    if fileExtension in LANGUAGE_IDS then Some(LANGUAGE_IDS[fileExtension]) else None
  }

  /** Every extension the content-type table yields, and the fallback, has a language. */
  lemma TableExtensionsHaveLanguages()
    ensures forall t :: t in CONTENT_TYPE_EXTENSIONS ==> CONTENT_TYPE_EXTENSIONS[t] in LANGUAGE_IDS
    ensures FALLBACK_EXTENSION in LANGUAGE_IDS
    ensures "" !in LANGUAGE_IDS
  {
  }

  /** The language is set exactly when an extension was added. */
  lemma LanguageIffExtension(contentType: string, fileName: string)
    ensures GetLanguageId(GetFileExtension(contentType, fileName)).Some? <==> GetFileExtension(contentType, fileName) != ""
  {
    TableExtensionsHaveLanguages();
  }

  /**
   * A response whose content type carries a parameter, as `application/json; charset=utf-8`
   * does, gets the fallback `.txt` and the plain-text language instead of `.json` and JSON.
   */
  lemma ParameterizedTypeFallsBack()
    ensures !HasExtension("data")
    ensures GetFileExtension("application/json; charset=utf-8", "data") == ".txt"
    ensures GetLanguageId(GetFileExtension("application/json; charset=utf-8", "data")) == Some("plaintext")
    ensures DocumentName("application/json; charset=utf-8", "data") == "data.txt"
  {
    assert LastIndexOfChar("data", '.') == -1;
    assert "application/json; charset=utf-8" !in CONTENT_TYPE_EXTENSIONS;
    var ext := GetFileExtension("application/json; charset=utf-8", "data");
    assert ext == FALLBACK_EXTENSION;
    assert DocumentName("application/json; charset=utf-8", "data") == "data" + ext;
  }

  /** The media type of a content-type header value: the text before its first `;`. */
  function MediaType(contentType: string): (m: string)
    ensures ';' !in m
    ensures ';' !in contentType ==> m == contentType
  {
    var semi := IndexOfChar(contentType, ';');
    if semi == -1 then contentType else contentType[..semi]
  }

  /** A media type followed by `;` and parameters is read back as that media type. */
  lemma MediaTypeBeforeParameters(mediaType: string, parameters: string)
    requires ';' !in mediaType
    ensures MediaType(mediaType + ";" + parameters) == mediaType
  {
    var ct := mediaType + ";" + parameters;
    assert ct[|mediaType|] == ';';
    assert ct[..|mediaType|] == mediaType;
  }

  /** `getFileExtension` looking the media type up, without the parameters. */
  function GetFileExtensionByMediaType(contentType: string, fileName: string): (ext: string)
    ensures ext == "" <==> HasExtension(fileName)
    ensures !HasExtension(fileName) ==> ext == ExtensionForType(MediaType(contentType))
  {
    if HasExtension(fileName) then "" else ExtensionForType(MediaType(contentType))
  }

  /**
   * The media-type lookup picks the table entry whatever parameters follow the type, and
   * agrees with the exact lookup on every content type written without parameters.
   */
  lemma MediaTypeLookupSpec(mediaType: string, parameters: string, fileName: string)
    requires mediaType in CONTENT_TYPE_EXTENSIONS
    requires !HasExtension(fileName)
    ensures GetFileExtensionByMediaType(mediaType + ";" + parameters, fileName) == CONTENT_TYPE_EXTENSIONS[mediaType]
    ensures GetFileExtensionByMediaType(mediaType, fileName) == GetFileExtension(mediaType, fileName)
  {
    TableKeysArePlain();
    MediaTypeBeforeParameters(mediaType, parameters);
  }

  /** No content type in the table has parameters. */
  lemma TableKeysArePlain()
    ensures forall t :: t in CONTENT_TYPE_EXTENSIONS ==> ';' !in t
  {
  }

  /** With the media-type lookup, a language is still set exactly when an extension was added. */
  lemma MediaTypeLanguageIffExtension(contentType: string, fileName: string)
    ensures GetLanguageId(GetFileExtensionByMediaType(contentType, fileName)).Some?
            <==> GetFileExtensionByMediaType(contentType, fileName) != ""
  {
    TableExtensionsHaveLanguages();
  }

  /** A dot followed by at least one character, none of them a dot or a slash. */
  predicate IsPlainExtension(e: string) {
    |e| >= 2 && e[0] == '.' && forall i :: 1 <= i < |e| ==> e[i] != '.' && e[i] != '/'
  }

  /** Every extension the content-type lookup yields is plain. */
  lemma ExtensionForTypeIsPlain(contentType: string)
    ensures IsPlainExtension(ExtensionForType(contentType))
  {
    assert forall t :: t in CONTENT_TYPE_EXTENSIONS ==> IsPlainExtension(CONTENT_TYPE_EXTENSIONS[t]);
  }

  /** A plain extension appended to a non-empty last segment is what `path.extname` finds. */
  lemma ExtnameOfAppended(fileName: string, e: string)
    requires fileName != "" && '/' !in fileName && IsPlainExtension(e)
    ensures Extname(fileName + e) == e
  {
    var name := fileName + e;
    assert '/' !in name by {
      assert forall i :: 0 <= i < |e| ==> e[i] != '/';
    }
    assert name[|fileName|] == '.';
    assert name[|fileName| + 1..] == e[1..];
    assert '.' !in e[1..];
    LastIndexOfCharUnique(name, '.', |fileName|);
    assert LastSegment(name) == name;
    assert |name| >= 3;
  }

  /** The name of the read-only document: `fileName + fileExtension`, with the lookup as written. */
  function DocumentName(contentType: string, fileName: string): string {
    fileName + GetFileExtension(contentType, fileName)
  }

  /**
   * The read-only document always carries an extension, and so an editor language: the file
   * name is the last path segment, never empty, and either has an extension already or
   * receives one from the table.
   */
  lemma DocumentNameHasExtension(contentType: string, fileName: string)
    requires fileName != "" && '/' !in fileName
    ensures HasExtension(DocumentName(contentType, fileName))
    ensures GetLanguageId(GetFileExtension(contentType, fileName)).Some? || HasExtension(fileName)
  {
    LanguageIffExtension(contentType, fileName);
    if !HasExtension(fileName) {
      ExtensionForTypeIsPlain(contentType);
      ExtnameOfAppended(fileName, ExtensionForType(contentType));
    } else {
      assert DocumentName(contentType, fileName) == fileName;
    }
  }

  /** The document name built with the corrected media-type lookup. */
  function DocumentNameByMediaType(contentType: string, fileName: string): string {
    fileName + GetFileExtensionByMediaType(contentType, fileName)
  }

  /** With the corrected lookup the document still always carries an extension with a language. */
  lemma DocumentNameByMediaTypeHasExtension(contentType: string, fileName: string)
    requires fileName != "" && '/' !in fileName
    ensures HasExtension(DocumentNameByMediaType(contentType, fileName))
    ensures GetLanguageId(GetFileExtensionByMediaType(contentType, fileName)).Some? || HasExtension(fileName)
  {
    MediaTypeLanguageIffExtension(contentType, fileName);
    if !HasExtension(fileName) {
      ExtensionForTypeIsPlain(MediaType(contentType));
      ExtnameOfAppended(fileName, ExtensionForType(MediaType(contentType)));
    } else {
      assert DocumentNameByMediaType(contentType, fileName) == fileName;
    }
  }
}
