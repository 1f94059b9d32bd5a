/**
 * The pure part of `analyzeImage` (services/ApiService.ts): the upload's file name and MIME type
 * derived from the image uri, the order of the multipart form fields, and the shape of the
 * analysis response. The HTTP request itself is outside this model.
 */
module ApiService {
  import opened Wrappers
  import opened Types

  /** The JSON body of a successful `/analyze-image` response. */
  datatype AnalyzeImageResponse = AnalyzeImageResponse(
    category: string,
    summary: string,
    contextText: string,
    extractedEvents: seq<MedicalEvent>,
    embedding: seq<real>)

  /**
   * The text after the last `sep` in `s`, or all of `s` when it has none; this is the last element
   * of `s.split(sep)`.
   */
  function AfterLast(s: string, sep: char): (r: string)
    ensures |r| <= |s| && r == s[|s| - |r|..]
    ensures sep !in r
    ensures |r| < |s| ==> s[|s| - |r| - 1] == sep
  {
    if |s| == 0 || s[|s| - 1] == sep then []
    else AfterLast(s[..|s| - 1], sep) + [s[|s| - 1]]
  }

  /** `uri.split('/').pop() || 'upload.jpg'` */
  function FileName(uri: string): (name: string)
    ensures (|uri| == 0 || uri[|uri| - 1] == '/') ==> name == "upload.jpg"
    ensures !(|uri| == 0 || uri[|uri| - 1] == '/') ==>
      && 0 < |name| <= |uri| && name == uri[|uri| - |name|..] && '/' !in name
      && (|name| == |uri| || uri[|uri| - |name| - 1] == '/')
  {
    var last := AfterLast(uri, '/');
    if last == "" then "upload.jpg" else last
  }

  /** `\w` of a JavaScript regular expression without the `u` flag. */
  predicate IsWordChar(ch: char) {
    ('a' <= ch <= 'z') || ('A' <= ch <= 'Z') || ('0' <= ch <= '9') || ch == '_'
  }

  /** The longest suffix of `s` made only of word characters. */
  function WordSuffix(s: string): (r: string)
    ensures |r| <= |s| && r == s[|s| - |r|..]
    ensures forall j :: |s| - |r| <= j < |s| ==> IsWordChar(s[j])
    ensures |r| < |s| ==> !IsWordChar(s[|s| - |r| - 1])
  {
    if |s| == 0 || !IsWordChar(s[|s| - 1]) then []
    else WordSuffix(s[..|s| - 1]) + [s[|s| - 1]]
  }

  /** The regular expression `/\.(\w+)$/` matches at position `i` of `name`. */
  ghost predicate MatchesAt(name: string, i: int) {
    0 <= i < |name| - 1 && name[i] == '.' && forall j :: i < j < |name| ==> IsWordChar(name[j])
  }

  /** A match can only start at the `.` just before the longest word-character suffix. */
  lemma MatchIsBeforeWordSuffix(name: string)
    ensures forall i :: MatchesAt(name, i) ==> i == |name| - |WordSuffix(name)| - 1
  {
    var w := WordSuffix(name);
    forall i | MatchesAt(name, i)
      ensures i == |name| - |w| - 1
    {
      assert !IsWordChar(name[i]);
    }
  }

  /**
   * `/\.(\w+)$/.exec(name)`: the pattern matches exactly when some `.` is followed by one or more
   * word characters up to the end, and the capture is the text after that `.`.
   */
  function ExtensionMatch(name: string): (r: Option<string>)
    ensures r.Some? <==> exists i :: MatchesAt(name, i)
    ensures r.Some? ==> MatchesAt(name, |name| - |r.value| - 1) && r.value == name[|name| - |r.value|..]
  {
    MatchIsBeforeWordSuffix(name);
    var w := WordSuffix(name);
    if 0 < |w| < |name| && name[|name| - |w| - 1] == '.' then
      assert MatchesAt(name, |name| - |w| - 1);
      Some(w)
    else None
  }

  /** Two suffixes that each stop just after their last `sep` are the same suffix. */
  lemma {:induction false} AfterLastUnique(s: string, sep: char, r: string)
    requires |r| <= |s| && r == s[|s| - |r|..] && sep !in r
    requires |r| < |s| ==> s[|s| - |r| - 1] == sep
    ensures r == AfterLast(s, sep)
  {
    var a := AfterLast(s, sep);
    assert |a| == |r|;
  }

  /**
   * The pattern matches exactly when some `.` is followed by one or more word characters up to the
   * end, and the capture is then everything after the last `.` of the name.
   */
  lemma ExtensionMatchMeaning(name: string)
    ensures ExtensionMatch(name).Some? <==> exists i :: MatchesAt(name, i)
    ensures ExtensionMatch(name).Some? ==>
      ExtensionMatch(name).value == AfterLast(name, '.') && |ExtensionMatch(name).value| > 0
  {
    if ExtensionMatch(name).Some? {
      var w := ExtensionMatch(name).value;
      assert '.' !in w by {
        forall j | 0 <= j < |w| ensures w[j] != '.' {
          assert w[j] == name[|name| - |w| + j];
        }
      }
      AfterLastUnique(name, '.', w);
    }
  }

  /** `match ? 'image/' + match[1] : 'image/jpeg'` */
  function MimeType(name: string): (t: string)
    ensures (exists i :: MatchesAt(name, i)) ==> t == "image/" + AfterLast(name, '.') && |t| > |"image/"|
    ensures (forall i :: !MatchesAt(name, i)) ==> t == "image/jpeg"
  {
    ExtensionMatchMeaning(name);
    match ExtensionMatch(name)
    case Some(ext) => "image/" + ext
    case None => "image/jpeg"
  }

  /** A part of the multipart body: a text value, or the image as `{ uri, name, type }`. */
  datatype FormValue = Text(text: string) | File(uri: string, name: string, mimeType: string)

  datatype FormField = FormField(name: string, value: FormValue)

  /** The image part: the uri with the derived file name and MIME type. */
  function FileField(uri: string): FormField {
    var name := FileName(uri);
    FormField("file", File(uri, name, MimeType(name)))
  }

  /** The `allow_new_categories` part. */
  function FlagField(allowNewCategories: bool): FormField {
    FormField("allow_new_categories", Text(BoolText(allowNewCategories)))
  }

  /** One `categories` part of the body. */
  function CategoryField(category: string): FormField {
    FormField("categories", Text(category))
  }

  /** `String(b)` for a boolean. */
  function BoolText(b: bool): string {
    if b then "true" else "false"
  }

  /** The `categories` parts, one per category in input order. */
  method CategoryFields(categories: seq<string>) returns (parts: seq<FormField>)
    ensures |parts| == |categories|
    ensures forall i :: 0 <= i < |categories| ==> parts[i] == CategoryField(categories[i])
  {
    parts := [];
    for i := 0 to |categories|
      invariant |parts| == i
      invariant forall j :: 0 <= j < i ==> parts[j] == CategoryField(categories[j])
    {
      parts := parts + [CategoryField(categories[i])];
    }
  }

  /** The parts in append order: the file, the category parts, then the flag. */
  function Assemble(file: FormField, parts: seq<FormField>, flag: FormField): (fields: seq<FormField>)
    ensures |fields| == |parts| + 2 && fields[0] == file && fields[|fields| - 1] == flag
    ensures forall i :: 0 <= i < |parts| ==> fields[i + 1] == parts[i]
  {
    [file] + parts + [flag]
  }

  /**
   * The fields of the request body in append order: the file, one `categories` field per
   * category in input order, then `allow_new_categories`.
   */
  method BuildForm(uri: string, categories: seq<string>, allowNewCategories: bool) returns (fields: seq<FormField>)
    ensures |fields| == |categories| + 2
    ensures fields[0] == FileField(uri)
    ensures forall i :: 0 <= i < |categories| ==> fields[i + 1] == CategoryField(categories[i])
    ensures fields[|fields| - 1] == FlagField(allowNewCategories)
  {
    var parts := CategoryFields(categories);
    fields := Assemble(FileField(uri), parts, FlagField(allowNewCategories));
  }
}
