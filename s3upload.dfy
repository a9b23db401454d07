/**
 * The pure part of `uploadImageToS3`: from an inline image payload (a data URL
 * `data:image/<subtype>;base64,<data>`, RFC 2397 section 3), a path prefix and a
 * generated id, the parameters of the object-store upload — its key, its body
 * text, its content encoding and its content type.
 */
module S3Upload {
  import opened Wrappers
  import opened Strings

  /** The upload request the source hands to the object store (the bucket name is configuration). */
  datatype UploadParams = UploadParams(key: string, body: string, contentEncoding: string, contentType: string)

  const DataImagePrefix: string := "data:image/"
  const Base64Marker: string := ";base64,"

  /**
   * `imgSrc.split(';')[0].split('/')[1]`: the MIME subtype, or None (JavaScript's
   * `undefined`) when the part before the first `;` holds no `/`. It is the text after
   * the first `/` of that part, up to the next `/` or the end of the part.
   */
  function MimeType(imgSrc: string): (r: Option<string>)
    ensures r == MimeTypeAt(imgSrc)
  {
    var head := Split(imgSrc, ';')[0];
    SplitFirstFields(imgSrc, ';');
    var parts := Split(head, '/');
    SplitFirstFields(head, '/');
    if |parts| > 1 then Some(parts[1]) else None
  }

  /** The subtype located by indices, independently of `Split`. */
  function MimeTypeAt(imgSrc: string): Option<string>
  {
    var head := imgSrc[..IndexOf(imgSrc, ';')];
    var slash := IndexOf(head, '/');
    if slash == |head| then None
    else
      var tail := head[slash + 1..];
      Some(tail[..IndexOf(tail, '/')])
  }

  /** An extracted subtype never contains the separators it was cut at. */
  lemma MimeTypeSeparatorFree(imgSrc: string)
    ensures MimeType(imgSrc).Some? ==> '/' !in MimeType(imgSrc).value && ';' !in MimeType(imgSrc).value
  {
    if MimeType(imgSrc).Some? {
      var i := IndexOf(imgSrc, ';');
      var head := imgSrc[..i];
      var slash := IndexOf(head, '/');
      var tail := head[slash + 1..];
      var t := tail[..IndexOf(tail, '/')];
      forall k | 0 <= k < |t| ensures t[k] != ';' && t[k] != '/' {
        assert t[k] == tail[k] == head[slash + 1 + k] == imgSrc[slash + 1 + k];
      }
    }
  }

  /** The literal pieces of the header the code matches. */
  lemma HeaderConstants()
    ensures DataImagePrefix == "data:image" + ['/']
    ensures '/' !in "data:image" && ';' !in DataImagePrefix
    ensures |DataImagePrefix| == 11 && |Base64Marker| == 8
    ensures Base64Marker == [';'] + "base64,"
  {
  }

  /**
   * For a data URL `data:image/<t>` followed by `;...`, with `t` free of `/` and `;`,
   * the subtype is exactly `t`.
   */
  lemma MimeTypeOfDataUrl(t: string, rest: string)
    requires '/' !in t && ';' !in t
    ensures MimeType(DataImagePrefix + t + [';'] + rest) == Some(t)
  {
    HeaderConstants();
    var head := DataImagePrefix + t;
    SplitConcat(head, rest, ';');
    SplitNoSeparator(head, ';');
    SplitConcat("data:image", t, '/');
    SplitNoSeparator("data:image", '/');
    SplitNoSeparator(t, '/');
  }

  /** A regular-expression word character, `\w`: `[A-Za-z0-9_]`. */
  predicate IsWordChar(ch: char) {
    ('a' <= ch <= 'z') || ('A' <= ch <= 'Z') || ('0' <= ch <= '9') || ch == '_'
  }

  /** Length of the longest prefix of `s` made of word characters (what a greedy `\w*` takes). */
  function WordRun(s: string): (r: nat)
    ensures r <= |s|
    ensures forall k :: 0 <= k < r ==> IsWordChar(s[k])
    ensures r < |s| ==> !IsWordChar(s[r])
  {
    if |s| == 0 || !IsWordChar(s[0]) then 0 else 1 + WordRun(s[1..])
  }

  /** The greedy run ends exactly where the first non-word character stands. */
  lemma {:induction false} WordRunIs(s: string, n: nat)
    requires n <= |s|
    requires forall k :: 0 <= k < n ==> IsWordChar(s[k])
    requires n < |s| ==> !IsWordChar(s[n])
    ensures WordRun(s) == n
  {
    if n > 0 {
      assert IsWordChar(s[0]);
      forall k | 0 <= k < n - 1 ensures IsWordChar(s[1..][k]) {
        assert s[1..][k] == s[k + 1];
      }
      WordRunIs(s[1..], n - 1);
    }
  }

  /** `h` matches `data:image\/\w+;base64,` as a whole. */
  predicate IsHeader(h: string) {
    && |h| >= |DataImagePrefix| + 1 + |Base64Marker|
    && h[..|DataImagePrefix|] == DataImagePrefix
    && h[|h| - |Base64Marker|..] == Base64Marker
    && forall k :: |DataImagePrefix| <= k < |h| - |Base64Marker| ==> IsWordChar(h[k])
  }

  /** The prefix, a word run of length `n` and the marker, read in place, form a header. */
  lemma HeaderAt(s: string, n: nat)
    requires n >= 1 && |s| >= |DataImagePrefix| + n + |Base64Marker|
    requires s[..|DataImagePrefix|] == DataImagePrefix
    requires forall k :: 0 <= k < n ==> IsWordChar(s[|DataImagePrefix|..][k])
    requires s[|DataImagePrefix| + n..|DataImagePrefix| + n + |Base64Marker|] == Base64Marker
    ensures IsHeader(s[..|DataImagePrefix| + n + |Base64Marker|])
  {
    var p, m := |DataImagePrefix|, |Base64Marker|;
    var h := s[..p + n + m];
    assert h[..p] == s[..p];
    assert h[|h| - m..] == s[p + n..p + n + m];
    forall k | p <= k < |h| - m ensures IsWordChar(h[k]) {
      assert h[k] == s[p..][k - p];
    }
  }

  /**
   * `imgSrc.replace(/^data:image\/\w+;base64,/, "")`: the payload with one leading
   * header removed, or unchanged when it does not start with one.
   */
  function StripHeader(imgSrc: string): (r: string)
    ensures r == imgSrc || (|r| < |imgSrc| && IsHeader(imgSrc[..|imgSrc| - |r|]) && imgSrc[|imgSrc| - |r|..] == r)
  {
    var p, m := |DataImagePrefix|, |Base64Marker|;
    if |imgSrc| >= p && imgSrc[..p] == DataImagePrefix then
      var n := WordRun(imgSrc[p..]);
      if n >= 1 && |imgSrc| >= p + n + m && imgSrc[p + n..p + n + m] == Base64Marker then
        HeaderAt(imgSrc, n);
        imgSrc[p + n + m..]
      else imgSrc
    else imgSrc
  }

  /** Every payload that does start with a header loses exactly that header. */
  lemma StripHeaderOfHeader(h: string, data: string)
    requires IsHeader(h)
    ensures StripHeader(h + data) == data
  {
    var s := h + data;
    var p, m := |DataImagePrefix|, |Base64Marker|;
    var n := |h| - p - m;
    forall k | 0 <= k < p ensures s[k] == DataImagePrefix[k] {
      assert s[k] == h[k] == h[..p][k];
    }
    assert s[..p] == DataImagePrefix;
    forall k | 0 <= k < n ensures IsWordChar(s[p..][k]) {
      assert s[p..][k] == h[p + k];
    }
    assert s[p..][n] == h[|h| - m] == h[|h| - m..][0] == ';' by { HeaderConstants(); }
    WordRunIs(s[p..], n);
    forall k | 0 <= k < m ensures s[p + n + k] == Base64Marker[k] {
      assert s[p + n + k] == h[|h| - m + k] == h[|h| - m..][k];
    }
    assert s[p + n..p + n + m] == Base64Marker;
    assert s[p + n + m..] == data;
  }

  /**
   * A subtype that is empty or holds a character outside `\w` (such as the `+` of
   * `svg+xml`) is not matched, so the payload keeps its header.
   */
  lemma StripHeaderKeepsUnmatched(t: string, data: string)
    requires ';' !in t
    requires |t| == 0 || exists k :: 0 <= k < |t| && !IsWordChar(t[k])
    ensures StripHeader(DataImagePrefix + t + Base64Marker + data) == DataImagePrefix + t + Base64Marker + data
  {
    var s := DataImagePrefix + t + Base64Marker + data;
    var r := StripHeader(s);
    var p := |DataImagePrefix|;
    if r != s {
      var h := s[..|s| - |r|];
      var e := |h| - |Base64Marker|;
      assert s[e] == h[e] == ';';
      forall k | 0 <= k < |t| && p + k < e ensures IsWordChar(t[k]) {
        assert t[k] == h[p + k];
      }
      assert false;
    }
  }

  /** `svg+xml` is a subtype the header pattern does not match. */
  lemma StripHeaderKeepsSvgXml(data: string)
    ensures StripHeader(DataImagePrefix + "svg+xml" + Base64Marker + data)
      == DataImagePrefix + "svg+xml" + Base64Marker + data
  {
    assert !IsWordChar("svg+xml"[3]);
    StripHeaderKeepsUnmatched("svg+xml", data);
  }

  /** `type === 'jpeg' ? 'jpg' : type`. */
  function ExtensionOf(mimeType: Option<string>): (r: Option<string>)
    ensures r.Some? <==> mimeType.Some?
    ensures r == Some("jpg") <==> mimeType == Some("jpeg") || mimeType == Some("jpg")
    ensures mimeType != Some("jpeg") ==> r == mimeType
  {
    if mimeType == Some("jpeg") then Some("jpg") else mimeType
  }

  /** What a template literal `${v}` shows: the string, or the word `undefined`. */
  function Render(v: Option<string>): (r: string)
    ensures v.Some? ==> r == v.value
    ensures v.None? ==> r == "undefined"
  {
    match v
    case Some(s) => s
    case None => "undefined"
  }

  /** The upload request for `imgSrc` stored under `pathPrefix` with generated id `id`. */
  function UploadParamsOf(imgSrc: string, pathPrefix: string, id: string): (p: UploadParams)
    ensures p.contentEncoding == "base64"
    ensures |p.key| > |pathPrefix| + |id| + 1 && p.key[..|pathPrefix|] == pathPrefix && p.key[|pathPrefix|] == '/'
    ensures |p.contentType| >= 6 && p.contentType[..6] == "image/"
    ensures |p.body| <= |imgSrc| && p.body == imgSrc[|imgSrc| - |p.body|..]
  {
    var mimeType := MimeType(imgSrc);
    var extension := ExtensionOf(mimeType);
    UploadParams(
      pathPrefix + "/" + id + "." + Render(extension),
      StripHeader(imgSrc),
      "base64",
      "image/" + Render(mimeType))
  }

  /**
   * Any data URL `data:image/<t>;...` with `t` free of `/` and `;`, whatever follows:
   * the content type is `image/` and the raw subtype, the key ends in the subtype with
   * `jpeg` written `jpg`.
   */
  lemma ContentTypeOfDataUrl(t: string, rest: string, pathPrefix: string, id: string)
    requires '/' !in t && ';' !in t
    ensures UploadParamsOf(DataImagePrefix + t + [';'] + rest, pathPrefix, id).contentType == "image/" + t
    ensures UploadParamsOf(DataImagePrefix + t + [';'] + rest, pathPrefix, id).key
      == pathPrefix + "/" + id + "." + (if t == "jpeg" then "jpg" else t)
  {
    MimeTypeOfDataUrl(t, rest);
  }

  /** Every payload, well-formed or not: the body is the payload after header stripping. */
  lemma BodyOfAnyPayload(imgSrc: string, pathPrefix: string, id: string)
    ensures UploadParamsOf(imgSrc, pathPrefix, id).body == StripHeader(imgSrc)
  {
  }

  /**
   * A data URL whose subtype is empty or holds a non-word character (such as `svg+xml`)
   * is sent as its whole text.
   */
  lemma UploadKeepsUnmatchedBody(t: string, data: string, pathPrefix: string, id: string)
    requires ';' !in t
    requires |t| == 0 || exists k :: 0 <= k < |t| && !IsWordChar(t[k])
    ensures UploadParamsOf(DataImagePrefix + t + Base64Marker + data, pathPrefix, id).body
      == DataImagePrefix + t + Base64Marker + data
  {
    StripHeaderKeepsUnmatched(t, data);
    BodyOfAnyPayload(DataImagePrefix + t + Base64Marker + data, pathPrefix, id);
  }

  /**
   * Every payload, well-formed or not: the content type is `image/` and the rendered
   * subtype, so a payload with no subtype (such as `data:,`) is sent as `image/undefined`.
   */
  lemma ContentTypeOfAnyPayload(imgSrc: string, pathPrefix: string, id: string)
    ensures UploadParamsOf(imgSrc, pathPrefix, id).contentType == "image/" + Render(MimeTypeAt(imgSrc))
  {
  }

  /** No `/` before the first `;`: there is no subtype. */
  lemma NoSubtype(imgSrc: string)
    requires '/' !in imgSrc[..IndexOf(imgSrc, ';')]
    ensures MimeTypeAt(imgSrc) == None
  {
    var head := imgSrc[..IndexOf(imgSrc, ';')];
    IndexOfAt(head, '/', |head|);
  }

  /** Without a subtype the content type is `image/undefined`. */
  lemma ContentTypeOfNoSubtype(imgSrc: string, pathPrefix: string, id: string)
    requires MimeTypeAt(imgSrc) == None
    ensures UploadParamsOf(imgSrc, pathPrefix, id).contentType == "image/" + "undefined"
  {
    ContentTypeOfAnyPayload(imgSrc, pathPrefix, id);
  }

  /** A payload with no `/` before its first `;` is sent with content type `image/undefined`. */
  lemma ContentTypeUndefined(imgSrc: string, pathPrefix: string, id: string)
    requires '/' !in imgSrc[..IndexOf(imgSrc, ';')]
    ensures UploadParamsOf(imgSrc, pathPrefix, id).contentType == "image/" + "undefined"
  {
    NoSubtype(imgSrc);
    ContentTypeOfNoSubtype(imgSrc, pathPrefix, id);
  }

  /** `data:image/<t>;base64,` is a header when `t` is a non-empty run of word characters. */
  lemma HeaderOfWordSubtype(t: string)
    requires |t| >= 1 && forall k :: 0 <= k < |t| ==> IsWordChar(t[k])
    ensures IsHeader(DataImagePrefix + t + Base64Marker)
  {
    var h := DataImagePrefix + t + Base64Marker;
    var p := |DataImagePrefix|;
    assert h[..p] == DataImagePrefix;
    assert h[|h| - |Base64Marker|..] == Base64Marker;
    forall k | p <= k < |h| - |Base64Marker| ensures IsWordChar(h[k]) {
      assert h[k] == t[k - p];
    }
  }

  /** The marker `;base64,` begins with the `;` that ends the subtype. */
  lemma MarkerStartsWithSemicolon(x: string, data: string)
    ensures x + Base64Marker + data == x + [';'] + ("base64," + data)
  {
    HeaderConstants();
  }

  /**
   * A well-formed data URL with a `\w+` subtype: in addition, the body is the data
   * after the header.
   */
  lemma UploadOfDataUrl(t: string, data: string, pathPrefix: string, id: string)
    requires |t| >= 1 && forall k :: 0 <= k < |t| ==> IsWordChar(t[k])
    ensures UploadParamsOf(DataImagePrefix + t + Base64Marker + data, pathPrefix, id)
      == UploadParams(pathPrefix + "/" + id + "." + (if t == "jpeg" then "jpg" else t),
                      data, "base64", "image/" + t)
  {
    forall k | 0 <= k < |t| ensures t[k] != '/' && t[k] != ';' {
      assert IsWordChar(t[k]);
    }
    MarkerStartsWithSemicolon(DataImagePrefix + t, data);
    ContentTypeOfDataUrl(t, "base64," + data, pathPrefix, id);
    HeaderOfWordSubtype(t);
    StripHeaderOfHeader(DataImagePrefix + t + Base64Marker, data);
  }

  /**
   * What one webcam screenshot (always `image/jpeg`) becomes when captured under a
   * label: key `public/<label>/<id>.jpg`, content type `image/jpeg`, body the base64 data.
   */
  lemma ScreenshotUpload(labelText: string, id: string, data: string)
    ensures UploadParamsOf(DataImagePrefix + "jpeg" + Base64Marker + data, "public/" + labelText, id)
      == UploadParams("public/" + labelText + "/" + id + "." + "jpg", data, "base64", "image/" + "jpeg")
  {
    UploadOfDataUrl("jpeg", data, "public/" + labelText, id);
  }

  /**
   * The key split back into (path prefix, id, extension): the prefix is everything
   * before the last `/`, the id runs up to the first `.` after it.
   */
  function ParseKey(key: string): Option<(string, string, string)>
  {
    var segments := Split(key, '/');
    if |segments| < 2 then None
    else
      var file := Split(segments[|segments| - 1], '.');
      if |file| < 2 then None
      else Some((Join(segments[..|segments| - 1], '/'), file[0], Join(file[1..], '.')))
  }

  /** The `/`-fields of `<prefix>/<file>`: those of the prefix, then the file name. */
  lemma KeySegments(pathPrefix: string, fileName: string)
    requires '/' !in fileName
    ensures var segments := Split(pathPrefix + "/" + fileName, '/');
      |segments| >= 2 && segments[|segments| - 1] == fileName &&
      Join(segments[..|segments| - 1], '/') == pathPrefix
  {
    assert pathPrefix + "/" + fileName == pathPrefix + ['/'] + fileName;
    SplitConcat(pathPrefix, fileName, '/');
    SplitNoSeparator(fileName, '/');
    var segments := Split(pathPrefix + "/" + fileName, '/');
    assert segments[..|segments| - 1] == Split(pathPrefix, '/');
    JoinSplit(pathPrefix, '/');
  }

  /** The `.`-fields of `<id>.<extension>`: the id, then those of the extension. */
  lemma FileFields(id: string, extension: string)
    requires '.' !in id
    ensures var file := Split(id + "." + extension, '.');
      |file| >= 2 && file[0] == id && Join(file[1..], '.') == extension
  {
    assert id + "." + extension == id + ['.'] + extension;
    SplitConcat(id, extension, '.');
    SplitNoSeparator(id, '.');
    var file := Split(id + "." + extension, '.');
    assert file[1..] == Split(extension, '.');
    JoinSplit(extension, '.');
  }

  /** Building a key and parsing it back recovers its parts when the id has no `/` or `.`. */
  lemma ParseKeyOfKey(pathPrefix: string, id: string, extension: string)
    requires '/' !in id && '.' !in id && '/' !in extension
    ensures ParseKey(pathPrefix + "/" + id + "." + extension) == Some((pathPrefix, id, extension))
  {
    var fileName := id + "." + extension;
    assert pathPrefix + "/" + id + "." + extension == pathPrefix + "/" + fileName;
    assert '/' !in fileName;
    KeySegments(pathPrefix, fileName);
    FileFields(id, extension);
  }

  /** The key of an upload determines its path prefix, its id and its extension. */
  lemma KeyLayout(imgSrc: string, pathPrefix: string, id: string)
    requires '/' !in id && '.' !in id
    ensures ParseKey(UploadParamsOf(imgSrc, pathPrefix, id).key)
      == Some((pathPrefix, id, Render(ExtensionOf(MimeType(imgSrc)))))
  {
    MimeTypeSeparatorFree(imgSrc);
    ParseKeyOfKey(pathPrefix, id, Render(ExtensionOf(MimeType(imgSrc))));
  }

  /** Uploads with different ids (uuids hold neither `/` nor `.`) get different keys. */
  lemma DistinctIdsDistinctKeys(src1: string, src2: string, pathPrefix: string, id1: string, id2: string)
    requires '/' !in id1 && '.' !in id1 && '/' !in id2 && '.' !in id2
    requires id1 != id2
    ensures UploadParamsOf(src1, pathPrefix, id1).key != UploadParamsOf(src2, pathPrefix, id2).key
  {
    KeyLayout(src1, pathPrefix, id1);
    KeyLayout(src2, pathPrefix, id2);
  }
}
