/** The blob-store helpers: the guard clauses around upload and destroy, and
    the string logic that recovers a public id from a delivery URL. The
    upload and destroy calls themselves are parameters: their outcome is
    given, not computed. */
module Cloudinary {
  import opened Base

  /** What an upload answers with: the delivery URL and, for media, the
      duration. */
  datatype Asset = Asset(url: string, duration: Option<real>)

  /** `uploadOnCloudinary(path)`: no upload at all for a falsy path;
      otherwise the store's answer, `None` when the upload failed. */
  function UploadOnCloudinary(path: Option<string>, outcome: Option<Asset>): (r: Option<Asset>)
    ensures Falsy(path) ==> r == None
    ensures !Falsy(path) ==> r == outcome
  {
    if Falsy(path) then None else outcome
  }

  // ---------------------------------------------------------------------
  // String.prototype.split and Array.prototype.join on a non-empty
  // separator.

  predicate OccursAt(s: string, pat: string, j: nat)
  {
    j + |pat| <= |s| && s[j..j + |pat|] == pat
  }

  predicate Absent(s: string, pat: string)
  {
    forall j :: 0 <= j <= |s| ==> !OccursAt(s, pat, j)
  }

  /** `indexOf`: the earliest position where `pat` occurs in `s`. */
  function Find(s: string, pat: string): (r: Option<nat>)
    ensures r.Some? ==> OccursAt(s, pat, r.value)
    ensures r.Some? ==> forall j :: 0 <= j < r.value ==> !OccursAt(s, pat, j)
    ensures r.None? <==> Absent(s, pat)
    decreases |s|
  {
    if |s| < |pat| then None
    else if s[..|pat|] == pat then
      assert s[0..|pat|] == s[..|pat|];
      Some(0)
    else
      assert !OccursAt(s, pat, 0);
      OccursShift(s, pat);
      match Find(s[1..], pat)
      case None => None
      case Some(j) => Some(j + 1)
  }

  /** An occurrence in the tail is an occurrence one position further on. */
  lemma OccursShift(s: string, pat: string)
    requires |s| > 0
    ensures forall j :: 1 <= j <= |s| ==> (OccursAt(s[1..], pat, j - 1) <==> OccursAt(s, pat, j))
  {
    forall j | 1 <= j <= |s| ensures OccursAt(s[1..], pat, j - 1) <==> OccursAt(s, pat, j) {
      if j + |pat| <= |s| {
        assert s[1..][j - 1..j - 1 + |pat|] == s[j..j + |pat|];
      }
    }
  }

  /** `s.split(sep)`: the pieces between the occurrences of `sep`, found
      left to right, each search starting after the previous match. */
  function Split(s: string, sep: string): (parts: seq<string>)
    requires |sep| > 0
    ensures |parts| >= 1
    decreases |s|
  {
    match Find(s, sep)
    case None => [s]
    case Some(j) => [s[..j]] + Split(s[j + |sep|..], sep)
  }

  /** `parts.join(sep)`. */
  function Join(parts: seq<string>, sep: string): string
  {
    if |parts| == 0 then ""
    else if |parts| == 1 then parts[0]
    else parts[0] + sep + Join(parts[1..], sep)
  }

  /** Joining the pieces of a split with the same separator gives back the
      string. */
  lemma {:induction false} SplitJoin(s: string, sep: string)
    requires |sep| > 0
    ensures Join(Split(s, sep), sep) == s
    decreases |s|
  {
    var f := Find(s, sep);
    if f.Some? {
      var j := f.value;
      var rest := s[j + |sep|..];
      var parts := Split(s, sep);
      assert parts == [s[..j]] + Split(rest, sep);
      SplitJoin(rest, sep);
      assert parts[1..] == Split(rest, sep);
      assert Join(parts, sep) == s[..j] + sep + rest;
      assert s[j..j + |sep|] == sep;
      assert s == s[..j] + s[j..j + |sep|] + rest;
    }
  }

  /** A split gives one piece exactly when the separator does not occur. */
  lemma SplitOne(s: string, sep: string)
    requires |sep| > 0
    ensures |Split(s, sep)| == 1 <==> Find(s, sep).None?
  {
    var f := Find(s, sep);
    if f.Some? {
      var rest := s[f.value + |sep|..];
      assert Split(s, sep) == [s[..f.value]] + Split(rest, sep);
      assert |Split(rest, sep)| >= 1;
    }
  }

  /** A split gives exactly two pieces when the separator occurs, and does
      not occur again after its first occurrence; the second piece is what
      follows that occurrence. */
  lemma SplitTwo(s: string, sep: string)
    requires |sep| > 0
    ensures Find(s, sep).None? ==> |Split(s, sep)| == 1
    ensures Find(s, sep).Some? ==>
              var rest := s[Find(s, sep).value + |sep|..];
              && (|Split(s, sep)| == 2 <==> Find(rest, sep).None?)
              && (|Split(s, sep)| == 2 ==> Split(s, sep)[1] == rest)
  {
    var f := Find(s, sep);
    if f.Some? {
      var rest := s[f.value + |sep|..];
      var parts := Split(s, sep);
      assert parts == [s[..f.value]] + Split(rest, sep);
      assert |parts| == 1 + |Split(rest, sep)|;
      SplitOne(rest, sep);
      if Find(rest, sep).None? {
        assert Split(rest, sep) == [rest];
      }
    } else {
      SplitOne(s, sep);
    }
  }

  /** For a one-character separator: found exactly where that character is. */
  lemma FindChar(s: string, c: char)
    ensures Find(s, [c]).None? <==> forall k :: 0 <= k < |s| ==> s[k] != c
    ensures Find(s, [c]).Some? ==> var j := Find(s, [c]).value;
              j < |s| && s[j] == c && forall k :: 0 <= k < j ==> s[k] != c
  {
    assert forall k :: 0 <= k < |s| ==> (OccursAt(s, [c], k) <==> s[k] == c) by {
      forall k | 0 <= k < |s| ensures OccursAt(s, [c], k) <==> s[k] == c {
        assert s[k..k + 1] == [s[k]];
      }
    }
  }

  /** `t.split('/').slice(1).join('/')`: everything after the first '/',
      or "" when there is none; the first segment is dropped. */
  lemma DropFirstSegment(t: string)
    ensures Find(t, "/").None? ==> Join(Split(t, "/")[1..], "/") == ""
    ensures Find(t, "/").Some? ==> Join(Split(t, "/")[1..], "/") == t[Find(t, "/").value + 1..]
  {
    var f := Find(t, "/");
    if f.Some? {
      var rest := t[f.value + 1..];
      assert Split(t, "/") == [t[..f.value]] + Split(rest, "/");
      assert Split(t, "/")[1..] == Split(rest, "/");
      SplitJoin(rest, "/");
    } else {
      assert Split(t, "/") == [t];
    }
  }

  // ---------------------------------------------------------------------
  // `.replace(/\.[^/.]+$/, '')`

  /** The last position of `c` in `s`. */
  function LastIndexOf(s: string, c: char): (r: Option<nat>)
    ensures r.Some? ==> r.value < |s| && s[r.value] == c && forall k :: r.value < k < |s| ==> s[k] != c
    ensures r.None? ==> forall k :: 0 <= k < |s| ==> s[k] != c
  {
    if s == [] then None
    else if s[|s| - 1] == c then Some(|s| - 1)
    else LastIndexOf(s[..|s| - 1], c)
  }

  /** Removes the extension: the last '.' and what follows it, when that is
      at least one character and holds no '/'. */
  function StripExtension(s: string): string
  {
    match LastIndexOf(s, '.')
    case None => s
    case Some(i) => if i + 1 < |s| && '/' !in s[i + 1..] then s[..i] else s
  }

  /** The regular expression `\.[^/.]+$` matches `s` from position `i`: a
      '.', then one or more characters that are neither '/' nor '.', up to
      the end. */
  predicate ExtensionAt(s: string, i: nat)
  {
    i + 1 < |s| && s[i] == '.' && forall k :: i < k < |s| ==> s[k] != '/' && s[k] != '.'
  }

  /** StripExtension is the regular-expression replacement: the match, when
      there is one, is removed; a string without a match is kept. */
  lemma StripExtensionIsReplace(s: string)
    ensures forall i :: 0 <= i < |s| && ExtensionAt(s, i) ==> StripExtension(s) == s[..i]
    ensures (forall i :: 0 <= i < |s| ==> !ExtensionAt(s, i)) ==> StripExtension(s) == s
  {
    match LastIndexOf(s, '.')
    case None =>
    case Some(i) =>
      if i + 1 < |s| && '/' !in s[i + 1..] {
        forall k | i < k < |s| ensures s[k] != '/' {
          assert s[k] == s[i + 1..][k - i - 1];
        }
        assert ExtensionAt(s, i);
      } else if i + 1 < |s| {
        var k :| 0 <= k < |s[i + 1..]| && s[i + 1..][k] == '/';
        assert s[i + 1 + k] == '/';
      }
  }

  /** One extension is stripped from `stem.ext`. */
  lemma StripExtensionOf(stem: string, ext: string)
    requires ext != "" && '/' !in ext && '.' !in ext
    ensures StripExtension(stem + "." + ext) == stem
  {
    var s := stem + "." + ext;
    assert ExtensionAt(s, |stem|) by {
      forall k | |stem| < k < |s| ensures s[k] != '/' && s[k] != '.' {
        assert s[k] == ext[k - |stem| - 1];
      }
    }
    StripExtensionIsReplace(s);
    assert s[..|stem|] == stem;
  }

  // ---------------------------------------------------------------------

  const UploadMarker: string := "/upload/"

  /** `extractPublicIdFromUrl(url)`. */
  function ExtractPublicIdFromUrl(url: string): Option<string>
  {
    var parts := Split(url, UploadMarker);
    if |parts| == 2 then Some(StripExtension(Join(Split(parts[1], "/")[1..], "/"))) else None
  }

  /** A public id comes back exactly when "/upload/" occurs in the URL and
      not again after its first occurrence. */
  lemma ExtractNeedsOneMarker(url: string)
    ensures Find(url, UploadMarker).None? ==> ExtractPublicIdFromUrl(url).None?
    ensures Find(url, UploadMarker).Some? ==>
              (ExtractPublicIdFromUrl(url).Some? <==>
               Find(url[Find(url, UploadMarker).value + 8..], UploadMarker).None?)
  {
    SplitTwo(url, UploadMarker);
  }

  /** The version segment: when the first "/upload/" is the one after
      `prefix` and no other follows, the split yields `rest`. */
  lemma AfterMarker(prefix: string, rest: string)
    requires Absent(prefix + "/upload", UploadMarker) && Absent(rest, UploadMarker)
    ensures |Split(prefix + UploadMarker + rest, UploadMarker)| == 2
    ensures Split(prefix + UploadMarker + rest, UploadMarker)[1] == rest
  {
    var url := prefix + UploadMarker + rest;
    var head := prefix + "/upload";
    assert url[..|head|] == head;
    assert OccursAt(url, UploadMarker, |prefix|) by {
      assert url[|prefix|..|prefix| + 8] == UploadMarker;
    }
    forall j | 0 <= j < |prefix| ensures !OccursAt(url, UploadMarker, j) {
      assert !OccursAt(head, UploadMarker, j);
      if j + 8 <= |url| {
        assert url[j..j + 8] == head[j..j + 7] + [url[j + 7]];
      }
    }
    assert Find(url, UploadMarker) == Some(|prefix|);
    assert url[|prefix| + 8..] == rest;
    SplitTwo(url, UploadMarker);
  }

  /** The round trip: the id of `prefix/upload/version/id.ext` is `id`. */
  lemma ExtractRoundTrip(prefix: string, version: string, id: string, ext: string)
    requires Absent(prefix + "/upload", UploadMarker)
    requires Absent(version + "/" + id + "." + ext, UploadMarker)
    requires '/' !in version
    requires ext != "" && '/' !in ext && '.' !in ext
    ensures ExtractPublicIdFromUrl(prefix + UploadMarker + version + "/" + id + "." + ext) == Some(id)
  {
    var tail := id + "." + ext;
    var rest := version + "/" + tail;
    var url := prefix + UploadMarker + version + "/" + id + "." + ext;
    assert rest == version + "/" + id + "." + ext;
    assert url == prefix + UploadMarker + rest;
    AfterMarker(prefix, rest);
    assert Split(url, UploadMarker)[1] == rest;
    assert Join(Split(rest, "/")[1..], "/") == tail by {
      DropFirstSegment(rest);
      FindChar(rest, '/');
      assert rest[|version|] == '/';
      assert Find(rest, "/").value == |version|;
      assert rest[|version| + 1..] == tail;
    }
    StripExtensionOf(id, ext);
    assert ExtractPublicIdFromUrl(url) == Some(StripExtension(tail));
  }

  /** When nothing follows the version segment, the id is "". */
  lemma ExtractBareVersion(prefix: string, version: string, rest: string)
    requires Absent(prefix + "/upload", UploadMarker) && Absent(rest, UploadMarker)
    requires '/' !in version && (rest == version || rest == version + "/")
    ensures ExtractPublicIdFromUrl(prefix + UploadMarker + rest) == Some("")
  {
    AfterMarker(prefix, rest);
    DropFirstSegment(rest);
    FindChar(rest, '/');
    if rest == version + "/" {
      assert rest[|version|] == '/';
    }
  }

  /** `deleteFromCloudinary(url, fileType)`: false for a falsy URL (the
      throw is caught), otherwise whether destroying the extracted public id
      answered `result: "ok"`. `destroy` gives that answer's `result`, or
      `None` when the call itself failed. */
  function DeleteFromCloudinary(url: Option<string>, fileType: Option<string>,
                                destroy: (Option<string>, Option<string>) -> Option<string>): (ok: bool)
    ensures Falsy(url) ==> !ok
    ensures ok <==> !Falsy(url) && destroy(ExtractPublicIdFromUrl(url.value), fileType) == Some("ok")
  {
    if Falsy(url) then false
    else destroy(ExtractPublicIdFromUrl(url.value), fileType) == Some("ok")
  }
}
