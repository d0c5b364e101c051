/**
 * Business-case files of a project (backend/routes/projectRoutes.js): the
 * name an upload is stored under, and the list of file records a project
 * keeps after an upload (a legacy single record first moved into the list,
 * existing records normalised, new uploads appended).
 *
 * Paths follow POSIX `path` (separator '/'); a JavaScript string is a
 * sequence of UTF-16 code units, so a character above U+FFFF counts twice
 * where the source matches code units.
 */
module BusinessCases {
  import opened Base
  import opened Text

  // ---- the stored file name ----

  /** `s` without the '/' characters at its end. */
  function StripTrailingSlashes(s: string): (r: string)
    ensures |r| <= |s| && r == s[..|r|]
    ensures r == [] || r[|r| - 1] != '/'
    ensures forall i :: |r| <= i < |s| ==> s[i] == '/'
    decreases |s|
  {
    if s != [] && s[|s| - 1] == '/' then StripTrailingSlashes(s[..|s| - 1]) else s
  }

  /** The last component of a path, as `path.basename` finds it. */
  function LastComponent(path: string): (c: string)
    ensures '/' !in c
  {
    var t := StripTrailingSlashes(path);
    match LastIndexOf(t, '/')
    case None => t
    case Some(i) => t[i + 1..]
  }

  /**
   * `path.extname`: from the last '.' of the last component to its end;
   * empty when there is no '.', when the only '.' that counts opens the
   * component (".profile") or when the component is "..".
   */
  function ExtName(path: string): (ext: string)
    ensures ext == [] || ext[0] == '.'
  {
    var c := LastComponent(path);
    match LastIndexOf(c, '.')
    case None => ""
    case Some(d) => if d == 0 || c == ".." then "" else c[d..]
  }

  /** `path.basename(path, path.extname(path))`: the last component without its extension. */
  function Stem(path: string): string {
    var c := LastComponent(path);
    var ext := ExtName(path);
    if ext == "" then c else c[..|c| - |ext|]
  }

  /** A character the pattern `/[^a-z0-9_\-\.]/gi` leaves alone. */
  predicate IsSafeChar(c: char) {
    ('a' <= c <= 'z') || ('A' <= c <= 'Z') || ('0' <= c <= '9') || c == '_' || c == '-' || c == '.'
  }

  /** The replacement of one character: '_' per UTF-16 code unit of an unsafe one. */
  function SanitizeChar(c: char): string {
    if IsSafeChar(c) then [c] else if (c as int) > 0xFFFF then "__" else "_"
  }

  /** `.replace(/[^a-z0-9_\-\.]/gi, "_")`. */
  function Sanitize(s: string): string
    decreases |s|
  {
    if s == [] then [] else Sanitize(s[..|s| - 1]) + SanitizeChar(s[|s| - 1])
  }

  /** The storage callback's file name: the sanitised stem, "_", the upload time in milliseconds, the extension. */
  function StoredFileName(originalName: string, timestamp: nat): string {
    Sanitize(Stem(originalName)) + "_" + NatToString(timestamp) + ExtName(originalName)
  }

  predicate AllSafe(s: string) {
    forall i :: 0 <= i < |s| ==> IsSafeChar(s[i])
  }

  /** The stem and the extension make up the last component again. */
  lemma StemAndExtension(path: string)
    ensures Stem(path) + ExtName(path) == LastComponent(path)
  {
    var c := LastComponent(path);
    match LastIndexOf(c, '.')
    case None =>
    case Some(d) =>
      if d != 0 && c != ".." {
        assert c == c[..d] + c[d..];
      }
  }

  /** The extension starts at the last '.' of the component, which is not its first character. */
  lemma ExtensionIsLastDot(path: string)
    requires ExtName(path) != ""
    ensures var c := LastComponent(path);
      |ExtName(path)| < |c| && c[|c| - |ExtName(path)|] == '.'
      && '.' !in ExtName(path)[1..]
  {
    var c := LastComponent(path);
    var d := LastIndexOf(c, '.').value;
    assert forall k :: 0 <= k < |c[d..]| - 1 ==> c[d..][1..][k] == c[d + 1 + k];
  }

  /** Sanitising leaves only safe characters, and changes exactly the strings that hold an unsafe one. */
  lemma {:induction false} SanitizeSafe(s: string)
    ensures AllSafe(Sanitize(s))
    ensures Sanitize(s) == s <==> AllSafe(s)
    ensures |Sanitize(s)| >= |s|
    decreases |s|
  {
    if s != [] {
      var front := s[..|s| - 1];
      var last := s[|s| - 1];
      SanitizeSafe(front);
      assert s == front + [last];
      if AllSafe(s) {
        assert AllSafe(front);
      }
      if Sanitize(s) == s {
        assert Sanitize(front) == front by {
          assert |Sanitize(front)| == |front|;
          assert Sanitize(s)[..|front|] == Sanitize(front);
        }
      }
    }
  }

  /** Sanitising twice is sanitising once. */
  lemma SanitizeIdempotent(s: string)
    ensures Sanitize(Sanitize(s)) == Sanitize(s)
  {
    SanitizeSafe(s);
    SanitizeSafe(Sanitize(s));
  }

  /** A stored name never holds a '/', so the file stays in the upload directory. */
  lemma StoredFileNameHasNoSeparator(originalName: string, timestamp: nat)
    ensures '/' !in StoredFileName(originalName, timestamp)
  {
    SanitizeSafe(Stem(originalName));
    var s := Sanitize(Stem(originalName));
    var t := NatToString(timestamp);
    var e := ExtName(originalName);
    StemAndExtension(originalName);
    assert forall k :: 0 <= k < |e| ==> e[k] == LastComponent(originalName)[|Stem(originalName)| + k];
    assert forall k :: 0 <= k < |t| ==> IsDigit(t[k]);
    assert '/' !in s;
  }

  /** The stored name ends with the original extension, unsanitised, after the timestamp. */
  lemma StoredFileNameParts(originalName: string, timestamp: nat)
    ensures var name := StoredFileName(originalName, timestamp);
      var e := ExtName(originalName);
      |name| >= |e| && name[|name| - |e|..] == e
      && AllSafe(name[..|Sanitize(Stem(originalName))|])
  {
    SanitizeSafe(Stem(originalName));
  }

  /** Two uploads of one file at different times get different names. */
  lemma StoredFileNamesDiffer(originalName: string, t1: nat, t2: nat)
    requires t1 != t2
    ensures StoredFileName(originalName, t1) != StoredFileName(originalName, t2)
  {
    var p := Sanitize(Stem(originalName)) + "_";
    var e := ExtName(originalName);
    var n1, n2 := NatToString(t1), NatToString(t2);
    if StoredFileName(originalName, t1) == StoredFileName(originalName, t2) {
      assert p + n1 + e == p + n2 + e;
      assert |n1| == |n2|;
      assert n1 == (p + n1 + e)[|p|..|p| + |n1|];
      assert n2 == (p + n2 + e)[|p|..|p| + |n2|];
      NatToStringValue(t1);
      NatToStringValue(t2);
      assert false;
    }
  }

  /** A worked case: a space becomes '_' and the extension is kept. */
  lemma StoredFileNameExample()
    ensures StoredFileName("plan v2.pdf", 17) == "plan_v2_17.pdf"
  {
    ExampleComponents();
    ExampleSanitized();
    assert NatToString(17) == "17" by {
      assert NatToString(1) == "1";
    }
    ExampleJoined();
  }

  lemma ExampleJoined()
    ensures "plan_v2" + "_" + "17" + ".pdf" == "plan_v2_17.pdf"
  {
    var a := "plan_v2" + "_";
    assert a == "plan_v2_";
    var b := a + "17";
    assert b == "plan_v2_17";
  }

  lemma ExampleComponents()
    ensures ExtName("plan v2.pdf") == ".pdf" && Stem("plan v2.pdf") == "plan v2"
  {
    var name := "plan v2.pdf";
    assert StripTrailingSlashes(name) == name;
    assert LastIndexOf(name, '/') == None;
    assert LastComponent(name) == name;
    ExampleLastDot();
  }

  lemma ExampleLastDot()
    ensures LastIndexOf("plan v2.pdf", '.') == Some(7)
  {
    assert LastIndexOf("plan v2.", '.') == Some(7);
    assert "plan v2.p"[..8] == "plan v2.";
    assert LastIndexOf("plan v2.p", '.') == Some(7);
    assert "plan v2.pd"[..9] == "plan v2.p";
    assert LastIndexOf("plan v2.pd", '.') == Some(7);
    assert "plan v2.pdf"[..10] == "plan v2.pd";
  }

  lemma ExampleSanitized()
    ensures Sanitize("plan v2") == "plan_v2"
  {
    assert "p"[..0] == "";
    assert Sanitize("p") == "p";
    assert "pl"[..1] == "p";
    assert Sanitize("pl") == "pl";
    assert "pla"[..2] == "pl";
    assert Sanitize("pla") == "pla";
    assert "plan"[..3] == "pla";
    assert Sanitize("plan") == "plan";
    assert "plan "[..4] == "plan";
    assert Sanitize("plan ") == "plan_";
    assert "plan v"[..5] == "plan ";
    assert Sanitize("plan v") == "plan_v";
    assert "plan v2"[..6] == "plan v";
  }

  // ---- the records ----

  /** One business-case record; `uploadedAt` is a time in milliseconds or absent. */
  datatype BusinessCase = BusinessCase(
    fileName: string,
    originalName: string,
    filePath: string,
    fileType: string,
    fileSize: nat,
    uploadedAt: Option<int>)

  /** One file as the upload middleware hands it over: stored name, original name, path, type, size. */
  datatype UploadedFile = UploadedFile(filename: string, originalname: string, path: string, mimetype: string, size: nat)

  /** The record kept for an existing entry: `originalName || fileName`, `uploadedAt || new Date()`. */
  function NormalizeCase(c: BusinessCase, now: int): (r: BusinessCase)
    ensures r.fileName == c.fileName && r.filePath == c.filePath
    ensures r.fileType == c.fileType && r.fileSize == c.fileSize
    ensures r.uploadedAt.Some?
  {
    c.(originalName := if c.originalName != "" then c.originalName else c.fileName,
       uploadedAt := if c.uploadedAt.Some? then c.uploadedAt else Some(now))
  }

  /** `s.replace(/\\/g, "/")`. */
  function ForwardSlashes(s: string): (r: string)
    ensures |r| == |s| && '\\' !in r
    ensures forall i :: 0 <= i < |s| ==> r[i] == (if s[i] == '\\' then '/' else s[i])
  {
    seq(|s|, i requires 0 <= i < |s| => if s[i] == '\\' then '/' else s[i])
  }

  /** The record of a new upload. */
  function NewCase(f: UploadedFile, now: int): BusinessCase {
    BusinessCase(f.filename, f.originalname, ForwardSlashes(f.path), f.mimetype, f.size, Some(now))
  }

  /** The list after moving a legacy single record (one with a file name) to its end. */
  function Migrated(cases: seq<BusinessCase>, legacy: Option<BusinessCase>, now: int): seq<BusinessCase> {
    if legacy.Some? && legacy.value.fileName != "" then cases + [NormalizeCase(legacy.value, now)] else cases
  }

  /** The list after an upload: every existing record normalised, in order, then the new records, in order. */
  function MergedCases(cases: seq<BusinessCase>, files: seq<UploadedFile>, now: int): (r: seq<BusinessCase>)
    ensures |r| == |cases| + |files|
  {
    seq(|cases|, i requires 0 <= i < |cases| => NormalizeCase(cases[i], now))
      + seq(|files|, i requires 0 <= i < |files| => NewCase(files[i], now))
  }

  function FileNames(cases: seq<BusinessCase>): (r: seq<string>)
    ensures |r| == |cases| && forall i :: 0 <= i < |cases| ==> r[i] == cases[i].fileName
  {
    seq(|cases|, i requires 0 <= i < |cases| => cases[i].fileName)
  }

  function UploadedNames(files: seq<UploadedFile>): (r: seq<string>)
    ensures |r| == |files| && forall i :: 0 <= i < |files| ==> r[i] == files[i].filename
  {
    seq(|files|, i requires 0 <= i < |files| => files[i].filename)
  }

  /** Normalising twice is normalising once, whatever the times. */
  lemma NormalizeCaseIdempotent(c: BusinessCase, now1: int, now2: int)
    ensures NormalizeCase(NormalizeCase(c, now1), now2) == NormalizeCase(c, now1)
  {
  }

  /** A record that names its file keeps an original name after normalising. */
  lemma NormalizeCaseNamesOriginal(c: BusinessCase, now: int)
    requires c.fileName != "" || c.originalName != ""
    ensures NormalizeCase(c, now).originalName != ""
    ensures c.originalName != "" ==> NormalizeCase(c, now).originalName == c.originalName
    ensures c.uploadedAt.Some? ==> NormalizeCase(c, now).uploadedAt == c.uploadedAt
  {
  }

  /** The merged list is the existing records (same files, in order) followed by the uploads (in order). */
  lemma MergedCasesShape(cases: seq<BusinessCase>, files: seq<UploadedFile>, now: int)
    ensures FileNames(MergedCases(cases, files, now)) == FileNames(cases) + UploadedNames(files)
    ensures forall i :: 0 <= i < |cases| ==> MergedCases(cases, files, now)[i] == NormalizeCase(cases[i], now)
    ensures forall i :: 0 <= i < |files| ==> MergedCases(cases, files, now)[|cases| + i] == NewCase(files[i], now)
  {
    var r := MergedCases(cases, files, now);
    assert forall i :: 0 <= i < |files| ==> r[|cases| + i] == NewCase(files[i], now);
  }

  /** Stored paths use '/' only. */
  lemma MergedPathsUseForwardSlashes(cases: seq<BusinessCase>, files: seq<UploadedFile>, now: int)
    requires forall c :: c in cases ==> '\\' !in c.filePath
    ensures forall c :: c in MergedCases(cases, files, now) ==> '\\' !in c.filePath
  {
    var r := MergedCases(cases, files, now);
    forall c | c in r
      ensures '\\' !in c.filePath
    {
      var i :| 0 <= i < |r| && r[i] == c;
      if i < |cases| {
        assert c.filePath == cases[i].filePath && cases[i] in cases;
      }
    }
  }

  /**
   * A second upload keeps the records of the first and appends its own,
   * provided the first upload's files had original names (an unnamed one
   * would take its stored name on the next merge).
   */
  lemma UploadTwice(cases: seq<BusinessCase>, files1: seq<UploadedFile>, files2: seq<UploadedFile>, now1: int, now2: int)
    requires forall f :: f in files1 ==> f.originalname != ""
    ensures var first := MergedCases(cases, files1, now1);
      MergedCases(first, files2, now2) == first + MergedCases([], files2, now2)
  {
    var first := MergedCases(cases, files1, now1);
    var second := MergedCases(first, files2, now2);
    forall i | 0 <= i < |first|
      ensures second[i] == first[i]
    {
      if i < |cases| {
        NormalizeCaseIdempotent(cases[i], now1, now2);
      } else {
        assert files1[i - |cases|] in files1;
      }
    }
    assert second == first + MergedCases([], files2, now2);
  }
}
