/** The multer configuration of the profile-picture upload: where a file is
    stored and under which name, which files the filter lets through, and the
    size limit; and what the error handler then answers. */
module UploadConfig {
  import opened JsBase
  import opened ErrorHandler

  /** 5 MiB in bytes. */
  const MaxFileSize := 5 * 1024 * 1024

  const RejectMessage := "Only images (JPG, JPEG, PNG, GIF, WebP) are allowed!"

  /** The text of the filter's error. As written it is not the text the error
      handler tests for, `OnlyImageFiles`, the text of an earlier filter;
      `corrected` selects the handler's text instead. */
  function RejectText(corrected: bool): (r: string)
    ensures r == OnlyImageFiles <==> corrected
  {
    assert |RejectMessage| != |OnlyImageFiles|;
    if corrected then OnlyImageFiles else RejectMessage
  }

  // ---------------------------------------------------------------------------
  // `path.extname` (POSIX)

  /** The path without its trailing slashes. */
  function StripTrailingSlashes(p: string): (r: string)
    ensures |r| <= |p| && r == p[..|r|]
    ensures r == [] || r[|r| - 1] != '/'
  {
    if p != [] && p[|p| - 1] == '/' then StripTrailingSlashes(p[..|p| - 1]) else p
  }

  /** The part of `s` after its last slash. */
  function LastSegment(s: string): (r: string)
    ensures |r| <= |s| && r == s[|s| - |r|..]
  {
    if s == [] || s[|s| - 1] == '/' then [] else LastSegment(s[..|s| - 1]) + [s[|s| - 1]]
  }

  lemma {:induction false} LastSegmentHasNoSlash(s: string)
    ensures '/' !in LastSegment(s)
    decreases |s|
  {
    if s != [] && s[|s| - 1] != '/' {
      LastSegmentHasNoSlash(s[..|s| - 1]);
    }
  }

  /** The last path segment, ignoring trailing slashes. */
  function BaseName(p: string): string
  {
    LastSegment(StripTrailingSlashes(p))
  }

  /** The index of the last dot. */
  function LastDot(s: string): (r: Option<nat>)
    ensures r.Some? ==> r.value < |s| && s[r.value] == '.'
  {
    if s == [] then None
    else if s[|s| - 1] == '.' then Some(|s| - 1)
    else LastDot(s[..|s| - 1])
  }

  /** No dot follows the one `LastDot` finds, and `None` means no dot at all. */
  lemma {:induction false} LastDotIsLast(s: string)
    ensures LastDot(s).Some? ==> '.' !in s[LastDot(s).value + 1..]
    ensures LastDot(s).None? ==> '.' !in s
    decreases |s|
  {
    if s != [] && s[|s| - 1] != '.' {
      var init := s[..|s| - 1];
      LastDotIsLast(init);
      assert s == init + [s[|s| - 1]];
      if LastDot(init).Some? {
        var d := LastDot(init).value;
        assert s[d + 1..] == init[d + 1..] + [s[|s| - 1]];
      }
    }
  }

  /** `path.extname`: the base name from its last dot on; empty when there is
      no dot, when the only dot found is the first character (".png") and for
      "..". The case of the letters is kept. */
  function ExtName(p: string): (r: string)
    ensures r == [] || r[0] == '.'
  {
    var b := BaseName(p);
    match LastDot(b)
    case None => ""
    case Some(d) => if d == 0 || b == ".." then "" else b[d..]
  }

  /** An extension is a dot followed by neither a dot nor a slash. */
  lemma ExtNameShape(p: string)
    ensures var r := ExtName(p); r == [] || (r[0] == '.' && '.' !in r[1..] && '/' !in r)
  {
    var b := BaseName(p);
    LastSegmentHasNoSlash(StripTrailingSlashes(p));
    LastDotIsLast(b);
    if LastDot(b).Some? {
      var d := LastDot(b).value;
      if d != 0 && b != ".." {
        assert ExtName(p) == b[d..];
        assert ExtName(p)[1..] == b[d + 1..];
      }
    }
  }

  /** A non-empty extension is a suffix of the name once trailing slashes are
      dropped. */
  lemma ExtNameIsSuffix(p: string)
    requires p == [] || p[|p| - 1] != '/'
    ensures |ExtName(p)| <= |p| && ExtName(p) == p[|p| - |ExtName(p)|..]
  {
    assert StripTrailingSlashes(p) == p;
    var b := LastSegment(p);
    assert BaseName(p) == b;
    assert b == p[|p| - |b|..];
    match LastDot(b)
    case None =>
    case Some(d) =>
      if d != 0 && b != ".." {
        assert ExtName(p) == b[d..];
        assert b[d..] == p[|p| - |b| + d..];
      }
  }

  lemma {:induction false} NoSlashSegment(s: string)
    requires '/' !in s
    ensures LastSegment(s) == s
    decreases |s|
  {
    if s != [] {
      NoSlashSegment(s[..|s| - 1]);
    }
  }

  /** A name without slashes is its own base name. */
  lemma NoSlashBaseName(s: string)
    requires '/' !in s
    ensures BaseName(s) == s
  {
    NoSlashSegment(s);
  }

  lemma {:induction false} LastDotAt(a: string, b: string)
    requires '.' !in b
    ensures LastDot(a + "." + b) == Some(|a|)
    decreases |b|
  {
    var s := a + "." + b;
    if b != [] {
      var b' := b[..|b| - 1];
      assert s[..|s| - 1] == a + "." + b';
      LastDotAt(a, b');
    }
  }

  /** A plain file name "a.b" whose "b" has no dot has the extension ".b";
      a name whose only dot comes first has none. */
  lemma ExtNameOfPlainName(s: string, a: string, b: string)
    requires s == a + "." + b && '/' !in s && '.' !in b && s != ".."
    ensures a != [] ==> ExtName(s) == "." + b
    ensures a == [] ==> ExtName(s) == ""
  {
    NoSlashBaseName(s);
    LastDotAt(a, b);
    assert s[|a|..] == "." + b;
  }

  lemma ExtOfPhoto()
    ensures ExtName("photo.PNG") == ".PNG"
  {
    ExtNameOfPlainName("photo.PNG", "photo", "PNG");
    assert "." + "PNG" == ".PNG";
  }

  /** Only the last dot counts. */
  lemma ExtOfDoubleExtension()
    ensures ExtName("archive.tar.gz") == ".gz"
  {
    ExtNameOfPlainName("archive.tar.gz", "archive.tar", "gz");
    assert "." + "gz" == ".gz";
  }

  /** A dot-file has no extension. */
  lemma ExtOfDotFile()
    ensures ExtName(".png") == ""
  {
    ExtNameOfPlainName(".png", "", "png");
  }

  lemma {:induction false} LastSegmentAfterSlash(a: string, b: string)
    requires '/' !in b
    ensures LastSegment(a + "/" + b) == b
    decreases |b|
  {
    var s := a + "/" + b;
    if b == [] {
      assert s[|s| - 1] == '/';
    } else {
      var b' := b[..|b| - 1];
      assert s[..|s| - 1] == a + "/" + b';
      LastSegmentAfterSlash(a, b');
    }
  }

  /** Trailing slashes are ignored and only the last segment counts. */
  lemma ExtNameOfDirectoryPath()
    ensures ExtName("shots.d/cat/") == ""
  {
    assert StripTrailingSlashes("shots.d/cat/") == "shots.d/cat";
    LastSegmentAfterSlash("shots.d", "cat");
    assert "shots.d" + "/" + "cat" == "shots.d/cat";
    assert BaseName("shots.d/cat/") == "cat";
  }

  // ---------------------------------------------------------------------------
  // The file filter

  /** `/jpeg|jpg|png|gif|webp/.test(s)`: unanchored and case-sensitive. */
  predicate AllowedType(s: string)
  {
    Contains(s, "jpeg") || Contains(s, "jpg") || Contains(s, "png") || Contains(s, "gif") || Contains(s, "webp")
  }

  datatype Verdict = Accept | Reject(message: string)

  /** `fileFilter`: the extension is lower-cased before the test, the MIME
      type is not. */
  function FileFilter(originalname: string, mimetype: string, corrected: bool): (r: Verdict)
    ensures r.Accept? <==> AllowedType(AsciiLower(ExtName(originalname))) && AllowedType(mimetype)
    ensures r.Reject? ==> r.message == RejectText(corrected)
  {
    if AllowedType(AsciiLower(ExtName(originalname))) && AllowedType(mimetype) then Accept
    else Reject(RejectText(corrected))
  }

  /** A string without lower-case ASCII letters matches none of the allowed
      types. */
  lemma {:induction false} NoLowerCaseNotAllowed(s: string)
    requires forall i :: 0 <= i < |s| ==> !('a' <= s[i] <= 'z')
    ensures !AllowedType(s)
  {
    MissingFirstCharNotContained(s, "jpeg");
    MissingFirstCharNotContained(s, "jpg");
    MissingFirstCharNotContained(s, "png");
    MissingFirstCharNotContained(s, "gif");
    MissingFirstCharNotContained(s, "webp");
  }

  /** A MIME type written in capitals, such as "IMAGE/PNG", is refused whatever
      the file is called. */
  lemma UpperCaseMimeRejected(originalname: string, mimetype: string, corrected: bool)
    requires forall i :: 0 <= i < |mimetype| ==> !('a' <= mimetype[i] <= 'z')
    ensures FileFilter(originalname, mimetype, corrected) == Reject(RejectText(corrected))
  {
    NoLowerCaseNotAllowed(mimetype);
  }

  /** A name without an extension, a dot-file such as ".png" included, is
      refused whatever its MIME type. */
  lemma NoExtensionRejected(originalname: string, mimetype: string, corrected: bool)
    requires ExtName(originalname) == ""
    ensures FileFilter(originalname, mimetype, corrected) == Reject(RejectText(corrected))
  {
    NoLowerCaseNotAllowed(AsciiLower(""));
  }

  lemma ContainsAt(s: string, p: string, i: int)
    requires OccursAt(s, p, i)
    ensures Contains(s, p)
  {
    ContainsIff(s, p);
  }

  lemma FilterAccepts(originalname: string, mimetype: string, ext: string, corrected: bool)
    requires ExtName(originalname) == ext
    requires AllowedType(AsciiLower(ext)) && AllowedType(mimetype)
    ensures FileFilter(originalname, mimetype, corrected) == Accept
  {
  }

  lemma UpperPngAllowedOnceLowered()
    ensures AllowedType(AsciiLower(".PNG"))
  {
    assert AsciiLower(".PNG") == ".png";
    ContainsAt(".png", "png", 1);
  }

  lemma ImagePngAllowed()
    ensures AllowedType("image/png")
  {
    ContainsAt("image/png", "png", 6);
  }

  /** The extension's case does not matter. */
  lemma ExtensionCaseIgnored(corrected: bool)
    ensures FileFilter("photo.PNG", "image/png", corrected) == Accept
  {
    ExtOfPhoto();
    UpperPngAllowedOnceLowered();
    ImagePngAllowed();
    FilterAccepts("photo.PNG", "image/png", ".PNG", corrected);
  }

  lemma PngxAllowed()
    ensures AllowedType(AsciiLower(".pngx"))
  {
    assert AsciiLower(".pngx") == ".pngx";
    ContainsAt(".pngx", "png", 1);
  }

  lemma PngNotesAllowed()
    ensures AllowedType("text/png-notes")
  {
    ContainsAt("text/png-notes", "png", 5);
  }

  lemma ExtOfNotes()
    ensures ExtName("notes.pngx") == ".pngx"
  {
    ExtNameOfPlainName("notes.pngx", "notes", "pngx");
    assert "." + "pngx" == ".pngx";
  }

  /** Both tests are substring searches: a ".pngx" file of type
      "text/png-notes" passes. */
  lemma MatchIsUnanchored(corrected: bool)
    ensures FileFilter("notes.pngx", "text/png-notes", corrected) == Accept
  {
    ExtOfNotes();
    PngxAllowed();
    PngNotesAllowed();
    FilterAccepts("notes.pngx", "text/png-notes", ".pngx", corrected);
  }

  // ---------------------------------------------------------------------------
  // The stored file's name

  /** `req.user?.id || "unknown"`, rendered into the template string. */
  function UserPart(userId: Option<Id>): (r: string)
    ensures !TruthyOpt(userId) ==> r == "unknown"
  {
    if TruthyOpt(userId) then ToString(userId.value) else "unknown"
  }

  /** The `filename` callback; `now` is `Date.now()`. */
  function Filename(userId: Option<Id>, now: nat, originalname: string): (r: string)
    ensures StartsWith(r, "profile_")
  {
    var r := "profile_" + (UserPart(userId) + ("_" + (NatToDecimal(now) + ExtName(originalname))));
    assert r[..8] == "profile_";
    r
  }

  lemma EndsWithAfterPrefix(x: string, y: string, e: string)
    requires |e| <= |y| && y[|y| - |e|..] == e
    ensures (x + y)[|x + y| - |e|..] == e
  {
    assert (x + y)[|x + y| - |e|..] == y[|y| - |e|..];
  }

  lemma NameEndsWithExt(user: string, stamp: string, ext: string)
    ensures var r := "profile_" + (user + ("_" + (stamp + ext)));
      |ext| <= |r| && r[|r| - |ext|..] == ext
  {
    EndsWithAfterPrefix(stamp, ext, ext);
    EndsWithAfterPrefix("_", stamp + ext, ext);
    EndsWithAfterPrefix(user, "_" + (stamp + ext), ext);
    EndsWithAfterPrefix("profile_", user + ("_" + (stamp + ext)), ext);
  }

  /** The stored name ends with the original extension, case and all. */
  lemma FilenameKeepsExtension(userId: Option<Id>, now: nat, originalname: string)
    ensures var r := Filename(userId, now, originalname); var ext := ExtName(originalname);
      |ext| <= |r| && r[|r| - |ext|..] == ext
  {
    var user, stamp, ext := UserPart(userId), NatToDecimal(now), ExtName(originalname);
    NameEndsWithExt(user, stamp, ext);
    assert Filename(userId, now, originalname) == "profile_" + (user + ("_" + (stamp + ext)));
  }

  /** Two strings of digits followed by something that does not start with a
      digit split the same way. */
  lemma {:induction false} DigitsSplitUniquely(a1: string, b1: string, a2: string, b2: string)
    requires IsDigits(a1) && IsDigits(a2)
    requires b1 == [] || !('0' <= b1[0] <= '9')
    requires b2 == [] || !('0' <= b2[0] <= '9')
    requires a1 + b1 == a2 + b2
    ensures a1 == a2 && b1 == b2
  {
    var s := a1 + b1;
    assert forall i :: 0 <= i < |a1| ==> '0' <= s[i] <= '9';
    assert forall i :: 0 <= i < |a2| ==> '0' <= s[i] <= '9';
    assert |a1| < |s| ==> !('0' <= s[|a1|] <= '9');
    assert |a2| < |s| ==> !('0' <= s[|a2|] <= '9');
    assert |a1| == |a2|;
    assert a1 == s[..|a1|] && b1 == s[|a1|..];
    assert a2 == (a2 + b2)[..|a2|] && b2 == (a2 + b2)[|a2|..];
  }

  lemma FilenameOfUser(u: nat, t: nat, n: string)
    requires u > 0
    ensures Filename(Some(Num(u)), t, n) == "profile_" + (NatToDecimal(u) + ("_" + (NatToDecimal(t) + ExtName(n))))
  {
    assert UserPart(Some(Num(u))) == NatToDecimal(u);
  }

  /** Stored names of signed-in users with positive numeric ids never collide
      unless the user, the millisecond and the extension are all the same. */
  lemma FilenameInjective(u1: nat, t1: nat, n1: string, u2: nat, t2: nat, n2: string)
    requires u1 > 0 && u2 > 0
    requires Filename(Some(Num(u1)), t1, n1) == Filename(Some(Num(u2)), t2, n2)
    ensures u1 == u2 && t1 == t2 && ExtName(n1) == ExtName(n2)
  {
    var d1, d2 := NatToDecimal(u1), NatToDecimal(u2);
    var s1, s2 := NatToDecimal(t1), NatToDecimal(t2);
    var e1, e2 := ExtName(n1), ExtName(n2);
    var tail1, tail2 := "_" + (s1 + e1), "_" + (s2 + e2);
    FilenameOfUser(u1, t1, n1);
    FilenameOfUser(u2, t2, n2);
    var x := Filename(Some(Num(u1)), t1, n1);
    assert d1 + tail1 == x[8..];
    assert d2 + tail2 == x[8..];
    DigitsSplitUniquely(d1, tail1, d2, tail2);
    NatToDecimalInjective(u1, u2);
    assert s1 + e1 == tail1[1..];
    assert s2 + e2 == tail2[1..];
    DigitsSplitUniquely(s1, e1, s2, e2);
    NatToDecimalInjective(t1, t2);
  }

  /** Without a user, or with the falsy id 0, the name says "unknown", so two
      such uploads in the same millisecond with the same extension get the
      same name. */
  lemma UnknownUserNames(now: nat, n1: string, n2: string)
    requires ExtName(n1) == ExtName(n2)
    ensures Filename(None, now, n1) == Filename(Some(Num(0)), now, n2)
  {
    assert UserPart(None) == UserPart(Some(Num(0)));
  }

  // ---------------------------------------------------------------------------
  // One upload through multer and the error handler

  /** A file as multer sees it: the client's name, the MIME type and the size
      in bytes. */
  datatype Incoming = Incoming(originalname: string, mimetype: string, size: nat)

  datatype Outcome = Stored(dir: string, filename: string) | Failed(error: Failure)

  /** The configured upload of one file into `uploadDir`. The filter runs
      before the file is read; the size limit then aborts a file longer than
      the limit with multer's `LIMIT_FILE_SIZE` error. */
  function Process(uploadDir: string, userId: Option<Id>, now: nat, f: Incoming, corrected: bool): (r: Outcome)
    ensures r.Stored? <==> FileFilter(f.originalname, f.mimetype, corrected).Accept? && f.size <= MaxFileSize
    ensures r.Stored? ==> r.dir == uploadDir && r.filename == Filename(userId, now, f.originalname)
    ensures FileFilter(f.originalname, f.mimetype, corrected).Reject? ==>
      r == Failed(PlainError(Some(RejectText(corrected))))
    ensures FileFilter(f.originalname, f.mimetype, corrected).Accept? && f.size > MaxFileSize ==>
      r.Failed? && r.error.MulterError? && r.error.code == LimitFileSize
  {
    match FileFilter(f.originalname, f.mimetype, corrected)
    case Reject(m) => Failed(PlainError(Some(m)))
    case Accept =>
      if f.size > MaxFileSize then Failed(MulterError(LimitFileSize, "File too large"))
      else Stored(uploadDir, Filename(userId, now, f.originalname))
  }

  /** As written, the filter's rejection text is not the text the error
      handler looks for, so a refused file is answered with a 500 and the
      generic message. */
  lemma FilterRejectionIsServerError(originalname: string, mimetype: string)
    requires FileFilter(originalname, mimetype, false).Reject?
    ensures Classify(PlainError(Some(FileFilter(originalname, mimetype, false).message))) ==
      Response(500, false, SomethingWrong)
  {
    assert RejectText(false) != OnlyImageFiles;
  }

  /** With the handler's text, a refused file is answered with a 400 and that
      text. */
  lemma CorrectedRejectionIsClientError(originalname: string, mimetype: string)
    requires FileFilter(originalname, mimetype, true).Reject?
    ensures Classify(PlainError(Some(FileFilter(originalname, mimetype, true).message))) ==
      Response(400, false, OnlyImageFiles)
  {
    assert RejectText(true) == OnlyImageFiles;
  }

  /** Every failed upload of a file is answered: 400 for an image over the
      limit; for a file the filter refuses, 500 as written and 400 with the
      handler's text. */
  lemma FailedUploadResponses(uploadDir: string, userId: Option<Id>, now: nat, f: Incoming, corrected: bool)
    requires Process(uploadDir, userId, now, f, corrected).Failed?
    ensures var resp := Classify(Process(uploadDir, userId, now, f, corrected).error);
      && (FileFilter(f.originalname, f.mimetype, corrected).Accept? ==> resp == Response(400, false, FileTooLarge))
      && (FileFilter(f.originalname, f.mimetype, corrected).Reject? ==>
            resp == if corrected then Response(400, false, OnlyImageFiles) else Response(500, false, SomethingWrong))
  {
    if FileFilter(f.originalname, f.mimetype, corrected).Reject? {
      if corrected {
        CorrectedRejectionIsClientError(f.originalname, f.mimetype);
      } else {
        FilterRejectionIsServerError(f.originalname, f.mimetype);
      }
    }
  }

  /** A file of exactly the limit is stored; one byte more is not. */
  lemma SizeLimitInclusive(uploadDir: string, userId: Option<Id>, now: nat, corrected: bool)
    ensures Process(uploadDir, userId, now, Incoming("photo.PNG", "image/png", MaxFileSize), corrected).Stored?
    ensures Process(uploadDir, userId, now, Incoming("photo.PNG", "image/png", MaxFileSize + 1), corrected).Failed?
  {
    ExtensionCaseIgnored(corrected);
  }
}
